/** Column names are compared ignoring the case of their letters. */
module Names {

  function UpperChar(c: char): char {
    if 'a' <= c <= 'z' then ((c as int) - 32) as char else c
  }

  function Upper(s: string): (r: string)
    ensures |r| == |s| && forall i | 0 <= i < |s| :: r[i] == UpperChar(s[i])
  {
    seq(|s|, i requires 0 <= i < |s| => UpperChar(s[i]))
  }

  /** Two characters are the same in upper case exactly if they are the same or one is the lower case of the other. */
  lemma SameUpper(a: char, b: char)
    ensures UpperChar(a) == UpperChar(b)
            <==> || a == b
                 || ('a' <= a <= 'z' && b as int == a as int - 'a' as int + 'A' as int)
                 || ('a' <= b <= 'z' && a as int == b as int - 'a' as int + 'A' as int)
    ensures 'A' <= a <= 'Z' ==> UpperChar(a) == a
  {
  }
}
