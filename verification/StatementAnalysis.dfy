/** The analysis of an update or delete: read the keys its where clause selects, and append them to the
    statement, as text and as what a parser reads. */
module StatementAnalysis {
  import opened Names
  import opened Wrappers
  import opened WhereSplice
  import Text = Placeholders

  datatype JdbcType = VARCHAR | NVARCHAR | CHAR | INTEGER | SMALLINT | TINYINT | BIGINT | OtherType

  /** Keys of every type that is not an integer are put between quotes, as they are. */
  predicate QuotesKeys(t: JdbcType) {
    !(t.INTEGER? || t.SMALLINT? || t.TINYINT? || t.BIGINT?)
  }

  const SEPARATOR: string := " , "

  function KeyText(t: JdbcType, key: Key): string {
    if QuotesKeys(t) then "'" + key + "'" else key
  }

  function KeyList(t: JdbcType, keys: seq<Key>): string {
    if keys == [] then ""
    else if |keys| == 1 then KeyText(t, keys[0])
    else KeyText(t, keys[0]) + SEPARATOR + KeyList(t, keys[1..])
  }

  function Spliced(sql: string, select: string, t: JdbcType, keys: seq<Key>): string {
    sql + " and " + select + " in ( " + KeyList(t, keys) + ")"
  }

  lemma Regroup(a: string, b: string, c: string, d: string)
    ensures a + b + c + d == a + (b + c + d)
  {
  }

  lemma KeyListFrom(t: JdbcType, keys: seq<Key>, i: nat)
    requires i < |keys|
    ensures KeyList(t, keys[i..]) == if i + 1 == |keys| then KeyText(t, keys[i])
                                     else KeyText(t, keys[i]) + SEPARATOR + KeyList(t, keys[i + 1..])
  {
    assert keys[i..][1..] == keys[i + 1..];
  }

  /** Appending a key and its separator to `r` brings the rest of the list one key nearer. */
  lemma AppendKey(t: JdbcType, keys: seq<Key>, i: nat, r: string)
    requires i < |keys|
    ensures QuotesKeys(t) ==> r + "'" + keys[i] + "'" == r + KeyText(t, keys[i])
    ensures r + KeyList(t, keys[i..]) == if i + 1 == |keys| then r + KeyText(t, keys[i])
                                         else r + KeyText(t, keys[i]) + SEPARATOR + KeyList(t, keys[i + 1..])
  {
    Regroup(r, "'", keys[i], "'");
    KeyListFrom(t, keys, i);
    if i + 1 < |keys| {
      Regroup(r, KeyText(t, keys[i]), SEPARATOR, KeyList(t, keys[i + 1..]));
    }
  }

  /** How keys of each type appear: between quotes unless the type is one of the four integers. */
  lemma KeyTexts(key: Key)
    ensures forall t | t in {VARCHAR, NVARCHAR, CHAR, OtherType} :: KeyText(t, key) == "'" + key + "'"
    ensures forall t | t in {INTEGER, SMALLINT, TINYINT, BIGINT} :: KeyText(t, key) == key
  {
  }

  /** The appended text, for one and for two keys. */
  lemma SplicedTexts(sql: string, select: string, t: JdbcType, a: Key, b: Key)
    ensures Spliced(sql, select, t, [a]) == sql + " and " + select + " in ( " + KeyText(t, a) + ")"
    ensures Spliced(sql, select, t, [a, b])
            == sql + " and " + select + " in ( " + (KeyText(t, a) + " , " + KeyText(t, b)) + ")"
  {
    assert [a, b][1..] == [b] && KeyList(t, [b]) == KeyText(t, b);
  }

  /** The loop that appends the keys; a key is given by its text. */
  method SplicingNewSql(sql: string, select: string, t: JdbcType, query: seq<Key>) returns (r: string)
    ensures r == Spliced(sql, select, t, query)
  {
    var start := sql + " and " + select + " in ( ";
    r := start;
    for i := 0 to |query|
      invariant i == |query| ==> r == start + KeyList(t, query)
      invariant i < |query| ==> r + KeyList(t, query[i..]) == start + KeyList(t, query)
    {
      AppendKey(t, query, i, r);
      if QuotesKeys(t) {
        r := r + "'" + query[i] + "'";
      } else {
        r := r + query[i];
      }
      if i + 1 < |query| {
        r := r + SEPARATOR;
      }
    }
    r := r + ")";
  }

  // ---- What the appended text is to a lexer ------------------------------------------------

  /** The tokens a key, and a list of keys, stand for. */
  function OneKey(t: JdbcType, key: Key): seq<Text.Token> {
    if QuotesKeys(t) then [Text.Literal(key)] else Text.PlainTokens(key)
  }

  function KeyTokens(t: JdbcType, keys: seq<Key>): seq<Text.Token> {
    if keys == [] then []
    else if |keys| == 1 then OneKey(t, keys[0])
    else OneKey(t, keys[0]) + Text.PlainTokens(SEPARATOR) + KeyTokens(t, keys[1..])
  }

  function TestHead(select: string): string {
    " and " + select + " in ( "
  }

  /** The tokens of the whole appended test. */
  function TestTokens(select: string, t: JdbcType, keys: seq<Key>): seq<Text.Token> {
    Text.PlainTokens(TestHead(select)) + (KeyTokens(t, keys) + Text.PlainTokens(")"))
  }

  predicate QuoteFree(s: string) {
    '\'' !in s
  }

  /** No name and no key brings a quote of its own. */
  predicate AllQuoteFree(select: string, keys: seq<Key>) {
    QuoteFree(select) && forall k <- keys :: QuoteFree(k)
  }

  lemma {:induction false} EscapeLonger(s: string)
    ensures |Text.Escape(s)| >= |s|
    ensures |Text.Escape(s)| == |s| <==> QuoteFree(s)
    ensures QuoteFree(s) ==> Text.Escape(s) == s
  {
    if s != "" {
      EscapeLonger(s[1..]);
      assert s == [s[0]] + s[1..];
    }
  }

  lemma PrintOfHead(t: JdbcType, key: Key)
    ensures var head := OneKey(t, key);
            && |Text.Print(head)| >= |KeyText(t, key)|
            && (|Text.Print(head)| == |KeyText(t, key)| <==> !QuotesKeys(t) || QuoteFree(key))
            && (!QuotesKeys(t) || QuoteFree(key) ==> Text.Print(head) == KeyText(t, key))
  {
    EscapeLonger(key);
    if QuotesKeys(t) {
      assert [Text.Literal(key)][1..] == [];
    } else {
      Text.PrintOfPlain(key);
    }
  }

  lemma {:induction false} PrintOfKeys(t: JdbcType, keys: seq<Key>)
    ensures |Text.Print(KeyTokens(t, keys))| >= |KeyList(t, keys)|
    ensures |Text.Print(KeyTokens(t, keys))| == |KeyList(t, keys)|
            <==> !QuotesKeys(t) || forall k <- keys :: QuoteFree(k)
    ensures |Text.Print(KeyTokens(t, keys))| == |KeyList(t, keys)| ==> Text.Print(KeyTokens(t, keys)) == KeyList(t, keys)
  {
    if keys != [] {
      var head := OneKey(t, keys[0]);
      PrintOfHead(t, keys[0]);
      assert keys == [keys[0]] + keys[1..];
      if |keys| > 1 {
        PrintOfKeys(t, keys[1..]);
        Text.PrintConcat(head + Text.PlainTokens(SEPARATOR), KeyTokens(t, keys[1..]));
        Text.PrintConcat(head, Text.PlainTokens(SEPARATOR));
        Text.PrintOfPlain(SEPARATOR);
      } else {
        assert keys[1..] == [];
      }
    }
  }

  /** The printed tokens of the test are its text if and only if no quoted key contains a quote. */
  lemma PrintOfTest(select: string, t: JdbcType, keys: seq<Key>)
    ensures Text.Print(TestTokens(select, t, keys)) == TestHead(select) + (KeyList(t, keys) + ")")
            <==> !QuotesKeys(t) || forall k <- keys :: QuoteFree(k)
  {
    Text.PrintConcat(Text.PlainTokens(TestHead(select)), KeyTokens(t, keys) + Text.PlainTokens(")"));
    Text.PrintConcat(KeyTokens(t, keys), Text.PlainTokens(")"));
    Text.PrintOfPlain(TestHead(select));
    Text.PrintOfPlain(")");
    PrintOfKeys(t, keys);
    SameLength(TestHead(select), Text.Print(KeyTokens(t, keys)), KeyList(t, keys));
  }

  lemma SameLength(head: string, x: string, y: string)
    ensures head + (x + ")") == head + (y + ")") ==> |x| == |y|
  {
    if head + (x + ")") == head + (y + ")") {
      assert |head + (x + ")")| == |head| + |x| + 1;
      assert |head + (y + ")")| == |head| + |y| + 1;
    }
  }

  lemma {:induction false} KeyTokensApart(t: JdbcType, keys: seq<Key>)
    ensures Text.Apart(KeyTokens(t, keys))
    ensures KeyTokens(t, keys) != [] ==> !QuotesKeys(t) || KeyTokens(t, keys)[0].Literal?
  {
    if |keys| > 1 && QuotesKeys(t) {
      KeyTokensApart(t, keys[1..]);
      var sep, rest := Text.PlainTokens(SEPARATOR), KeyTokens(t, keys[1..]);
      assert KeyTokens(t, keys) == [Text.Literal(keys[0])] + sep + rest;
      assert |sep| == 3 && forall i | 0 <= i < 3 :: sep[i].Plain?;
    } else if |keys| > 1 {
      NumbersArePlain(t, keys);
    }
  }

  lemma {:induction false} NumbersArePlain(t: JdbcType, keys: seq<Key>)
    requires !QuotesKeys(t)
    ensures forall i | 0 <= i < |KeyTokens(t, keys)| :: KeyTokens(t, keys)[i].Plain?
  {
    if |keys| > 1 {
      NumbersArePlain(t, keys[1..]);
    }
  }

  lemma ApartConcat(a: seq<Text.Token>, b: seq<Text.Token>)
    requires Text.Apart(a) && Text.Apart(b) && (b != [] ==> b[0].Plain? || (a != [] && a[|a| - 1].Plain?) || a == [])
    ensures Text.Apart(a + b)
  {
    var all := a + b;
    forall i | 0 <= i < |all| - 1 ensures !(all[i].Literal? && all[i + 1].Literal?) {
      if i + 1 < |a| {
        assert all[i] == a[i] && all[i + 1] == a[i + 1];
      } else if i >= |a| {
        assert all[i] == b[i - |a|] && all[i + 1] == b[i + 1 - |a|];
      } else {
        assert all[i] == a[|a| - 1] && all[i + 1] == b[0];
      }
    }
  }

  lemma TestTokensApart(select: string, t: JdbcType, keys: seq<Key>)
    ensures Text.Apart(TestTokens(select, t, keys)) && TestTokens(select, t, keys)[0].Plain?
  {
    KeyTokensApart(t, keys);
    ApartConcat(KeyTokens(t, keys), Text.PlainTokens(")"));
    ApartConcat(Text.PlainTokens(TestHead(select)), KeyTokens(t, keys) + Text.PlainTokens(")"));
  }

  lemma PrintableIffQuoteFree(s: string)
    ensures Text.Printable(Text.PlainTokens(s)) <==> QuoteFree(s)
  {
    var ts := Text.PlainTokens(s);
    if !QuoteFree(s) {
      var k :| 0 <= k < |s| && s[k] == '\'';
      assert ts[k] in ts;
    } else {
      forall x <- ts ensures x != Text.Plain('\'') {
        var k :| 0 <= k < |s| && ts[k] == x;
        assert s[k] in s;
      }
    }
  }

  lemma {:induction false} KeyTokensPrintable(t: JdbcType, keys: seq<Key>)
    ensures Text.Printable(KeyTokens(t, keys)) <==> QuotesKeys(t) || forall k <- keys :: QuoteFree(k)
  {
    if keys != [] {
      KeyTokensPrintable(t, keys[1..]);
      PrintableIffQuoteFree(keys[0]);
      PrintableIffQuoteFree(SEPARATOR);
      var head := OneKey(t, keys[0]);
      assert keys == [keys[0]] + keys[1..];
      PrintableConcat(head + Text.PlainTokens(SEPARATOR), KeyTokens(t, keys[1..]));
      PrintableConcat(head, Text.PlainTokens(SEPARATOR));
    }
  }

  lemma PrintableConcat(a: seq<Text.Token>, b: seq<Text.Token>)
    ensures Text.Printable(a + b) <==> Text.Printable(a) && Text.Printable(b)
  {
    assert forall x :: x in a + b <==> x in a || x in b;
  }

  lemma TestTokensPrintable(select: string, t: JdbcType, keys: seq<Key>)
    ensures Text.Printable(TestTokens(select, t, keys))
            <==> QuoteFree(select) && (QuotesKeys(t) || forall k <- keys :: QuoteFree(k))
  {
    PrintableIffQuoteFree(TestHead(select));
    PrintableIffQuoteFree(")");
    KeyTokensPrintable(t, keys);
    PrintableConcat(Text.PlainTokens(TestHead(select)), KeyTokens(t, keys) + Text.PlainTokens(")"));
    PrintableConcat(KeyTokens(t, keys), Text.PlainTokens(")"));
    assert QuoteFree(TestHead(select)) <==> QuoteFree(select);
  }

  /** What lexes has no two literals that touch. */
  lemma LexedIsApart(s: string)
    requires Text.Lex(s).Some?
    ensures Text.Apart(Text.Lex(s).value)
  {
    Text.PrintOfLex(s);
    Text.LexOfPrint(Text.Lex(s).value);
    Text.MergeChangesNothingIff(Text.Lex(s).value);
  }

  lemma SplicedText(sql: string, select: string, t: JdbcType, keys: seq<Key>)
    ensures Spliced(sql, select, t, keys) == sql + (TestHead(select) + (KeyList(t, keys) + ")"))
  {
    Regroup(sql, " and ", select, " in ( ");
    RegroupMore(sql, TestHead(select), KeyList(t, keys), ")");
    assert sql + " and " + select + " in ( " == sql + TestHead(select);
  }

  lemma RegroupMore(a: string, b: string, c: string, d: string)
    ensures (a + b) + c + d == a + (b + (c + d))
  {
  }

  /** The rewritten statement lexes to the tokens of the original followed by the test on the captured keys
      if and only if neither the column nor a key contains a quote: keys are not escaped. */
  lemma SplicedLexesIff(sql: string, select: string, t: JdbcType, keys: seq<Key>)
    requires Text.Lex(sql).Some?
    ensures Text.Lex(Spliced(sql, select, t, keys)) == Some(Text.Lex(sql).value + TestTokens(select, t, keys))
            <==> AllQuoteFree(select, keys)
  {
    var own, test := Text.Lex(sql).value, TestTokens(select, t, keys);
    var text := TestHead(select) + (KeyList(t, keys) + ")");
    SplicedText(sql, select, t, keys);
    Text.PrintOfLex(sql);
    Text.PrintConcat(own, test);
    PrintableConcat(own, test);
    TestTokensPrintable(select, t, keys);
    PrintOfTest(select, t, keys);
    if AllQuoteFree(select, keys) {
      LexedIsApart(sql);
      TestTokensApart(select, t, keys);
      ApartConcat(own, test);
      Text.LexOfPrint(own + test);
      Text.MergeChangesNothingIff(own + test);
    } else if Text.Lex(sql + text) == Some(own + test) {
      Text.PrintOfLex(sql + text);
      SameRest(sql, Text.Print(test), text);
    }
  }

  lemma SameRest(a: string, x: string, y: string)
    requires a + x == a + y
    ensures x == y
  {
    assert x == (a + x)[|a|..] && y == (a + y)[|a|..];
  }

  // ---- Reading the test back -----------------------------------------------------------------

  predicate IsDigit(c: char) {
    c == '-' || '0' <= c <= '9'
  }

  /** The text of an integer key. */
  predicate IsNumber(s: string) {
    s != "" && forall c <- s :: IsDigit(c)
  }

  /** The digits a list of tokens starts with. */
  function Digits(ts: seq<Text.Token>): string {
    if ts != [] && ts[0].Plain? && IsDigit(ts[0].c) then [ts[0].c] + Digits(ts[1..]) else ""
  }

  lemma {:induction false} DigitsShorter(ts: seq<Text.Token>)
    ensures |Digits(ts)| <= |ts|
    ensures forall c <- Digits(ts) :: IsDigit(c)
    ensures ts == Text.PlainTokens(Digits(ts)) + ts[|Digits(ts)|..]
  {
    if ts != [] && ts[0].Plain? && IsDigit(ts[0].c) {
      DigitsShorter(ts[1..]);
    }
  }

  lemma {:induction false} DigitsOf(s: string, rest: seq<Text.Token>)
    requires forall c <- s :: IsDigit(c)
    requires rest != [] && rest[0].Plain? && !IsDigit(rest[0].c)
    ensures Digits(Text.PlainTokens(s) + rest) == s
  {
    var ts := Text.PlainTokens(s) + rest;
    if s != "" {
      DigitsOf(s[1..], rest);
      assert ts[1..] == Text.PlainTokens(s[1..]) + rest;
    } else {
      assert ts == rest;
    }
  }

  /** One key and what follows it: a literal for a quoted type, a number otherwise. */
  function ReadKey(t: JdbcType, ts: seq<Text.Token>): (r: Option<(Key, seq<Text.Token>)>)
    ensures r.Some? ==> |r.value.1| < |ts|
  {
    if QuotesKeys(t) then
      if ts != [] && ts[0].Literal? then Some((ts[0].content, ts[1..])) else None
    else
      DigitsShorter(ts);
      var n := Digits(ts);
      if n == "" then None else Some((n, ts[|n|..]))
  }

  /** The keys of a list that is closed by a parenthesis and then ends. */
  function ReadKeys(t: JdbcType, ts: seq<Text.Token>): Option<seq<Key>>
    decreases |ts|
  {
    var k := ReadKey(t, ts);
    if k.None? then None
    else if k.value.1 == Text.PlainTokens(")") then Some([k.value.0])
    else if Text.PlainTokens(SEPARATOR) <= k.value.1 then
      var more := ReadKeys(t, k.value.1[3..]);
      if more.None? then None else Some([k.value.0] + more.value)
    else None
  }

  /** The keys a rewritten statement tests for, read from its text: nothing if that is not the text
      of the original followed by such a test. */
  function KeysRead(sql: string, rewritten: string, select: string, t: JdbcType): Option<seq<Key>> {
    var own, all, head := Text.Lex(sql), Text.Lex(rewritten), Text.PlainTokens(TestHead(select));
    if own.None? || all.None? || !(own.value <= all.value) then None
    else
      var rest := all.value[|own.value|..];
      if head <= rest then ReadKeys(t, rest[|head|..]) else None
  }

  /** Keys as MysqlSqlDetailAnalyse casts them: an Integer or a Long for the integer types. */
  predicate Typed(t: JdbcType, keys: seq<Key>) {
    !QuotesKeys(t) ==> forall k <- keys :: IsNumber(k)
  }

  lemma ReadFirst(t: JdbcType, key: Key, rest: seq<Text.Token>)
    requires Typed(t, [key]) && rest != [] && rest[0].Plain? && !IsDigit(rest[0].c)
    ensures ReadKey(t, OneKey(t, key) + rest) == Some((key, rest))
  {
    if !QuotesKeys(t) {
      assert key in [key];
      DigitsOf(key, rest);
    }
  }

  lemma ReadLast(t: JdbcType, key: Key)
    requires Typed(t, [key])
    ensures ReadKeys(t, OneKey(t, key) + Text.PlainTokens(")")) == Some([key])
  {
    ReadFirst(t, key, Text.PlainTokens(")"));
  }

  lemma ReadMore(t: JdbcType, key: Key, tail: seq<Text.Token>)
    requires Typed(t, [key]) && ReadKeys(t, tail).Some?
    ensures ReadKeys(t, OneKey(t, key) + (Text.PlainTokens(SEPARATOR) + tail)) == Some([key] + ReadKeys(t, tail).value)
  {
    var rest := Text.PlainTokens(SEPARATOR) + tail;
    assert rest[0] == Text.Plain(' ') && Text.PlainTokens(")")[0] == Text.Plain(')');
    assert rest[3..] == tail;
    ReadFirst(t, key, rest);
  }

  /** Reading a list of keys inverts writing it. */
  lemma {:induction false} ReadInvertsKeys(t: JdbcType, keys: seq<Key>)
    requires Typed(t, keys) && keys != []
    ensures ReadKeys(t, KeyTokens(t, keys) + Text.PlainTokens(")")) == Some(keys)
  {
    assert Typed(t, [keys[0]]) && keys == [keys[0]] + keys[1..];
    if |keys| == 1 {
      ReadLast(t, keys[0]);
      assert keys == [keys[0]];
    } else {
      ReadInvertsKeys(t, keys[1..]);
      ReadMore(t, keys[0], KeyTokens(t, keys[1..]) + Text.PlainTokens(")"));
      Regrouped(OneKey(t, keys[0]), Text.PlainTokens(SEPARATOR), KeyTokens(t, keys[1..]), Text.PlainTokens(")"));
    }
  }

  lemma Regrouped(a: seq<Text.Token>, b: seq<Text.Token>, c: seq<Text.Token>, d: seq<Text.Token>)
    ensures a + b + c + d == a + (b + (c + d))
  {
  }

  lemma FirstRead(t: JdbcType, ts: seq<Text.Token>)
    requires ReadKey(t, ts).Some?
    ensures var (key, rest) := ReadKey(t, ts).value;
            && ts == OneKey(t, key) + rest
            && Typed(t, [key])
  {
    DigitsShorter(ts);
  }

  /** What is read as a list of keys is that list written. */
  lemma {:induction false} KeysInvertRead(t: JdbcType, ts: seq<Text.Token>)
    requires ReadKeys(t, ts).Some?
    ensures ts == KeyTokens(t, ReadKeys(t, ts).value) + Text.PlainTokens(")")
    decreases |ts|
  {
    FirstRead(t, ts);
    var (key, rest) := ReadKey(t, ts).value;
    var keys := ReadKeys(t, ts).value;
    if rest == Text.PlainTokens(")") {
      assert keys == [key];
    } else {
      KeysInvertRead(t, rest[3..]);
      assert keys[1..] == ReadKeys(t, rest[3..]).value;
      Around(OneKey(t, key), Text.PlainTokens(SEPARATOR), rest, KeyTokens(t, keys[1..]), Text.PlainTokens(")"));
    }
  }

  lemma Around(head: seq<Text.Token>, sep: seq<Text.Token>, rest: seq<Text.Token>, tail: seq<Text.Token>, close: seq<Text.Token>)
    requires sep <= rest && rest[|sep|..] == tail + close
    ensures head + rest == head + sep + tail + close
  {
    assert rest == sep + rest[|sep|..];
  }

  /** Keys are read from a text exactly if it lexes to the original's tokens and the test on them. */
  lemma KeysReadIff(sql: string, rewritten: string, select: string, t: JdbcType, keys: seq<Key>)
    requires Text.Lex(sql).Some? && Typed(t, keys) && keys != []
    ensures KeysRead(sql, rewritten, select, t) == Some(keys)
            <==> Text.Lex(rewritten) == Some(Text.Lex(sql).value + TestTokens(select, t, keys))
  {
    var own, head := Text.Lex(sql).value, Text.PlainTokens(TestHead(select));
    var tail := KeyTokens(t, keys) + Text.PlainTokens(")");
    ReadInvertsKeys(t, keys);
    BehindPrefix(own, head + tail);
    BehindPrefix(head, tail);
    if KeysRead(sql, rewritten, select, t) == Some(keys) {
      var rest := Text.Lex(rewritten).value[|own|..];
      KeysInvertRead(t, rest[|head|..]);
      FromPrefix(own, Text.Lex(rewritten).value);
      FromPrefix(head, rest);
    }
  }

  lemma BehindPrefix(a: seq<Text.Token>, b: seq<Text.Token>)
    ensures a <= a + b && (a + b)[|a|..] == b
  {
  }

  lemma FromPrefix(a: seq<Text.Token>, all: seq<Text.Token>)
    requires a <= all
    ensures all == a + all[|a|..]
  {
  }

  /** A rewritten statement reads back as the test on the captured keys if and only if neither the column nor a key
      contains a quote. */
  lemma KeysReadBackIff(sql: string, select: string, t: JdbcType, keys: seq<Key>)
    requires Text.Lex(sql).Some? && Typed(t, keys) && keys != []
    ensures KeysRead(sql, Spliced(sql, select, t, keys), select, t) == Some(keys) <==> AllQuoteFree(select, keys)
  {
    SplicedLexesIff(sql, select, t, keys);
    KeysReadIff(sql, Spliced(sql, select, t, keys), select, t, keys);
  }

  // ---- The strategy -----------------------------------------------------------------------------

  datatype TableInfo = TableInfo(primaryKeys: seq<string>, keyType: JdbcType)

  /** A where clause: its text, and what it is to a parser. */
  datatype Where = Where(text: string, tokens: seq<Token>)

  datatype Statement = Statement(sql: string, where: Option<Where>)

  predicate Contains(s: string, part: string) {
    |s| >= |part| && (s[..|part|] == part || (s != "" && Contains(s[1..], part)))
  }

  predicate OccursAt(s: string, part: string, i: nat) {
    i + |part| <= |s| && s[i..i + |part|] == part
  }

  /** A text contains another exactly if that occurs somewhere in it. */
  lemma {:induction false} ContainsIff(s: string, part: string)
    ensures Contains(s, part) <==> exists i: nat :: OccursAt(s, part, i)
  {
    assert OccursAt(s, part, 0) <==> |s| >= |part| && s[..|part|] == part;
    if |s| >= |part| && s != "" {
      ContainsIff(s[1..], part);
      if i: nat :| OccursAt(s[1..], part, i) {
        assert s[i + 1..i + 1 + |part|] == s[1..][i..i + |part|];
        assert OccursAt(s, part, i + 1);
      }
      if i: nat :| OccursAt(s, part, i) && i > 0 {
        assert s[1..][i - 1..i - 1 + |part|] == s[i..i + |part|];
        assert OccursAt(s[1..], part, i - 1);
      }
    }
  }

  /** The three filters: there is a where clause, the table has a primary key, and the clause's text mentions it. */
  predicate Passes(st: Statement, table: TableInfo) {
    st.where.Some? && table.primaryKeys != [] && Contains(Upper(st.where.value.text), Upper(table.primaryKeys[0]))
  }

  /** A statement the parser has accepted: its literals are closed and its where clause is one. */
  predicate Accepted(st: Statement) {
    Text.Lex(st.sql).Some? && (st.where.Some? ==> Parse(st.where.value.tokens).Some?)
  }

  /** The column the keys are selected by. */
  function Selected(table: TableInfo, alias: Option<string>): string
    requires table.primaryKeys != []
  {
    (if alias.Some? then alias.value + "." else "") + table.primaryKeys[0]
  }

  function Keys<R>(st: Statement, rows: seq<R>, m: Meaning<R>): seq<Key>
    requires Accepted(st) && st.where.Some?
  {
    Captured(Parse(st.where.value.tokens).value, rows, m)
  }

  /** What a parser reads as the where clause of a rewritten text: that of the original and the test, if the text is
      the original's followed by a test. */
  function WhereRead(st: Statement, rewritten: string, select: string, t: JdbcType): Option<Expr>
    requires st.where.Some?
  {
    if rewritten == st.sql then Parse(st.where.value.tokens)
    else
      var keys := KeysRead(st.sql, rewritten, select, t);
      if keys.None? then None else Parse(st.where.value.tokens + [AndToken, Atom(KeyIn(keys.value))])
  }

  /** The clause selects the same of these rows as before. */
  ghost predicate SameRows<R>(before: Expr, after: Expr, rows: seq<R>, m: Meaning<R>) {
    forall row <- rows :: Selects(after, row, m) <==> Selects(before, row, m)
  }

  lemma SpliceIsLonger(sql: string, select: string, t: JdbcType, keys: seq<Key>)
    ensures Spliced(sql, select, t, keys) != sql
  {
    SplicedText(sql, select, t, keys);
    assert |Spliced(sql, select, t, keys)| > |sql|;
  }

  /** The clause selects only rows with these keys, on any state and however its comparisons come out. */
  ghost predicate AlwaysConfined<R(!new)>(e: Expr, keys: seq<Key>) {
    forall row: R, m: Meaning<R> :: Selects(e, row, m) ==> m.key(row) in keys
  }

  lemma GraftIsConfined<R(!new)>(e: Expr, keys: seq<Key>)
    requires At(e, Disjunction) && !e.Or?
    ensures AlwaysConfined<R>(Graft(e, KeyIn(keys)), keys)
  {
    forall row: R, m: Meaning<R> | Selects(Graft(e, KeyIn(keys)), row, m) ensures m.key(row) in keys {
      if m.key(row) !in keys {
        UncapturedRows(e, keys, row, m);
      }
    }
  }

  /** The meaning of a rewritten text, from what is read back. */
  lemma RewrittenMeans<R(!new)>(st: Statement, select: string, t: JdbcType, rows: seq<R>, m: Meaning<R>)
    requires Accepted(st) && st.where.Some? && Keys(st, rows, m) != [] && Typed(t, Keys(st, rows, m))
    requires AllQuoteFree(select, Keys(st, rows, m))
    ensures var e, keys := Parse(st.where.value.tokens).value, Keys(st, rows, m);
            var read := WhereRead(st, Spliced(st.sql, select, t, keys), select, t);
            && read == Some(Graft(e, KeyIn(keys)))
            && SameRows(e, read.value, rows, m)
            && (!e.Or? ==> AlwaysConfined<R>(read.value, keys))
  {
    var e, keys := Parse(st.where.value.tokens).value, Keys(st, rows, m);
    SpliceIsLonger(st.sql, select, t, keys);
    KeysReadBackIff(st.sql, select, t, keys);
    SpliceIsGraft(st.where.value.tokens, KeyIn(keys));
    forall row | row in rows ensures Selects(Graft(e, KeyIn(keys)), row, m) <==> Selects(e, row, m) {
      SplicingKeepsMeaning(st.where.value.tokens, rows, m, row);
    }
    PrintOfParse(st.where.value.tokens, Disjunction);
    if !e.Or? {
      GraftIsConfined<R>(e, keys);
    }
  }

  // ---- A key with a quote ----------------------------------------------------------------------

  const ONE_KEY: seq<Key> := ["1' , '2"]
  const TWO_KEYS: seq<Key> := ["1", "2"]

  function Holds(id: nat, row: Key): Truth {
    True
  }

  lemma SameText(sql: string, select: string)
    ensures Spliced(sql, select, VARCHAR, ONE_KEY) == Spliced(sql, select, VARCHAR, TWO_KEYS)
  {
    assert KeyList(VARCHAR, TWO_KEYS[1..]) == "'2'";
    assert KeyList(VARCHAR, TWO_KEYS) == "'1' , '2'";
    assert KeyList(VARCHAR, ONE_KEY) == "'1' , '2'";
  }

  /** A key with a quote can read back as other keys. */
  lemma QuoteInKeyIsMisread(sql: string, select: string)
    requires Text.Lex(sql).Some? && QuoteFree(select)
    ensures KeysRead(sql, Spliced(sql, select, VARCHAR, ONE_KEY), select, VARCHAR) == Some(TWO_KEYS)
    ensures "2" in TWO_KEYS && "2" !in ONE_KEY
  {
    SameText(sql, select);
    KeysReadBackIff(sql, select, VARCHAR, TWO_KEYS);
    assert TWO_KEYS[1] == "2";
    assert |"2"| != |ONE_KEY[0]|;
  }

  lemma OneKeyIsCaptured()
    ensures Captured(Leaf(Compare(0)), ONE_KEY, Meaning(Holds, OwnKey)) == ONE_KEY
  {
    var e, m := Leaf(Compare(0)), Meaning(Holds, OwnKey);
    assert Selects(e, ONE_KEY[0], m) && m.key(ONE_KEY[0]) == ONE_KEY[0];
    assert ONE_KEY[1..] == [] && Captured(e, ONE_KEY[1..], m) == [];
  }

  /** So a statement that the analysis rewrites, without OR, can come to touch a row whose key was not captured: any
      statement with a single comparison that names the key column, on a table with the one row with that key. */
  lemma QuoteInKeyEscapes(sql: string, text: string, pk: string)
    requires Text.Lex(sql).Some? && QuoteFree(pk) && Contains(Upper(text), Upper(pk))
    ensures var st, table := Statement(sql, Some(Where(text, [Atom(Compare(0))]))), TableInfo([pk], VARCHAR);
            var m, select := Meaning(Holds, OwnKey), Selected(table, None);
            && Accepted(st) && Passes(st, table) && Parse(st.where.value.tokens) == Some(Leaf(Compare(0)))
            && Keys(st, ONE_KEY, m) == ONE_KEY
            && var read := WhereRead(st, Spliced(sql, select, VARCHAR, Keys(st, ONE_KEY, m)), select, VARCHAR);
               read.Some? && !AlwaysConfined<Key>(read.value, Keys(st, ONE_KEY, m))
  {
    var where := [Atom(Compare(0))];
    EveryClauseHasAText(Leaf(Compare(0)));
    assert Print(Leaf(Compare(0))) == where;
    OneKeyIsCaptured();
    assert Selected(TableInfo([pk], VARCHAR), None) == pk;
    QuoteInKeyIsMisread(sql, pk);
    SpliceIsLonger(sql, pk, VARCHAR, ONE_KEY);
    SpliceIsGraft(where, KeyIn(TWO_KEYS));
    TwoIsSelected();
  }

  lemma TwoIsSelected()
    requires "2" in TWO_KEYS && "2" !in ONE_KEY
    ensures !AlwaysConfined<Key>(Graft(Leaf(Compare(0)), KeyIn(TWO_KEYS)), ONE_KEY)
  {
    var m := Meaning(Holds, OwnKey);
    assert m.key("2") == "2" && Eval(Leaf(Compare(0)), "2", m).True?;
    assert Selects(Graft(Leaf(Compare(0)), KeyIn(TWO_KEYS)), "2", m);
  }

  /** The analysis of an update or delete, on the rows the database holds while it runs: the text to be replayed. */
  method Analyse<R(!new)>(st: Statement, table: TableInfo, alias: Option<string>, rows: seq<R>, m: Meaning<R>)
    returns (r: string)
    requires Accepted(st)
    requires forall row <- rows :: Typed(table.keyType, [m.key(row)])
    // rewritten exactly if the filters pass and something is selected
    ensures r == if Passes(st, table) && Keys(st, rows, m) != []
                 then Spliced(st.sql, Selected(table, alias), table.keyType, Keys(st, rows, m)) else st.sql
    ensures r != st.sql <==> Passes(st, table) && Keys(st, rows, m) != []
    // the column is the first primary key, under the table's alias if it has one
    ensures r != st.sql ==>
              var column := if alias.Some? then alias.value + "." + table.primaryKeys[0] else table.primaryKeys[0];
              r == st.sql + " and " + column + " in ( " + KeyList(table.keyType, Keys(st, rows, m)) + ")"
    // the text reads back as the test on the captured keys exactly if no quote is among them
    ensures r != st.sql ==>
              (KeysRead(st.sql, r, Selected(table, alias), table.keyType) == Some(Keys(st, rows, m))
               <==> AllQuoteFree(Selected(table, alias), Keys(st, rows, m)))
    // and then what is read selects the same rows now, and without a top-level OR no row with another key ever
    ensures r != st.sql && AllQuoteFree(Selected(table, alias), Keys(st, rows, m)) ==>
              var e, read := Parse(st.where.value.tokens).value, WhereRead(st, r, Selected(table, alias), table.keyType);
              && read == Some(Graft(e, KeyIn(Keys(st, rows, m))))
              && SameRows(e, read.value, rows, m)
              && (!e.Or? ==> AlwaysConfined<R>(read.value, Keys(st, rows, m)))
  {
    if st.where.None? || table.primaryKeys == [] {
      return st.sql;
    }
    var where := st.where.value;
    var primaryKey := table.primaryKeys[0];
    if !Contains(Upper(where.text), Upper(primaryKey)) {
      return st.sql;
    }
    var select := if alias.Some? then alias.value + "." + primaryKey else primaryKey;
    var query := Keys(st, rows, m);
    if query == [] {
      return st.sql;
    }
    r := SplicingNewSql(st.sql, select, table.keyType, query);
    SpliceIsLonger(st.sql, select, table.keyType, query);
    assert select == Selected(table, alias);
    forall k <- query ensures Typed(table.keyType, [k]) {
      CapturedIff(Parse(where.tokens).value, rows, m, k);
    }
    assert Typed(table.keyType, query) by {
      assert forall k <- query :: k in [k];
    }
    KeysReadBackIff(st.sql, select, table.keyType, query);
    if AllQuoteFree(select, query) {
      RewrittenMeans(st, select, table.keyType, rows, m);
    }
  }
}
