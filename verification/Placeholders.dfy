/** Rendering a prepared statement: its placeholders are replaced by the text of their values.
    The partner of the printer is a lexer for character literals as section 5.3 of
    ISO/IEC 9075-2 writes them: quotes around, and a doubled quote for a quote inside. */
module Placeholders {
  import opened Wrappers

  // ---- Values --------------------------------------------------------------------

  /** A parameter. Numbers and booleans are given by their text, dates and other objects by their formatted text. */
  datatype Value =
    | Null
    | Number(text: string)
    | Boolean(flag: bool)
    | Bytes(bytes: seq<bv8>)
    | Text(text: string)

  const HEX_CHARS: string := "0123456789ABCDEF"

  /** Every quote doubled. */
  function Escape(s: string): string {
    if s == "" then ""
    else (if s[0] == '\'' then "''" else [s[0]]) + Escape(s[1..])
  }

  function HexOf(b: bv8): string {
    [HEX_CHARS[(b as int) / 16], HEX_CHARS[(b as int) % 16]]
  }

  function ToHex(bytes: seq<bv8>): string {
    if bytes == [] then "" else HexOf(bytes[0]) + ToHex(bytes[1..])
  }

  /** The text inside the quotes, for a value that is quoted. */
  function Unquoted(v: Value): string {
    match v
    case Null => "NULL"
    case Number(text) => text
    case Boolean(flag) => if flag then "true" else "false"
    case Bytes(bytes) => ToHex(bytes)
    case Text(text) => text
  }

  predicate IsQuoted(v: Value) {
    v.Bytes? || v.Text?
  }

  function ToText(v: Value): string {
    if IsQuoted(v) then "'" + Escape(Unquoted(v)) + "'" else Unquoted(v)
  }

  lemma HexOfRest(bytes: seq<bv8>, i: nat, r: string)
    requires i < |bytes|
    ensures var temp := bytes[i] as int;
            r + [HEX_CHARS[temp / 16]] + [HEX_CHARS[temp % 16]] + ToHex(bytes[i + 1..]) == r + ToHex(bytes[i..])
  {
    assert bytes[i..][1..] == bytes[i + 1..];
  }

  /** The text of each kind of value; only text and bytes are quoted, with their own quotes doubled. */
  lemma TextOf(v: Value)
    ensures v.Null? ==> ToText(v) == "NULL"
    ensures v.Number? ==> ToText(v) == v.text
    ensures v == Boolean(true) ==> ToText(v) == "true"
    ensures v == Boolean(false) ==> ToText(v) == "false"
    ensures v.Text? ==> ToText(v) == "'" + Escape(v.text) + "'"
    ensures v.Bytes? ==> ToText(v) == "'" + ToHex(v.bytes) + "'"
  {
    if v.Bytes? {
      HexHasNoQuote(v.bytes);
      EscapeKeeps(ToHex(v.bytes));
    }
  }

  lemma {:induction false} HexHasNoQuote(bytes: seq<bv8>)
    ensures '\'' !in ToHex(bytes)
  {
    if bytes != [] {
      HexHasNoQuote(bytes[1..]);
      DigitIsNoQuote(bytes[0] as int / 16);
      DigitIsNoQuote(bytes[0] as int % 16);
    }
  }

  lemma {:induction false} EscapeKeeps(s: string)
    requires '\'' !in s
    ensures Escape(s) == s
  {
    if s != "" {
      EscapeKeeps(s[1..]);
    }
  }

  lemma DigitIsNoQuote(d: int)
    requires 0 <= d < 16
    ensures HEX_CHARS[d] == "0123456789ABCDEF"[d] && HEX_CHARS[d] != '\''
  {
  }

  /** A quote is doubled, anything else is kept. */
  lemma EscapeOf(s: string, c: char)
    ensures Escape([c] + s) == (if c == '\'' then "''" else [c]) + Escape(s)
    ensures Escape("") == ""
  {
    assert ([c] + s)[1..] == s;
  }

  /** The loop over the bytes. */
  method ToHexString(bytes: seq<bv8>) returns (r: string)
    ensures r == ToHex(bytes)
  {
    r := "";
    for i := 0 to |bytes|
      invariant r + ToHex(bytes[i..]) == ToHex(bytes)
    {
      var temp := bytes[i] as int;
      HexOfRest(bytes, i, r);
      r := r + [HEX_CHARS[temp / 16]] + [HEX_CHARS[temp % 16]];
    }
  }

  function DigitOf(c: char): int {
    if '0' <= c <= '9' then c as int - '0' as int else c as int - 'A' as int + 10
  }

  function FromHex(s: string): seq<int> {
    if |s| < 2 then [] else [DigitOf(s[0]) * 16 + DigitOf(s[1])] + FromHex(s[2..])
  }

  /** The hexadecimal text determines the bytes. */
  lemma {:induction false} HexRoundTrip(bytes: seq<bv8>)
    ensures |FromHex(ToHex(bytes))| == |bytes|
    ensures forall i | 0 <= i < |bytes| :: FromHex(ToHex(bytes))[i] == bytes[i] as int
  {
    if bytes != [] {
      HexRoundTrip(bytes[1..]);
      DigitsOfByte(bytes[0] as int);
      assert ToHex(bytes)[2..] == ToHex(bytes[1..]);
    }
  }

  lemma DigitsOfByte(b: int)
    requires 0 <= b < 256
    ensures DigitOf(HEX_CHARS[b / 16]) * 16 + DigitOf(HEX_CHARS[b % 16]) == b
  {
    DigitOfHex(b / 16);
    DigitOfHex(b % 16);
  }

  lemma DigitOfHex(d: int)
    requires 0 <= d < 16
    ensures DigitOf(HEX_CHARS[d]) == d
  {
  }

  // ---- Rendering -----------------------------------------------------------------

  /** The values set so far, by position counted from 0. */
  type Parameters = map<int, Value>

  function TextAt(parameters: Parameters, i: int): string {
    ToText(if i in parameters then parameters[i] else Null)
  }

  function Count(t: string): nat {
    if t == "" then 0 else (if t[0] == '?' then 1 else 0) + Count(t[1..])
  }

  /** The pieces of a template between its placeholders. */
  function Pieces(t: string): (r: seq<string>)
    ensures |r| == Count(t) + 1
  {
    if t == "" then [""]
    else
      var rest := Pieces(t[1..]);
      if t[0] == '?' then [""] + rest else [[t[0]] + rest[0]] + rest[1..]
  }

  /** Pieces put together again, with the text `fill(i)` in the i-th gap. */
  function Join(pieces: seq<string>, fill: nat -> string, from: nat): string
    requires pieces != []
  {
    if |pieces| == 1 then pieces[0]
    else pieces[0] + fill(from) + Join(pieces[1..], fill, from + 1)
  }

  /** What the i-th placeholder becomes. One placeholder more than there are values is replaced, by NULL
      unless a value was set there; the others stay. */
  function Fill(parameters: Parameters): nat -> string {
    i => if i <= |parameters| then TextAt(parameters, i) else "?"
  }

  /** A gap up to the one after the last value gets its value or NULL, a later one stays a placeholder. */
  lemma FillOf(parameters: Parameters, i: nat)
    ensures i <= |parameters| && i in parameters ==> Fill(parameters)(i) == ToText(parameters[i])
    ensures i <= |parameters| && i !in parameters ==> Fill(parameters)(i) == "NULL"
    ensures i > |parameters| ==> Fill(parameters)(i) == "?"
  {
  }

  /** Rendering from the i-th placeholder on, character by character. */
  function Render(t: string, parameters: Parameters, i: nat): string {
    if t == "" then ""
    else if t[0] == '?' && i <= |parameters| then TextAt(parameters, i) + Render(t[1..], parameters, i + 1)
    else [t[0]] + Render(t[1..], parameters, i)
  }

  class PreparedStatementInformation {
    const statementQuery: string
    var parameterValues: Parameters

    constructor (query: string)
      ensures statementQuery == query && parameterValues == map[]
    {
      statementQuery := query;
      parameterValues := map[];
    }

    /** Positions count from 1. */
    method SetParameterValue(position: int, value: Value)
      modifies this
      ensures parameterValues == old(parameterValues)[position - 1 := value]
    {
      parameterValues := parameterValues[position - 1 := value];
    }

    /** The pieces of the template are kept in order; the i-th gap is filled by the i-th value. */
    method GetSqlWithValues() returns (sql: string)
      ensures sql == Join(Pieces(statementQuery), Fill(parameterValues), 0)
      ensures sql == Render(statementQuery, parameterValues, 0)
    {
      sql := "";
      var currentParameter := 0;
      for pos := 0 to |statementQuery|
        invariant 0 <= currentParameter
        invariant sql + Render(statementQuery[pos..], parameterValues, currentParameter)
                  == Render(statementQuery, parameterValues, 0)
      {
        var character := statementQuery[pos];
        assert statementQuery[pos..][1..] == statementQuery[pos + 1..];
        if character == '?' && currentParameter <= |parameterValues| {
          var text := TextAt(parameterValues, currentParameter);
          assert (sql + text) + Render(statementQuery[pos + 1..], parameterValues, currentParameter + 1)
              == sql + (text + Render(statementQuery[pos + 1..], parameterValues, currentParameter + 1));
          sql := sql + text;
          currentParameter := currentParameter + 1;
        } else {
          sql := sql + [character];
        }
      }
      RenderFillsTheGaps(statementQuery, parameterValues, 0);
    }
  }

  lemma JoinHead(c: char, pieces: seq<string>, fill: nat -> string, i: nat)
    requires pieces != []
    ensures Join([[c] + pieces[0]] + pieces[1..], fill, i) == [c] + Join(pieces, fill, i)
  {
    var longer := [[c] + pieces[0]] + pieces[1..];
    if |pieces| > 1 {
      assert longer[1..] == pieces[1..];
      var tail := Join(pieces[1..], fill, i + 1);
      assert ([c] + pieces[0]) + fill(i) + tail == [c] + (pieces[0] + fill(i) + tail);
    }
  }

  lemma JoinGap(pieces: seq<string>, fill: nat -> string, i: nat)
    requires pieces != []
    ensures Join([""] + pieces, fill, i) == fill(i) + Join(pieces, fill, i + 1)
  {
    assert ([""] + pieces)[1..] == pieces;
    assert "" + fill(i) == fill(i);
  }

  lemma {:induction false} RenderFillsTheGaps(t: string, parameters: Parameters, i: nat)
    ensures Render(t, parameters, i) == Join(Pieces(t), Fill(parameters), i)
    decreases t
  {
    if t != "" {
      var rest := Pieces(t[1..]);
      if t[0] == '?' {
        JoinGap(rest, Fill(parameters), i);
        if i <= |parameters| {
          RenderFillsTheGaps(t[1..], parameters, i + 1);
        } else {
          RenderFillsTheGaps(t[1..], parameters, i);
          BeyondTheValues(rest, parameters, i, i + 1);
        }
      } else {
        RenderFillsTheGaps(t[1..], parameters, i);
        JoinHead(t[0], rest, Fill(parameters), i);
      }
    }
  }

  /** Beyond the values nothing depends on the position any more. */
  lemma {:induction false} BeyondTheValues(pieces: seq<string>, parameters: Parameters, i: nat, j: nat)
    requires pieces != [] && i > |parameters| && j > |parameters|
    ensures Join(pieces, Fill(parameters), i) == Join(pieces, Fill(parameters), j)
    decreases pieces
  {
    if |pieces| > 1 {
      BeyondTheValues(pieces[1..], parameters, i + 1, j + 1);
    }
  }

  /** Splitting loses nothing: with every gap a question mark again, the pieces are the template. */
  lemma {:induction false} PiecesJoinBack(t: string, i: nat)
    ensures Join(Pieces(t), _ => "?", i) == t
    decreases t
  {
    if t != "" {
      var rest := Pieces(t[1..]);
      if t[0] == '?' {
        PiecesJoinBack(t[1..], i + 1);
        JoinGap(rest, _ => "?", i);
      } else {
        PiecesJoinBack(t[1..], i);
        JoinHead(t[0], rest, _ => "?", i);
      }
    }
  }

  // ---- Lexing -------------------------------------------------------------------------

  datatype Token = Plain(c: char) | Literal(content: string)

  /** A literal's content and what follows it, from after its opening quote. */
  function Scan(s: string): Option<(string, string)>
  {
    if s == "" then None
    else if s[0] != '\'' then
      var r := Scan(s[1..]);
      if r.None? then None else Some(([s[0]] + r.value.0, r.value.1))
    else if |s| > 1 && s[1] == '\'' then
      var r := Scan(s[2..]);
      if r.None? then None else Some(("'" + r.value.0, r.value.1))
    else Some(("", s[1..]))
  }

  lemma {:induction false} ScanShortens(s: string)
    ensures Scan(s).Some? ==> |Scan(s).value.1| < |s|
    ensures Scan(s).Some? ==> Scan(s).value.1 == "" || Scan(s).value.1[0] != '\''
  {
    if s != "" && s[0] != '\'' {
      ScanShortens(s[1..]);
    } else if |s| > 1 && s[1] == '\'' {
      ScanShortens(s[2..]);
    }
  }

  /** The tokens of a statement; nothing if a literal is not closed. */
  function Lex(s: string): Option<seq<Token>>
    decreases |s|
  {
    if s == "" then Some([])
    else if s[0] != '\'' then
      var r := Lex(s[1..]);
      if r.None? then None else Some([Plain(s[0])] + r.value)
    else
      var l := Scan(s[1..]);
      if l.None? then None
      else
        ScanShortens(s[1..]);
        var r := Lex(l.value.1);
        if r.None? then None else Some([Literal(l.value.0)] + r.value)
  }

  function PlainTokens(s: string): seq<Token> {
    seq(|s|, i requires 0 <= i < |s| => Plain(s[i]))
  }

  /** What a value is as tokens: a quoted value is one literal with the unescaped text. */
  function ValueTokens(v: Value): seq<Token> {
    if IsQuoted(v) then [Literal(Unquoted(v))] else PlainTokens(Unquoted(v))
  }

  /** Each placeholder token replaced by the tokens of its value, from the i-th value on. */
  function Substituted(tokens: seq<Token>, parameters: Parameters, i: nat): seq<Token> {
    if tokens == [] then []
    else if tokens[0] == Plain('?') then
      ValueTokens(if i in parameters then parameters[i] else Null) + Substituted(tokens[1..], parameters, i + 1)
    else [tokens[0]] + Substituted(tokens[1..], parameters, i)
  }

  /** Unquoted texts bring no quote of their own. */
  predicate NoStrayQuotes(parameters: Parameters) {
    forall i <- parameters :: !IsQuoted(parameters[i]) ==> '\'' !in Unquoted(parameters[i])
  }

  function TokenText(t: Token): string {
    match t
    case Plain(c) => [c]
    case Literal(x) => "'" + Escape(x) + "'"
  }

  /** The text of a list of tokens. */
  function Print(tokens: seq<Token>): string {
    if tokens == [] then "" else TokenText(tokens[0]) + Print(tokens[1..])
  }

  predicate Printable(tokens: seq<Token>) {
    forall t <- tokens :: t != Plain('\'')
  }

  /** Two literals side by side read as one, with a quote in the middle. */
  function Merge(tokens: seq<Token>): (r: seq<Token>)
    ensures |r| <= |tokens|
    decreases |tokens|
  {
    if tokens == [] then []
    else if |tokens| > 1 && tokens[0].Literal? && tokens[1].Literal? then
      Merge([Literal(tokens[0].content + "'" + tokens[1].content)] + tokens[2..])
    else [tokens[0]] + Merge(tokens[1..])
  }

  predicate Apart(tokens: seq<Token>) {
    forall i | 0 <= i < |tokens| - 1 :: !(tokens[i].Literal? && tokens[i + 1].Literal?)
  }

  lemma {:induction false} MergeChangesNothingIff(tokens: seq<Token>)
    ensures Merge(tokens) == tokens <==> Apart(tokens)
  {
    if tokens != [] {
      if |tokens| > 1 && tokens[0].Literal? && tokens[1].Literal? {
        assert |Merge(tokens)| < |tokens|;
      } else {
        MergeChangesNothingIff(tokens[1..]);
        assert tokens == [tokens[0]] + tokens[1..];
        assert Apart(tokens) ==> Apart(tokens[1..]);
        if Apart(tokens[1..]) {
          forall i | 0 <= i < |tokens| - 1 ensures !(tokens[i].Literal? && tokens[i + 1].Literal?) {
            assert i > 0 ==> tokens[i] == tokens[1..][i - 1] && tokens[i + 1] == tokens[1..][i];
          }
        }
      }
    }
  }

  lemma Associative(x: string, y: string, z: string)
    ensures x + y + z == x + (y + z)
  {
  }

  lemma {:induction false} EscapeConcat(a: string, b: string)
    ensures Escape(a + b) == Escape(a) + Escape(b)
  {
    if a == "" {
      assert a + b == b;
    } else {
      EscapeConcat(a[1..], b);
      EscapeOf(a[1..] + b, a[0]);
      EscapeOf(a[1..], a[0]);
      assert a == [a[0]] + a[1..] && a + b == [a[0]] + (a[1..] + b);
      Associative(if a[0] == '\'' then "''" else [a[0]], Escape(a[1..]), Escape(b));
    }
  }

  /** A printed literal scans back to its content. */
  lemma {:induction false} ScanInvertsEscape(text: string, rest: string)
    requires rest == "" || rest[0] != '\''
    ensures Scan(Escape(text) + "'" + rest) == Some((text, rest))
  {
    var s := Escape(text) + "'" + rest;
    if text == "" {
      assert s == "'" + rest;
      assert s[1..] == rest;
    } else {
      ScanInvertsEscape(text[1..], rest);
      var tail := Escape(text[1..]) + "'" + rest;
      if text[0] == '\'' {
        assert s == "''" + tail;
        assert s[2..] == tail;
      } else {
        assert s == [text[0]] + tail;
        assert s[1..] == tail;
      }
      assert [text[0]] + text[1..] == text;
    }
  }

  /** A scanned literal is the print of its content. */
  lemma {:induction false} EscapeInvertsScan(s: string)
    requires Scan(s).Some?
    ensures s == Escape(Scan(s).value.0) + "'" + Scan(s).value.1
  {
    var (content, rest) := Scan(s).value;
    if s[0] != '\'' {
      EscapeInvertsScan(s[1..]);
      assert content[1..] == Scan(s[1..]).value.0;
    } else if |s| > 1 && s[1] == '\'' {
      EscapeInvertsScan(s[2..]);
      assert content[1..] == Scan(s[2..]).value.0;
    }
  }

  /** Printing and lexing again merges the literals that touch, and changes nothing else. */
  lemma {:induction false} LexOfPrint(tokens: seq<Token>)
    requires Printable(tokens)
    ensures Lex(Print(tokens)) == Some(Merge(tokens))
    decreases |tokens|
  {
    if tokens != [] {
      assert tokens[0] in tokens;
      assert forall t <- tokens[1..] :: t in tokens;
      if |tokens| > 1 && tokens[0].Literal? && tokens[1].Literal? {
        var a, b := tokens[0].content, tokens[1].content;
        assert forall t <- tokens[2..] :: t in tokens;
        LexOfPrint([Literal(a + "'" + b)] + tokens[2..]);
        PrintOfMerged(a, b, tokens[2..]);
        assert tokens == [Literal(a), Literal(b)] + tokens[2..];
      } else {
        LexOfPrint(tokens[1..]);
        LexHead(tokens);
      }
    }
  }

  /** The first token is read off, unless it is a literal that touches the next. */
  lemma LexHead(tokens: seq<Token>)
    requires tokens != [] && Printable(tokens)
    requires |tokens| > 1 ==> !(tokens[0].Literal? && tokens[1].Literal?)
    ensures var rest := Lex(Print(tokens[1..]));
            Lex(Print(tokens)) == if rest.None? then None else Some([tokens[0]] + rest.value)
  {
    var rest := Print(tokens[1..]);
    assert tokens[0] in tokens;
    match tokens[0]
    case Plain(c) =>
      assert Print(tokens)[1..] == rest;
    case Literal(a) =>
      assert rest == "" || rest[0] != '\'' by {
        assert |tokens| > 1 ==> tokens[1] in tokens;
      }
      LexLiteral(a, rest);
  }

  lemma LexQuoted(tail: string, a: string, rest: string)
    requires Scan(tail) == Some((a, rest))
    ensures Lex("'" + tail) == if Lex(rest).None? then None else Some([Literal(a)] + Lex(rest).value)
  {
    assert ("'" + tail)[1..] == tail;
  }

  lemma LexLiteral(a: string, rest: string)
    requires rest == "" || rest[0] != '\''
    ensures Lex("'" + Escape(a) + "'" + rest) == if Lex(rest).None? then None else Some([Literal(a)] + Lex(rest).value)
  {
    ScanInvertsEscape(a, rest);
    LexQuoted(Escape(a) + "'" + rest, a, rest);
    QuoteFirst(Escape(a), rest);
  }

  lemma QuoteFirst(x: string, rest: string)
    ensures "'" + x + "'" + rest == "'" + (x + "'" + rest)
  {
  }

  lemma EscapeAround(a: string, b: string)
    ensures Escape(a + "'" + b) == Escape(a) + "''" + Escape(b)
  {
    EscapeConcat(a + "'", b);
    EscapeConcat(a, "'");
    assert Escape("'") == "''" + Escape("");
  }

  lemma QuotesMeet(x: string, y: string, tail: string)
    ensures ("'" + x + "'") + (("'" + y + "'") + tail) == ("'" + (x + "''" + y) + "'") + tail
  {
  }

  lemma PrintOfMerged(a: string, b: string, rest: seq<Token>)
    ensures Print([Literal(a), Literal(b)] + rest) == Print([Literal(a + "'" + b)] + rest)
  {
    EscapeAround(a, b);
    var two, one := [Literal(a), Literal(b)] + rest, [Literal(a + "'" + b)] + rest;
    assert two[1..] == [Literal(b)] + rest && two[1..][1..] == rest && one[1..] == rest;
    QuotesMeet(Escape(a), Escape(b), Print(rest));
  }

  /** A lexed text is the print of its tokens. */
  lemma {:induction false} PrintOfLex(s: string)
    requires Lex(s).Some?
    ensures Print(Lex(s).value) == s && Printable(Lex(s).value)
    decreases |s|
  {
    if s != "" {
      var tokens := Lex(s).value;
      if s[0] != '\'' {
        PrintOfLex(s[1..]);
        assert tokens[1..] == Lex(s[1..]).value;
      } else {
        ScanShortens(s[1..]);
        EscapeInvertsScan(s[1..]);
        var rest := Scan(s[1..]).value.1;
        PrintOfLex(rest);
        assert tokens[1..] == Lex(rest).value;
        assert s == ['\''] + s[1..];
      }
    }
  }

  // ---- Rendering, then lexing -----------------------------------------------------------

  /** No placeholder stands inside a literal. */
  predicate HolesOutside(tokens: seq<Token>) {
    forall t <- tokens :: t.Literal? ==> '?' !in t.content
  }

  lemma {:induction false} RenderWithoutHoles(a: string, b: string, parameters: Parameters, i: nat)
    requires '?' !in a
    ensures Render(a + b, parameters, i) == a + Render(b, parameters, i)
  {
    if a == "" {
      assert a + b == b;
    } else {
      assert a + b == [a[0]] + (a[1..] + b);
      RenderWithoutHoles(a[1..], b, parameters, i);
    }
  }

  lemma {:induction false} EscapeAddsNoHole(a: string)
    requires '?' !in a
    ensures '?' !in Escape(a)
  {
    if a != "" {
      EscapeAddsNoHole(a[1..]);
    }
  }

  lemma {:induction false} PrintConcat(a: seq<Token>, b: seq<Token>)
    ensures Print(a + b) == Print(a) + Print(b)
  {
    if a == [] {
      assert a + b == b;
    } else {
      assert a + b == [a[0]] + (a[1..] + b);
      PrintConcat(a[1..], b);
    }
  }

  lemma {:induction false} PrintOfPlain(s: string)
    ensures Print(PlainTokens(s)) == s
  {
    if s != "" {
      PrintOfPlain(s[1..]);
      assert PlainTokens(s)[1..] == PlainTokens(s[1..]);
    }
  }

  lemma PrintOfValue(v: Value)
    ensures Print(ValueTokens(v)) == ToText(v)
  {
    if IsQuoted(v) {
      assert ValueTokens(v)[1..] == [];
    } else {
      PrintOfPlain(Unquoted(v));
    }
  }

  function Holes(tokens: seq<Token>): nat {
    if tokens == [] then 0 else (if tokens[0] == Plain('?') then 1 else 0) + Holes(tokens[1..])
  }

  lemma RenderHole(rest: string, parameters: Parameters, i: nat)
    requires i <= |parameters|
    ensures Render("?" + rest, parameters, i) == TextAt(parameters, i) + Render(rest, parameters, i + 1)
  {
    assert ("?" + rest)[1..] == rest;
  }

  lemma RenderToken(t: Token, rest: string, parameters: Parameters, i: nat)
    requires t != Plain('?') && (t.Literal? ==> '?' !in t.content)
    ensures Render(TokenText(t) + rest, parameters, i) == TokenText(t) + Render(rest, parameters, i)
  {
    if t.Literal? {
      EscapeAddsNoHole(t.content);
    }
    RenderWithoutHoles(TokenText(t), rest, parameters, i);
  }

  lemma PrintSubstitutedHole(v: Value, rest: seq<Token>)
    ensures Print(ValueTokens(v) + rest) == ToText(v) + Print(rest)
  {
    PrintOfValue(v);
    PrintConcat(ValueTokens(v), rest);
  }

  lemma PrintHead(t: Token, rest: seq<Token>)
    ensures Print([t] + rest) == TokenText(t) + Print(rest)
  {
    assert ([t] + rest)[1..] == rest;
  }

  /** Rendering the text of tokens is printing the tokens with their placeholders substituted. */
  lemma {:induction false} RenderIsPrint(tokens: seq<Token>, parameters: Parameters, i: nat)
    requires HolesOutside(tokens) && i + Holes(tokens) <= |parameters| + 1
    ensures Render(Print(tokens), parameters, i) == Print(Substituted(tokens, parameters, i))
    decreases tokens
  {
    if tokens != [] {
      assert tokens[0] in tokens;
      assert forall t <- tokens[1..] :: t in tokens;
      if tokens[0] == Plain('?') {
        RenderIsPrint(tokens[1..], parameters, i + 1);
        RenderPrintedHole(tokens, parameters, i);
      } else {
        RenderIsPrint(tokens[1..], parameters, i);
        RenderPrintedToken(tokens, parameters, i);
      }
    }
  }

  lemma RenderPrintedHole(tokens: seq<Token>, parameters: Parameters, i: nat)
    requires tokens != [] && tokens[0] == Plain('?') && i <= |parameters|
    requires Render(Print(tokens[1..]), parameters, i + 1) == Print(Substituted(tokens[1..], parameters, i + 1))
    ensures Render(Print(tokens), parameters, i) == Print(Substituted(tokens, parameters, i))
  {
    RenderHole(Print(tokens[1..]), parameters, i);
    PrintSubstitutedHole(if i in parameters then parameters[i] else Null, Substituted(tokens[1..], parameters, i + 1));
  }

  lemma RenderPrintedToken(tokens: seq<Token>, parameters: Parameters, i: nat)
    requires tokens != [] && tokens[0] != Plain('?') && (tokens[0].Literal? ==> '?' !in tokens[0].content)
    requires Render(Print(tokens[1..]), parameters, i) == Print(Substituted(tokens[1..], parameters, i))
    ensures Render(Print(tokens), parameters, i) == Print(Substituted(tokens, parameters, i))
  {
    RenderToken(tokens[0], Print(tokens[1..]), parameters, i);
    PrintHead(tokens[0], Substituted(tokens[1..], parameters, i));
  }

  lemma {:induction false} SubstitutedPrintable(tokens: seq<Token>, parameters: Parameters, i: nat)
    requires Printable(tokens) && NoStrayQuotes(parameters)
    ensures Printable(Substituted(tokens, parameters, i))
    decreases tokens
  {
    if tokens != [] {
      assert tokens[0] in tokens;
      assert forall t <- tokens[1..] :: t in tokens;
      if tokens[0] == Plain('?') {
        SubstitutedPrintable(tokens[1..], parameters, i + 1);
        var v := if i in parameters then parameters[i] else Null;
        assert Printable(ValueTokens(v)) by {
          if !IsQuoted(v) {
            forall t <- PlainTokens(Unquoted(v)) ensures t != Plain('\'') {
              var k :| 0 <= k < |Unquoted(v)| && PlainTokens(Unquoted(v))[k] == t;
              assert Unquoted(v)[k] in Unquoted(v);
            }
          }
        }
      } else {
        SubstitutedPrintable(tokens[1..], parameters, i);
      }
    }
  }

  /** Render then lex: for every template whose literals are closed and hold no placeholder, and values for
      all placeholders, the rendered statement lexes to the template's tokens with each placeholder replaced
      by the tokens of its value, except that literals that touch have merged. So it lexes to exactly
      those tokens if and only if no two literals touch. */
  lemma RenderThenLex(t: string, parameters: Parameters)
    requires Lex(t).Some? && HolesOutside(Lex(t).value) && NoStrayQuotes(parameters)
    requires Holes(Lex(t).value) <= |parameters| + 1
    ensures var wanted := Substituted(Lex(t).value, parameters, 0);
            && Lex(Render(t, parameters, 0)) == Some(Merge(wanted))
            && (Lex(Render(t, parameters, 0)) == Some(wanted) <==> Apart(wanted))
  {
    var tokens := Lex(t).value;
    PrintOfLex(t);
    RenderIsPrint(tokens, parameters, 0);
    SubstitutedPrintable(tokens, parameters, 0);
    LexOfPrint(Substituted(tokens, parameters, 0));
    MergeChangesNothingIff(Substituted(tokens, parameters, 0));
  }

  // ---- With quoted values only ------------------------------------------------------------

  predicate BecomesLiteral(t: Token) {
    t.Literal? || t == Plain('?')
  }

  /** No placeholder touches a literal or another placeholder, and no two literals touch. */
  predicate HolesApart(tokens: seq<Token>) {
    forall i | 0 <= i < |tokens| - 1 :: !(BecomesLiteral(tokens[i]) && BecomesLiteral(tokens[i + 1]))
  }

  predicate AllQuoted(parameters: Parameters, i: nat, n: nat) {
    forall k | i <= k < i + n :: k in parameters && IsQuoted(parameters[k])
  }

  lemma SubstitutedStep(tokens: seq<Token>, parameters: Parameters, i: nat)
    requires tokens != [] && AllQuoted(parameters, i, Holes(tokens))
    ensures var hole := tokens[0] == Plain('?');
            var next := if hole then i + 1 else i;
            && AllQuoted(parameters, next, Holes(tokens[1..]))
            && Substituted(tokens, parameters, i)
               == [if hole then Literal(Unquoted(parameters[i])) else tokens[0]] + Substituted(tokens[1..], parameters, next)
  {
  }

  lemma {:induction false} SubstitutedLength(tokens: seq<Token>, parameters: Parameters, i: nat)
    requires AllQuoted(parameters, i, Holes(tokens))
    ensures |Substituted(tokens, parameters, i)| == |tokens|
    decreases tokens
  {
    if tokens != [] {
      SubstitutedStep(tokens, parameters, i);
      SubstitutedLength(tokens[1..], parameters, if tokens[0] == Plain('?') then i + 1 else i);
    }
  }

  lemma HolesBefore(tokens: seq<Token>, k: nat)
    requires 0 < k < |tokens|
    ensures Holes(tokens[..k]) == (if tokens[0] == Plain('?') then 1 else 0) + Holes(tokens[1..][..k - 1])
  {
    assert tokens[..k][1..] == tokens[1..][..k - 1];
  }

  /** The k-th token, after substitution of quoted values. */
  lemma {:induction false} SubstitutedAt(tokens: seq<Token>, parameters: Parameters, i: nat, k: nat)
    requires k < |tokens| && AllQuoted(parameters, i, Holes(tokens))
    ensures |Substituted(tokens, parameters, i)| == |tokens|
    ensures var at := i + Holes(tokens[..k]);
            if tokens[k] == Plain('?')
            then at in parameters && Substituted(tokens, parameters, i)[k] == Literal(Unquoted(parameters[at]))
            else Substituted(tokens, parameters, i)[k] == tokens[k]
    decreases tokens
  {
    SubstitutedLength(tokens, parameters, i);
    SubstitutedStep(tokens, parameters, i);
    if k > 0 {
      HolesBefore(tokens, k);
      SubstitutedAt(tokens[1..], parameters, if tokens[0] == Plain('?') then i + 1 else i, k - 1);
    }
  }

  /** One token for each token of the template, a placeholder being one literal with its value's text. */
  predicate ReadsBack(tokens: seq<Token>, parameters: Parameters, read: seq<Token>) {
    && |read| == |tokens|
    && forall k | 0 <= k < |tokens| ::
         if tokens[k] == Plain('?')
         then var i := Holes(tokens[..k]); i in parameters && read[k] == Literal(Unquoted(parameters[i]))
         else read[k] == tokens[k]
  }

  lemma SubstitutedReadsBack(tokens: seq<Token>, parameters: Parameters)
    requires AllQuoted(parameters, 0, Holes(tokens))
    ensures ReadsBack(tokens, parameters, Substituted(tokens, parameters, 0))
  {
    SubstitutedLength(tokens, parameters, 0);
    forall k | 0 <= k < |tokens| {
      SubstitutedAt(tokens, parameters, 0, k);
    }
  }

  lemma ApartTogether(tokens: seq<Token>, parameters: Parameters, read: seq<Token>)
    requires ReadsBack(tokens, parameters, read)
    ensures HolesApart(tokens) <==> Apart(read)
  {
    assert forall k | 0 <= k < |tokens| :: read[k].Literal? <==> BecomesLiteral(tokens[k]);
  }

  /** With a string or other quoted value for every placeholder: the rendered statement lexes to one token
      for each token of the template, the i-th placeholder being one literal whose unescaped content is
      the i-th value, if and only if no placeholder touches a quote or another placeholder. */
  lemma QuotedValuesReadBackIff(t: string, parameters: Parameters)
    requires Lex(t).Some? && HolesOutside(Lex(t).value) && NoStrayQuotes(parameters)
    requires AllQuoted(parameters, 0, Holes(Lex(t).value))
    ensures var tokens := Lex(t).value;
            var read := Lex(Render(t, parameters, 0));
            HolesApart(tokens) <==> read.Some? && ReadsBack(tokens, parameters, read.value)
  {
    var tokens := Lex(t).value;
    var wanted := Substituted(tokens, parameters, 0);
    QuotedValuesCount(parameters, Holes(tokens));
    RenderThenLex(t, parameters);
    SubstitutedReadsBack(tokens, parameters);
    ApartTogether(tokens, parameters, wanted);
    if !Apart(wanted) {
      MergeShortens(wanted);
    }
  }

  lemma {:induction false} QuotedValuesCount(parameters: Parameters, n: nat)
    requires AllQuoted(parameters, 0, n)
    ensures n <= |parameters|
  {
    if n > 0 {
      var fewer := parameters - {n - 1};
      QuotedValuesCount(fewer, n - 1);
      assert fewer.Keys == parameters.Keys - {n - 1};
    }
  }

  lemma {:induction false} MergeShortens(tokens: seq<Token>)
    requires !Apart(tokens)
    ensures |Merge(tokens)| < |tokens|
    decreases |tokens|
  {
    if |tokens| > 1 && tokens[0].Literal? && tokens[1].Literal? {
    } else {
      assert !Apart(tokens[1..]) by {
        var i :| 0 <= i < |tokens| - 1 && tokens[i].Literal? && tokens[i + 1].Literal?;
        assert tokens[1..][i - 1].Literal? && tokens[1..][i].Literal?;
      }
      MergeShortens(tokens[1..]);
    }
  }
}
