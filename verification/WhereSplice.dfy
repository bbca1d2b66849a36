/** The rewriting of an update or delete: `and pk in (...)` is appended to its text, with the keys
    its where clause selects now. Appending is done on text, so what the result means depends
    on how a parser groups it. */
module WhereSplice {
  import opened Wrappers

  type Key = string

  /** A comparison of the statement, or the membership test that is appended. */
  datatype Comparison = Compare(id: nat) | KeyIn(keys: seq<Key>)

  datatype Token = Atom(comparison: Comparison) | NotToken | AndToken | OrToken | Open | Close

  /** A where clause as a parser sees it, with its parentheses. */
  datatype Expr =
    | Leaf(comparison: Comparison)
    | Not(e: Expr)
    | And(l: Expr, r: Expr)
    | Or(l: Expr, r: Expr)
    | Paren(e: Expr)

  // ---- Grammar: NOT binds tighter than AND, AND tighter than OR -----------------------

  /** A disjunction, a conjunction, or something that binds tighter. */
  datatype Level = Disjunction | Conjunction | Primary

  /** The expression is what the grammar can produce at this level without further parentheses. */
  predicate At(e: Expr, level: Level) {
    match e
    case Or(l, r) => level.Disjunction? && At(l, Conjunction) && At(r, Disjunction)
    case And(l, r) => !level.Primary? && At(l, Primary) && At(r, Conjunction)
    case Not(x) => At(x, Primary)
    case Paren(x) => At(x, Disjunction)
    case Leaf(_) => true
  }

  function Print(e: Expr): seq<Token> {
    match e
    case Leaf(c) => [Atom(c)]
    case Not(x) => [NotToken] + Print(x)
    case And(l, r) => Print(l) + [AndToken] + Print(r)
    case Or(l, r) => Print(l) + [OrToken] + Print(r)
    case Paren(x) => [Open] + Print(x) + [Close]
  }

  type Parsed = Option<(Expr, seq<Token>)>

  function Starts(ts: seq<Token>, t: Token): bool {
    ts != [] && ts[0] == t
  }

  function ParseDisjunction(ts: seq<Token>): (p: Parsed)
    ensures p.Some? ==> |p.value.1| < |ts|
    decreases |ts|, 2
  {
    var l := ParseConjunction(ts);
    if l.None? || !Starts(l.value.1, OrToken) then l
    else
      var r := ParseDisjunction(l.value.1[1..]);
      if r.None? then None else Some((Or(l.value.0, r.value.0), r.value.1))
  }

  function ParseConjunction(ts: seq<Token>): (p: Parsed)
    ensures p.Some? ==> |p.value.1| < |ts|
    decreases |ts|, 1
  {
    var l := ParsePrimary(ts);
    if l.None? || !Starts(l.value.1, AndToken) then l
    else
      var r := ParseConjunction(l.value.1[1..]);
      if r.None? then None else Some((And(l.value.0, r.value.0), r.value.1))
  }

  function ParsePrimary(ts: seq<Token>): (p: Parsed)
    ensures p.Some? ==> |p.value.1| < |ts|
    decreases |ts|, 0
  {
    if ts == [] then None
    else
      match ts[0]
      case Atom(c) => Some((Leaf(c), ts[1..]))
      case NotToken =>
        var x := ParsePrimary(ts[1..]);
        if x.None? then None else Some((Not(x.value.0), x.value.1))
      case Open =>
        var x := ParseDisjunction(ts[1..]);
        if x.None? || !Starts(x.value.1, Close) then None else Some((Paren(x.value.0), x.value.1[1..]))
      case _ => None
  }

  /** The expression of a whole where clause. */
  function Parse(ts: seq<Token>): Option<Expr> {
    var p := ParseDisjunction(ts);
    if p.Some? && p.value.1 == [] then Some(p.value.0) else None
  }

  function ParseAt(ts: seq<Token>, level: Level): Parsed {
    match level
    case Disjunction => ParseDisjunction(ts)
    case Conjunction => ParseConjunction(ts)
    case Primary => ParsePrimary(ts)
  }

  /** The text that follows does not continue an expression of this level. */
  predicate Stops(rest: seq<Token>, level: Level) {
    match level
    case Disjunction => !Starts(rest, AndToken) && !Starts(rest, OrToken)
    case Conjunction => !Starts(rest, AndToken)
    case Primary => true
  }

  /** Parsing inverts printing. */
  lemma {:induction false} ParseOfPrint(e: Expr, rest: seq<Token>, level: Level)
    requires At(e, level) && Stops(rest, level)
    ensures ParseAt(Print(e) + rest, level) == Some((e, rest))
    decreases e, match level case Primary => 0 case Conjunction => 1 case Disjunction => 2
  {
    if e.Or? {
      Followed(Print(e.l), OrToken, Print(e.r), rest);
      ParseOfPrint(e.l, [OrToken] + (Print(e.r) + rest), Conjunction);
      ParseOfPrint(e.r, rest, Disjunction);
    } else if level.Disjunction? {
      ParseOfPrint(e, rest, Conjunction);
    } else if e.And? {
      Followed(Print(e.l), AndToken, Print(e.r), rest);
      ParseOfPrint(e.l, [AndToken] + (Print(e.r) + rest), Primary);
      ParseOfPrint(e.r, rest, Conjunction);
    } else if level.Conjunction? {
      ParseOfPrint(e, rest, Primary);
    } else if e.Leaf? {
      Followed([], Atom(e.comparison), [], rest);
    } else if e.Not? {
      ParseOfPrint(e.e, rest, Primary);
      Followed([], NotToken, Print(e.e), rest);
    } else {
      ParseOfPrint(e.e, [Close] + rest, Disjunction);
      Followed([Open], Close, Print(e.e), rest);
      assert Print(e) + rest == [Open] + (Print(e.e) + ([Close] + rest));
    }
  }

  lemma Followed(left: seq<Token>, t: Token, right: seq<Token>, rest: seq<Token>)
    ensures left + [t] + right + rest == left + ([t] + (right + rest))
    ensures [t] + right + rest == [t] + (right + rest)
    ensures ([t] + (right + rest))[1..] == right + rest
    ensures right == [] ==> right + rest == rest
  {
  }

  /** What is parsed prints back to the tokens it was parsed from. */
  lemma {:induction false} PrintOfParse(ts: seq<Token>, level: Level)
    requires ParseAt(ts, level).Some?
    ensures var (e, rest) := ParseAt(ts, level).value; At(e, level) && ts == Print(e) + rest
    decreases |ts|, match level case Primary => 1 case Conjunction => 2 case Disjunction => 3
  {
    match level
    case Disjunction =>
      PrintOfParse(ts, Conjunction);
      var (l, rest) := ParseConjunction(ts).value;
      if Starts(rest, OrToken) {
        PrintOfParse(rest[1..], Disjunction);
        var (r, end) := ParseDisjunction(rest[1..]).value;
        Middle(ts, Print(l), rest, OrToken, Print(r), end);
      } else {
        AtHigher(l, Conjunction);
      }
    case Conjunction =>
      PrintOfParse(ts, Primary);
      var (l, rest) := ParsePrimary(ts).value;
      if Starts(rest, AndToken) {
        PrintOfParse(rest[1..], Conjunction);
        var (r, end) := ParseConjunction(rest[1..]).value;
        Middle(ts, Print(l), rest, AndToken, Print(r), end);
      } else {
        AtHigher(l, Primary);
      }
    case Primary =>
      PrintOfPrimary(ts);
  }

  lemma {:induction false} PrintOfPrimary(ts: seq<Token>)
    requires ParsePrimary(ts).Some?
    ensures var (e, rest) := ParsePrimary(ts).value; At(e, Primary) && ts == Print(e) + rest
    decreases |ts|, 0
  {
    if ts[0].Atom? {
      assert ts == [ts[0]] + ts[1..];
    } else if ts[0].NotToken? {
      PrintOfParse(ts[1..], Primary);
      assert ts == [NotToken] + ts[1..];
    } else {
      PrintOfParse(ts[1..], Disjunction);
      var (x, rest) := ParseDisjunction(ts[1..]).value;
      Enclosed(ts, Print(x), rest);
    }
  }

  lemma Middle(ts: seq<Token>, left: seq<Token>, rest: seq<Token>, t: Token, right: seq<Token>, end: seq<Token>)
    requires ts == left + rest && Starts(rest, t) && rest[1..] == right + end
    ensures ts == left + [t] + right + end
  {
    assert rest == [t] + (right + end);
  }

  lemma Enclosed(ts: seq<Token>, inner: seq<Token>, rest: seq<Token>)
    requires Starts(ts, Open) && ts[1..] == inner + rest && Starts(rest, Close)
    ensures ts == [Open] + inner + [Close] + rest[1..]
  {
    assert ts == [Open] + (inner + rest);
    assert rest == [Close] + rest[1..];
  }

  lemma AtHigher(e: Expr, level: Level)
    requires At(e, level)
    ensures level.Primary? ==> At(e, Conjunction)
    ensures At(e, Disjunction)
  {
  }

  /** The expression with a comparison conjoined to its last disjunct. */
  function Graft(e: Expr, c: Comparison): Expr {
    match e
    case Or(l, r) => Or(l, Graft(r, c))
    case And(l, r) => And(l, Graft(r, c))
    case _ => And(e, Leaf(c))
  }

  lemma {:induction false} PrintOfGraft(e: Expr, c: Comparison, level: Level)
    requires At(e, level)
    ensures At(Graft(e, c), if level.Primary? then Conjunction else level)
    ensures Print(Graft(e, c)) == Print(e) + [AndToken, Atom(c)]
  {
    match e
    case Or(l, r) =>
      PrintOfGraft(r, c, Disjunction);
      assert Print(l) + [OrToken] + (Print(r) + [AndToken, Atom(c)]) == Print(e) + [AndToken, Atom(c)];
    case And(l, r) =>
      PrintOfGraft(r, c, Conjunction);
      assert Print(l) + [AndToken] + (Print(r) + [AndToken, Atom(c)]) == Print(e) + [AndToken, Atom(c)];
    case _ =>
      assert Print(e) + [AndToken] + [Atom(c)] == Print(e) + [AndToken, Atom(c)];
  }

  /** Appending `and c` to the text of any where clause is read as grafting `c` onto its last disjunct. */
  lemma SpliceIsGraft(ts: seq<Token>, c: Comparison)
    requires Parse(ts).Some?
    ensures Parse(ts + [AndToken, Atom(c)]) == Some(Graft(Parse(ts).value, c))
  {
    var e := Parse(ts).value;
    PrintOfParse(ts, Disjunction);
    assert ts == Print(e) + [];
    PrintOfGraft(e, c, Disjunction);
    ParseOfPrint(Graft(e, c), [], Disjunction);
    assert Print(Graft(e, c)) + [] == ts + [AndToken, Atom(c)];
  }

  /** Every expression the grammar can produce is the where clause of some text. */
  lemma EveryClauseHasAText(e: Expr)
    requires At(e, Disjunction)
    ensures Parse(Print(e)) == Some(e)
  {
    ParseOfPrint(e, [], Disjunction);
    assert Print(e) + [] == Print(e);
  }

  /** The precedences, on text: a OR b AND c, a AND b OR c, NOT a AND b. */
  lemma Precedences(a: Comparison, b: Comparison, c: Comparison)
    ensures Parse([Atom(a), OrToken, Atom(b), AndToken, Atom(c)]) == Some(Or(Leaf(a), And(Leaf(b), Leaf(c))))
    ensures Parse([Atom(a), AndToken, Atom(b), OrToken, Atom(c)]) == Some(Or(And(Leaf(a), Leaf(b)), Leaf(c)))
    ensures Parse([NotToken, Atom(a), AndToken, Atom(b)]) == Some(And(Not(Leaf(a)), Leaf(b)))
  {
    EveryClauseHasAText(Or(Leaf(a), And(Leaf(b), Leaf(c))));
    EveryClauseHasAText(Or(And(Leaf(a), Leaf(b)), Leaf(c)));
    EveryClauseHasAText(And(Not(Leaf(a)), Leaf(b)));
    assert Print(Or(Leaf(a), And(Leaf(b), Leaf(c)))) == [Atom(a), OrToken, Atom(b), AndToken, Atom(c)];
    assert Print(Or(And(Leaf(a), Leaf(b)), Leaf(c))) == [Atom(a), AndToken, Atom(b), OrToken, Atom(c)];
    assert Print(And(Not(Leaf(a)), Leaf(b))) == [NotToken, Atom(a), AndToken, Atom(b)];
  }

  // ---- Three-valued meaning --------------------------------------------------------------

  datatype Truth = True | False | Unknown

  function NotOf(a: Truth): Truth {
    match a case True => False case False => True case Unknown => Unknown
  }

  function AndOf(a: Truth, b: Truth): Truth {
    if a.False? || b.False? then False else if a.True? && b.True? then True else Unknown
  }

  function OrOf(a: Truth, b: Truth): Truth {
    if a.True? || b.True? then True else if a.False? && b.False? then False else Unknown
  }

  function Rank(t: Truth): int {
    match t case False => 0 case Unknown => 1 case True => 2
  }

  /** The truth tables: with unknown between false and true, AND is the lesser, OR the greater, NOT turns the order round. */
  lemma TruthTables(a: Truth, b: Truth)
    ensures Rank(AndOf(a, b)) == if Rank(a) < Rank(b) then Rank(a) else Rank(b)
    ensures Rank(OrOf(a, b)) == if Rank(a) < Rank(b) then Rank(b) else Rank(a)
    ensures Rank(NotOf(a)) == 2 - Rank(a)
  {
  }

  /** How comparisons come out on rows, and the key of a row. */
  datatype Meaning<!R> = Meaning(compare: (nat, R) -> Truth, key: R -> Key)

  function Eval<R>(e: Expr, row: R, m: Meaning<R>): Truth {
    match e
    case Leaf(Compare(id)) => m.compare(id, row)
    case Leaf(KeyIn(keys)) => if m.key(row) in keys then True else False
    case Not(x) => NotOf(Eval(x, row, m))
    case And(l, r) => AndOf(Eval(l, row, m), Eval(r, row, m))
    case Or(l, r) => OrOf(Eval(l, row, m), Eval(r, row, m))
    case Paren(x) => Eval(x, row, m)
  }

  predicate Selects<R>(e: Expr, row: R, m: Meaning<R>) {
    Eval(e, row, m).True?
  }

  /** The keys of the rows a where clause selects, in order. */
  function Captured<R>(e: Expr, rows: seq<R>, m: Meaning<R>): seq<Key> {
    if rows == [] then []
    else (if Selects(e, rows[0], m) then [m.key(rows[0])] else []) + Captured(e, rows[1..], m)
  }

  lemma {:induction false} CapturedKeys<R>(e: Expr, rows: seq<R>, m: Meaning<R>, row: R)
    requires row in rows && Selects(e, row, m)
    ensures m.key(row) in Captured(e, rows, m)
  {
    if rows[0] != row {
      CapturedKeys(e, rows[1..], m, row);
    }
  }

  /** A key is captured exactly if a selected row has it. */
  lemma {:induction false} CapturedIff<R>(e: Expr, rows: seq<R>, m: Meaning<R>, k: Key)
    ensures k in Captured(e, rows, m) <==> exists row <- rows :: Selects(e, row, m) && m.key(row) == k
  {
    if rows != [] {
      CapturedIff(e, rows[1..], m, k);
      assert rows == [rows[0]] + rows[1..];
    }
  }

  /** Keys are captured row by row, in the order of the rows. */
  lemma {:induction false} CapturedInOrder<R>(e: Expr, a: seq<R>, row: R, b: seq<R>, m: Meaning<R>)
    ensures Captured(e, a + [row] + b, m)
            == Captured(e, a, m) + (if Selects(e, row, m) then [m.key(row)] else []) + Captured(e, b, m)
  {
    if a == [] {
      assert a + [row] + b == [row] + b;
      assert ([row] + b)[1..] == b;
    } else {
      CapturedInOrder(e, a[1..], row, b, m);
      assert (a + [row] + b)[1..] == a[1..] + [row] + b;
      var head := if Selects(e, a[0], m) then [m.key(a[0])] else [];
      Regroup(head, Captured(e, a[1..], m), if Selects(e, row, m) then [m.key(row)] else [], Captured(e, b, m));
    }
  }

  lemma Regroup(a: seq<Key>, b: seq<Key>, c: seq<Key>, d: seq<Key>)
    ensures a + (b + c + d) == a + b + c + d
  {
  }

  /** On a row whose key is listed nothing changes; on any row nothing more is selected. */
  lemma {:induction false} GraftNarrows<R>(e: Expr, keys: seq<Key>, row: R, m: Meaning<R>)
    ensures m.key(row) in keys ==> Eval(Graft(e, KeyIn(keys)), row, m) == Eval(e, row, m)
    ensures Selects(Graft(e, KeyIn(keys)), row, m) ==> Selects(e, row, m)
    ensures Eval(e, row, m).False? ==> Eval(Graft(e, KeyIn(keys)), row, m).False?
  {
    match e
    case Or(_, r) => GraftNarrows(r, keys, row, m);
    case And(_, r) => GraftNarrows(r, keys, row, m);
    case _ =>
  }

  /** Splicing preserves meaning: for every where clause, on the rows the keys were read from, the spliced
      text selects exactly the rows the clause selects, although the test binds to the last disjunct only. */
  lemma SplicingKeepsMeaning<R>(ts: seq<Token>, rows: seq<R>, m: Meaning<R>, row: R)
    requires Parse(ts).Some? && row in rows
    ensures var e := Parse(ts).value;
            var spliced := Parse(ts + [AndToken, Atom(KeyIn(Captured(e, rows, m)))]);
            spliced.Some? && (Selects(spliced.value, row, m) <==> Selects(e, row, m))
  {
    var e := Parse(ts).value;
    var keys := Captured(e, rows, m);
    SpliceIsGraft(ts, KeyIn(keys));
    GraftNarrows(e, keys, row, m);
    if Selects(e, row, m) {
      CapturedKeys(e, rows, m, row);
    }
  }

  // ---- Later states --------------------------------------------------------------------------

  /** All disjuncts of a clause but the last, if it has more than one. */
  function EarlierDisjuncts(e: Expr): Option<Expr> {
    if !e.Or? then None
    else
      var more := EarlierDisjuncts(e.r);
      Some(if more.None? then e.l else Or(e.l, more.value))
  }

  /** On a row whose key was not captured, the rewritten clause is its earlier disjuncts. */
  lemma {:induction false} UncapturedRows<R>(e: Expr, keys: seq<Key>, row: R, m: Meaning<R>)
    requires At(e, Disjunction) && m.key(row) !in keys
    ensures Selects(Graft(e, KeyIn(keys)), row, m)
            <==> EarlierDisjuncts(e).Some? && Selects(EarlierDisjuncts(e).value, row, m)
  {
    if e.Or? {
      UncapturedRows(e.r, keys, row, m);
    } else {
      ConjunctionNeedsKey(e, keys, row, m);
    }
  }

  lemma {:induction false} ConjunctionNeedsKey<R>(e: Expr, keys: seq<Key>, row: R, m: Meaning<R>)
    requires At(e, Conjunction) && m.key(row) !in keys
    ensures !Selects(Graft(e, KeyIn(keys)), row, m)
  {
    if e.And? {
      ConjunctionNeedsKey(e.r, keys, row, m);
    } else {
      assert Eval(Leaf(KeyIn(keys)), row, m).False?;
    }
  }

  /** The rewritten clause touches only captured rows. */
  ghost predicate Confined<R>(e: Expr, keys: seq<Key>, rows: seq<R>, m: Meaning<R>) {
    forall row <- rows :: Selects(Graft(e, KeyIn(keys)), row, m) ==> m.key(row) in keys
  }

  /** Replay confinement, and exactly when it holds: on any later state, with any keys captured before,
      the rewritten statement touches only rows whose key was captured if and only if its clause has no
      top-level OR or every row that the disjuncts before the last one select is captured. */
  lemma ReplayConfinedIff<R>(ts: seq<Token>, keys: seq<Key>, rows: seq<R>, m: Meaning<R>)
    requires Parse(ts).Some?
    ensures var e := Parse(ts).value;
            && Parse(ts + [AndToken, Atom(KeyIn(keys))]) == Some(Graft(e, KeyIn(keys)))
            && (!e.Or? ==> Confined(e, keys, rows, m))
            && (Confined(e, keys, rows, m) <==>
                  !e.Or? || forall row <- rows :: Selects(EarlierDisjuncts(e).value, row, m) ==> m.key(row) in keys)
  {
    var e := Parse(ts).value;
    SpliceIsGraft(ts, KeyIn(keys));
    PrintOfParse(ts, Disjunction);
    forall row | row in rows && m.key(row) !in keys
      ensures Selects(Graft(e, KeyIn(keys)), row, m)
              <==> e.Or? && Selects(EarlierDisjuncts(e).value, row, m)
    {
      UncapturedRows(e, keys, row, m);
    }
  }

  function OnlyFirstHolds(id: nat, row: Key): Truth {
    if id == 0 then True else False
  }

  function OwnKey(row: Key): Key {
    row
  }

  /** A clause with a top-level OR does touch rows added later. */
  lemma TopLevelOrEscapes(keys: seq<Key>, added: Key)
    requires added !in keys
    ensures var ts := [Atom(Compare(0)), OrToken, Atom(Compare(1))];
            && Parse(ts) == Some(Or(Leaf(Compare(0)), Leaf(Compare(1))))
            && !Confined(Parse(ts).value, keys, [added], Meaning(OnlyFirstHolds, OwnKey))
  {
    var e := Or(Leaf(Compare(0)), Leaf(Compare(1)));
    EveryClauseHasAText(e);
    assert Print(e) == [Atom(Compare(0)), OrToken, Atom(Compare(1))];
    var m := Meaning(OnlyFirstHolds, OwnKey);
    assert Eval(Leaf(Compare(0)), added, m).True?;
    assert added in [added] && Selects(Graft(e, KeyIn(keys)), added, m);
  }
}
