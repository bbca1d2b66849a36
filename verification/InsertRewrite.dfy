/** The rewriting of an insert: a key column that is absent or NULL is replaced by the key the
    database generated, so that the statement can be replayed. */
module InsertRewrite {
  import opened Names
  import opened Wrappers

  type Column = string
  type Expression = string

  const NULL_TEXT: string := "NULL"

  predicate SameName(a: Column, b: Column) {
    Upper(a) == Upper(b)
  }

  /** A parsed insert; one row, or several, is a difference the parser makes. */
  class Insert {
    var columns: seq<Column>
    var rows: seq<seq<Expression>>

    constructor (columns: seq<Column>, rows: seq<seq<Expression>>)
      ensures this.columns == columns && this.rows == rows
    {
      this.columns := columns;
      this.rows := rows;
    }
  }

  // ---- The key column ----------------------------------------------------------------

  /** The first column with the key's name, if there is one. */
  predicate IsKeyIndex(columns: seq<Column>, pk: Column, index: int) {
    && -1 <= index < |columns|
    && (index >= 0 ==> SameName(columns[index], pk))
    && (forall i | 0 <= i < |columns| && (index == -1 || i < index) :: !SameName(columns[i], pk))
  }

  method FindKeyColumn(columns: seq<Column>, pk: Column) returns (pkIndex: int)
    ensures IsKeyIndex(columns, pk, pkIndex)
  {
    pkIndex := -1;
    for i := 0 to |columns|
      invariant pkIndex == -1
      invariant forall k | 0 <= k < i :: !SameName(columns[k], pk)
    {
      if Upper(columns[i]) == Upper(pk) {
        pkIndex := i;
        break;
      }
    }
  }

  // ---- Editing lists -------------------------------------------------------------------

  function Removed<T>(s: seq<T>, i: int): seq<T> {
    if 0 <= i < |s| then s[..i] + s[i + 1..] else s
  }

  /** How an analysis ends: the statement is to be used, the original text is to be kept, or an index was out of bounds. */
  datatype Outcome = Rewritten | KeepOriginal | IndexOutOfBounds

  /** The literal for a generated key. */
  function KeyLiteral(key: string): Expression {
    "'" + key + "'"
  }

  predicate IsNull(e: Expression) {
    Upper(e) == NULL_TEXT
  }

  /** NULL is recognised in any case, and only by its four letters. */
  lemma IsNullText(e: Expression)
    ensures IsNull(e) <==> |e| == 4 && e[0] in "Nn" && e[1] in "Uu" && e[2] in "Ll" && e[3] in "Ll"
  {
    assert NULL_TEXT == ['N', 'U', 'L', 'L'];
    if |e| == 4 {
      assert Upper(e) == [UpperChar(e[0]), UpperChar(e[1]), UpperChar(e[2]), UpperChar(e[3])];
      assert UpperChar(e[0]) == 'N' <==> e[0] in "Nn";
      assert UpperChar(e[1]) == 'U' <==> e[1] in "Uu";
      assert UpperChar(e[2]) == 'L' <==> e[2] in "Ll";
      assert UpperChar(e[3]) == 'L' <==> e[3] in "Ll";
    }
  }

  /** What a column of a row is: the expression at its position. */
  predicate Gives(columns: seq<Column>, row: seq<Expression>, c: Column, e: Expression) {
    exists i | 0 <= i < |columns| && i < |row| :: columns[i] == c && row[i] == e
  }

  /** A rewritten row belongs to its original: it is as wide as the columns, the key column gives the
      generated key, and every other column gives exactly what it gave before. */
  ghost predicate RowKept(columns: seq<Column>, row: seq<Expression>, pk: Column, key: string,
                          newColumns: seq<Column>, newRow: seq<Expression>) {
    && |newRow| == |newColumns|
    && (forall e :: Gives(newColumns, newRow, pk, e) <==> e == "'" + key + "'")
    && (forall c, e | !SameName(c, pk) :: Gives(newColumns, newRow, c, e) <==> Gives(columns, row, c, e))
  }

  /** Column names differ, ignoring case. */
  predicate DistinctNames(columns: seq<Column>) {
    forall i, j | 0 <= i < j < |columns| :: !SameName(columns[i], columns[j])
  }

  /** Where an element of a list comes from, and goes to, when one is removed. */
  lemma RemovedAt<T>(s: seq<T>, index: int, at: nat)
    requires -1 <= index < |s|
    ensures |Removed(s, index)| == if index >= 0 then |s| - 1 else |s|
    ensures at < |Removed(s, index)| ==> Removed(s, index)[at] == s[if index < 0 || at < index then at else at + 1]
    ensures at < |s| && at != index ==>
              var to := if index < 0 || at < index then at else at - 1;
              to < |Removed(s, index)| && Removed(s, index)[to] == s[at]
  {
  }

  lemma OthersComeFromTheRow(columns: seq<Column>, row: seq<Expression>, index: int, c: Column, e: Expression)
    requires -1 <= index < |columns| && |row| == |columns|
    requires Gives(Removed(columns, index), Removed(row, index), c, e)
    ensures Gives(columns, row, c, e)
  {
    var left, leftRow := Removed(columns, index), Removed(row, index);
    var i :| 0 <= i < |left| && i < |leftRow| && left[i] == c && leftRow[i] == e;
    RemovedAt(columns, index, i);
    RemovedAt(row, index, i);
  }

  lemma OthersStayInTheRow(columns: seq<Column>, row: seq<Expression>, pk: Column, index: int, c: Column, e: Expression)
    requires IsKeyIndex(columns, pk, index) && |row| == |columns| && !SameName(c, pk)
    requires Gives(columns, row, c, e)
    ensures Gives(Removed(columns, index), Removed(row, index), c, e)
  {
    var i :| 0 <= i < |columns| && i < |row| && columns[i] == c && row[i] == e;
    RemovedAt(columns, index, i);
    RemovedAt(row, index, i);
  }

  lemma KeyIsTakenOut(columns: seq<Column>, row: seq<Expression>, pk: Column, index: int, e: Expression)
    requires DistinctNames(columns) && IsKeyIndex(columns, pk, index) && |row| == |columns|
    ensures !Gives(Removed(columns, index), Removed(row, index), pk, e)
  {
    var left := Removed(columns, index);
    forall i | 0 <= i < |left| ensures left[i] != pk {
      RemovedAt(columns, index, i);
    }
  }

  /** One more column gives its own expression, and takes nothing away. */
  lemma GivesOneMore(columns: seq<Column>, row: seq<Expression>, pk: Column, last: Expression, c: Column, e: Expression)
    requires |row| == |columns|
    ensures Gives(columns + [pk], row + [last], c, e) <==> (c == pk && e == last) || Gives(columns, row, c, e)
  {
    var more, moreRow := columns + [pk], row + [last];
    assert more[|columns|] == pk && moreRow[|columns|] == last;
    if Gives(columns, row, c, e) {
      var i :| 0 <= i < |columns| && i < |row| && columns[i] == c && row[i] == e;
      assert more[i] == c && moreRow[i] == e;
    }
    if Gives(more, moreRow, c, e) {
      var i :| 0 <= i < |more| && i < |moreRow| && more[i] == c && moreRow[i] == e;
      assert i < |columns| ==> columns[i] == c && row[i] == e;
    }
  }

  lemma MovedKeyGives(columns: seq<Column>, row: seq<Expression>, pk: Column, index: int, last: Expression,
                      c: Column, e: Expression)
    requires DistinctNames(columns) && IsKeyIndex(columns, pk, index) && |row| == |columns|
    ensures var now := Gives(Removed(columns, index) + [pk], Removed(row, index) + [last], c, e);
            && (c == pk ==> (now <==> e == last))
            && (!SameName(c, pk) ==> (now <==> Gives(columns, row, c, e)))
  {
    RemovedAt(columns, index, 0);
    RemovedAt(row, index, 0);
    GivesOneMore(Removed(columns, index), Removed(row, index), pk, last, c, e);
    if c == pk {
      KeyIsTakenOut(columns, row, pk, index, e);
    } else if Gives(Removed(columns, index), Removed(row, index), c, e) {
      OthersComeFromTheRow(columns, row, index, c, e);
    } else if !SameName(c, pk) && Gives(columns, row, c, e) {
      OthersStayInTheRow(columns, row, pk, index, c, e);
    }
  }

  /** The columns and a row with the key column taken out and put back at the end. */
  lemma MovedKeyKeepsRow(columns: seq<Column>, row: seq<Expression>, pk: Column, index: int, key: string)
    requires DistinctNames(columns) && IsKeyIndex(columns, pk, index) && |row| == |columns|
    ensures RowKept(columns, row, pk, key, Removed(columns, index) + [pk], Removed(row, index) + [KeyLiteral(key)])
  {
    forall c, e {
      MovedKeyGives(columns, row, pk, index, KeyLiteral(key), c, e);
    }
    RemovedAt(columns, index, 0);
    RemovedAt(row, index, 0);
  }

  predicate Rectangular(columns: seq<Column>, rows: seq<seq<Expression>>) {
    forall r <- rows :: |r| == |columns|
  }

  /** The column list after its element at `index` has been removed `n` times, if that is possible. */
  function RemovedTimes(columns: seq<Column>, index: int, n: nat): Option<seq<Column>> {
    if n == 0 then Some(columns)
    else
      var before := RemovedTimes(columns, index, n - 1);
      if before.Some? && 0 <= index < |before.value| then Some(Removed(before.value, index)) else None
  }

  lemma {:induction false} RemovedTimesShortens(columns: seq<Column>, index: int, n: nat)
    ensures RemovedTimes(columns, index, n).Some? <==> n == 0 || 0 <= index <= |columns| - n
    ensures RemovedTimes(columns, index, n).Some? ==> |RemovedTimes(columns, index, n).value| == |columns| - n
  {
    if n > 0 {
      RemovedTimesShortens(columns, index, n - 1);
    }
  }

  /** Every row is NULL at the key column. */
  predicate AllNull(rows: seq<seq<Expression>>, index: int) {
    forall r <- rows :: 0 <= index < |r| && IsNull(r[index])
  }

  predicate NullKey(row: seq<Expression>, index: int) {
    0 <= index < |row| && IsNull(row[index])
  }

  predicate SetsKey(row: seq<Expression>, index: int) {
    0 <= index < |row| && !IsNull(row[index])
  }

  /** Taking the key column out of rows and a list of `width` columns goes through `n` rows, each of which is NULL there
      while the column list is long enough; then it stops at a row that sets its key, or at a column list that has
      become too short, or at the end. */
  predicate StopsAt(rows: seq<seq<Expression>>, width: int, index: int, n: nat, outcome: Outcome) {
    && n <= |rows|
    && (forall k | 0 <= k < n :: NullKey(rows[k], index) && index < width - k)
    && match outcome
       case Rewritten => n == |rows|
       case KeepOriginal => n < |rows| && SetsKey(rows[n], index)
       case IndexOutOfBounds => n < |rows| && NullKey(rows[n], index) && index >= width - n
  }

  /** That determines how it ends. */
  lemma StopsOnce(rows: seq<seq<Expression>>, width: int, index: int, n: nat, o: Outcome, n': nat, o': Outcome)
    requires StopsAt(rows, width, index, n, o) && StopsAt(rows, width, index, n', o')
    ensures n == n' && o == o'
  {
  }

  /** How the analysis ends: without a key column only too few keys stop it; with one, taking it out may end it first. */
  ghost predicate EndsAs(columns: seq<Column>, rows: seq<seq<Expression>>, index: int, keys: seq<string>, outcome: Outcome) {
    if index == -1 then outcome == if |keys| >= |rows| then Rewritten else IndexOutOfBounds
    else
      exists n, removal :: StopsAt(rows, |columns|, index, n, removal)
                           && outcome == if removal.Rewritten? && |keys| < |rows| then IndexOutOfBounds else removal
  }

  lemma RemovalMeans(columns: seq<Column>, rows: seq<seq<Expression>>, index: int, n: nat, removal: Outcome)
    requires StopsAt(rows, |columns|, index, n, removal) && 0 <= index < |columns|
    ensures removal.Rewritten? <==> AllNull(rows, index) && RemovedTimes(columns, index, |rows|).Some?
  {
    RemovedTimesShortens(columns, index, |rows|);
    if n < |rows| {
      assert rows[n] in rows;
    } else if |rows| > 0 {
      assert NullKey(rows[n - 1], index) && index < |columns| - (n - 1);
    }
  }

  /** With a key column: rewritten if and only if every row is NULL there, the name can be removed once per row, and there
      are keys for all rows; the original is kept if and only if the first row that stops it sets its key. */
  lemma EndsAsMeans(columns: seq<Column>, rows: seq<seq<Expression>>, index: int, keys: seq<string>, outcome: Outcome)
    requires EndsAs(columns, rows, index, keys, outcome) && 0 <= index < |columns|
    ensures outcome.Rewritten?
            <==> AllNull(rows, index) && RemovedTimes(columns, index, |rows|).Some? && |keys| >= |rows|
    ensures outcome.KeepOriginal? <==> exists n :: StopsAt(rows, |columns|, index, n, KeepOriginal)
  {
    var n, removal :| StopsAt(rows, |columns|, index, n, removal)
                      && outcome == if removal.Rewritten? && |keys| < |rows| then IndexOutOfBounds else removal;
    RemovalMeans(columns, rows, index, n, removal);
    if m :| StopsAt(rows, |columns|, index, m, KeepOriginal) {
      StopsOnce(rows, |columns|, index, n, removal, m, KeepOriginal);
    }
  }

  lemma SingleEnds(columns: seq<Column>, row: seq<Expression>, index: int, keys: seq<string>)
    requires 0 <= index < |columns| == |row|
    ensures EndsAs(columns, [row], index, keys,
                   if !IsNull(row[index]) then KeepOriginal else if keys == [] then IndexOutOfBounds else Rewritten)
  {
    if IsNull(row[index]) {
      assert StopsAt([row], |columns|, index, 1, Rewritten);
    } else {
      assert StopsAt([row], |columns|, index, 0, KeepOriginal);
    }
  }

  // ---- A single row -----------------------------------------------------------------------

  /** A single row: rewritten unless it sets its key itself, or the database generated no key. */
  method SingleInsertAnalyse(statement: Insert, pk: Column, pkIndex: int, keys: seq<string>) returns (outcome: Outcome)
    requires |statement.rows| == 1 && |statement.rows[0]| == |statement.columns|
    requires IsKeyIndex(statement.columns, pk, pkIndex)
    modifies statement
    ensures outcome.KeepOriginal? <==> pkIndex >= 0 && !IsNull(old(statement.rows)[0][pkIndex])
    ensures outcome.KeepOriginal? ==> unchanged(statement)
    ensures outcome.IndexOutOfBounds? <==> !outcome.KeepOriginal? && keys == []
    ensures EndsAs(old(statement.columns), old(statement.rows), pkIndex, keys, outcome)
    ensures outcome.Rewritten? ==>
              && statement.columns == Removed(old(statement.columns), pkIndex) + [pk]
              && statement.rows == [Removed(old(statement.rows)[0], pkIndex) + ["'" + keys[0] + "'"]]
    ensures outcome.Rewritten? && DistinctNames(old(statement.columns)) ==>
              RowKept(old(statement.columns), old(statement.rows)[0], pk, keys[0], statement.columns, statement.rows[0])
  {
    MovedKeyKeepsRowIfDistinct(statement.columns, statement.rows[0], pk, pkIndex, if keys == [] then "" else keys[0]);
    assert statement.rows == [statement.rows[0]];
    if pkIndex >= 0 {
      SingleEnds(statement.columns, statement.rows[0], pkIndex, keys);
    }
    if pkIndex > -1 {
      if Upper(statement.rows[0][pkIndex]) != NULL_TEXT {
        return KeepOriginal;
      }
      statement.rows := [Removed(statement.rows[0], pkIndex)];
      statement.columns := Removed(statement.columns, pkIndex);
    }
    statement.columns := statement.columns + [pk];
    if keys == [] {
      return IndexOutOfBounds;
    }
    statement.rows := [statement.rows[0] + [KeyLiteral(keys[0])]];
    return Rewritten;
  }

  lemma MovedKeyKeepsRowIfDistinct(columns: seq<Column>, row: seq<Expression>, pk: Column, index: int, key: string)
    requires IsKeyIndex(columns, pk, index) && |row| == |columns|
    ensures DistinctNames(columns) ==>
              RowKept(columns, row, pk, key, Removed(columns, index) + [pk], Removed(row, index) + [KeyLiteral(key)])
  {
    if DistinctNames(columns) {
      MovedKeyKeepsRow(columns, row, pk, index, key);
    }
  }

  // ---- Several rows ---------------------------------------------------------------------------

  /** The rows before `n` were NULL at the key column and have lost it; the others are as they were. */
  predicate RowsCut(rows0: seq<seq<Expression>>, rows: seq<seq<Expression>>, index: int, n: nat) {
    && |rows| == |rows0|
    && (forall k | 0 <= k < n && k < |rows| ::
          0 <= index < |rows0[k]| && IsNull(rows0[k][index]) && rows[k] == Removed(rows0[k], index))
    && (forall k | n <= k < |rows| :: rows[k] == rows0[k])
  }

  lemma RowCut(rows0: seq<seq<Expression>>, rows: seq<seq<Expression>>, index: int, n: nat)
    requires RowsCut(rows0, rows, index, n) && n < |rows| && 0 <= index < |rows[n]| && IsNull(rows[n][index])
    ensures RowsCut(rows0, rows[n := Removed(rows[n], index)], index, n + 1)
  {
  }

  /** The columns have lost the key column once for every row that has. */
  predicate CutBefore(columns0: seq<Column>, rows0: seq<seq<Expression>>, columns: seq<Column>, rows: seq<seq<Expression>>,
                      index: int, n: nat) {
    RemovedTimes(columns0, index, n) == Some(columns) && RowsCut(rows0, rows, index, n)
  }

  /** What taking out the key column leaves, and how it ends: `n` rows and names are cut, and in the last case one row
      more than names. */
  predicate RemovalEnds(columns0: seq<Column>, rows0: seq<seq<Expression>>, columns: seq<Column>, rows: seq<seq<Expression>>,
                        index: int, n: nat, outcome: Outcome) {
    && StopsAt(rows0, |columns0|, index, n, outcome)
    && RemovedTimes(columns0, index, n) == Some(columns)
    && RowsCut(rows0, rows, index, if outcome.IndexOutOfBounds? then n + 1 else n)
  }

  lemma StopsAfter(columns0: seq<Column>, rows0: seq<seq<Expression>>, columns: seq<Column>, rows: seq<seq<Expression>>,
                   index: int, n: nat)
    requires CutBefore(columns0, rows0, columns, rows, index, n) && n <= |rows|
    ensures forall k | 0 <= k < n :: NullKey(rows0[k], index) && index < |columns0| - k
    ensures |columns| == |columns0| - n
  {
    RemovedTimesShortens(columns0, index, n);
  }

  lemma StopsAtSetKey(columns0: seq<Column>, rows0: seq<seq<Expression>>, columns: seq<Column>, rows: seq<seq<Expression>>,
                      index: int, n: nat)
    requires CutBefore(columns0, rows0, columns, rows, index, n) && n < |rows| && SetsKey(rows[n], index)
    ensures RemovalEnds(columns0, rows0, columns, rows, index, n, KeepOriginal)
  {
    StopsAfter(columns0, rows0, columns, rows, index, n);
  }

  lemma StopsAtEndOfColumns(columns0: seq<Column>, rows0: seq<seq<Expression>>, columns: seq<Column>,
                            rows: seq<seq<Expression>>, index: int, n: nat)
    requires CutBefore(columns0, rows0, columns, rows, index, n) && n < |rows| && NullKey(rows[n], index)
    requires index >= |columns|
    ensures RemovalEnds(columns0, rows0, columns, rows[n := Removed(rows[n], index)], index, n, IndexOutOfBounds)
  {
    StopsAfter(columns0, rows0, columns, rows, index, n);
    RowCut(rows0, rows, index, n);
  }

  lemma CutOneMore(columns0: seq<Column>, rows0: seq<seq<Expression>>, columns: seq<Column>, rows: seq<seq<Expression>>,
                   index: int, n: nat)
    requires Rectangular(columns0, rows0) && 0 <= index < |columns0|
    requires CutBefore(columns0, rows0, columns, rows, index, n) && n < |rows|
    ensures index < |rows[n]|
    ensures var cut := rows[n := Removed(rows[n], index)];
            if !IsNull(rows[n][index]) then RemovalEnds(columns0, rows0, columns, rows, index, n, KeepOriginal)
            else if index >= |columns| then RemovalEnds(columns0, rows0, columns, cut, index, n, IndexOutOfBounds)
            else CutBefore(columns0, rows0, Removed(columns, index), cut, index, n + 1)
  {
    assert rows0[n] in rows0;
    if !IsNull(rows[n][index]) {
      StopsAtSetKey(columns0, rows0, columns, rows, index, n);
    } else if index >= |columns| {
      StopsAtEndOfColumns(columns0, rows0, columns, rows, index, n);
    } else {
      RowCut(rows0, rows, index, n);
    }
  }

  lemma AllCut(columns0: seq<Column>, rows0: seq<seq<Expression>>, columns: seq<Column>, rows: seq<seq<Expression>>, index: int)
    requires CutBefore(columns0, rows0, columns, rows, index, |rows|)
    ensures RemovalEnds(columns0, rows0, columns, rows, index, |rows|, Rewritten)
  {
    StopsAfter(columns0, rows0, columns, rows, index, |rows|);
  }

  /** Takes the key expression out of one row, and the name once. */
  method CutRow(statement: Insert, i: nat, pkIndex: int) returns (outcome: Outcome)
    requires i < |statement.rows| && 0 <= pkIndex < |statement.rows[i]|
    modifies statement
    ensures statement.rows == old(statement.rows)[i := Removed(old(statement.rows)[i], pkIndex)]
    ensures if pkIndex < |old(statement.columns)|
            then outcome.Rewritten? && statement.columns == Removed(old(statement.columns), pkIndex)
            else outcome.IndexOutOfBounds? && statement.columns == old(statement.columns)
  {
    statement.rows := statement.rows[i := Removed(statement.rows[i], pkIndex)];
    if pkIndex >= |statement.columns| {
      return IndexOutOfBounds;
    }
    statement.columns := Removed(statement.columns, pkIndex);
    return Rewritten;
  }

  /** Takes the key column out: its expression from every row, its name once for every row. */
  method RemoveKeyColumn(statement: Insert, pkIndex: int) returns (outcome: Outcome, ghost cut: nat)
    requires 0 <= pkIndex < |statement.columns| && Rectangular(statement.columns, statement.rows)
    modifies statement
    ensures RemovalEnds(old(statement.columns), old(statement.rows), statement.columns, statement.rows, pkIndex, cut, outcome)
  {
    ghost var columns0, rows0 := statement.columns, statement.rows;
    for i := 0 to |statement.rows|
      invariant CutBefore(columns0, rows0, statement.columns, statement.rows, pkIndex, i)
    {
      CutOneMore(columns0, rows0, statement.columns, statement.rows, pkIndex, i);
      var row := statement.rows[i];
      if !IsNull(row[pkIndex]) {
        return KeepOriginal, i;
      }
      outcome := CutRow(statement, i, pkIndex);
      if outcome.IndexOutOfBounds? {
        return outcome, i;
      }
    }
    AllCut(columns0, rows0, statement.columns, statement.rows, pkIndex);
    return Rewritten, |statement.rows|;
  }

  /** Appends the generated keys, one to each row. */
  method AppendKeys(statement: Insert, keys: seq<string>) returns (outcome: Outcome)
    modifies statement`rows
    ensures !outcome.KeepOriginal?
    ensures outcome.Rewritten? <==> |keys| >= |old(statement.rows)|
    ensures outcome.Rewritten? ==>
              && |statement.rows| == |old(statement.rows)|
              && forall i | 0 <= i < |statement.rows| :: statement.rows[i] == old(statement.rows)[i] + ["'" + keys[i] + "'"]
  {
    var n := |statement.rows|;
    ghost var rows0 := statement.rows;
    for i := 0 to n
      invariant |statement.rows| == n && i <= |keys|
      invariant forall k | 0 <= k < i :: statement.rows[k] == rows0[k] + [KeyLiteral(keys[k])]
      invariant forall k | i <= k < n :: statement.rows[k] == rows0[k]
    {
      if i >= |keys| {
        return IndexOutOfBounds;
      }
      statement.rows := statement.rows[i := statement.rows[i] + [KeyLiteral(keys[i])]];
    }
    return Rewritten;
  }

  /** Several rows: rewritten unless some row sets its key itself, an index runs out, or the database
      generated fewer keys than there are rows. */
  method MultiInsertAnalyse(statement: Insert, pk: Column, pkIndex: int, keys: seq<string>) returns (outcome: Outcome)
    requires Rectangular(statement.columns, statement.rows)
    requires IsKeyIndex(statement.columns, pk, pkIndex)
    modifies statement
    ensures EndsAs(old(statement.columns), old(statement.rows), pkIndex, keys, outcome)
    ensures pkIndex == -1 && outcome.Rewritten? ==>
              && statement.columns == old(statement.columns) + [pk]
              && |statement.rows| == |old(statement.rows)|
              && forall i | 0 <= i < |statement.rows| :: statement.rows[i] == old(statement.rows)[i] + [KeyLiteral(keys[i])]
    ensures outcome.KeepOriginal? ==> pkIndex >= 0
    ensures pkIndex >= 0 ==>
              (outcome.Rewritten? <==> && AllNull(old(statement.rows), pkIndex)
                                       && RemovedTimes(old(statement.columns), pkIndex, |old(statement.rows)|).Some?
                                       && |keys| >= |old(statement.rows)|)
    ensures pkIndex >= 0 && outcome.Rewritten? ==>
              && AllNull(old(statement.rows), pkIndex)
              && RemovedTimes(old(statement.columns), pkIndex, |old(statement.rows)|).Some?
              && statement.columns == RemovedTimes(old(statement.columns), pkIndex, |old(statement.rows)|).value + [pk]
              && |statement.rows| == |old(statement.rows)|
              && |keys| >= |statement.rows|
              && forall i | 0 <= i < |statement.rows| ::
                   statement.rows[i] == Removed(old(statement.rows)[i], pkIndex) + ["'" + keys[i] + "'"]
  {
    ghost var columns0, rows0 := statement.columns, statement.rows;
    if pkIndex > -1 {
      ghost var cut;
      outcome, cut := RemoveKeyColumn(statement, pkIndex);
      EndsAfterRemoval(columns0, rows0, statement.columns, statement.rows, pkIndex, cut, outcome, keys);
      if !outcome.Rewritten? {
        return;
      }
    }
    statement.columns := statement.columns + [pk];
    outcome := AppendKeys(statement, keys);
  }

  lemma EndsAfterRemoval(columns0: seq<Column>, rows0: seq<seq<Expression>>, columns: seq<Column>, rows: seq<seq<Expression>>,
                         index: int, n: nat, removal: Outcome, keys: seq<string>)
    requires RemovalEnds(columns0, rows0, columns, rows, index, n, removal)
    requires 0 <= index < |columns0| && Rectangular(columns0, rows0)
    ensures var outcome := if removal.Rewritten? && |keys| < |rows0| then IndexOutOfBounds else removal;
            && EndsAs(columns0, rows0, index, keys, outcome)
            && (outcome.Rewritten?
                <==> AllNull(rows0, index) && RemovedTimes(columns0, index, |rows0|).Some? && |keys| >= |rows0|)
    ensures removal.Rewritten? ==>
              && AllNull(rows0, index)
              && RemovedTimes(columns0, index, |rows0|) == Some(columns)
              && |rows| == |rows0|
              && forall i | 0 <= i < |rows| :: rows[i] == Removed(rows0[i], index)
  {
    var outcome := if removal.Rewritten? && |keys| < |rows0| then IndexOutOfBounds else removal;
    assert EndsAs(columns0, rows0, index, keys, outcome);
    EndsAsMeans(columns0, rows0, index, keys, outcome);
    if removal.Rewritten? {
      AllNullIfCut(rows0, rows, index);
    }
  }

  lemma AllNullIfCut(rows0: seq<seq<Expression>>, rows: seq<seq<Expression>>, index: int)
    requires RowsCut(rows0, rows, index, |rows0|)
    ensures AllNull(rows0, index)
  {
  }

  /** Any number of rows without the key column: every row keeps its values, gets its own generated
      key, and stays as wide as the column list. */
  lemma RowsWithoutKeyAreKept(columns: seq<Column>, rows: seq<seq<Expression>>, pk: Column, keys: seq<string>)
    requires DistinctNames(columns) && IsKeyIndex(columns, pk, -1) && Rectangular(columns, rows) && |keys| >= |rows|
    ensures forall i | 0 <= i < |rows| ::
              RowKept(columns, rows[i], pk, keys[i], columns + [pk], rows[i] + [KeyLiteral(keys[i])])
  {
    forall i | 0 <= i < |rows|
      ensures RowKept(columns, rows[i], pk, keys[i], columns + [pk], rows[i] + [KeyLiteral(keys[i])])
    {
      assert rows[i] in rows;
      MovedKeyKeepsRow(columns, rows[i], pk, -1, keys[i]);
    }
  }

  // ---- The strategy ------------------------------------------------------------------------------

  /** Every row of a rewritten statement belongs to its original row and has the generated key of its position. */
  ghost predicate RowsKept(columns: seq<Column>, rows: seq<seq<Expression>>, pk: Column, keys: seq<string>,
                           newColumns: seq<Column>, newRows: seq<seq<Expression>>) {
    && |newRows| == |rows| <= |keys|
    && forall i | 0 <= i < |rows| :: RowKept(columns, rows[i], pk, keys[i], newColumns, newRows[i])
  }

  /** The analysis of an insert: find the key column, then treat several rows or a single one.
      What is rewritten belongs to the original, row by row, if and only if there is a single row
      or no key column. */
  method Analyse(primaryKeys: seq<Column>, statement: Insert, several: bool, keys: seq<string>) returns (outcome: Outcome)
    requires Rectangular(statement.columns, statement.rows) && DistinctNames(statement.columns)
    requires |statement.rows| > 0 && (!several ==> |statement.rows| == 1)
    modifies statement
    ensures primaryKeys == [] ==> outcome.KeepOriginal?
    ensures primaryKeys != [] ==>
              exists index :: IsKeyIndex(old(statement.columns), primaryKeys[0], index)
                              && EndsAs(old(statement.columns), old(statement.rows), index, keys, outcome)
    ensures outcome.Rewritten? ==>
              (RowsKept(old(statement.columns), old(statement.rows), primaryKeys[0], keys, statement.columns, statement.rows)
               <==> |old(statement.rows)| == 1 || IsKeyIndex(old(statement.columns), primaryKeys[0], -1))
  {
    if primaryKeys == [] {
      return KeepOriginal;
    }
    var pk := primaryKeys[0];
    var pkIndex := FindKeyColumn(statement.columns, pk);
    ghost var columns, rows := statement.columns, statement.rows;
    assert rows[0] in rows;
    if several {
      outcome := MultiInsertAnalyse(statement, pk, pkIndex, keys);
      if outcome.Rewritten? {
        RowsFit(columns, rows, pk, pkIndex, keys, statement.columns, statement.rows);
      }
    } else {
      outcome := SingleInsertAnalyse(statement, pk, pkIndex, keys);
      assert outcome.Rewritten? ==> RowKept(columns, rows[0], pk, keys[0], statement.columns, statement.rows[0]);
    }
  }

  lemma RowsFit(columns: seq<Column>, rows: seq<seq<Expression>>, pk: Column, index: int, keys: seq<string>,
                newColumns: seq<Column>, newRows: seq<seq<Expression>>)
    requires DistinctNames(columns) && IsKeyIndex(columns, pk, index) && Rectangular(columns, rows)
    requires |newRows| == |rows| <= |keys| && 0 < |rows|
    requires forall i | 0 <= i < |rows| :: newRows[i] == Removed(rows[i], index) + [KeyLiteral(keys[i])]
    requires index == -1 ==> newColumns == columns + [pk]
    requires index >= 0 ==> RemovedTimes(columns, index, |rows|).Some?
                            && newColumns == RemovedTimes(columns, index, |rows|).value + [pk]
    ensures RowsKept(columns, rows, pk, keys, newColumns, newRows) <==> |rows| == 1 || index == -1
  {
    assert rows[0] in rows;
    if index == -1 {
      WithoutKeyFits(columns, rows, pk, keys, newColumns, newRows);
    } else if |rows| == 1 {
      OneRowFits(columns, rows, pk, index, keys, newColumns, newRows);
    } else {
      RemovedTimesShortens(columns, index, |rows|);
      assert |newRows[0]| == |columns| && |newColumns| == |columns| - |rows| + 1;
      WiderDoesNotFit(columns, rows, pk, keys, newColumns, newRows);
    }
  }

  /** Two rows of three columns that list the key as NULL are rewritten, and do not fit. */
  lemma TwoRowsMisfit(pk: Column, a: Column, b: Column, rows: seq<seq<Expression>>, keys: seq<string>)
    requires DistinctNames([pk, a, b]) && |rows| == 2 && |keys| >= 2
    requires Rectangular([pk, a, b], rows) && NullKey(rows[0], 0) && NullKey(rows[1], 0)
    ensures EndsAs([pk, a, b], rows, 0, keys, Rewritten)
    ensures RemovedTimes([pk, a, b], 0, 2) == Some([b])
    ensures !RowsKept([pk, a, b], rows, pk, keys, [b, pk],
                      [Removed(rows[0], 0) + [KeyLiteral(keys[0])], Removed(rows[1], 0) + [KeyLiteral(keys[1])]])
  {
    var columns := [pk, a, b];
    assert Removed(columns, 0) == [a, b] && Removed([a, b], 0) == [b];
    assert RemovedTimes(columns, 0, 1) == Some([a, b]);
    assert StopsAt(rows, 3, 0, 2, Rewritten);
    assert [b] + [pk] == [b, pk];
    RowsFit(columns, rows, pk, 0, keys, [b, pk],
            [Removed(rows[0], 0) + [KeyLiteral(keys[0])], Removed(rows[1], 0) + [KeyLiteral(keys[1])]]);
  }

  lemma OneRowFits(columns: seq<Column>, rows: seq<seq<Expression>>, pk: Column, index: int, keys: seq<string>,
                   newColumns: seq<Column>, newRows: seq<seq<Expression>>)
    requires DistinctNames(columns) && IsKeyIndex(columns, pk, index) && index >= 0
    requires |rows| == 1 && |newRows| == 1 && |keys| >= 1 && |rows[0]| == |columns|
    requires newRows[0] == Removed(rows[0], index) + [KeyLiteral(keys[0])]
    requires RemovedTimes(columns, index, 1).Some? && newColumns == RemovedTimes(columns, index, 1).value + [pk]
    ensures RowsKept(columns, rows, pk, keys, newColumns, newRows)
  {
    assert RemovedTimes(columns, index, 1) == Some(Removed(columns, index));
    MovedKeyKeepsRow(columns, rows[0], pk, index, keys[0]);
  }

  lemma WithoutKeyFits(columns: seq<Column>, rows: seq<seq<Expression>>, pk: Column, keys: seq<string>,
                       newColumns: seq<Column>, newRows: seq<seq<Expression>>)
    requires DistinctNames(columns) && IsKeyIndex(columns, pk, -1) && Rectangular(columns, rows)
    requires |newRows| == |rows| <= |keys| && newColumns == columns + [pk]
    requires forall i | 0 <= i < |rows| :: newRows[i] == rows[i] + [KeyLiteral(keys[i])]
    ensures RowsKept(columns, rows, pk, keys, newColumns, newRows)
  {
    RowsWithoutKeyAreKept(columns, rows, pk, keys);
  }

  lemma WiderDoesNotFit(columns: seq<Column>, rows: seq<seq<Expression>>, pk: Column, keys: seq<string>,
                        newColumns: seq<Column>, newRows: seq<seq<Expression>>)
    requires 0 < |rows| <= |newRows| && |newRows| <= |keys| && |newRows[0]| != |newColumns|
    ensures !RowsKept(columns, rows, pk, keys, newColumns, newRows)
  {
    assert RowsKept(columns, rows, pk, keys, newColumns, newRows) ==>
             RowKept(columns, rows[0], pk, keys[0], newColumns, newRows[0]);
  }
}
