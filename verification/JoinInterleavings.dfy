/** Any number of join handlers on one group, each reading the group from Redis and writing it back
    in a separate step. The steps of different handlers interleave in any way. */
module JoinInterleavings {
  import opened TransactionGroups
  import opened Wrappers

  /** What each handler adds. */
  datatype Join = Join(key: string, moduleName: string)

  function Entry(j: Join): TransactionInfo {
    TransactionInfo(j.key, j.moduleName, Joiner)
  }

  datatype Step = Read(i: nat) | Write(i: nat)

  /** The stored group, the copies read and not yet written back, and the handlers that have written, in order. */
  datatype State = State(store: Option<Group>, copies: map<nat, Option<Group>>, written: seq<nat>)

  predicate Enabled(joins: seq<Join>, s: State, step: Step) {
    match step
    case Read(i) => i < |joins| && i !in s.copies && i !in s.written
    case Write(i) => i < |joins| && i in s.copies
  }

  function Do(joins: seq<Join>, s: State, step: Step): State
    requires Enabled(joins, s, step)
  {
    match step
    case Read(i) => s.(copies := s.copies[i := s.store])
    case Write(i) =>
      var copy := s.copies[i];
      State(if copy.Some? then Some(WithJoiner(copy.value, joins[i].key, joins[i].moduleName)) else s.store,
            s.copies - {i}, s.written + [i])
  }

  function Exec(joins: seq<Join>, start: Option<Group>, steps: seq<Step>): Option<State> {
    if steps == [] then Some(State(start, map[], []))
    else
      var before := Exec(joins, start, steps[..|steps| - 1]);
      if before.Some? && Enabled(joins, before.value, steps[|steps| - 1])
      then Some(Do(joins, before.value, steps[|steps| - 1]))
      else None
  }

  /** No handler reads while another is between its read and its write. */
  predicate Serial(joins: seq<Join>, start: Option<Group>, steps: seq<Step>) {
    steps == [] ||
    var before := Exec(joins, start, steps[..|steps| - 1]);
    && Serial(joins, start, steps[..|steps| - 1])
    && (steps[|steps| - 1].Read? && before.Some? ==> before.value.copies == map[])
  }

  /** Every handler has read and written. */
  predicate Complete(joins: seq<Join>, s: State) {
    s.copies == map[] && forall i | 0 <= i < |joins| :: i in s.written
  }

  predicate Has(g: Option<Group>, j: Join) {
    g.Some? && Entry(j) in g.value.infos
  }

  /** The group has an entry more for every join; entries of one connection may be equal, so they are counted. */
  predicate AllStored(joins: seq<Join>, start: Option<Group>, s: State) {
    start.Some? && s.store.Some? && |s.store.value.infos| == |start.value.infos| + |joins|
  }

  /** The joins are of different connections, none of them in the group before. */
  predicate NewKeys(joins: seq<Join>, start: Option<Group>) {
    && (forall i, j | 0 <= i < j < |joins| :: joins[i].key != joins[j].key)
    && (forall i | 0 <= i < |joins| :: !Has(start, joins[i]))
  }

  /** The entry of a handler is nowhere before its write. */
  predicate NotYet(joins: seq<Join>, s: State) {
    forall i | 0 <= i < |joins| && i !in s.written ::
      !Has(s.store, joins[i]) && forall k <- s.copies :: !Has(s.copies[k], joins[i])
  }

  predicate WritersAreDone(joins: seq<Join>, s: State) {
    forall i <- s.copies :: i < |joins| && i !in s.written
  }

  lemma StepKeepsNotYet(joins: seq<Join>, start: Option<Group>, s: State, step: Step)
    requires NewKeys(joins, start) && Enabled(joins, s, step) && NotYet(joins, s) && WritersAreDone(joins, s)
    ensures NotYet(joins, Do(joins, s, step)) && WritersAreDone(joins, Do(joins, s, step))
  {
    var t := Do(joins, s, step);
    forall i | 0 <= i < |joins| && i !in t.written
      ensures !Has(t.store, joins[i]) && forall k <- t.copies :: !Has(t.copies[k], joins[i])
    {
      assert i !in s.written;
    }
  }

  // ---- Handlers one after another ------------------------------------------------------

  predicate InRange(joins: seq<Join>, order: seq<nat>) {
    forall k | 0 <= k < |order| :: order[k] < |joins|
  }

  function Entries(joins: seq<Join>, order: seq<nat>): (r: seq<TransactionInfo>)
    requires InRange(joins, order)
    ensures |r| == |order| && forall k | 0 <= k < |r| :: r[k] == Entry(joins[order[k]])
  {
    seq(|order|, k requires 0 <= k < |order| => Entry(joins[order[k]]))
  }

  /** The group is what it was and the entries written, in order; the one copy there may be is that group. */
  predicate InOrder(joins: seq<Join>, start: Option<Group>, s: State) {
    && InRange(joins, s.written)
    && (start.Some? ==> s.store == Some(start.value.(infos := start.value.infos + Entries(joins, s.written))))
    && (start.None? ==> s.store.None?)
    && (forall i <- s.copies :: s.copies[i] == s.store && s.copies.Keys == {i})
  }

  lemma StepKeepsInOrder(joins: seq<Join>, start: Option<Group>, s: State, step: Step)
    requires Enabled(joins, s, step) && InOrder(joins, start, s) && (step.Read? ==> s.copies == map[])
    ensures InOrder(joins, start, Do(joins, s, step))
  {
    var t := Do(joins, s, step);
    if step.Write? {
      assert t.copies.Keys == s.copies.Keys - {step.i} == {};
      if start.Some? {
        assert Entries(joins, t.written) == Entries(joins, s.written) + [Entry(joins[step.i])];
        var infos := start.value.infos;
        assert infos + Entries(joins, s.written) + [Entry(joins[step.i])] == infos + Entries(joins, t.written);
      }
    }
  }

  lemma {:induction false} SerialRunsInOrder(joins: seq<Join>, start: Option<Group>, steps: seq<Step>)
    requires Exec(joins, start, steps).Some? && Serial(joins, start, steps)
    ensures InOrder(joins, start, Exec(joins, start, steps).value)
  {
    if steps == [] {
      if start.Some? {
        assert start.value.infos + Entries(joins, []) == start.value.infos;
      }
    } else {
      var before := steps[..|steps| - 1];
      SerialRunsInOrder(joins, start, before);
      StepKeepsInOrder(joins, start, Exec(joins, start, before).value, steps[|steps| - 1]);
    }
  }

  // ---- Handlers that overlap: counting -----------------------------------------------------

  function Size(g: Option<Group>): nat {
    if g.Some? then |g.value.infos| else 0
  }

  /** The group and its copies have at most an entry for every write. */
  predicate Bounded(base: nat, s: State) {
    && s.store.Some? && Size(s.store) <= base + |s.written|
    && forall k <- s.copies :: s.copies[k].Some? && Size(s.copies[k]) <= base + |s.written|
  }

  predicate ShortCopies(base: nat, s: State) {
    forall k <- s.copies :: Size(s.copies[k]) < base + |s.written|
  }

  /** A write is lost already, or will be: the group and its copies are too short, or a copy about to be written back is,
      or two handlers are between their read and their write. */
  predicate Losing(base: nat, s: State) {
    || (Size(s.store) < base + |s.written| && ShortCopies(base, s))
    || (|s.copies| >= 1 && ShortCopies(base, s))
    || |s.copies| >= 2
  }

  lemma CopiesAfter(joins: seq<Join>, s: State, step: Step)
    requires Enabled(joins, s, step)
    ensures |Do(joins, s, step).copies| == if step.Read? then |s.copies| + 1 else |s.copies| - 1
  {
    var t := Do(joins, s, step);
    if step.Read? {
      assert t.copies.Keys == s.copies.Keys + {step.i};
    } else {
      assert t.copies.Keys == s.copies.Keys - {step.i};
    }
  }

  lemma StepKeepsBounded(joins: seq<Join>, base: nat, s: State, step: Step)
    requires Enabled(joins, s, step) && Bounded(base, s)
    ensures Bounded(base, Do(joins, s, step))
  {
  }

  lemma StepKeepsLosing(joins: seq<Join>, base: nat, s: State, step: Step)
    requires Enabled(joins, s, step) && Bounded(base, s) && Losing(base, s)
    ensures Losing(base, Do(joins, s, step))
  {
    CopiesAfter(joins, s, step);
  }

  lemma {:induction false} RunsStayBounded(joins: seq<Join>, start: Option<Group>, steps: seq<Step>)
    requires start.Some? && Exec(joins, start, steps).Some?
    ensures Bounded(Size(start), Exec(joins, start, steps).value)
  {
    if steps != [] {
      var before := steps[..|steps| - 1];
      RunsStayBounded(joins, start, before);
      StepKeepsBounded(joins, Size(start), Exec(joins, start, before).value, steps[|steps| - 1]);
    }
  }

  lemma {:induction false} OverlappedRunsLose(joins: seq<Join>, start: Option<Group>, steps: seq<Step>)
    requires start.Some? && Exec(joins, start, steps).Some? && !Serial(joins, start, steps)
    ensures Losing(Size(start), Exec(joins, start, steps).value)
  {
    var before, step := steps[..|steps| - 1], steps[|steps| - 1];
    var s := Exec(joins, start, before).value;
    RunsStayBounded(joins, start, before);
    if Serial(joins, start, before) {
      assert s.copies != map[];
      CopiesAfter(joins, s, step);
    } else {
      OverlappedRunsLose(joins, start, before);
      StepKeepsLosing(joins, Size(start), s, step);
    }
  }

  /** Each handler writes once. */
  predicate WrittenOnce(joins: seq<Join>, s: State) {
    && InRange(joins, s.written)
    && (forall k, l | 0 <= k < l < |s.written| :: s.written[k] != s.written[l])
    && (forall i <- s.copies :: i !in s.written)
  }

  lemma {:induction false} RunsWriteOnce(joins: seq<Join>, start: Option<Group>, steps: seq<Step>)
    requires Exec(joins, start, steps).Some?
    ensures WrittenOnce(joins, Exec(joins, start, steps).value)
  {
    if steps != [] {
      RunsWriteOnce(joins, start, steps[..|steps| - 1]);
    }
  }

  function Elements(order: seq<nat>): set<nat> {
    set i | i in order
  }

  lemma OrderCounts(order: seq<nat>, n: nat)
    requires forall k | 0 <= k < |order| :: order[k] < n
    requires forall k, l | 0 <= k < l < |order| :: order[k] != order[l]
    requires forall i | 0 <= i < n :: i in order
    ensures |order| == n
  {
    DistinctCount(order);
    assert Elements(order) == Below(n);
  }

  function Below(n: nat): (r: set<nat>)
    ensures |r| == n && forall i: nat :: i in r <==> i < n
  {
    if n == 0 then {} else Below(n - 1) + {n - 1}
  }

  lemma {:induction false} DistinctCount(order: seq<nat>)
    requires forall k, l | 0 <= k < l < |order| :: order[k] != order[l]
    ensures |Elements(order)| == |order|
  {
    if order != [] {
      var rest := order[1..];
      DistinctCount(rest);
      assert order == [order[0]] + rest;
      assert Elements(order) == {order[0]} + Elements(rest);
      assert order[0] !in rest;
    }
  }

  /** In every complete interleaving of any number of joins, whoever joins, every join has its entry if and only if the
      group is known and no two handlers overlap; and then the group is what it was and the entries, each once, in the
      order they were written. An overlap loses at least one. */
  lemma AllStoredIffSerial(joins: seq<Join>, start: Option<Group>, steps: seq<Step>)
    requires Exec(joins, start, steps).Some? && Complete(joins, Exec(joins, start, steps).value)
    ensures var s := Exec(joins, start, steps).value;
            && (AllStored(joins, start, s) <==> start.Some? && Serial(joins, start, steps))
            && (start.Some? && !Serial(joins, start, steps) ==> Size(s.store) < Size(start) + |joins|)
            && (AllStored(joins, start, s) ==>
                  && WrittenOnce(joins, s) && |s.written| == |joins|
                  && s.store.value.infos == start.value.infos + Entries(joins, s.written))
  {
    var s := Exec(joins, start, steps).value;
    RunsWriteOnce(joins, start, steps);
    OrderCounts(s.written, |joins|);
    if start.Some? {
      if Serial(joins, start, steps) {
        SerialRunsInOrder(joins, start, steps);
      } else {
        OverlappedRunsLose(joins, start, steps);
      }
    }
  }

  // ---- Handlers that overlap: which entries are lost ----------------------------------------

  predicate Both(joins: seq<Join>, g: Option<Group>, i: nat, j: nat)
    requires i < |joins| && j < |joins|
  {
    Has(g, joins[i]) && Has(g, joins[j])
  }

  predicate Started(s: State, i: nat) {
    i in s.copies || i in s.written
  }

  /** The entries of two handlers are in no stored group and no copy together, and neither handler will write them so. */
  predicate Apart(joins: seq<Join>, s: State, i: nat, j: nat) {
    && i < |joins| && j < |joins| && i != j && Started(s, i) && Started(s, j)
    && !Both(joins, s.store, i, j)
    && (forall k <- s.copies :: !Both(joins, s.copies[k], i, j))
    && (i in s.copies ==> !Has(s.copies[i], joins[j]))
    && (j in s.copies ==> !Has(s.copies[j], joins[i]))
  }

  lemma StepKeepsApart(joins: seq<Join>, start: Option<Group>, s: State, step: Step, i: nat, j: nat)
    requires NewKeys(joins, start) && Enabled(joins, s, step) && Apart(joins, s, i, j)
    ensures Apart(joins, Do(joins, s, step), i, j)
  {
  }

  lemma {:induction false} RunsKeepNotYet(joins: seq<Join>, start: Option<Group>, steps: seq<Step>)
    requires NewKeys(joins, start) && Exec(joins, start, steps).Some?
    ensures NotYet(joins, Exec(joins, start, steps).value) && WritersAreDone(joins, Exec(joins, start, steps).value)
  {
    if steps != [] {
      var before := steps[..|steps| - 1];
      RunsKeepNotYet(joins, start, before);
      StepKeepsNotYet(joins, start, Exec(joins, start, before).value, steps[|steps| - 1]);
    }
  }

  /** Two handlers that overlapped stay apart to the end of the run. */
  lemma {:induction false} OverlappedStayApart(joins: seq<Join>, start: Option<Group>, steps: seq<Step>) returns (i: nat, j: nat)
    requires NewKeys(joins, start) && Exec(joins, start, steps).Some? && !Serial(joins, start, steps)
    ensures Apart(joins, Exec(joins, start, steps).value, i, j)
  {
    var before, step := steps[..|steps| - 1], steps[|steps| - 1];
    var s := Exec(joins, start, before).value;
    if Serial(joins, start, before) {
      RunsKeepNotYet(joins, start, before);
      assert step.Read? && s.copies != map[];
      j := step.i;
      i :| i in s.copies;
    } else {
      i, j := OverlappedStayApart(joins, start, before);
      StepKeepsApart(joins, start, s, step, i, j);
    }
  }

  /** In a complete run with an overlap of different connections, of two of them one is not in the group at all. This is
      why the participants of a group have to be called one after another. */
  lemma OverlappingJoinsLoseOne(joins: seq<Join>, start: Option<Group>, steps: seq<Step>) returns (i: nat, j: nat)
    requires NewKeys(joins, start) && Exec(joins, start, steps).Some? && !Serial(joins, start, steps)
    requires Complete(joins, Exec(joins, start, steps).value)
    ensures i < |joins| && j < |joins| && i != j
    ensures var s := Exec(joins, start, steps).value; !(Has(s.store, joins[i]) && Has(s.store, joins[j]))
  {
    i, j := OverlappedStayApart(joins, start, steps);
  }
}
