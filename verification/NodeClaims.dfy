/** How the nodes of the transaction manager obtain distinct (data center, worker) pairs
    from a shared registry, and why no two of them ever draw the same id. */
module NodeClaims {
  import opened Wrappers
  import opened Snowflakes
  import opened Generators

  const LAST_ID: int := 31
  const PAIRS: nat := 961

  datatype Pair = Pair(dataCenterId: nat, workerId: nat)

  /** The pair tried after `vo`, and whether the search has wrapped around. */
  function NextKey(vo: Option<Pair>): (Pair, bool) {
    match vo
    case None => (Pair(1, 1), false)
    case Some(p) =>
      if p.workerId < LAST_ID then (p.(workerId := p.workerId + 1), false)
      else if p.dataCenterId < LAST_ID then (Pair(p.dataCenterId + 1, 1), false)
      else (Pair(1, 1), true)
  }

  predicate IsPair(p: Pair) {
    1 <= p.dataCenterId <= LAST_ID && 1 <= p.workerId <= LAST_ID
  }

  /** The k-th pair of 1 .. 31 by 1 .. 31, workers first. */
  function PairAt(k: nat): Pair {
    Pair(k / 31 + 1, k % 31 + 1)
  }

  predicate Before(p: Pair, q: Pair) {
    p.dataCenterId < q.dataCenterId || (p.dataCenterId == q.dataCenterId && p.workerId < q.workerId)
  }

  /** The numbering is one-to-one onto the pairs, in lexicographic order. */
  lemma PairsAreNumbered(k: nat, l: nat, p: Pair)
    requires k < PAIRS && l < PAIRS && IsPair(p)
    ensures IsPair(PairAt(k))
    ensures k < l <==> Before(PairAt(k), PairAt(l))
    ensures var i := (p.dataCenterId - 1) * 31 + p.workerId - 1; 0 <= i < PAIRS && PairAt(i) == p
  {
  }

  /** The search goes through the numbering and wraps after the last pair. */
  lemma NextKeyFollowsTheNumbering(k: nat)
    requires k < PAIRS
    ensures NextKey(Some(PairAt(k))) == if k + 1 < PAIRS then (PairAt(k + 1), false) else (Pair(1, 1), true)
  {
  }

  lemma EveryPairTried(attempts: seq<Pair>)
    requires |attempts| >= PAIRS && forall i | 0 <= i < PAIRS :: attempts[i] == PairAt(i)
    ensures forall p | IsPair(p) :: p in attempts
  {
    forall p | IsPair(p) ensures p in attempts {
      PairsAreNumbered(0, 0, p);
      assert attempts[(p.dataCenterId - 1) * 31 + p.workerId - 1] == p;
    }
  }

  // ---- The search of one node --------------------------------------------------

  /** What the registry answers to an attempt. */
  datatype Answer = Answer(isSetKey: bool, isHasKey: bool)

  predicate Accepted(a: Answer) {
    a.isSetKey && a.isHasKey
  }

  class TmNodeInitiator {
    var snowflakeVo: Option<Pair>
    var stopTrying: bool
    /** The pairs tried so far. */
    var attempts: seq<Pair>

    constructor ()
      ensures snowflakeVo == None && !stopTrying && attempts == []
    {
      snowflakeVo, stopTrying, attempts := None, false, [];
    }

    /** The search is on its way: the first pairs of the numbering were tried and refused. */
    ghost predicate Searching(registry: nat -> Answer)
      reads this
    {
      && !stopTrying
      && |attempts| <= PAIRS
      && (forall i | 0 <= i < |attempts| :: attempts[i] == PairAt(i) && !Accepted(registry(i)))
      && snowflakeVo == if attempts == [] then None else Some(attempts[|attempts| - 1])
    }

    method TryInit(answer: Answer) returns (ok: bool)
      modifies this
      ensures var (p, wrapped) := NextKey(old(snowflakeVo));
              snowflakeVo == Some(p) && stopTrying == (old(stopTrying) || wrapped) && attempts == old(attempts) + [p]
      ensures ok <==> answer.isSetKey && answer.isHasKey
    {
      var (p, wrapped) := NextKey(snowflakeVo);
      snowflakeVo := Some(p);
      if wrapped {
        stopTrying := true;
      }
      attempts := attempts + [p];
      ok := answer.isHasKey && answer.isSetKey;
    }

    /** Tries pairs until one is accepted or the search has wrapped; the registry answers attempt `i`
        with `registry(i)`, whatever that is. */
    method Init(registry: nat -> Answer) returns (claimed: bool)
      requires Searching(registry)
      modifies this
      decreases PAIRS + 1 - |attempts|
      ensures 0 < |attempts| <= PAIRS + 1
      // the pairs in order, each once, then the first again
      ensures forall i | 0 <= i < |attempts| :: attempts[i] == if i < PAIRS then PairAt(i) else Pair(1, 1)
      ensures snowflakeVo == Some(attempts[|attempts| - 1])
      // all but the last were refused; the last decides
      ensures forall i | 0 <= i < |attempts| - 1 :: !(registry(i).isSetKey && registry(i).isHasKey)
      ensures claimed <==> registry(|attempts| - 1).isSetKey && registry(|attempts| - 1).isHasKey
      // giving up means that every pair was tried, and so refused
      ensures !claimed ==> |attempts| == PAIRS + 1
      ensures !claimed ==> forall p | IsPair(p) :: p in attempts
    {
      ghost var n := |attempts|;
      if n > 0 {
        NextKeyFollowsTheNumbering(n - 1);
      }
      var ok := TryInit(registry(|attempts|));
      if ok {
        return true;
      }
      if stopTrying {
        EveryPairTried(attempts);
        return false;
      }
      claimed := Init(registry);
    }
  }

  // ---- Any number of nodes on one registry ----------------------------------------

  type NodeId = nat

  datatype Node = Node(vo: Option<Pair>, stop: bool, asked: Option<bool>, claimed: bool, calls: seq<seq<int>>) {
    predicate GaveUp() { stop && asked.None? && !claimed }
  }

  /** The registry remembers which node set a key; a claim is never released. */
  datatype Cluster = Cluster(nodes: map<NodeId, Node>, registry: map<Pair, NodeId>)

  datatype Step =
    | Start(n: NodeId)
    | SetIfAbsent(n: NodeId)               // the first half of tryInit
    | HasKey(n: NodeId)                    // the second half
    | Draw(n: NodeId, clock: seq<int>)     // one call of the node's generator

  const EMPTY: Cluster := Cluster(map[], map[])

  predicate Enabled(s: Cluster, step: Step) {
    if step.Start? then step.n !in s.nodes
    else step.n in s.nodes &&
         var node := s.nodes[step.n];
         match step
         case SetIfAbsent(_) => node.asked.None? && !node.claimed && !node.stop
         case HasKey(_) => node.asked.Some? && node.vo.Some?
         case Draw(_, clock) => (node.claimed || node.GaveUp()) && Run(node.calls + [clock]).Some?
  }

  function Do(s: Cluster, step: Step): Cluster
    requires Enabled(s, step)
  {
    match step
    case Start(n) => s.(nodes := s.nodes[n := Node(None, false, None, false, [])])
    case SetIfAbsent(n) =>
      var node := s.nodes[n];
      var (p, wrapped) := NextKey(node.vo);
      var set_ := p !in s.registry;
      Cluster(s.nodes[n := node.(vo := Some(p), stop := wrapped, asked := Some(set_))],
              if set_ then s.registry[p := n] else s.registry)
    case HasKey(n) =>
      var node := s.nodes[n];
      s.(nodes := s.nodes[n := node.(asked := None, claimed := node.asked.value && node.vo.value in s.registry)])
    case Draw(n, clock) =>
      s.(nodes := s.nodes[n := s.nodes[n].(calls := s.nodes[n].calls + [clock])])
  }

  function Exec(steps: seq<Step>): Option<Cluster> {
    if steps == [] then Some(EMPTY)
    else
      var before := Exec(steps[..|steps| - 1]);
      if before.Some? && Enabled(before.value, steps[|steps| - 1])
      then Some(Do(before.value, steps[|steps| - 1]))
      else None
  }

  /** The two halves of a node's attempt, with any steps of other nodes in between, claim the pair if and only if the
      registry answered as the initiator requires: it set the key, and it has the key. */
  lemma ClaimIsAccepted(s: Cluster, n: NodeId, u: Cluster)
    requires Enabled(s, SetIfAbsent(n))
    requires var t := Do(s, SetIfAbsent(n));
             n in u.nodes && u.nodes[n] == t.nodes[n] && forall p <- t.registry :: p in u.registry && u.registry[p] == t.registry[p]
    ensures Enabled(u, HasKey(n))
    ensures var (p, _) := NextKey(s.nodes[n].vo);
            && Do(u, HasKey(n)).nodes[n].vo == Some(p)
            && (Do(u, HasKey(n)).nodes[n].claimed <==> Accepted(Answer(p !in s.registry, p in u.registry)))
            && (Do(u, HasKey(n)).nodes[n].claimed <==> p !in s.registry)
  {
  }

  /** A node whose claim went through, or is about to, is the one the registry names for its pair. */
  predicate NodeOk(s: Cluster, n: NodeId) {
    n in s.nodes ==>
      var node := s.nodes[n];
      && (node.vo.Some? ==> IsPair(node.vo.value))
      && (node.claimed || node.asked == Some(true) ==>
            node.vo.Some? && node.vo.value in s.registry && s.registry[node.vo.value] == n)
      && (node.claimed ==> node.asked.None?)
      && (node.stop ==> node.vo == Some(Pair(1, 1)))
      && Run(node.calls).Some?
  }

  lemma StepKeepsNode(s: Cluster, step: Step, n: NodeId)
    requires Enabled(s, step) && NodeOk(s, n)
    ensures NodeOk(Do(s, step), n)
  {
  }

  lemma {:induction false} RunsKeepNode(steps: seq<Step>, n: NodeId)
    ensures Exec(steps).Some? ==> NodeOk(Exec(steps).value, n)
  {
    if steps != [] && Exec(steps).Some? {
      RunsKeepNode(steps[..|steps| - 1], n);
      StepKeepsNode(Exec(steps[..|steps| - 1]).value, steps[|steps| - 1], n);
    }
  }

  predicate Claimed(s: Cluster, n: NodeId) {
    n in s.nodes && s.nodes[n].claimed && s.nodes[n].vo.Some?
  }

  /** The generator of a node: its pair, and everything it has drawn. */
  function WhoIs(s: Cluster, n: NodeId): Identity
    requires n in s.nodes && s.nodes[n].vo.Some?
  {
    Identity(DEFAULT_EPOCH, s.nodes[n].vo.value.workerId, s.nodes[n].vo.value.dataCenterId)
  }

  function DrawnBy(s: Cluster, n: NodeId): seq<Stamp>
    requires n in s.nodes
  {
    var h := Run(s.nodes[n].calls);
    if h.Some? then h.value.drawn else []
  }

  lemma DistinctClaims(steps: seq<Step>, m: NodeId, n: NodeId)
    requires Exec(steps).Some? && m != n && Claimed(Exec(steps).value, m) && Claimed(Exec(steps).value, n)
    ensures Exec(steps).value.nodes[m].vo != Exec(steps).value.nodes[n].vo
  {
    RunsKeepNode(steps, m);
    RunsKeepNode(steps, n);
  }

  lemma {:induction false} SequencesInRange(calls: seq<seq<int>>)
    requires Run(calls).Some?
    ensures Run(calls).value.gen.sequence < SEQUENCES
    ensures forall s <- Run(calls).value.drawn :: s.sequence < SEQUENCES
  {
    if calls != [] {
      SequencesInRange(calls[..|calls| - 1]);
    }
  }

  lemma DifferentPairsDifferentIds(who: Identity, a: Stamp, other: Identity, b: Stamp)
    requires who.Valid() && other.Valid() && a.sequence < SEQUENCES && b.sequence < SEQUENCES
    requires who.workerId != other.workerId || who.dataCenterId != other.dataCenterId
    ensures IdOf(who, a) != IdOf(other, b)
  {
    UnpackInvertsPack(a.time - who.epoch, who.dataCenterId, who.workerId, a.sequence, who.epoch);
    UnpackInvertsPack(b.time - other.epoch, other.dataCenterId, other.workerId, b.sequence, other.epoch);
  }

  /** Global uniqueness: in every run, the ids drawn by two nodes whose claims went through differ whatever their clocks
      did; the ids of one node whose clock is in range differ if and only if no draw follows a failed wait before the
      clock has moved on. */
  lemma GlobalUniqueness(steps: seq<Step>, m: NodeId, n: NodeId)
    requires Exec(steps).Some? && Claimed(Exec(steps).value, m) && Claimed(Exec(steps).value, n)
    ensures var s := Exec(steps).value;
            m != n ==> forall i, j | 0 <= i < |DrawnBy(s, m)| && 0 <= j < |DrawnBy(s, n)| ::
                         IdOf(WhoIs(s, m), DrawnBy(s, m)[i]) != IdOf(WhoIs(s, n), DrawnBy(s, n)[j])
    ensures var s := Exec(steps).value;
            ClockInRange(WhoIs(s, m), s.nodes[m].calls) ==>
              (DistinctIds(Ids(WhoIs(s, m), DrawnBy(s, m))) <==> NeverRepeats(s.nodes[m].calls))
  {
    RunsKeepNode(steps, m);
    RunsKeepNode(steps, n);
    var s := Exec(steps).value;
    if m != n {
      DistinctClaims(steps, m, n);
      OtherPairsOtherIds(s, m, n);
    }
    if ClockInRange(WhoIs(s, m), s.nodes[m].calls) {
      IdsDistinctIff(WhoIs(s, m), s.nodes[m].calls);
    }
  }

  /** Two nodes with different pairs never draw the same id. */
  lemma OtherPairsOtherIds(s: Cluster, m: NodeId, n: NodeId)
    requires NodeOk(s, m) && NodeOk(s, n) && m in s.nodes && n in s.nodes
    requires s.nodes[m].vo.Some? && s.nodes[n].vo.Some? && s.nodes[m].vo != s.nodes[n].vo
    ensures forall i, j | 0 <= i < |DrawnBy(s, m)| && 0 <= j < |DrawnBy(s, n)| ::
              IdOf(WhoIs(s, m), DrawnBy(s, m)[i]) != IdOf(WhoIs(s, n), DrawnBy(s, n)[j])
  {
    SequencesInRange(s.nodes[m].calls);
    SequencesInRange(s.nodes[n].calls);
    forall i, j | 0 <= i < |DrawnBy(s, m)| && 0 <= j < |DrawnBy(s, n)|
      ensures IdOf(WhoIs(s, m), DrawnBy(s, m)[i]) != IdOf(WhoIs(s, n), DrawnBy(s, n)[j])
    {
      var a, b := DrawnBy(s, m)[i], DrawnBy(s, n)[j];
      assert a in DrawnBy(s, m) && b in DrawnBy(s, n);
      DifferentPairsDifferentIds(WhoIs(s, m), a, WhoIs(s, n), b);
    }
  }

  /** Every id a node has drawn names the node's pair. */
  lemma IdsNameTheNode(steps: seq<Step>, n: NodeId, i: nat)
    requires Exec(steps).Some? && Claimed(Exec(steps).value, n) && i < |DrawnBy(Exec(steps).value, n)|
    ensures var s := Exec(steps).value;
            var id := IdOf(WhoIs(s, n), DrawnBy(s, n)[i]);
            GetWorkerId(id) == s.nodes[n].vo.value.workerId && GetDataCenterId(id) == s.nodes[n].vo.value.dataCenterId
  {
    RunsKeepNode(steps, n);
    var s := Exec(steps).value;
    SequencesInRange(s.nodes[n].calls);
    assert DrawnBy(s, n)[i] in DrawnBy(s, n);
    IdsDecode(WhoIs(s, n), DrawnBy(s, n)[i]);
  }

  // ---- Nodes that gave up -------------------------------------------------------------

  predicate GaveUp(s: Cluster, n: NodeId) {
    n in s.nodes && s.nodes[n].GaveUp()
  }

  /** Two nodes that can draw have the same pair if and only if one gave up and the other gave up too or claimed
      (1, 1): a node that gives up goes on with that pair. */
  lemma SharedPairIff(steps: seq<Step>, m: NodeId, n: NodeId)
    requires Exec(steps).Some? && m != n
    requires var s := Exec(steps).value; (Claimed(s, m) || GaveUp(s, m)) && (Claimed(s, n) || GaveUp(s, n))
    ensures var s := Exec(steps).value;
            s.nodes[m].vo == s.nodes[n].vo
            <==> || (GaveUp(s, m) && (GaveUp(s, n) || s.nodes[n].vo == Some(Pair(1, 1))))
                 || (GaveUp(s, n) && s.nodes[m].vo == Some(Pair(1, 1)))
  {
    RunsKeepNode(steps, m);
    RunsKeepNode(steps, n);
  }

  lemma Extend(steps: seq<Step>, step: Step)
    requires Exec(steps).Some? && Enabled(Exec(steps).value, step)
    ensures Exec(steps + [step]) == Some(Do(Exec(steps).value, step))
  {
    assert (steps + [step])[..|steps + [step]| - 1] == steps;
  }

  predicate CanDraw(s: Cluster, n: NodeId) {
    Claimed(s, n) || (GaveUp(s, n) && s.nodes[n].vo.Some?)
  }

  /** A node that can draw keeps its pair. */
  lemma {:induction false} PairIsKept(before: seq<Step>, more: seq<Step>, n: NodeId)
    requires Exec(before).Some? && CanDraw(Exec(before).value, n) && Exec(before + more).Some?
    ensures CanDraw(Exec(before + more).value, n)
    ensures Exec(before + more).value.nodes[n].vo == Exec(before).value.nodes[n].vo
    decreases |more|
  {
    RunsKeepNode(before, n);
    if more == [] {
      assert before + more == before;
    } else {
      var last := |more| - 1;
      assert (before + more)[..|before + more| - 1] == before + more[..last];
      PairIsKept(before, more[..last], n);
      RunsKeepNode(before + more[..last], n);
    }
  }

  lemma LateDraw(calls: seq<seq<int>>, time: int)
    requires Run(calls).Some? && time > Run(calls).value.gen.lastTimestamp
    ensures Run(calls + [[time]]).Some?
    ensures Run(calls + [[time]]).value.drawn == Run(calls).value.drawn + [Stamp(time, 0)]
  {
    assert (calls + [[time]])[..|calls + [[time]]| - 1] == calls;
  }

  ghost predicate SameIdDrawn(s: Cluster, m: NodeId, n: NodeId)
    requires m in s.nodes && n in s.nodes && s.nodes[m].vo.Some? && s.nodes[n].vo.Some?
  {
    exists i, j | 0 <= i < |DrawnBy(s, m)| && 0 <= j < |DrawnBy(s, n)| ::
      IdOf(WhoIs(s, m), DrawnBy(s, m)[i]) == IdOf(WhoIs(s, n), DrawnBy(s, n)[j])
  }

  /** Two nodes with the same pair draw the same id as soon as both see the same new millisecond. */
  lemma SamePairSameId(before: seq<Step>, m: NodeId, n: NodeId) returns (more: seq<Step>)
    requires Exec(before).Some? && m != n && CanDraw(Exec(before).value, m) && CanDraw(Exec(before).value, n)
    requires Exec(before).value.nodes[m].vo == Exec(before).value.nodes[n].vo
    ensures Exec(before + more).Some?
    ensures var t := Exec(before + more).value;
            CanDraw(t, m) && CanDraw(t, n) && SameIdDrawn(t, m, n)
  {
    RunsKeepNode(before, m);
    RunsKeepNode(before, n);
    var s := Exec(before).value;
    var a, b := Run(s.nodes[m].calls).value.gen.lastTimestamp, Run(s.nodes[n].calls).value.gen.lastTimestamp;
    var time := if a < b then b + 1 else a + 1;
    LateDraw(s.nodes[m].calls, time);
    LateDraw(s.nodes[n].calls, time);
    Extend(before, Draw(m, [time]));
    Extend(before + [Draw(m, [time])], Draw(n, [time]));
    more := [Draw(m, [time]), Draw(n, [time])];
    assert before + more == before + [Draw(m, [time])] + [Draw(n, [time])];
    var t := Exec(before + more).value;
    var i, j := |DrawnBy(s, m)|, |DrawnBy(s, n)|;
    assert DrawnBy(t, m)[i] == Stamp(time, 0) && DrawnBy(t, n)[j] == Stamp(time, 0);
    assert IdOf(WhoIs(t, m), DrawnBy(t, m)[i]) == IdOf(WhoIs(t, n), DrawnBy(t, n)[j]);
  }

  /** Two nodes that can draw, given up or not, draw the same id in some continuation if and only if they share a pair. */
  lemma SameIdIffSharedPair(steps: seq<Step>, m: NodeId, n: NodeId)
    requires Exec(steps).Some? && m != n && CanDraw(Exec(steps).value, m) && CanDraw(Exec(steps).value, n)
    ensures (exists more: seq<Step> ::
               && Exec(steps + more).Some?
               && CanDraw(Exec(steps + more).value, m) && CanDraw(Exec(steps + more).value, n)
               && SameIdDrawn(Exec(steps + more).value, m, n))
            <==> Exec(steps).value.nodes[m].vo == Exec(steps).value.nodes[n].vo
  {
    if Exec(steps).value.nodes[m].vo == Exec(steps).value.nodes[n].vo {
      var more := SamePairSameId(steps, m, n);
    } else {
      forall more: seq<Step> | Exec(steps + more).Some?
        ensures CanDraw(Exec(steps + more).value, m) && CanDraw(Exec(steps + more).value, n)
        ensures !SameIdDrawn(Exec(steps + more).value, m, n)
      {
        PairIsKept(steps, more, m);
        PairIsKept(steps, more, n);
        RunsKeepNode(steps + more, m);
        RunsKeepNode(steps + more, n);
        OtherPairsOtherIds(Exec(steps + more).value, m, n);
      }
    }
  }

  const NEW_NODE: Node := Node(None, false, None, false, [])

  /** One attempt at a pair that is taken. */
  lemma Refused(before: seq<Step>, n: NodeId) returns (steps: seq<Step>)
    requires Exec(before).Some? && n in Exec(before).value.nodes
    requires var node := Exec(before).value.nodes[n];
             !node.stop && node.asked.None? && !node.claimed && NextKey(node.vo).0 in Exec(before).value.registry
    ensures var s := Exec(before).value;
            var node := s.nodes[n];
            var (p, wrapped) := NextKey(node.vo);
            Exec(steps) == Some(s.(nodes := s.nodes[n := node.(vo := Some(p), stop := wrapped)]))
  {
    Extend(before, SetIfAbsent(n));
    Extend(before + [SetIfAbsent(n)], HasKey(n));
    steps := before + [SetIfAbsent(n)] + [HasKey(n)];
    var s := Exec(before).value;
    var node := s.nodes[n];
    var (p, wrapped) := NextKey(node.vo);
    var asked := node.(vo := Some(p), stop := wrapped, asked := Some(false));
    assert s.nodes[n := asked][n := asked.(asked := None, claimed := false)] == s.nodes[n := node.(vo := Some(p), stop := wrapped)];
  }

  function Reached(j: nat): Option<Pair> {
    if j == 0 then None else Some(PairAt(j - 1))
  }

  lemma NextReached(j: nat)
    requires j <= PAIRS
    ensures NextKey(Reached(j)) == if j < PAIRS then (PairAt(j), false) else (Pair(1, 1), true)
  {
    if j > 0 {
      NextKeyFollowsTheNumbering(j - 1);
    }
  }

  /** A new node is refused the first `j` pairs. */
  lemma {:induction false} Walk(before: seq<Step>, n: NodeId, j: nat) returns (steps: seq<Step>)
    requires Exec(before).Some? && n !in Exec(before).value.nodes && j <= PAIRS
    requires forall i | 0 <= i < j :: PairAt(i) in Exec(before).value.registry
    ensures var s := Exec(before).value;
            Exec(steps) == Some(s.(nodes := s.nodes[n := NEW_NODE.(vo := Reached(j))]))
  {
    var s := Exec(before).value;
    if j == 0 {
      Extend(before, Start(n));
      steps := before + [Start(n)];
    } else {
      var walked := Walk(before, n, j - 1);
      NextReached(j - 1);
      assert PairAt(j - 1) in s.registry;
      steps := Refused(walked, n);
      var node := NEW_NODE.(vo := Reached(j - 1));
      assert s.nodes[n := node][n := node.(vo := Reached(j))] == s.nodes[n := node.(vo := Reached(j))];
    }
  }

  /** The first `k` pairs are claimed by the nodes 0 .. k - 1, in order; no other node has started. */
  predicate Filled(s: Cluster, k: nat) {
    && (forall i | 0 <= i < PAIRS :: PairAt(i) in s.registry <==> i < k)
    && (forall n <- s.nodes :: n < k)
    && (k > 0 ==> 0 in s.nodes && s.nodes[0] == Node(Some(Pair(1, 1)), false, None, true, []))
  }

  lemma {:induction false} Fill(k: nat) returns (steps: seq<Step>)
    requires k <= PAIRS
    ensures Exec(steps).Some? && Filled(Exec(steps).value, k)
  {
    if k == 0 {
      steps := [];
    } else {
      var before := Fill(k - 1);
      var n := k - 1;
      var walked := Walk(before, n, n);
      NextReached(n);
      Extend(walked, SetIfAbsent(n));
      Extend(walked + [SetIfAbsent(n)], HasKey(n));
      steps := walked + [SetIfAbsent(n)] + [HasKey(n)];
      var s := Exec(before).value;
      assert Exec(steps).value.registry == s.registry[PairAt(n) := n];
      ClaimFills(s, Exec(steps).value, k);
    }
  }

  lemma ClaimFills(s: Cluster, t: Cluster, k: nat)
    requires 0 < k <= PAIRS && Filled(s, k - 1)
    requires t.registry == s.registry[PairAt(k - 1) := k - 1] && t.nodes.Keys == s.nodes.Keys + {k - 1}
    requires t.nodes[k - 1] == Node(Some(PairAt(k - 1)), false, None, true, [])
    requires forall n <- s.nodes | n != k - 1 :: t.nodes[n] == s.nodes[n]
    ensures Filled(t, k)
  {
    forall i | 0 <= i < PAIRS ensures PairAt(i) in t.registry <==> i < k {
      PairsAreNumbered(i, k - 1, Pair(1, 1));
      PairsAreNumbered(k - 1, i, Pair(1, 1));
    }
  }

  /** With all pairs claimed, the next node gives up, and then draws the id that the first node draws. */
  lemma GivingUpRepeatsAnId(time: int) returns (steps: seq<Step>, m: NodeId, n: NodeId)
    requires time > -1
    ensures Exec(steps).Some? && m != n && Claimed(Exec(steps).value, m) && GaveUp(Exec(steps).value, n)
    ensures var s := Exec(steps).value;
            && s.nodes[n].vo.Some? && |DrawnBy(s, m)| == 1 && |DrawnBy(s, n)| == 1
            && IdOf(WhoIs(s, m), DrawnBy(s, m)[0]) == IdOf(WhoIs(s, n), DrawnBy(s, n)[0])
  {
    m, n := 0, PAIRS;
    var filled := Fill(PAIRS);
    var walked := Walk(filled, n, PAIRS);
    NextReached(PAIRS);
    assert PairAt(0) == Pair(1, 1) && PairAt(0) in Exec(filled).value.registry;
    var refused := Refused(walked, n);
    FirstDraw(time);
    assert [] + [[time]] == [[time]];
    Extend(refused, Draw(n, [time]));
    Extend(refused + [Draw(n, [time])], Draw(m, [time]));
    steps := refused + [Draw(n, [time])] + [Draw(m, [time])];
  }

  lemma FirstDraw(time: int)
    requires time > -1
    ensures Run([[time]]) == Some(History(Generator(0, time), [Stamp(time, 0)], false))
  {
    assert [[time]][..0] == [];
    assert Run([]) == Some(History(FRESH, [], false));
    assert [] + [Stamp(time, 0)] == [Stamp(time, 0)];
  }
}
