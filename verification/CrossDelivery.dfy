/** When a reply can reach a request that did not ask for it. A reply is stored in the lock it was
    taken from, whoever holds that lock by then. Whether that ever shows depends on where the lock
    is: with a waiter that has yet to read, on its way back to another waiter, or out of reach. */
module CrossDelivery {
  import opened LockPool
  import opened Wrappers

  // ---- Runs and their prefixes -------------------------------------------------------

  lemma {:induction false} PrefixRuns(steps: seq<Step>, k: nat)
    requires Exec(steps).Some? && k <= |steps|
    ensures Exec(steps[..k]).Some?
    decreases |steps|
  {
    if k < |steps| {
      PrefixRuns(steps[..|steps| - 1], k);
      assert steps[..|steps| - 1][..k] == steps[..k];
    } else {
      assert steps[..k] == steps;
    }
  }

  predicate NoStores(steps: seq<Step>) {
    forall step <- steps :: !step.Store?
  }

  // ---- Timely is exactly clean, all the way --------------------------------------------

  predicate CleanAfter(steps: seq<Step>, k: nat)
    requires k <= |steps|
  {
    Exec(steps[..k]).Some? ==> Clean(Exec(steps[..k]).value)
  }

  predicate CleanThroughout(steps: seq<Step>) {
    forall k | 0 <= k <= |steps| :: CleanAfter(steps, k)
  }

  lemma CleanAfterPrefix(steps: seq<Step>, n: nat, k: nat)
    requires k <= n <= |steps|
    ensures CleanAfter(steps[..n], k) == CleanAfter(steps, k)
  {
    assert steps[..n][..k] == steps[..k];
  }

  lemma CleanUpTo(steps: seq<Step>)
    requires steps != [] && Exec(steps).Some?
    ensures CleanThroughout(steps) <==> CleanThroughout(steps[..|steps| - 1]) && Clean(Exec(steps).value)
  {
    var n := |steps| - 1;
    forall k | 0 <= k <= n ensures CleanAfter(steps[..n], k) == CleanAfter(steps, k) {
      CleanAfterPrefix(steps, n, k);
    }
    assert steps[..n + 1] == steps;
    assert CleanAfter(steps, n + 1) == Clean(Exec(steps).value);
  }

  /** Every stored reply lies in a lock whose waiter asked for it, at every point of a run, if and only if no reply
      of the run is stored after its waiter has cleared its lock. */
  lemma {:induction false} TimelyIffClean(steps: seq<Step>)
    requires Exec(steps).Some?
    ensures Timely(steps) <==> CleanThroughout(steps)
  {
    if steps == [] {
      assert steps[..0] == [] && CleanAfter(steps, 0);
    } else {
      var before, step := steps[..|steps| - 1], steps[|steps| - 1];
      TimelyIffClean(before);
      CleanUpTo(steps);
      RunsKeepHeld(before);
      if CleanThroughout(before) {
        LastIsClean(before);
        if step.Store? {
          StoreKeepsCleanIff(Exec(before).value, step.h);
        } else {
          StepKeepsClean(Exec(before).value, step);
        }
      }
    }
  }

  lemma LastIsClean(steps: seq<Step>)
    requires CleanThroughout(steps) && Exec(steps).Some?
    ensures Clean(Exec(steps).value)
  {
    assert steps[..|steps|] == steps && CleanAfter(steps, |steps|);
  }

  // ---- Where a stored reply can still be read ---------------------------------------------

  predicate Occupied(s: System, l: LockId) {
    exists w <- s.waiters :: !s.waiters[w].cleared && s.waiters[w].lock == l
  }

  /** The lock is free, or will be when the reply to its key arrives. A lock outside the cache is neither, and
      neither is a lock whose key was bound anew. */
  predicate Reusable(p: Pool<LockId>, l: LockId) {
    l in p.free || (l in p.cache && exists k <- p.bound :: p.bound[k] == l)
  }

  /** Nobody will read what lies in the lock: its waiter has read already, or it has none and will not get one. */
  predicate OutOfReach(s: System, l: LockId) {
    || (exists w <- s.waiters :: !s.waiters[w].cleared && s.waiters[w].lock == l && s.waiters[w].read.Some?)
    || (!Occupied(s, l) && !Reusable(s.pool, l))
  }

  predicate Harmless(s: System, l: LockId, key: string) {
    Awaited(s, l, key) || OutOfReach(s, l)
  }

  predicate HarmlessStore(s: System, h: HandlerId)
    requires h in s.handlers
  {
    Harmless(s, s.handlers[h].1, s.handlers[h].0.key)
  }

  /** Every reply of the run is stored where its waiter still waits, or out of reach. */
  predicate Careful(steps: seq<Step>) {
    steps == [] ||
    var before, step := steps[..|steps| - 1], steps[|steps| - 1];
    && Careful(before)
    && (step.Store? && Exec(before).Some? && step.h in Exec(before).value.handlers ==>
          HarmlessStore(Exec(before).value, step.h))
  }

  lemma {:induction false} TimelyIsCareful(steps: seq<Step>)
    requires Timely(steps)
    ensures Careful(steps)
  {
    if steps != [] {
      TimelyIsCareful(steps[..|steps| - 1]);
    }
  }

  /** A reply stored in a lock outside the cache after its waiter has cleared it harms nobody, though it is not timely. */
  lemma OverflowStoreIsHarmless(s: System, h: HandlerId)
    requires Held(s) && h in s.handlers && s.handlers[h].1 !in s.pool.cache && !Occupied(s, s.handlers[h].1)
    ensures HarmlessStore(s, h) && !Awaited(s, s.handlers[h].1, s.handlers[h].0.key)
  {
  }

  predicate AllHarmless(s: System) {
    forall l <- s.res :: Harmless(s, l, s.res[l].key)
  }

  lemma RequestKeepsOutOfReach(s: System, w: WaiterId, key: string, l: LockId)
    requires Enabled(s, Request(w, key)) && Held(s) && OutOfReach(s, l) && l < s.next
    ensures OutOfReach(Do(s, Request(w, key)), l)
  {
    var t := Do(s, Request(w, key));
    if exists v <- s.waiters :: !s.waiters[v].cleared && s.waiters[v].lock == l && s.waiters[v].read.Some? {
      var v :| v in s.waiters && !s.waiters[v].cleared && s.waiters[v].lock == l && s.waiters[v].read.Some?;
      assert t.waiters[v] == s.waiters[v];
    } else {
      assert AddTo(s, key).value.1 != l;
      forall v <- t.waiters | !t.waiters[v].cleared ensures t.waiters[v].lock != l {
        assert v != w ==> t.waiters[v] == s.waiters[v];
      }
      forall k <- t.pool.bound | t.pool.bound[k] == l ensures k in s.pool.bound && s.pool.bound[k] == l {
      }
    }
  }

  lemma TakeKeepsOutOfReach(s: System, h: HandlerId, m: Message, l: LockId)
    requires Enabled(s, Take(h, m)) && OutOfReach(s, l)
    ensures OutOfReach(Do(s, Take(h, m)), l)
  {
    var t := Do(s, Take(h, m));
    assert t.waiters == s.waiters;
    assert Occupied(t, l) ==> Occupied(s, l);
    assert Reusable(t.pool, l) ==> Reusable(s.pool, l);
  }

  lemma ReadKeepsOutOfReach(s: System, w: WaiterId, l: LockId)
    requires Enabled(s, Read(w)) && OutOfReach(s, l)
    ensures OutOfReach(Do(s, Read(w)), l)
  {
    var t := Do(s, Read(w));
    if exists v <- s.waiters :: !s.waiters[v].cleared && s.waiters[v].lock == l && s.waiters[v].read.Some? {
      var v :| v in s.waiters && !s.waiters[v].cleared && s.waiters[v].lock == l && s.waiters[v].read.Some?;
      assert t.waiters[v].read.Some?;
    } else {
      forall v <- t.waiters | !t.waiters[v].cleared ensures t.waiters[v].lock != l {
        assert t.waiters[v].lock == s.waiters[v].lock;
      }
    }
  }

  lemma ClearKeepsOutOfReach(s: System, w: WaiterId, l: LockId)
    requires Enabled(s, Clear(w)) && OutOfReach(s, l) && s.waiters[w].lock != l
    ensures OutOfReach(Do(s, Clear(w)), l)
  {
    var t := Do(s, Clear(w));
    if exists v <- s.waiters :: !s.waiters[v].cleared && s.waiters[v].lock == l && s.waiters[v].read.Some? {
      var v :| v in s.waiters && !s.waiters[v].cleared && s.waiters[v].lock == l && s.waiters[v].read.Some?;
      assert t.waiters[v] == s.waiters[v];
    } else {
      forall v <- t.waiters | !t.waiters[v].cleared ensures t.waiters[v].lock != l {
        assert t.waiters[v] == s.waiters[v];
      }
    }
  }

  lemma StepKeepsAwaited(s: System, step: Step, l: LockId, key: string)
    requires Enabled(s, step) && Awaited(s, l, key)
    requires step.Clear? ==> s.waiters[step.w].lock != l
    ensures Awaited(Do(s, step), l, key)
  {
    var t := Do(s, step);
    var w :| w in s.waiters && !s.waiters[w].cleared && s.waiters[w].lock == l && s.waiters[w].key == key;
    assert w in t.waiters && !t.waiters[w].cleared && t.waiters[w].lock == l && t.waiters[w].key == key;
  }

  lemma StepKeepsHarmless(s: System, step: Step, l: LockId, key: string)
    requires Enabled(s, step) && Held(s) && l < s.next && Harmless(s, l, key)
    requires step.Clear? ==> s.waiters[step.w].lock != l
    ensures Harmless(Do(s, step), l, key)
  {
    if Awaited(s, l, key) {
      StepKeepsAwaited(s, step, l, key);
    } else {
      match step
      case Request(w, k) => RequestKeepsOutOfReach(s, w, k, l);
      case Read(w) => ReadKeepsOutOfReach(s, w, l);
      case Clear(w) => ClearKeepsOutOfReach(s, w, l);
      case Take(h, m) => TakeKeepsOutOfReach(s, h, m, l);
      case Store(h) =>
        var t := Do(s, step);
        assert t.waiters == s.waiters && t.pool == s.pool;
        assert Occupied(t, l) ==> Occupied(s, l);
    }
  }

  lemma StepKeepsAllHarmless(s: System, step: Step)
    requires Enabled(s, step) && Held(s) && AllHarmless(s)
    requires step.Store? ==> HarmlessStore(s, step.h)
    ensures AllHarmless(Do(s, step))
  {
    var t := Do(s, step);
    forall l <- t.res ensures Harmless(t, l, t.res[l].key) {
      if step.Store? && s.handlers[step.h].1 == l {
        StepKeepsHarmless(s, step, l, t.res[l].key);
      } else {
        assert l in s.res && t.res[l] == s.res[l];
        StepKeepsHarmless(s, step, l, s.res[l].key);
      }
    }
  }

  /** A waiter that has yet to read finds only what it asked for. */
  lemma HarmlessReadIsOwn(s: System, w: WaiterId)
    requires Held(s) && AllHarmless(s) && Enabled(s, Read(w)) && s.waiters[w].lock in s.res
    ensures s.res[s.waiters[w].lock].key == s.waiters[w].key
  {
    var l := s.waiters[w].lock;
    assert Harmless(s, l, s.res[l].key);
    assert Occupied(s, l);
    forall v | v in s.waiters && !s.waiters[v].cleared && s.waiters[v].lock == l ensures v == w {
    }
  }

  lemma {:induction false} CarefulRunsReadOwn(steps: seq<Step>)
    requires Careful(steps) && Exec(steps).Some?
    ensures AllHarmless(Exec(steps).value) && ReadsOwn(Exec(steps).value)
  {
    if steps != [] {
      var before, step := steps[..|steps| - 1], steps[|steps| - 1];
      var s := Exec(before).value;
      CarefulRunsReadOwn(before);
      RunsKeepHeld(before);
      StepKeepsAllHarmless(s, step);
      if step.Read? && s.waiters[step.w].lock in s.res {
        HarmlessReadIsOwn(s, step.w);
      }
    }
  }

  // ---- Any other store can be read by a stranger ---------------------------------------------

  /** A lock in use has a waiter that has not cleared it. */
  ghost predicate UsedIsOccupied(s: System) {
    forall l: LockId | l in s.used :: Occupied(s, l)
  }

  lemma StepKeepsUsedIsOccupied(s: System, step: Step)
    requires Enabled(s, step) && Held(s) && UsedIsOccupied(s)
    ensures UsedIsOccupied(Do(s, step))
  {
    var t := Do(s, step);
    forall l: LockId | l in t.used ensures Occupied(t, l) {
      if step.Request? && l == AddTo(s, step.key).value.1 {
        assert t.waiters[step.w].lock == l;
      } else {
        assert Occupied(s, l);
        var w :| w in s.waiters && !s.waiters[w].cleared && s.waiters[w].lock == l;
        assert w in t.waiters && !t.waiters[w].cleared && t.waiters[w].lock == l;
      }
    }
  }

  lemma {:induction false} RunsKeepUsedIsOccupied(steps: seq<Step>)
    requires Exec(steps).Some?
    ensures UsedIsOccupied(Exec(steps).value)
  {
    if steps != [] {
      RunsKeepUsedIsOccupied(steps[..|steps| - 1]);
      RunsKeepHeld(steps[..|steps| - 1]);
      StepKeepsUsedIsOccupied(Exec(steps[..|steps| - 1]).value, steps[|steps| - 1]);
    }
  }

  lemma {:induction false} FreshId(taken: set<nat>) returns (n: nat)
    ensures forall x <- taken :: x < n
  {
    n := 0;
    if taken != {} {
      var one :| one in taken;
      var m := FreshId(taken - {one});
      n := if one < m then m else one + 1;
      forall x <- taken ensures x < n {
        assert x == one || x in taken - {one};
      }
    }
  }

  function Waiting(s: System): set<WaiterId> {
    set w <- s.waiters | !s.waiters[w].cleared
  }

  /** One more step of a run that stores nothing. */
  lemma OneMore(before: seq<Step>, more: seq<Step>, step: Step)
    requires Exec(before + more).Some? && Enabled(Exec(before + more).value, step) && NoStores(more) && !step.Store?
    ensures NoStores(more + [step])
    ensures Exec(before + (more + [step])) == Some(Do(Exec(before + more).value, step))
  {
    Extend(before + more, step);
    assert before + (more + [step]) == before + more + [step];
  }

  /** All waiters give up. */
  lemma {:induction false} EveryoneClears(before: seq<Step>, more: seq<Step>, l: LockId) returns (longer: seq<Step>)
    requires NoStores(more) && Exec(before + more).Some?
    requires !Occupied(Exec(before + more).value, l) && l in Exec(before + more).value.res
    ensures NoStores(longer) && Exec(before + longer).Some?
    ensures var s, t := Exec(before + more).value, Exec(before + longer).value;
            t.pool == s.pool && l in t.res && t.res[l] == s.res[l] && Waiting(t) == {}
    decreases |Waiting(Exec(before + more).value)|
  {
    var s := Exec(before + more).value;
    if Waiting(s) == {} {
      longer := more;
    } else {
      var w :| w in Waiting(s);
      OneMore(before, more, Clear(w));
      var t := Do(s, Clear(w));
      assert Waiting(t) == Waiting(s) - {w};
      assert !Occupied(t, l) by {
        assert forall v <- t.waiters :: t.waiters[v].lock == s.waiters[v].lock;
      }
      longer := EveryoneClears(before, more + [Clear(w)], l);
    }
  }

  /** The free locks in front of `l`, and the room in the cache, are used up; then a stranger gets `l`. */
  lemma {:induction false} StrangerGetsLock(before: seq<Step>, more: seq<Step>, l: LockId, key: string)
    returns (longer: seq<Step>, w: WaiterId)
    requires NoStores(more) && Exec(before + more).Some?
    requires var s := Exec(before + more).value;
             l in s.pool.free && l in s.res && s.res[l].key != key && forall x <- s.pool.free :: x !in s.used
    ensures NoStores(longer) && Exec(before + longer).Some? && w in Exec(before + longer).value.waiters
    ensures var waiter := Exec(before + longer).value.waiters[w];
            waiter.key == key && waiter.read == Some(Some(Exec(before + more).value.res[l]))
    decreases CACHE_SIZE - |Exec(before + more).value.pool.cache|, |Exec(before + more).value.pool.free|
  {
    var s := Exec(before + more).value;
    RunsKeepHeld(before + more);
    w := FreshId(s.waiters.Keys);
    assert w !in s.waiters.Keys;
    var step := Request(w, key);
    OneMore(before, more, step);
    var t := Do(s, step);
    if |s.pool.cache| >= CACHE_SIZE && s.pool.free[0] == l {
      OneMore(before, more + [step], Read(w));
      longer := more + [step] + [Read(w)];
      assert t.waiters[w].lock == l && t.res == s.res;
      assert Exec(before + longer).value.waiters[w] == Waiter(key, l, Some(Some(s.res[l])), false);
    } else {
      FreeStaysUnused(s, w, key);
      longer, w := StrangerGetsLock(before, more + [step], l, key);
    }
  }

  lemma FreeStaysUnused(s: System, w: WaiterId, key: string)
    requires Enabled(s, Request(w, key)) && Held(s) && s.pool.free != [] && forall x <- s.pool.free :: x !in s.used
    ensures var t := Do(s, Request(w, key));
            && (forall x <- t.pool.free :: x !in t.used)
            && (if |s.pool.cache| < CACHE_SIZE then t.pool.free == s.pool.free && |t.pool.cache| == |s.pool.cache| + 1
                else t.pool.free == s.pool.free[1..] && t.pool.cache == s.pool.cache)
  {
    var t := Do(s, Request(w, key));
    forall x <- t.pool.free ensures x !in t.used {
      assert x in s.pool.free && Knows(s.pool, x);
      if |s.pool.cache| >= CACHE_SIZE {
        var i :| 0 <= i < |t.pool.free| && t.pool.free[i] == x;
        assert s.pool.free[i + 1] == x;
      }
    }
  }

  /** A stored reply that is not harmless can be read by a waiter that did not ask for it, with no further store. */
  lemma StrangerReads(before: seq<Step>, l: LockId) returns (more: seq<Step>)
    requires Exec(before).Some?
    requires var s := Exec(before).value; l in s.res && !Harmless(s, l, s.res[l].key)
    ensures NoStores(more) && Exec(before + more).Some? && !ReadsOwn(Exec(before + more).value)
  {
    var s := Exec(before).value;
    assert before + [] == before;
    if Occupied(s, l) {
      var w :| w in s.waiters && !s.waiters[w].cleared && s.waiters[w].lock == l;
      OneMore(before, [], Read(w));
      more := [] + [Read(w)];
      assert Do(s, Read(w)).waiters[w].read == Some(Some(s.res[l]));
    } else {
      more := EveryoneClears(before, [], l);
      var t := Exec(before + more).value;
      if l !in t.pool.free {
        more := ReplyFrees(before, more, l);
      }
      NobodyUses(before + more);
      var w;
      more, w := StrangerGetsLock(before, more, l, s.res[l].key + "'");
    }
  }

  lemma NobodyUses(steps: seq<Step>)
    requires Exec(steps).Some? && Waiting(Exec(steps).value) == {}
    ensures Exec(steps).value.used == {}
  {
    RunsKeepUsedIsOccupied(steps);
    var s := Exec(steps).value;
    forall l: LockId | l in s.used ensures false {
      OccupiedIsWaiting(s, l);
    }
  }

  lemma OccupiedIsWaiting(s: System, l: LockId)
    ensures Occupied(s, l) ==> Waiting(s) != {}
  {
    if w :| w in s.waiters && !s.waiters[w].cleared && s.waiters[w].lock == l {
      assert w in Waiting(s);
    }
  }

  /** The reply to its key frees a lock that was given up. */
  lemma ReplyFrees(before: seq<Step>, more: seq<Step>, l: LockId) returns (longer: seq<Step>)
    requires NoStores(more) && Exec(before + more).Some?
    requires var s := Exec(before + more).value; Reusable(s.pool, l) && l !in s.pool.free && Waiting(s) == {}
    ensures NoStores(longer) && Exec(before + longer).Some?
    ensures var s, t := Exec(before + more).value, Exec(before + longer).value;
            l in t.pool.free && t.res == s.res && Waiting(t) == {}
  {
    var s := Exec(before + more).value;
    var k :| k in s.pool.bound && s.pool.bound[k] == l;
    var h := FreshId(s.handlers.Keys);
    assert h !in s.handlers.Keys;
    var step := Take(h, Message(k, 0));
    OneMore(before, more, step);
    longer := more + [step];
    assert Do(s, step).pool.free == s.pool.free + [l];
  }

  // ---- The exact condition ---------------------------------------------------------------------

  /** However a prefix of the run goes on without storing, every waiter reads nothing or its own. */
  ghost predicate NeverForeign(steps: seq<Step>) {
    forall k: nat, more: seq<Step> | k <= |steps| && NoStores(more) && Exec(steps[..k] + more).Some? ::
      ReadsOwn(Exec(steps[..k] + more).value)
  }

  lemma {:induction false} CarefulPrefix(steps: seq<Step>, k: nat)
    requires Careful(steps) && k <= |steps|
    ensures Careful(steps[..k])
    decreases |steps|
  {
    if k < |steps| {
      CarefulPrefix(steps[..|steps| - 1], k);
      assert steps[..|steps| - 1][..k] == steps[..k];
    } else {
      assert steps[..k] == steps;
    }
  }

  lemma {:induction false} CarefulGoesOn(steps: seq<Step>, more: seq<Step>)
    requires Careful(steps) && NoStores(more)
    ensures Careful(steps + more)
    decreases |more|
  {
    if more == [] {
      assert steps + more == steps;
    } else {
      var last := |more| - 1;
      CarefulGoesOn(steps, more[..last]);
      assert more[last] in more;
      assert (steps + more)[..|steps + more| - 1] == steps + more[..last];
    }
  }

  lemma {:induction false} FirstHarm(steps: seq<Step>) returns (k: nat)
    requires Exec(steps).Some? && !Careful(steps)
    ensures k < |steps| && Exec(steps[..k]).Some? && steps[k].Store? && steps[k].h in Exec(steps[..k]).value.handlers
    ensures !HarmlessStore(Exec(steps[..k]).value, steps[k].h)
  {
    var before := steps[..|steps| - 1];
    if Careful(before) {
      k := |before|;
    } else {
      k := FirstHarm(before);
      assert before[..k] == steps[..k];
    }
  }

  /** No cross-delivery, and exactly when: in a run, and however any prefix of it goes on without storing, every waiter
      reads nothing or a reply with its own key, if and only if every reply of the run is stored where its waiter
      still waits or out of reach. A reply stored anywhere else can be read by a stranger. */
  lemma CrossDeliveryIff(steps: seq<Step>)
    requires Exec(steps).Some?
    ensures NeverForeign(steps) <==> Careful(steps)
  {
    if Careful(steps) {
      forall k: nat, more: seq<Step> | k <= |steps| && NoStores(more) && Exec(steps[..k] + more).Some?
        ensures ReadsOwn(Exec(steps[..k] + more).value)
      {
        CarefulPrefix(steps, k);
        CarefulGoesOn(steps[..k], more);
        CarefulRunsReadOwn(steps[..k] + more);
      }
    } else {
      var k := FirstHarm(steps);
      var s, h := Exec(steps[..k]).value, steps[k].h;
      PrefixRuns(steps, k + 1);
      assert steps[..k + 1][..k] == steps[..k];
      var t := Exec(steps[..k + 1]).value;
      StoreChangesNoReach(s, h);
      var more := StrangerReads(steps[..k + 1], s.handlers[h].1);
    }
  }

  lemma StoreChangesNoReach(s: System, h: HandlerId)
    requires h in s.handlers && !HarmlessStore(s, h)
    ensures var (m, l) := s.handlers[h]; var t := Do(s, Store(h)); l in t.res && t.res[l] == m && !Harmless(t, l, m.key)
  {
    var (m, l) := s.handlers[h];
    var t := Do(s, Store(h));
    assert t.waiters == s.waiters && t.pool == s.pool;
    AwaitedByWaiters(t, s, l, m.key);
    assert Occupied(s, l) ==> Occupied(t, l);
  }

  /** A late reply does reach a request with any other key: its own request gives up, the reply is stored, and the
      lock is used again without being reset. */
  lemma LateReplyCrossesOver(late: Message, key: string) returns (steps: seq<Step>, w: WaiterId)
    requires key != late.key
    ensures Exec(steps).Some? && w in Exec(steps).value.waiters
    ensures var waiter := Exec(steps).value.waiters[w]; waiter.key == key && waiter.read == Some(Some(late))
  {
    steps := [];
    Extend(steps, Request(0, late.key)); steps := steps + [Request(0, late.key)];
    Extend(steps, Clear(0)); steps := steps + [Clear(0)];
    Extend(steps, Take(0, late)); steps := steps + [Take(0, late)];
    Extend(steps, Store(0)); steps := steps + [Store(0)];
    assert steps + [] == steps;
    var more;
    more, w := StrangerGetsLock(steps, [], 0, key);
    steps := steps + more;
  }
}
