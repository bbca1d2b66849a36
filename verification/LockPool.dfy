/** The pool of reusable locks behind request and reply: a request binds a lock to its key
    and waits on it; the handler of a reply takes the lock by key, stores the reply and signals. */
module LockPool {
  import opened Wrappers

  const CACHE_SIZE: nat := 1024

  datatype Message = Message(key: string, content: int)

  /** The pool's own structure, whatever stands for the identity of a lock. */
  datatype Pool<L> = Pool(bound: map<string, L>, cache: seq<L>, free: seq<L>)

  predicate NoDuplicates<L(==)>(s: seq<L>) {
    forall i, j | 0 <= i < j < |s| :: s[i] != s[j]
  }

  /** The bounded cache, the free list and the bindings do not overlap. */
  predicate Sound<L(==)>(p: Pool<L>) {
    && |p.cache| <= CACHE_SIZE
    && NoDuplicates(p.cache)
    && NoDuplicates(p.free)
    && (forall l <- p.free :: l in p.cache)
    && (forall k <- p.bound :: p.bound[k] !in p.free)
    && (forall j, k | j in p.bound && k in p.bound && j != k :: p.bound[j] != p.bound[k])
  }

  predicate Knows<L(==)>(p: Pool<L>, l: L) {
    l in p.cache || l in p.free || exists k <- p.bound :: p.bound[k] == l
  }

  /** addKey: a new lock while the cache grows, then the head of the free list unless it is still in
      use, else a lock outside the cache. Nothing if the free list is empty: its
      getFirst throws. */
  function Add<L(==)>(p: Pool<L>, key: string, new_: L, headUsed: bool): Option<(Pool<L>, L)> {
    if |p.cache| < CACHE_SIZE then Some((Pool(p.bound[key := new_], p.cache + [new_], p.free), new_))
    else if p.free == [] then None
    else if !headUsed then Some((Pool(p.bound[key := p.free[0]], p.cache, p.free[1..]), p.free[0]))
    else Some((p.(bound := p.bound[key := new_]), new_))
  }

  /** getKey: unbinds the key; a lock of the cache goes to the end of the free list. */
  function Get<L(==)>(p: Pool<L>, key: string): (Pool<L>, Option<L>) {
    if key !in p.bound then (p, None)
    else
      var l := p.bound[key];
      (Pool(p.bound - {key}, p.cache, if l in p.cache then p.free + [l] else p.free), Some(l))
  }

  lemma AddKeepsSound<L>(p: Pool<L>, key: string, new_: L, headUsed: bool)
    requires Sound(p) && Add(p, key, new_, headUsed).Some?
    requires !Knows(p, new_) || (|p.cache| >= CACHE_SIZE && !headUsed)
    ensures Sound(Add(p, key, new_, headUsed).value.0)
  {
    var (q, l) := Add(p, key, new_, headUsed).value;
    if |p.cache| >= CACHE_SIZE && !headUsed {
      assert l == p.free[0];
      assert forall x <- q.free :: x in p.free;
    }
  }

  lemma GetKeepsSound<L>(p: Pool<L>, key: string)
    requires Sound(p)
    ensures Sound(Get(p, key).0)
  {
  }

  // ---- Runs of whole-method steps ------------------------------------------------

  type LockId = nat
  type WaiterId = nat
  type HandlerId = nat

  datatype Waiter = Waiter(key: string, lock: LockId, read: Option<Option<Message>>, cleared: bool)

  datatype System = System(
    pool: Pool<LockId>, used: set<LockId>, res: map<LockId, Message>, next: LockId,
    waiters: map<WaiterId, Waiter>, handlers: map<HandlerId, (Message, LockId)>)

  datatype Step =
    | Request(w: WaiterId, key: string)  // addKey
    | Read(w: WaiterId)                  // getRes, after the wait
    | Clear(w: WaiterId)                 // clear
    | Take(h: HandlerId, m: Message)     // a reply arrives: getKey
    | Store(h: HandlerId)                // setRes and signal

  const IDLE: System := System(Pool(map[], [], []), {}, map[], 0, map[], map[])

  function AddTo(s: System, key: string): Option<(Pool<LockId>, LockId)> {
    Add(s.pool, key, s.next, s.pool.free != [] && s.pool.free[0] in s.used)
  }

  predicate Enabled(s: System, step: Step) {
    match step
    case Request(w, key) => w !in s.waiters && AddTo(s, key).Some?
    case Read(w) => w in s.waiters && !s.waiters[w].cleared && s.waiters[w].read.None?
    case Clear(w) => w in s.waiters && !s.waiters[w].cleared
    case Take(h, _) => h !in s.handlers
    case Store(h) => h in s.handlers
  }

  function Do(s: System, step: Step): System
    requires Enabled(s, step)
  {
    match step
    case Request(w, key) =>
      // init marks the lock used; it does not reset the reply
      var (pool, l) := AddTo(s, key).value;
      s.(pool := pool, used := s.used + {l}, next := s.next + 1,
         waiters := s.waiters[w := Waiter(key, l, None, false)])
    case Read(w) =>
      var l := s.waiters[w].lock;
      s.(waiters := s.waiters[w := s.waiters[w].(read := Some(if l in s.res then Some(s.res[l]) else None))])
    case Clear(w) =>
      var l := s.waiters[w].lock;
      s.(used := s.used - {l}, res := s.res - {l}, waiters := s.waiters[w := s.waiters[w].(cleared := true)])
    case Take(h, m) =>
      var (pool, l) := Get(s.pool, m.key);
      s.(pool := pool, handlers := if l.Some? then s.handlers[h := (m, l.value)] else s.handlers)
    case Store(h) =>
      var (m, l) := s.handlers[h];
      s.(res := s.res[l := m], handlers := s.handlers - {h})
  }

  function Exec(steps: seq<Step>): Option<System> {
    if steps == [] then Some(IDLE)
    else
      var before := Exec(steps[..|steps| - 1]);
      if before.Some? && Enabled(before.value, steps[|steps| - 1])
      then Some(Do(before.value, steps[|steps| - 1]))
      else None
  }

  /** A waiter that registered the lock under this key has not cleared it. */
  predicate Awaited(s: System, l: LockId, key: string) {
    exists w <- s.waiters :: !s.waiters[w].cleared && s.waiters[w].lock == l && s.waiters[w].key == key
  }

  /** No reply is stored after its waiter has cleared its lock. */
  predicate Timely(steps: seq<Step>) {
    steps == [] ||
    var before, step := steps[..|steps| - 1], steps[|steps| - 1];
    && Timely(before)
    && (step.Store? && Exec(before).Some? && step.h in Exec(before).value.handlers ==>
          var s := Exec(before).value; Awaited(s, s.handlers[step.h].1, s.handlers[step.h].0.key))
  }

  /** Every lock in use is held by exactly one waiter, and ids are not reused for new locks. */
  ghost predicate Held(s: System) {
    && Sound(s.pool)
    && (forall l: LockId | Knows(s.pool, l) || l in s.used || l in s.res :: l < s.next)
    && (forall w <- s.waiters :: s.waiters[w].lock < s.next)
    && (forall h <- s.handlers :: s.handlers[h].1 < s.next)
    && (forall w <- s.waiters :: !s.waiters[w].cleared ==> s.waiters[w].lock in s.used)
    && (forall v, w | v in s.waiters && w in s.waiters && v != w && !s.waiters[v].cleared && !s.waiters[w].cleared ::
          s.waiters[v].lock != s.waiters[w].lock)
  }

  /** A reply lies only in a lock whose waiter asked for it. */
  predicate Clean(s: System) {
    forall l <- s.res :: Awaited(s, l, s.res[l].key)
  }

  predicate ReadsOwn(s: System) {
    forall w <- s.waiters ::
      s.waiters[w].read.Some? && s.waiters[w].read.value.Some? ==> s.waiters[w].read.value.value.key == s.waiters[w].key
  }

  lemma StepKeepsHeld(s: System, step: Step)
    requires Enabled(s, step) && Held(s)
    ensures Held(Do(s, step))
  {
    if step.Request? {
      RequestKeepsHeld(s, step.w, step.key);
    } else if step.Take? {
      TakeKeepsHeld(s, step.h, step.m);
    } else {
      assert Do(s, step).pool == s.pool;
    }
  }

  lemma RequestKeepsHeld(s: System, w: WaiterId, key: string)
    requires Enabled(s, Request(w, key)) && Held(s)
    ensures Held(Do(s, Request(w, key)))
  {
    var t := Do(s, Request(w, key));
    AddKeepsSound(s.pool, key, s.next, s.pool.free != [] && s.pool.free[0] in s.used);
    var l := AddTo(s, key).value.1;
    assert l == s.next || (l == s.pool.free[0] && l !in s.used && Knows(s.pool, l));
    forall x: LockId | Knows(t.pool, x) ensures x < t.next {
      assert x == l || Knows(s.pool, x);
    }
  }

  lemma TakeKeepsHeld(s: System, h: HandlerId, m: Message)
    requires Enabled(s, Take(h, m)) && Held(s)
    ensures Held(Do(s, Take(h, m)))
  {
    var t := Do(s, Take(h, m));
    GetKeepsSound(s.pool, m.key);
    var l := Get(s.pool, m.key).1;
    assert l.Some? ==> Knows(s.pool, l.value);
    forall x: LockId | Knows(t.pool, x) ensures Knows(s.pool, x) {
    }
  }

  lemma {:induction false} RunsKeepHeld(steps: seq<Step>)
    ensures Exec(steps).Some? ==> Held(Exec(steps).value)
  {
    if steps != [] && Exec(steps).Some? {
      RunsKeepHeld(steps[..|steps| - 1]);
      StepKeepsHeld(Exec(steps[..|steps| - 1]).value, steps[|steps| - 1]);
    }
  }

  // ---- The properties of runs ------------------------------------------------------

  /** The pool invariant: in every run the cache never exceeds its bound, the free list has no
      duplicates and no bound lock, no lock is bound to two keys, and no two waiters that have
      not cleared hold the same lock. */
  lemma PoolStaysSound(steps: seq<Step>)
    requires Exec(steps).Some?
    ensures var s := Exec(steps).value;
            && Sound(s.pool)
            && (forall v, w | v in s.waiters && w in s.waiters && v != w && !s.waiters[v].cleared && !s.waiters[w].cleared ::
                  s.waiters[v].lock != s.waiters[w].lock)
  {
    RunsKeepHeld(steps);
  }

  /** Storing a reply keeps the locks clean exactly when its waiter has not cleared the lock. */
  lemma StoreKeepsCleanIff(s: System, h: HandlerId)
    requires Held(s) && Clean(s) && h in s.handlers
    ensures Clean(Do(s, Store(h))) <==> Awaited(s, s.handlers[h].1, s.handlers[h].0.key)
  {
    var t := Do(s, Store(h));
    var (m, l) := s.handlers[h];
    assert t.waiters == s.waiters;
    assert t.res[l] == m;
    if Awaited(s, l, m.key) {
      forall x <- t.res ensures Awaited(t, x, t.res[x].key) {
        assert x != l ==> Awaited(s, x, s.res[x].key);
        AwaitedByWaiters(s, t, x, t.res[x].key);
      }
    } else {
      AwaitedByWaiters(t, s, l, m.key);
    }
  }

  lemma AwaitedByWaiters(s: System, t: System, l: LockId, key: string)
    requires s.waiters == t.waiters
    ensures Awaited(s, l, key) ==> Awaited(t, l, key)
  {
  }

  lemma StepKeepsClean(s: System, step: Step)
    requires Enabled(s, step) && Held(s) && Clean(s)
    requires step.Store? ==> Awaited(s, s.handlers[step.h].1, s.handlers[step.h].0.key)
    ensures Clean(Do(s, step))
  {
    var t := Do(s, step);
    if step.Store? {
      StoreKeepsCleanIff(s, step.h);
    } else {
      forall l <- t.res ensures Awaited(t, l, t.res[l].key) {
        assert Awaited(s, l, s.res[l].key);
        var w :| w in s.waiters && !s.waiters[w].cleared && s.waiters[w].lock == l && s.waiters[w].key == s.res[l].key;
        assert w in t.waiters && !t.waiters[w].cleared && t.waiters[w].lock == l && t.waiters[w].key == t.res[l].key;
      }
    }
  }

  lemma StepKeepsReads(s: System, step: Step)
    requires Enabled(s, step) && Held(s) && Clean(s) && ReadsOwn(s)
    ensures ReadsOwn(Do(s, step))
  {
    if step.Read? {
      var l := s.waiters[step.w].lock;
      if l in s.res {
        assert Awaited(s, l, s.res[l].key);
      }
    }
  }

  lemma {:induction false} TimelyRunsAreClean(steps: seq<Step>)
    requires Timely(steps) && Exec(steps).Some?
    ensures Clean(Exec(steps).value) && ReadsOwn(Exec(steps).value)
  {
    if steps != [] {
      var before, step := steps[..|steps| - 1], steps[|steps| - 1];
      TimelyRunsAreClean(before);
      RunsKeepHeld(before);
      StepKeepsClean(Exec(before).value, step);
      StepKeepsReads(Exec(before).value, step);
    }
  }

  /** No cross-delivery: in every run in which no reply is stored after its waiter has cleared its
      lock, a waiter reads nothing or a reply with its own key, however often locks are reused. */
  lemma NoCrossDelivery(steps: seq<Step>, w: WaiterId)
    requires Timely(steps) && Exec(steps).Some? && w in Exec(steps).value.waiters
    ensures var waiter := Exec(steps).value.waiters[w];
            waiter.read.Some? && waiter.read.value.Some? ==> waiter.read.value.value.key == waiter.key
  {
    TimelyRunsAreClean(steps);
  }

  // ---- Building runs -----------------------------------------------------------------

  lemma Extend(steps: seq<Step>, step: Step)
    requires Exec(steps).Some? && Enabled(Exec(steps).value, step)
    ensures Exec(steps + [step]) == Some(Do(Exec(steps).value, step))
  {
    assert (steps + [step])[..|steps + [step]| - 1] == steps;
  }

  // ---- The objects -------------------------------------------------------------------

  /** A lock; waiting on its condition is left out. */
  class Lock {
    var used: bool
    var res: Option<Message>

    constructor ()
      ensures !used && res == None
    {
      used, res := false, None;
    }

    method Init()
      modifies this`used
      ensures used
    {
      used := true;
    }

    method Clear()
      modifies this
      ensures !used && res == None
    {
      used := false;
      res := None;
    }

    method SetRes(m: Message)
      modifies this`res
      ensures res == Some(m)
    {
      res := Some(m);
    }
  }

  class LockContext {
    var bound: map<string, Lock>
    var cacheList: seq<Lock>
    var freeList: seq<Lock>

    ghost function Model(): Pool<Lock>
      reads this
    {
      Pool(bound, cacheList, freeList)
    }

    ghost predicate Valid()
      reads this
    {
      Sound(Model())
    }

    constructor ()
      ensures Valid() && Model() == Pool(map[], [], [])
    {
      bound, cacheList, freeList := map[], [], [];
    }

    predicate HasKey(key: string)
      reads this
    {
      key in bound
    }

    method FindRpcContent() returns (lock: Lock)
      requires Valid() && freeList != []
      modifies this`freeList, freeList
      ensures lock.used
      ensures if old(freeList[0].used) then fresh(lock) && lock.res == None && freeList == old(freeList) && unchanged(old(freeList[0]))
              else lock == old(freeList[0]) && lock.res == old(lock.res) && freeList == old(freeList)[1..]
      ensures forall l <- old(freeList) :: l != lock ==> unchanged(l)
    {
      lock := freeList[0];
      if !lock.used {
        lock.Init();
        freeList := freeList[1..];
        return;
      }
      lock := new Lock();
      lock.Init();
    }

    /** addKey: never returns a lock another waiter still holds. Nothing is returned, and nothing
        changes, when the cache is full and no lock is free. */
    method AddKey(key: string) returns (lock: Lock?)
      requires Valid()
      modifies this, freeList
      ensures Valid()
      ensures lock == null <==> |old(cacheList)| >= CACHE_SIZE && old(freeList) == []
      ensures lock == null ==> Model() == old(Model())
      ensures lock != null ==> lock.used && (fresh(lock) || !old(lock.used))
      ensures lock != null ==>
                var headUsed := old(freeList != [] && freeList[0].used);
                Add(old(Model()), key, lock, headUsed) == Some((Model(), lock))
      ensures lock != null ==> bound == old(bound)[key := lock]
      ensures lock != null && |old(cacheList)| < 1024 ==>
                fresh(lock) && cacheList == old(cacheList) + [lock] && freeList == old(freeList)
      ensures lock != null && |old(cacheList)| >= 1024 ==>
                && cacheList == old(cacheList)
                && (if old(freeList[0].used) then fresh(lock) && freeList == old(freeList)
                    else lock == old(freeList[0]) && freeList == old(freeList)[1..])
      ensures lock != null ==> lock.res == if fresh(lock) then None else old(lock.res)
      ensures forall l <- old(freeList) :: l != lock ==> unchanged(l)
    {
      ghost var p := Model();
      ghost var headUsed := freeList != [] && freeList[0].used;
      if |cacheList| < CACHE_SIZE {
        lock := new Lock();
        lock.Init();
        cacheList := cacheList + [lock];
        AddKeepsSound(p, key, lock, headUsed);
      } else {
        if freeList == [] {
          return null;
        }
        lock := FindRpcContent();
        AddKeepsSound(p, key, lock, headUsed);
      }
      bound := bound[key := lock];
    }

    method ClearKey(key: string)
      requires Valid()
      modifies this
      ensures Valid() && Model() == Get(old(Model()), key).0
      ensures bound == old(bound) - {key} && cacheList == old(cacheList)
      ensures freeList == old(freeList)
                + (if key in old(bound) && old(bound)[key] in old(cacheList) then [old(bound)[key]] else [])
    {
      GetKeepsSound(Model(), key);
      if key in bound && bound[key] in cacheList {
        freeList := freeList + [bound[key]];
      }
      bound := bound - {key};
    }

    method GetKey(key: string) returns (lock: Lock?)
      requires Valid()
      modifies this
      ensures Valid() && Model() == Get(old(Model()), key).0
      ensures lock == if key in old(bound) then old(bound)[key] else null
      ensures bound == old(bound) - {key} && cacheList == old(cacheList)
      ensures freeList == old(freeList)
                + (if key in old(bound) && old(bound)[key] in old(cacheList) then [old(bound)[key]] else [])
    {
      lock := if key in bound then bound[key] else null;
      ClearKey(key);
    }

    /** The handler of a reply: takes the lock of its key, if any, and stores the reply in it. */
    method Handle(m: Message) returns (woken: Lock?)
      requires Valid()
      modifies this, bound.Values
      ensures Valid() && Model() == Get(old(Model()), m.key).0
      ensures bound == old(bound) - {m.key} && cacheList == old(cacheList)
      ensures freeList == old(freeList)
                + (if m.key in old(bound) && old(bound)[m.key] in old(cacheList) then [old(bound)[m.key]] else [])
      ensures woken == if m.key in old(bound) then old(bound[m.key]) else null
      ensures woken != null ==> woken.res == Some(m) && woken.used == old(woken.used)
      ensures forall l <- old(bound).Values :: l != woken ==> unchanged(l)
    {
      woken := GetKey(m.key);
      if woken != null {
        woken.SetRes(m);
      }
    }
  }

  /** The first of the messages that carries a key. */
  function FirstWith(messages: seq<Message>, key: string): Option<Message> {
    if messages == [] then None
    else if messages[0].key == key then Some(messages[0])
    else FirstWith(messages[1..], key)
  }

  lemma {:induction false} FirstWithSnoc(messages: seq<Message>, m: Message, key: string)
    ensures FirstWith(messages + [m], key)
            == if FirstWith(messages, key).Some? then FirstWith(messages, key)
               else if m.key == key then Some(m) else None
  {
    if messages != [] {
      FirstWithSnoc(messages[1..], m, key);
      assert (messages + [m])[1..] == messages[1..] + [m];
    }
  }

  /** Nothing exactly if no message has the key, else a message with the key that none with it precedes. */
  lemma {:induction false} FirstWithIsFirst(messages: seq<Message>, key: string)
    ensures FirstWith(messages, key) == None <==> forall m <- messages :: m.key != key
    ensures FirstWith(messages, key).Some? ==> exists k | 0 <= k < |messages| ::
              && messages[k] == FirstWith(messages, key).value && messages[k].key == key
              && forall i | 0 <= i < k :: messages[i].key != key
  {
    if messages != [] {
      FirstWithIsFirst(messages[1..], key);
      assert messages == [messages[0]] + messages[1..];
      if messages[0].key == key {
        assert messages[0] in messages;
      } else if FirstWith(messages, key).Some? {
        var k :| 0 <= k < |messages[1..]| && messages[1..][k] == FirstWith(messages, key).value && messages[1..][k].key == key
                 && forall i | 0 <= i < k :: messages[1..][i].key != key;
        assert messages[k + 1] == messages[1..][k];
        assert forall i | 0 < i < k + 1 :: messages[i] == messages[1..][i - 1];
      }
    }
  }

  lemma FirstWithNext(messages: seq<Message>, i: nat, key: string)
    requires i < |messages|
    ensures FirstWith(messages[..i + 1], key)
            == if FirstWith(messages[..i], key).Some? then FirstWith(messages[..i], key)
               else if messages[i].key == key then Some(messages[i]) else None
  {
    FirstWithSnoc(messages[..i], messages[i], key);
    assert messages[..i + 1] == messages[..i] + [messages[i]];
  }

  lemma UnboundValues<L>(bound: map<string, L>, key: string)
    ensures (bound - {key}).Values <= bound.Values
  {
  }

  datatype Reply = Thrown | Answered(res: Option<Message>)

  /** What is handled while a request waits for its lock: the first reply with the key ends up in it. */
  method HandleAll(context: LockContext, key: string, lock: Lock, incoming: seq<Message>)
    requires context.Valid() && key in context.bound && context.bound[key] == lock
    modifies context, context.bound.Values
    ensures context.Valid()
    ensures key in context.bound <==> FirstWith(incoming, key) == None
    ensures key in context.bound ==> context.bound[key] == lock
    ensures context.cacheList == old(context.cacheList)
    ensures lock.res == if key in context.bound then old(lock.res) else FirstWith(incoming, key)
  {
    for i := 0 to |incoming|
      invariant context.Valid()
      invariant context.cacheList == old(context.cacheList)
      invariant context.bound.Values <= old(context.bound.Values)
      invariant if key in context.bound
                then context.bound[key] == lock && lock.res == old(lock.res) && FirstWith(incoming[..i], key) == None
                else lock !in context.bound.Values && lock.res == FirstWith(incoming[..i], key) && lock.res != None
    {
      FirstWithNext(incoming, i, key);
      UnboundValues(context.bound, incoming[i].key);
      var woken := context.Handle(incoming[i]);
    }
    assert incoming[..|incoming|] == incoming;
  }

  /** One request: bind a lock, wait while `incoming` is handled, read, clear. If the free locks hold
      no stale reply, what is read is the first incoming message with the request's key. A request
      that gets no reply leaves its key bound. */
  method RequestReply(context: LockContext, key: string, incoming: seq<Message>) returns (reply: Reply, ghost lock: Lock?)
    requires context.Valid()
    modifies context, context.freeList, context.bound.Values
    ensures context.Valid()
    ensures reply.Thrown? <==> |old(context.cacheList)| >= CACHE_SIZE && old(context.freeList) == []
    ensures reply.Answered? && (forall l <- old(context.freeList) :: !old(l.used) ==> old(l.res) == None) ==>
              reply.res == FirstWith(incoming, key) && (key in context.bound <==> reply.res == None)
    // whatever was read, the request's lock is left unused and without a reply
    ensures reply.Answered? ==> lock != null && !lock.used && lock.res == None
    ensures reply.Answered? ==> lock in context.cacheList || |context.cacheList| >= 1024
    ensures reply.Answered? && key in context.bound ==> context.bound[key] == lock
  {
    var lock_ := context.AddKey(key);
    lock := lock_;
    if lock_ == null {
      return Thrown, null;
    }
    assert context.bound.Values <= old(context.bound.Values) + {lock_};
    assert fresh(lock_) || lock_ in old(context.freeList);
    HandleAll(context, key, lock_, incoming);
    var res := lock_.res;
    lock_.Clear();
    return Answered(res), lock_;
  }
}
