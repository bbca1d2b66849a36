/** The transaction manager's side of one transaction group: the group object,
    the Redis repository that stores it, and the three event handlers.

    Redis holds a serialised copy of a group, so what is stored is a value
    (`Group`), and reading it back gives a fresh object. */
module TransactionGroups {
  import opened Wrappers

  datatype TransactionState = Joining | Committed | RolledBack

  datatype TransactionType = Requester | Joiner

  /** One entry of a group; the time stamp of an entry is left out. */
  datatype TransactionInfo = TransactionInfo(uniqueKey: string, moduleName: string, kind: TransactionType)

  /** A group as Redis stores it. */
  datatype Group = Group(groupId: string, state: TransactionState, infos: seq<TransactionInfo>)

  type Store = map<string, Group>

  // ---- Specification functions ---------------------------------------------

  function StateOf(success: bool): TransactionState {
    if success then Committed else RolledBack
  }

  function NewGroup(groupId: string, key: string, moduleName: string): Group {
    Group(groupId, Joining, [TransactionInfo(key, moduleName, Requester)])
  }

  function WithJoiner(g: Group, key: string, moduleName: string): Group {
    g.(infos := g.infos + [TransactionInfo(key, moduleName, Joiner)])
  }

  function WithDecision(g: Group, success: bool): Group {
    g.(state := StateOf(success))
  }

  /** The joiners of a list of entries, in order. */
  function Joiners(infos: seq<TransactionInfo>): seq<TransactionInfo> {
    if infos == [] then []
    else (if infos[0].kind.Joiner? then [infos[0]] else []) + Joiners(infos[1..])
  }

  /** The connections a list of entries names, in order. */
  function Keys(infos: seq<TransactionInfo>): (r: seq<string>)
    ensures |r| == |infos|
    ensures forall i | 0 <= i < |r| :: r[i] == infos[i].uniqueKey
  {
    seq(|infos|, i requires 0 <= i < |infos| => infos[i].uniqueKey)
  }

  function StoreJoin(store: Store, groupId: string, key: string, moduleName: string): Store {
    if groupId in store then store[groupId := WithJoiner(store[groupId], key, moduleName)] else store
  }

  function StoreNotify(store: Store, groupId: string, success: bool): Store {
    if groupId in store then store[groupId := WithDecision(store[groupId], success)] else store
  }

  /** What a transaction manager sends back to the transaction clients. */
  datatype Message =
    | CreateReply(groupId: string, result: string)
    | JoinReply(groupId: string, result: string)
    | NotifyReply(groupId: string, success: bool, result: string)
    | CommitEvent(groupId: string, commit: bool)

  datatype Packet = Packet(to: string, message: Message)

  function CommitEvents(groupId: string, commit: bool, targets: seq<string>): (r: seq<Packet>)
    ensures |r| == |targets|
    ensures forall i | 0 <= i < |r| :: r[i] == Packet(targets[i], CommitEvent(groupId, commit))
  {
    seq(|targets|, i requires 0 <= i < |targets| => Packet(targets[i], CommitEvent(groupId, commit)))
  }

  /** Everything a notify handler sends: the decision to every joiner, then the reply. */
  function NotifyPackets(store: Store, groupId: string, success: bool, from: string): seq<Packet> {
    if groupId in store then
      CommitEvents(groupId, success, Keys(Joiners(store[groupId].infos))) + [Packet(from, NotifyReply(groupId, success, "ok"))]
    else
      [Packet(from, NotifyReply(groupId, success, "error"))]
  }

  // ---- Facts about the specification ---------------------------------------

  lemma {:induction false} JoinersConcat(a: seq<TransactionInfo>, b: seq<TransactionInfo>)
    ensures Joiners(a + b) == Joiners(a) + Joiners(b)
  {
    if a == [] {
      assert a + b == b;
    } else {
      assert (a + b)[0] == a[0] && (a + b)[1..] == a[1..] + b;
      JoinersConcat(a[1..], b);
      var head := if a[0].kind.Joiner? then [a[0]] else [];
      assert head + (Joiners(a[1..]) + Joiners(b)) == (head + Joiners(a[1..])) + Joiners(b);
    }
  }

  /** Only joiners are listed, and all of them: a requester's entry is never among them. */
  lemma {:induction false} JoinersAreTheJoiners(infos: seq<TransactionInfo>)
    ensures forall i :: i in Joiners(infos) <==> i in infos && i.kind.Joiner?
  {
    if infos != [] {
      JoinersAreTheJoiners(infos[1..]);
      assert infos == [infos[0]] + infos[1..];
    }
  }

  /** What a notify handler sends: to every joiner of a known group, in order, the decision it was sent, and last of all to
      the sender a reply with the flag of its request, whether or not the group is known. */
  lemma NotifyAnswersTheSender(store: Store, groupId: string, success: bool, from: string)
    ensures var packets := NotifyPackets(store, groupId, success, from);
            var joiners := if groupId in store then Joiners(store[groupId].infos) else [];
            && |packets| == |joiners| + 1
            && (forall i | 0 <= i < |joiners| :: packets[i] == Packet(joiners[i].uniqueKey, CommitEvent(groupId, success)))
            && packets[|joiners|] == Packet(from, NotifyReply(groupId, success, if groupId in store then "ok" else "error"))
  {
  }

  // ---- Notifications handled again ---------------------------------------------

  /** An operation of the repository, on any group. */
  datatype Operation =
    | CreateOp(groupId: string, key: string, moduleName: string)
    | JoinOp(groupId: string, key: string, moduleName: string)
    | NotifyOp(groupId: string, success: bool)

  function Apply(store: Store, op: Operation): Store {
    match op
    case CreateOp(g, key, moduleName) => store[g := NewGroup(g, key, moduleName)]
    case JoinOp(g, key, moduleName) => StoreJoin(store, g, key, moduleName)
    case NotifyOp(g, success) => StoreNotify(store, g, success)
  }

  function ApplyAll(store: Store, ops: seq<Operation>): Store {
    if ops == [] then store else Apply(ApplyAll(store, ops[..|ops| - 1]), ops[|ops| - 1])
  }

  predicate Recreated(groupId: string, ops: seq<Operation>) {
    exists op <- ops :: op.CreateOp? && op.groupId == groupId
  }

  /** Who joined the group since it was last created, or at all. */
  function JoinedSince(groupId: string, ops: seq<Operation>): seq<string> {
    if ops == [] then []
    else
      var last, before := ops[|ops| - 1], JoinedSince(groupId, ops[..|ops| - 1]);
      if last.groupId != groupId || last.NotifyOp? then before
      else if last.CreateOp? then []
      else before + [last.key]
  }

  /** Whom a decision of the group goes to, if it is known. */
  function Audience(store: Store, groupId: string): Option<seq<string>> {
    if groupId in store then Some(Keys(Joiners(store[groupId].infos))) else None
  }

  /** The operations leave the group with the audience it had: without a re-create nobody joined a known group, with
      one exactly the same have joined again since. */
  predicate SameAudience(store: Store, groupId: string, ops: seq<Operation>) {
    if Recreated(groupId, ops) then Audience(store, groupId) == Some(JoinedSince(groupId, ops))
    else groupId !in store || JoinedSince(groupId, ops) == []
  }

  lemma KeysOfJoin(g: Group, key: string, moduleName: string)
    ensures Keys(Joiners(WithJoiner(g, key, moduleName).infos)) == Keys(Joiners(g.infos)) + [key]
  {
    var e := TransactionInfo(key, moduleName, Joiner);
    JoinersConcat(g.infos, [e]);
    assert Joiners([e]) == [e] + Joiners([e][1..]);
  }

  lemma RecreatedLast(groupId: string, ops: seq<Operation>)
    requires ops != []
    ensures var last := ops[|ops| - 1];
            Recreated(groupId, ops) <==> Recreated(groupId, ops[..|ops| - 1]) || (last.CreateOp? && last.groupId == groupId)
  {
    var before, last := ops[..|ops| - 1], ops[|ops| - 1];
    assert ops == before + [last];
  }

  lemma {:induction false} AudienceAfter(store: Store, groupId: string, ops: seq<Operation>)
    ensures Audience(ApplyAll(store, ops), groupId)
            == if Recreated(groupId, ops) then Some(JoinedSince(groupId, ops))
               else if groupId in store then Some(Audience(store, groupId).value + JoinedSince(groupId, ops)) else None
  {
    if ops == [] {
      if groupId in store {
        assert Audience(store, groupId).value + [] == Audience(store, groupId).value;
      }
    } else {
      var before, last := ops[..|ops| - 1], ops[|ops| - 1];
      AudienceAfter(store, groupId, before);
      RecreatedLast(groupId, ops);
      AudienceOfApply(ApplyAll(store, before), last, groupId);
      if groupId in store {
        Regroup(Audience(store, groupId).value, JoinedSince(groupId, before), if last.JoinOp? then [last.key] else []);
      }
    }
  }

  lemma AudienceOfApply(store: Store, op: Operation, groupId: string)
    ensures Audience(Apply(store, op), groupId)
            == if op.groupId != groupId || op.NotifyOp? then Audience(store, groupId)
               else if op.CreateOp? then Some([])
               else if groupId in store then Some(Audience(store, groupId).value + [op.key]) else None
  {
    match op
    case CreateOp(g, key, moduleName) =>
      var infos := NewGroup(g, key, moduleName).infos;
      assert infos[1..] == [];
      assert Joiners(infos) == [] + Joiners(infos[1..]);
    case JoinOp(g, key, moduleName) =>
      if g in store {
        KeysOfJoin(store[g], key, moduleName);
      }
    case NotifyOp(_, _) =>
  }

  lemma Regroup(a: seq<string>, b: seq<string>, c: seq<string>)
    ensures a + b + c == a + (b + c)
  {
  }

  lemma PacketsTellAudience(store: Store, other: Store, groupId: string, success: bool, from: string)
    ensures NotifyPackets(store, groupId, success, from) == NotifyPackets(other, groupId, success, from)
            <==> Audience(store, groupId) == Audience(other, groupId)
  {
    var p, q := NotifyPackets(store, groupId, success, from), NotifyPackets(other, groupId, success, from);
    assert p[|p| - 1] == Packet(from, NotifyReply(groupId, success, if groupId in store then "ok" else "error"));
    assert q[|q| - 1] == Packet(from, NotifyReply(groupId, success, if groupId in other then "ok" else "error"));
    if groupId in store && groupId in other && p == q {
      var a, b := Audience(store, groupId).value, Audience(other, groupId).value;
      assert |p| == |a| + 1 && |q| == |b| + 1;
      forall i | 0 <= i < |a| ensures a[i] == b[i] {
        assert p[i].to == a[i] && q[i].to == b[i];
      }
      assert a == b;
    }
  }

  /** A notification that is handled again, after any operations on any groups, broadcasts and answers what it did the
      first time if and only if they leave the group with its audience; so it does if no create or join of the group
      is among them, and then the group stored is the same as well. */
  lemma RetriedNotifyIsHarmless(store: Store, groupId: string, success: bool, from: string, ops: seq<Operation>)
    ensures var later := ApplyAll(StoreNotify(store, groupId, success), ops);
            && (NotifyPackets(later, groupId, success, from) == NotifyPackets(store, groupId, success, from)
                <==> SameAudience(store, groupId, ops))
            && ((forall op <- ops :: op.groupId == groupId ==> op.NotifyOp?) ==>
                  && SameAudience(store, groupId, ops)
                  && (groupId in store <==> groupId in later)
                  && (groupId in store ==>
                        StoreNotify(later, groupId, success)[groupId] == StoreNotify(store, groupId, success)[groupId]))
  {
    var first := StoreNotify(store, groupId, success);
    AudienceAfter(first, groupId, ops);
    assert Audience(first, groupId) == Audience(store, groupId);
    PacketsTellAudience(ApplyAll(first, ops), store, groupId, success, from);
    if groupId in store {
      Longer(Audience(store, groupId).value, JoinedSince(groupId, ops));
    }
    if forall op <- ops :: op.groupId == groupId ==> op.NotifyOp? {
      OnlyTheStateChanges(first, groupId, ops);
    }
  }

  lemma Longer(a: seq<string>, b: seq<string>)
    ensures a + b == a <==> b == []
  {
    assert |a + b| == |a| + |b|;
  }

  lemma {:induction false} OnlyTheStateChanges(store: Store, groupId: string, ops: seq<Operation>)
    requires forall op <- ops :: op.groupId == groupId ==> op.NotifyOp?
    ensures JoinedSince(groupId, ops) == []
    ensures var later := ApplyAll(store, ops);
            && (groupId in store <==> groupId in later)
            && (groupId in store ==> later[groupId].(state := Joining) == store[groupId].(state := Joining))
  {
    if ops != [] {
      assert ops[|ops| - 1] in ops;
      assert forall op <- ops[..|ops| - 1] :: op in ops;
      OnlyTheStateChanges(store, groupId, ops[..|ops| - 1]);
    }
  }

  /** A join between two notifications changes who is told: the hypothesis above is needed. */
  lemma JoinBetweenNotifiesChangesTargets(store: Store, groupId: string, success: bool, from: string, key: string, moduleName: string)
    requires groupId in store
    ensures var joined := StoreJoin(StoreNotify(store, groupId, success), groupId, key, moduleName);
            |NotifyPackets(joined, groupId, success, from)| == |NotifyPackets(store, groupId, success, from)| + 1
  {
    var infos := store[groupId].infos;
    JoinersConcat(infos, [TransactionInfo(key, moduleName, Joiner)]);
  }

  // ---- The objects ----------------------------------------------------------

  /** A group as an object in memory. */
  class TransactionGroup {
    var groupId: string
    var state: TransactionState
    var transactionInfoList: seq<TransactionInfo>

    ghost function Value(): Group
      reads this
    {
      Group(groupId, state, transactionInfoList)
    }

    constructor (groupId: string, uniqueKey: string, moduleName: string, kind: TransactionType)
      ensures Value() == Group(groupId, Joining, [TransactionInfo(uniqueKey, moduleName, kind)])
    {
      this.groupId := groupId;
      state := Joining;
      transactionInfoList := [];
      new;
      Add(uniqueKey, moduleName, kind);
    }

    /** Deserialisation of a stored group. */
    constructor Read(g: Group)
      ensures Value() == g
    {
      groupId, state, transactionInfoList := g.groupId, g.state, g.infos;
    }

    method Add(uniqueKey: string, moduleName: string, kind: TransactionType)
      modifies this`transactionInfoList
      ensures transactionInfoList == old(transactionInfoList) + [TransactionInfo(uniqueKey, moduleName, kind)]
    {
      transactionInfoList := transactionInfoList + [TransactionInfo(uniqueKey, moduleName, kind)];
    }

    method ListTransaction() returns (infos: seq<TransactionInfo>)
      ensures infos == Joiners(transactionInfoList)
    {
      infos := [];
      for i := 0 to |transactionInfoList|
        invariant infos == Joiners(transactionInfoList[..i])
      {
        JoinersConcat(transactionInfoList[..i], [transactionInfoList[i]]);
        assert transactionInfoList[..i + 1] == transactionInfoList[..i] + [transactionInfoList[i]];
        if transactionInfoList[i].kind.Joiner? {
          infos := infos + [transactionInfoList[i]];
        }
      }
      assert transactionInfoList[..|transactionInfoList|] == transactionInfoList;
    }

    predicate HasCommit()
      reads this
    {
      state == Committed
    }

    /** The serialised form. */
    method Write() returns (g: Group)
      ensures g == Value()
    {
      g := Group(groupId, state, transactionInfoList);
    }
  }

  /** The repository over Redis: every operation but `Create` reads a copy, changes it and writes it back. */
  class RedisTransactionGroupRepository {
    var store: Store

    constructor ()
      ensures store == map[]
    {
      store := map[];
    }

    method Create(groupId: string, uniqueKey: string, moduleName: string)
      modifies this
      ensures store == old(store)[groupId := NewGroup(groupId, uniqueKey, moduleName)]
      ensures store[groupId] == Group(groupId, Joining, [TransactionInfo(uniqueKey, moduleName, Requester)])
    {
      var group := new TransactionGroup(groupId, uniqueKey, moduleName, Requester);
      var g := group.Write();
      store := store[groupId := g];
    }

    method Join(groupId: string, uniqueKey: string, moduleName: string)
      modifies this
      ensures store == StoreJoin(old(store), groupId, uniqueKey, moduleName)
      ensures store.Keys == old(store).Keys && forall g <- store | g != groupId :: store[g] == old(store)[g]
      ensures groupId in store ==>
                && store[groupId].groupId == old(store)[groupId].groupId && store[groupId].state == old(store)[groupId].state
                && store[groupId].infos == old(store)[groupId].infos + [TransactionInfo(uniqueKey, moduleName, Joiner)]
    {
      if groupId in store {
        var group := new TransactionGroup.Read(store[groupId]);
        group.Add(uniqueKey, moduleName, Joiner);
        var g := group.Write();
        store := store[groupId := g];
      }
    }

    method Notify(groupId: string, success: bool) returns (group: TransactionGroup?)
      modifies this
      ensures store == StoreNotify(old(store), groupId, success)
      ensures group == null <==> groupId !in old(store)
      ensures group != null ==> fresh(group) && group.Value() == WithDecision(old(store)[groupId], success)
      ensures store.Keys == old(store).Keys && forall g <- store | g != groupId :: store[g] == old(store)[g]
      ensures groupId in store ==>
                && store[groupId].groupId == old(store)[groupId].groupId && store[groupId].infos == old(store)[groupId].infos
                && store[groupId].state == (if success then Committed else RolledBack)
    {
      if groupId !in store {
        return null;
      }
      group := new TransactionGroup.Read(store[groupId]);
      group.state := StateOf(success);
      var g := group.Write();
      store := store[groupId := g];
    }
  }

  /** An operation, as the repository carries it out. */
  method Perform(repository: RedisTransactionGroupRepository, op: Operation)
    modifies repository
    ensures repository.store == Apply(old(repository.store), op)
  {
    match op
    case CreateOp(groupId, key, moduleName) => repository.Create(groupId, key, moduleName);
    case JoinOp(groupId, key, moduleName) => repository.Join(groupId, key, moduleName);
    case NotifyOp(groupId, success) => var _ := repository.Notify(groupId, success);
  }

  /** The outgoing side of a transaction manager. */
  class Protocoler {
    var sent: seq<Packet>

    constructor ()
      ensures sent == []
    {
      sent := [];
    }

    method SendMsg(to: string, message: Message)
      modifies this
      ensures sent == old(sent) + [Packet(to, message)]
    {
      sent := sent + [Packet(to, message)];
    }
  }

  /** The handler body of a create event. */
  method HandleCreate(repository: RedisTransactionGroupRepository, protocoler: Protocoler,
                      groupId: string, moduleName: string, from: string)
    modifies repository, protocoler
    ensures repository.store
            == old(repository.store)[groupId := Group(groupId, Joining, [TransactionInfo(from, moduleName, Requester)])]
    ensures protocoler.sent == old(protocoler.sent) + [Packet(from, CreateReply(groupId, "ok"))]
  {
    repository.Create(groupId, from, moduleName);
    protocoler.SendMsg(from, CreateReply(groupId, "ok"));
  }

  /** The handler body of a join event: it acknowledges even when the group is unknown. */
  method HandleJoin(repository: RedisTransactionGroupRepository, protocoler: Protocoler,
                    groupId: string, moduleName: string, from: string)
    modifies repository, protocoler
    ensures repository.store == StoreJoin(old(repository.store), groupId, from, moduleName)
    ensures protocoler.sent == old(protocoler.sent) + [Packet(from, JoinReply(groupId, "ok"))]
  {
    repository.Join(groupId, from, moduleName);
    protocoler.SendMsg(from, JoinReply(groupId, "ok"));
  }

  /** The handler body of a notify event: record, broadcast to the joiners, reply.
      The reply echoes the `success` flag of the request whether or not the group is known. */
  method HandleNotify(repository: RedisTransactionGroupRepository, protocoler: Protocoler,
                      groupId: string, success: bool, from: string)
    modifies repository, protocoler
    ensures repository.store == StoreNotify(old(repository.store), groupId, success)
    ensures protocoler.sent == old(protocoler.sent) + NotifyPackets(old(repository.store), groupId, success, from)
    // the sender is answered last, with the flag it sent
    ensures protocoler.sent[|protocoler.sent| - 1]
            == Packet(from, NotifyReply(groupId, success, if groupId in old(repository.store) then "ok" else "error"))
    // and before that every joiner is told that flag
    ensures groupId in old(repository.store) ==>
              var joiners := Joiners(old(repository.store)[groupId].infos);
              && |protocoler.sent| == |old(protocoler.sent)| + |joiners| + 1
              && forall i | 0 <= i < |joiners| ::
                   protocoler.sent[|old(protocoler.sent)| + i] == Packet(joiners[i].uniqueKey, CommitEvent(groupId, success))
  {
    NotifyAnswersTheSender(repository.store, groupId, success, from);
    var result := "error";
    var group := repository.Notify(groupId, success);
    if group != null {
      var infos := group.ListTransaction();
      var commit := group.HasCommit();
      ghost var events := CommitEvents(groupId, commit, Keys(infos));
      for i := 0 to |infos|
        invariant repository.store == StoreNotify(old(repository.store), groupId, success)
        invariant protocoler.sent == old(protocoler.sent) + events[..i]
      {
        protocoler.SendMsg(infos[i].uniqueKey, CommitEvent(groupId, commit));
        assert events[..i + 1] == events[..i] + [events[i]];
      }
      assert events[..|infos|] == events;
      result := "ok";
    }
    protocoler.SendMsg(from, NotifyReply(groupId, success, result));
  }
}
