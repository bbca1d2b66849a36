/** Forwarding of a client's request between transaction managers. Three flags on the message
    decide whether a manager forwards it, executes it, or calls the client back. */
module Forwarding {
  import opened Wrappers

  type MessageId = nat

  /** The part of a message that routing and the handler bodies look at, and what a body generates.
      The group id is that of a transaction event. */
  datatype Message = Message(id: MessageId, firstId: Option<MessageId>, isFirstNode: bool,
                             isBusinessExecuted: bool, isReadyCallBack: bool,
                             groupId: Option<string>, generated: Option<nat>)

  /** What the client asks for: ids, or something of the transaction group it has the id of, if it has one. */
  datatype Kind = Snowflake | Transaction(groupId: Option<string>)

  datatype Node = Client(i: nat) | Manager(i: nat)

  datatype Packet = Packet(from: Node, to: Node, message: Message)

  /** The body of a transaction event uses the group id as a key of Redis, and RedisTemplate refuses a null key. */
  predicate BodyThrows(kind: Kind, m: Message) {
    kind.Transaction? && m.groupId.None?
  }

  /** The message after its body has run and generated `value`: the body of a snowflake event marks the message as
      executed and ready, that of a transaction event does not. */
  function Executed(kind: Kind, m: Message, value: nat): Message {
    match kind
    case Snowflake => m.(generated := Some(value), isBusinessExecuted := true, isReadyCallBack := true)
    case Transaction(_) => m
  }

  /** The new, blank message sent to another manager. */
  function Forwarded(id: MessageId): Message {
    Message(id, None, false, false, false, None, None)
  }

  /** The reply's properties copied over the original, which keeps its own id. */
  function Merged(original: Message, reply: Message): Message {
    reply.(id := original.id, isFirstNode := true)
  }

  // ---- One dispatch as code ------------------------------------------------------

  /** A message that handlers change in place. */
  class MessageObject {
    var value: Message

    constructor (value: Message)
      ensures this.value == value
    {
      this.value := value;
    }
  }

  /** What a manager does besides changing the message, in order. */
  datatype Effect = Forward(message: Message) | RunBody | Send(to: Node, message: Message)

  datatype Outcome = Returned | Raised

  /** One dispatch: the message afterwards, the effects, and whether the handler threw. */
  datatype Dispatched = Dispatched(message: Message, effects: seq<Effect>, outcome: Outcome)

  /** What running the body does. */
  function RunBodyOf(kind: Kind, m: Message, from: Node, value: nat): Dispatched {
    if BodyThrows(kind, m) then Dispatched(m, [RunBody], Raised)
    else Dispatched(Executed(kind, m, value), [RunBody, Send(from, Executed(kind, m, value))], Returned)
  }

  /** `answer` is what the other manager replies, if the message is forwarded. */
  function Dispatch(kind: Kind, m: Message, from: Node, connections: nat, newId: MessageId,
                    answer: Option<Message>, value: nat): Dispatched {
    if connections == 1 || (!m.isFirstNode && !m.isBusinessExecuted) then RunBodyOf(kind, m, from, value)
    else if !m.isFirstNode then
      Dispatched(m, [], Returned)
    else if answer.None? then
      Dispatched(m.(firstId := Some(m.id)), [Forward(Forwarded(newId))], Raised)
    else
      var merged := Merged(m, answer.value);
      Dispatched(merged, [Forward(Forwarded(newId))] + (if merged.isReadyCallBack then [Send(from, merged)] else []), Returned)
  }

  class LoadBalancerInterceptor {
    const kind: Kind
    var effects: seq<Effect>

    constructor (kind: Kind)
      ensures this.kind == kind && effects == []
    {
      this.kind := kind;
      effects := [];
    }

    /** The handler body: generate and set the flags, or use the repository, which throws without a group id; send back. */
    method Execute(message: MessageObject, from: Node, value: nat) returns (outcome: Outcome)
      modifies this, message
      ensures outcome.Raised? <==> kind.Transaction? && old(message.value).groupId.None?
      ensures outcome.Raised? ==> message.value == old(message.value) && effects == old(effects) + [RunBody]
      ensures outcome.Returned? ==>
                && message.value == Executed(kind, old(message.value), value)
                && effects == old(effects) + [RunBody, Send(from, message.value)]
      // a snowflake event is sent back with what was generated and both flags set, a transaction event as it came
      ensures kind.Snowflake? ==>
                && message.value.generated == Some(value) && message.value.isBusinessExecuted && message.value.isReadyCallBack
                && message.value.id == old(message.value.id) && message.value.isFirstNode == old(message.value.isFirstNode)
      ensures kind.Transaction? ==> message.value == old(message.value)
    {
      effects := effects + [RunBody];
      if kind.Snowflake? {
        message.value := message.value.(generated := Some(value));
        message.value := message.value.(isBusinessExecuted := true);
        message.value := message.value.(isReadyCallBack := true);
      } else if message.value.groupId.None? {
        return Raised;
      }
      effects := effects + [Send(from, message.value)];
      return Returned;
    }

    /** The first manager forwards a blank message and takes over the reply; no reply makes it throw. */
    method OnFirstNode(message: MessageObject, firstMessageId: MessageId, newId: MessageId, answer: Option<Message>)
      returns (outcome: Outcome)
      modifies this, message
      ensures !old(message.value).isFirstNode ==>
                message.value == old(message.value) && effects == old(effects) && outcome.Returned?
      ensures old(message.value).isFirstNode ==>
                && effects == old(effects) + [Forward(Forwarded(newId))]
                && (outcome.Raised? <==> answer.None?)
                && message.value == (if answer.None? then old(message.value).(firstId := Some(old(message.value).id))
                                     else answer.value.(id := firstMessageId, isFirstNode := true))
    {
      if !message.value.isFirstNode {
        return Returned;
      }
      message.value := message.value.(firstId := Some(message.value.id));
      effects := effects + [Forward(Forwarded(newId))];
      if answer.None? {
        return Raised;
      }
      message.value := answer.value;
      message.value := message.value.(id := firstMessageId);
      message.value := message.value.(isFirstNode := true);
      return Returned;
    }

    method OnBusinessExecuted(message: MessageObject, from: Node, value: nat) returns (outcome: Outcome)
      modifies this, message
      ensures if !old(message.value).isFirstNode && !old(message.value).isBusinessExecuted
              then var d := RunBodyOf(kind, old(message.value), from, value);
                   message.value == d.message && effects == old(effects) + d.effects && outcome == d.outcome
              else message.value == old(message.value) && effects == old(effects) && outcome.Returned?
    {
      outcome := Returned;
      if !message.value.isFirstNode && !message.value.isBusinessExecuted {
        outcome := Execute(message, from, value);
      }
    }

    method OnReadyCallBack(message: MessageObject, firstConnection: Node)
      modifies this
      ensures effects == old(effects)
                + (if message.value.isFirstNode && message.value.isReadyCallBack then [Send(firstConnection, message.value)] else [])
    {
      if message.value.isFirstNode && message.value.isReadyCallBack {
        effects := effects + [Send(firstConnection, message.value)];
      }
    }

    method Handle(message: MessageObject, from: Node, connections: nat, newId: MessageId,
                  answer: Option<Message>, value: nat) returns (outcome: Outcome)
      modifies this, message
      ensures var d := Dispatch(kind, old(message.value), from, connections, newId, answer, value);
              message.value == d.message && effects == old(effects) + d.effects && outcome == d.outcome
      // alone, or neither first nor executed: the body runs, and what it made of the message goes back unless it throws
      ensures connections == 1 || (!old(message.value).isFirstNode && !old(message.value).isBusinessExecuted) ==>
                var throws := kind.Transaction? && old(message.value).groupId.None?;
                && effects == old(effects) + (if throws then [RunBody] else [RunBody, Send(from, message.value)])
                && (outcome.Raised? <==> throws)
      // otherwise executed and not first: nothing
      ensures connections != 1 && !old(message.value).isFirstNode && old(message.value).isBusinessExecuted ==>
                effects == old(effects) && message.value == old(message.value) && outcome.Returned?
      // otherwise first: a blank message goes out, and the reply back if it is ready, under the request's id
      ensures connections != 1 && old(message.value).isFirstNode ==>
                var blank := Message(newId, None, false, false, false, None, None);
                && (outcome.Raised? <==> answer.None?)
                && (answer.None? ==> effects == old(effects) + [Forward(blank)])
                && (answer.Some? ==>
                      && message.value == answer.value.(id := old(message.value).id, isFirstNode := true)
                      && effects == old(effects) + [Forward(blank)]
                           + (if answer.value.isReadyCallBack then [Send(from, message.value)] else []))
    {
      var firstConnection := from;
      var firstMessageId := message.value.id;
      if connections == 1 {
        outcome := Execute(message, from, value);
      } else {
        outcome := OnFirstNode(message, firstMessageId, newId, answer);
        if outcome.Raised? {
          return;
        }
        outcome := OnBusinessExecuted(message, from, value);
        if outcome.Raised? {
          return;
        }
        OnReadyCallBack(message, firstConnection);
      }
    }
  }

  // ---- One request through any number of managers -----------------------------------

  /** The first manager between forwarding and its reply. */
  datatype Pending = Pending(manager: nat, original: Message, from: Node, requestId: MessageId, reply: Option<Message>)

  datatype System = System(
    net: seq<Packet>, pending: Option<Pending>, forwarders: set<nat>, nextId: MessageId,
    hops: nat,                 // requests sent from a manager to a manager
    generated: seq<nat>,       // for each time a body was entered, the value it would generate
    replies: seq<Message>)     // sent back to the client

  datatype Step =
    | Deliver(i: nat, connections: nat, leader: Node, value: nat)
    | Resume   // the reply wakes the first manager
    | GiveUp   // its wait ends without one: the handler throws
    | Lose(i: nat)

  const OWNER: Node := Client(0)
  const OWN_ID: MessageId := 0

  function Request(kind: Kind): Message {
    Message(OWN_ID, None, true, false, false, if kind.Transaction? then kind.groupId else None, None)
  }

  /** The client's request, just sent to manager `m`. */
  function Sent(kind: Kind, m: nat): System {
    System([Packet(OWNER, Manager(m), Request(kind))], None, {}, 1, 0, [], [])
  }

  function Without(net: seq<Packet>, i: nat): seq<Packet>
    requires i < |net|
  {
    net[..i] + net[i + 1..]
  }

  predicate Enabled(s: System, step: Step) {
    match step
    case Deliver(i, connections, leader, _) => i < |s.net| && connections > 0 && leader != s.net[i].to
    case Resume => s.pending.Some? && s.pending.value.reply.Some?
    case GiveUp => s.pending.Some?
    case Lose(i) => i < |s.net|
  }

  /** A message sent back by a manager; the client's copy is also recorded. */
  function SendBack(s: System, from: nat, to: Node, m: Message): System {
    s.(net := s.net + [Packet(Manager(from), to, m)], replies := if to == OWNER then s.replies + [m] else s.replies)
  }

  /** The reply is stored in the lock of the waiting manager, if this is what it waits for. */
  function Woken(pending: Option<Pending>, manager: nat, m: Message): Option<Pending> {
    if pending.Some? && pending.value.manager == manager && pending.value.requestId == m.id && pending.value.reply.None?
    then Some(pending.value.(reply := Some(m))) else pending
  }

  function Do(kind: Kind, s: System, step: Step): System
    requires Enabled(s, step)
  {
    match step
    case Lose(i) => s.(net := Without(s.net, i))
    case GiveUp => s.(pending := None)
    case Resume =>
      var p := s.pending.value;
      var merged := Merged(p.original, p.reply.value);
      var t := s.(pending := None);
      if merged.isReadyCallBack then SendBack(t, p.manager, p.from, merged) else t
    case Deliver(i, connections, leader, value) =>
      var p := s.net[i];
      var m := p.message;
      var t := s.(net := Without(s.net, i));
      if p.to.Client? then t else
      var t := t.(pending := Woken(s.pending, p.to.i, m));
      if connections == 1 || (!m.isFirstNode && !m.isBusinessExecuted) then
        var t := t.(generated := s.generated + [value]);
        if BodyThrows(kind, m) then t else SendBack(t, p.to.i, p.from, Executed(kind, m, value))
      else if !m.isFirstNode then t
      else
        t.(net := t.net + [Packet(p.to, leader, Forwarded(s.nextId))], nextId := s.nextId + 1,
           pending := Some(Pending(p.to.i, m, p.from, s.nextId, None)),
           forwarders := s.forwarders + {p.to.i},
           hops := if leader.Manager? then s.hops + 1 else s.hops)
  }

  /** A delivery in the machine is a dispatch: what is sent, and what runs, is what the code does.
      A forwarding dispatch is cut in two, at its wait for the reply. */
  lemma DeliverIsDispatch(kind: Kind, s: System, i: nat, connections: nat, leader: Node, value: nat)
    requires Enabled(s, Deliver(i, connections, leader, value)) && s.net[i].to.Manager?
    ensures var p := s.net[i];
            var t := Do(kind, s, Deliver(i, connections, leader, value));
            var d := Dispatch(kind, p.message, p.from, connections, s.nextId, None, value);
            && |t.generated| == |s.generated| + (if RunBody in d.effects then 1 else 0)
            && t.net == Without(s.net, i)
                 + (if d.effects == [] || d.effects == [RunBody] then []
                    else if d.effects[0].RunBody? then [Packet(p.to, p.from, d.message)]
                    else [Packet(p.to, leader, d.effects[0].message)])
  {
  }

  /** The second half: with the reply, the manager sends what the dispatch sends after forwarding. */
  lemma ResumeIsRestOfDispatch(kind: Kind, s: System, connections: nat, value: nat)
    requires Enabled(s, Resume) && connections > 1 && s.pending.value.original.isFirstNode
    ensures var p := s.pending.value;
            var d := Dispatch(kind, p.original, p.from, connections, p.requestId, p.reply, value);
            && d.effects[0] == Forward(Forwarded(p.requestId))
            && Do(kind, s, Resume).net == s.net
                 + (if |d.effects| == 1 then [] else [Packet(Manager(p.manager), d.effects[1].to, d.effects[1].message)])
  {
  }

  function Exec(kind: Kind, start: nat, steps: seq<Step>): Option<System> {
    if steps == [] then Some(Sent(kind, start))
    else
      var before := Exec(kind, start, steps[..|steps| - 1]);
      if before.Some? && Enabled(before.value, steps[|steps| - 1])
      then Some(Do(kind, before.value, steps[|steps| - 1]))
      else None
  }

  /** A manager that has forwarded keeps at least two connections. */
  predicate StepKeepsConnections(s: System, step: Step) {
    step.Deliver? && step.i < |s.net| && s.net[step.i].to.Manager? && s.net[step.i].to.i in s.forwarders
    ==> step.connections >= 2
  }

  predicate KeepsConnections(kind: Kind, start: nat, steps: seq<Step>) {
    steps == [] ||
    var before := Exec(kind, start, steps[..|steps| - 1]);
    && KeepsConnections(kind, start, steps[..|steps| - 1])
    && (before.Some? ==> StepKeepsConnections(before.value, steps[|steps| - 1]))
  }

  predicate Waiting(p: Option<Pending>, start: nat, id: MessageId) {
    p.None? || (p.value.manager == start && p.value.from == OWNER && p.value.original.id == OWN_ID
                && p.value.requestId == id && p.value.reply.None?)
  }

  predicate DoneOnce(m: Message, generated: seq<nat>) {
    |generated| == 1 && !m.isFirstNode && m.isBusinessExecuted && m.isReadyCallBack && m.generated == Some(generated[0])
  }

  /** Where a snowflake request can be: there is never more than one packet. */
  predicate OnItsWay(start: nat, s: System) {
    || s == Sent(Snowflake, start)
    || (s.replies == [] && s.forwarders == {start} && s.hops <= 1 && (
          // forwarded, not executed
          || (|s.net| == 1 && s.generated == [] && s.net[0].from == Manager(start) && s.net[0].to != Manager(start)
              && s.net[0].message == Forwarded(s.net[0].message.id) && Waiting(s.pending, start, s.net[0].message.id))
          // executed, on the way back to the first manager
          || (|s.net| == 1 && s.net[0].to == Manager(start) && DoneOnce(s.net[0].message, s.generated)
              && Waiting(s.pending, start, s.net[0].message.id))
          // the first manager has the reply
          || (s.net == [] && s.pending.Some? && s.pending.value.reply.Some?
              && DoneOnce(s.pending.value.reply.value, s.generated)
              && Waiting(Some(s.pending.value.(reply := None)), start, s.pending.value.requestId))))
    // answered, or lost
    || (|s.net| <= 1 && (s.net != [] ==> s.net[0].to == OWNER)
        && (s.pending.Some? ==> s.pending.value.reply.None?) && s.hops <= 1 && |s.generated| <= 1
        && (s.replies == [] || (|s.replies| == 1 && |s.generated| == 1 && s.replies[0].id == OWN_ID
                                && s.replies[0].generated == Some(s.generated[0]))))
  }

  lemma StepKeepsOnItsWay(start: nat, s: System, step: Step)
    requires Enabled(s, step) && StepKeepsConnections(s, step) && OnItsWay(start, s)
    ensures OnItsWay(start, Do(Snowflake, s, step))
  {
  }

  lemma {:induction false} RunsStayOnTheirWay(start: nat, steps: seq<Step>)
    requires Exec(Snowflake, start, steps).Some? && KeepsConnections(Snowflake, start, steps)
    ensures OnItsWay(start, Exec(Snowflake, start, steps).value)
  {
    if steps != [] {
      RunsStayOnTheirWay(start, steps[..|steps| - 1]);
      StepKeepsOnItsWay(start, Exec(Snowflake, start, steps[..|steps| - 1]).value, steps[|steps| - 1]);
    }
  }

  /** At most one hop between managers, one run of the body and one reply to the client, which carries
      the client's own message id and what the body generated. */
  predicate Once(s: System) {
    && s.hops <= 1 && |s.generated| <= 1 && |s.replies| <= 1
    && (s.replies != [] ==> s.generated != [] && s.replies[0].id == OWN_ID
                            && s.replies[0].generated == Some(s.generated[0]))
  }

  lemma GeneratedGrows(kind: Kind, s: System, step: Step)
    requires Enabled(s, step)
    ensures |Do(kind, s, step).generated| >= |s.generated|
  {
  }

  /** The only packet that can reach the manager that forwarded is the executed message on its way back:
      with one connection left it is executed again. */
  lemma LosingConnectionsRunsTwice(start: nat, s: System, step: Step)
    requires Enabled(s, step) && OnItsWay(start, s) && !StepKeepsConnections(s, step)
    ensures |Do(Snowflake, s, step).generated| >= 2
  {
  }

  lemma {:induction false} LostConnectionsRanTwice(start: nat, steps: seq<Step>)
    requires Exec(Snowflake, start, steps).Some? && !KeepsConnections(Snowflake, start, steps)
    ensures |Exec(Snowflake, start, steps).value.generated| >= 2
  {
    var before, step := steps[..|steps| - 1], steps[|steps| - 1];
    var s := Exec(Snowflake, start, before).value;
    if KeepsConnections(Snowflake, start, before) {
      RunsStayOnTheirWay(start, before);
      LosingConnectionsRunsTwice(start, s, step);
    } else {
      LostConnectionsRanTwice(start, before);
      GeneratedGrows(Snowflake, s, step);
    }
  }

  /** At most once, and exactly when: in every run of a snowflake request, with any choice of the other manager
      and any losses, everything happens at most once if and only if, at each delivery to a manager that has
      forwarded, that manager has at least two connections. Otherwise the body has run twice. */
  lemma AtMostOnce(start: nat, steps: seq<Step>)
    requires Exec(Snowflake, start, steps).Some?
    ensures var s := Exec(Snowflake, start, steps).value;
            && (Once(s) <==> KeepsConnections(Snowflake, start, steps))
            && (|s.generated| <= 1 <==> KeepsConnections(Snowflake, start, steps))
  {
    if KeepsConnections(Snowflake, start, steps) {
      RunsStayOnTheirWay(start, steps);
    } else {
      LostConnectionsRanTwice(start, steps);
    }
  }

  lemma Extend(kind: Kind, start: nat, steps: seq<Step>, step: Step)
    requires Exec(kind, start, steps).Some? && Enabled(Exec(kind, start, steps).value, step)
    ensures Exec(kind, start, steps + [step]) == Some(Do(kind, Exec(kind, start, steps).value, step))
    ensures KeepsConnections(kind, start, steps) && StepKeepsConnections(Exec(kind, start, steps).value, step) ==>
              KeepsConnections(kind, start, steps + [step])
  {
    assert (steps + [step])[..|steps + [step]| - 1] == steps;
  }

  lemma ForwardedRun(start: nat, value: nat) returns (steps: seq<Step>)
    ensures Exec(Snowflake, start, steps).Some? && KeepsConnections(Snowflake, start, steps)
    ensures var s := Exec(Snowflake, start, steps).value;
            && s.hops == 1 && s.replies == [] && s.generated == [] && s.forwarders == {start}
            && s.net == [Packet(Manager(start), Manager(start + 1), Forwarded(1))]
            && s.pending.Some? && s.pending.value.requestId == 1 && s.pending.value.manager == start
            && s.pending.value.reply.None? && s.pending.value.from == OWNER
  {
    var step := Deliver(0, 2, Manager(start + 1), value);
    Extend(Snowflake, start, [], step);
    steps := [] + [step];
  }

  lemma RepliedRun(start: nat, value: nat) returns (steps: seq<Step>)
    ensures Exec(Snowflake, start, steps).Some? && KeepsConnections(Snowflake, start, steps)
    ensures var s := Exec(Snowflake, start, steps).value;
            && s.hops == 1 && s.replies == []
            && s.pending.Some? && s.pending.value.from == OWNER && s.pending.value.reply.Some?
            && s.pending.value.reply.value.isReadyCallBack && s.pending.value.reply.value.generated == Some(value)
  {
    steps := ForwardedRun(start, value);
    var step := Deliver(0, 2, Manager(start), value);
    Extend(Snowflake, start, steps, step); steps := steps + [step];
    step := Deliver(0, 2, Manager(start + 1), value);
    Extend(Snowflake, start, steps, step); steps := steps + [step];
  }

  /** There are runs in which a request is forwarded and answered. */
  lemma SomeRunAnswers(start: nat, value: nat) returns (steps: seq<Step>)
    ensures Exec(Snowflake, start, steps).Some? && KeepsConnections(Snowflake, start, steps)
    ensures var s := Exec(Snowflake, start, steps).value;
            s.hops == 1 && |s.replies| == 1 && s.replies[0].generated == Some(value)
  {
    steps := RepliedRun(start, value);
    Extend(Snowflake, start, steps, Resume); steps := steps + [Resume];
  }

  // ---- Where it is not at most once ---------------------------------------------------

  /** A message between two managers that makes a receiver with one connection run the body again. */
  predicate Bouncing(s: System) {
    |s.net| == 1 && s.net[0].from.Manager? && s.net[0].to.Manager? && s.net[0].from != s.net[0].to && s.replies == []
  }

  lemma BounceOnce(s: System, step: Step)
    requires Bouncing(s) && Enabled(s, step) && step.Deliver? && step.i == 0 && step.connections == 1
    ensures Bouncing(Do(Snowflake, s, step)) && |Do(Snowflake, s, step).generated| == |s.generated| + 1
  {
  }

  /** If both managers are down to one connection, a snowflake event goes back and forth between them, and its body can
      run any number of times. */
  lemma {:induction false} BodyCanRunAnyNumberOfTimes(start: nat, n: nat) returns (steps: seq<Step>)
    ensures Exec(Snowflake, start, steps).Some? && |Exec(Snowflake, start, steps).value.generated| == n
    ensures Bouncing(Exec(Snowflake, start, steps).value)
  {
    if n == 0 {
      var step := Deliver(0, 2, Manager(start + 1), 0);
      assert Exec(Snowflake, start, []) == Some(Sent(Snowflake, start));
      Extend(Snowflake, start, [], step);
      steps := [] + [step];
    } else {
      var before := BodyCanRunAnyNumberOfTimes(start, n - 1);
      var s := Exec(Snowflake, start, before).value;
      var step := Deliver(0, 1, s.net[0].from, n);
      BounceOnce(s, step);
      Extend(Snowflake, start, before, step);
      steps := before + [step];
    }
  }

  // ---- Transaction events --------------------------------------------------------------

  /** Where a transaction event can be. Once it is forwarded, the only packet there ever is is the blank event on its
      way to the other manager, whose body throws. */
  predicate TransactionOnItsWay(kind: Kind, start: nat, s: System)
    requires kind.Transaction?
  {
    || s == Sent(kind, start)
    // with the first manager, which had one connection, or lost before it
    || (s.forwarders == {} && s.pending.None? && s.hops == 0 && |s.generated| <= 1
        && (s.replies != [] <==> s.generated != [] && kind.groupId.Some?)
        && (s.replies != [] ==> s.replies == [Request(kind)])
        && (forall i | 0 <= i < |s.net| :: s.net[i] == Packet(Manager(start), OWNER, Request(kind))))
    // forwarded
    || (s.forwarders == {start} && s.hops <= 1 && s.replies == [] && |s.generated| <= 1
        && (s.pending.Some? ==> s.pending.value.reply.None? && s.pending.value.requestId == 1
                                && s.pending.value.manager == start)
        && (s.net == [] || (s.generated == [] && |s.net| == 1 && s.net[0].from == Manager(start)
                            && s.net[0].to != Manager(start) && s.net[0].message == Forwarded(1))))
  }

  lemma StepKeepsTransaction(kind: Kind, start: nat, s: System, step: Step)
    requires kind.Transaction? && Enabled(s, step) && TransactionOnItsWay(kind, start, s)
    ensures TransactionOnItsWay(kind, start, Do(kind, s, step))
  {
    if step.Deliver? {
      DeliveryKeepsTransaction(kind, start, s, step);
    }
  }

  lemma DeliveryKeepsTransaction(kind: Kind, start: nat, s: System, step: Step)
    requires kind.Transaction? && step.Deliver? && Enabled(s, step) && TransactionOnItsWay(kind, start, s)
    ensures TransactionOnItsWay(kind, start, Do(kind, s, step))
  {
  }

  lemma {:induction false} TransactionStaysOnItsWay(kind: Kind, start: nat, steps: seq<Step>)
    requires kind.Transaction? && Exec(kind, start, steps).Some?
    ensures TransactionOnItsWay(kind, start, Exec(kind, start, steps).value)
  {
    if steps != [] {
      TransactionStaysOnItsWay(kind, start, steps[..|steps| - 1]);
      StepKeepsTransaction(kind, start, Exec(kind, start, steps[..|steps| - 1]).value, steps[|steps| - 1]);
    }
  }

  /** In every run of a transaction event, whatever connections the managers keep: at most one hop, its body is entered at
      most once, and at most one reply, which is the request itself. */
  lemma TransactionAtMostOnce(kind: Kind, start: nat, steps: seq<Step>)
    requires kind.Transaction? && Exec(kind, start, steps).Some?
    ensures var s := Exec(kind, start, steps).value;
            s.hops <= 1 && |s.generated| <= 1 && (s.replies == [] || s.replies == [Request(kind)])
  {
    TransactionStaysOnItsWay(kind, start, steps);
  }

  /** In every run, a transaction event has been answered if and only if its body has been entered, it was not forwarded,
      and it has a group id; and if it was forwarded no answer is ever on the network: the blank event makes the body of
      the other manager throw. */
  lemma ForwardedTransactionNeverAnswered(kind: Kind, start: nat, steps: seq<Step>)
    requires kind.Transaction? && Exec(kind, start, steps).Some?
    ensures var s := Exec(kind, start, steps).value;
            && (s.replies != [] <==> s.generated != [] && s.forwarders == {} && kind.groupId.Some?)
            && (s.forwarders != {} ==> forall i | 0 <= i < |s.net| ::
                  s.net[i] == Packet(Manager(start), s.net[i].to, Forwarded(1)) && BodyThrows(kind, s.net[i].message))
  {
    TransactionStaysOnItsWay(kind, start, steps);
  }

  /** That does happen: a forwarded transaction event reaches the body of the other manager, which throws, and nothing is
      left of the request but a manager that waits in vain. */
  lemma ForwardedTransactionIsLost(kind: Kind, start: nat, value: nat) returns (steps: seq<Step>)
    requires kind.Transaction?
    ensures Exec(kind, start, steps).Some? && KeepsConnections(kind, start, steps)
    ensures var s := Exec(kind, start, steps).value;
            s.hops == 1 && s.generated == [value] && s.net == [] && s.replies == [] && s.pending.Some?
  {
    var step := Deliver(0, 2, Manager(start + 1), value);
    Extend(kind, start, [], step);
    steps := [] + [step];
    var s := Exec(kind, start, steps).value;
    assert s.net == [Packet(Manager(start), Manager(start + 1), Forwarded(1))];
    step := Deliver(0, 2, Manager(start), value);
    Extend(kind, start, steps, step); steps := steps + [step];
  }
}
