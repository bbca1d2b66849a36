/** The commit protocol of one transaction group as a step machine.

    One initiator creates the group, calls any number of participants one after
    another, and notifies the outcome in a retry loop; the transaction manager
    records it and broadcasts it. Requests and their answers may be delayed,
    reordered or lost: a step that is never taken is a message that never
    arrives. Reading and writing Redis are separate steps, so handlers overlap. */
module CommitProtocol {
  import opened Wrappers
  import opened TransactionGroups
  import opened TransactionSteps

  /** The client that starts the group. */
  datatype Owner = Owner(groupId: string, key: string, moduleName: string)

  /** One call of a participant: the connection and module of the client that runs it. */
  datatype Branch = Branch(id: nat, key: string, moduleName: string)

  datatype InitiatorPhase =
    | Starting                // before the create request
    | Creating                // waiting for its answer
    | InBusiness              // the business method is running
    | Calling(branch: Branch) // the business method waits for a participant
    | Notifying               // about to send a notify request
    | AwaitingNotify          // waiting for its answer
    | Finished

  datatype Initiator = Initiator(phase: InitiatorPhase, failed: bool, success: Option<bool>, returned: seq<Branch>)

  datatype BranchPhase =
    | Running   // the participant's business method is running
    | JoinSent  // waiting for the answer to the join request
    | Held      // joined: the connection is held until a decision arrives
    | Refused   // no answer to the join: told to roll back, and the call throws
    | Broken    // the join request threw: never told anything
    | Decided   // told the broadcast decision
    | Expired   // stopped waiting: never told anything

  datatype BranchState = BranchState(phase: BranchPhase, businessOk: bool) {
    /** The join was acknowledged to the branch. */
    predicate Joined() { phase.Held? || phase.Decided? || phase.Expired? }
  }

  type Branches = map<Branch, BranchState>

  datatype Broadcast = Broadcast(targets: seq<string>, commit: bool)

  /** A notify handler between its read and its write. */
  datatype PendingNotify = PendingNotify(success: bool, copy: Option<Group>)

  /** The transaction manager: requests on their way, copies its handlers have
      read, acknowledgements it has sent, the stored group, and all broadcasts. */
  datatype Manager = Manager(
    createInFlight: bool, createAcked: bool,
    joinsInFlight: set<Branch>, joinCopies: map<Branch, Option<Group>>, joinsAcked: set<Branch>,
    notifiesSent: nat, notifiesInFlight: map<nat, bool>, notifyCopies: map<nat, PendingNotify>, notifyReplies: set<bool>,
    store: Option<Group>, broadcasts: seq<Broadcast>)

  datatype Party = TheInitiator | Participant(branch: Branch)

  /** One call of `commit(state)` by a party. */
  datatype Telling = Telling(party: Party, commit: bool)

  datatype State = State(init: Initiator, branches: Branches, tm: Manager, told: seq<Telling>)

  datatype Step =
    // the initiator
    | SendCreate
    | CreateAnswer(answer: Answer)
    | Call(branch: Branch)
    | CallReturns
    | CallThrows
    | EndBusiness(ok: bool)
    | SendNotify
    | NotifyAnswer(answer: Answer)
    // a participant
    | BusinessEnds(branch: Branch, ok: bool)
    | JoinAnswer(branch: Branch, answer: Answer)
    | ReceiveDecision(branch: Branch, index: nat)
    | StopWaiting(branch: Branch)
    // the transaction manager
    | TmCreate
    | TmJoinRead(branch: Branch)
    | TmJoinWrite(branch: Branch)
    | TmNotifyRead(n: nat)
    | TmNotifyWrite(n: nat)

  const START: State :=
    State(Initiator(Starting, false, None, []), map[],
          Manager(false, false, {}, map[], {}, 0, map[], map[], {}, None, []), [])

  predicate InPhase(branches: Branches, b: Branch, p: BranchPhase) {
    b in branches && branches[b].phase == p
  }

  /** The branch's call can return normally: it joined, and its business method succeeded. */
  predicate CanReturn(branches: Branches, b: Branch) {
    b in branches && branches[b].Joined() && branches[b].businessOk
  }

  /** When a step can happen. A reply is received only if it was sent. */
  predicate Enabled(s: State, step: Step) {
    match step
    case SendCreate => s.init.phase.Starting?
    case CreateAnswer(a) => s.init.phase.Creating? && (a.Replied? ==> s.tm.createAcked)
    case Call(b) => s.init.phase.InBusiness? && b !in s.branches
    case CallReturns => s.init.phase.Calling? && CanReturn(s.branches, s.init.phase.branch)
    case CallThrows => s.init.phase.Calling?
    case EndBusiness(ok) => s.init.phase.InBusiness? && (ok ==> !s.init.failed)
    case SendNotify => s.init.phase.Notifying? && s.init.success.Some?
    case NotifyAnswer(a) =>
      s.init.phase.AwaitingNotify? && s.init.success.Some? && (a.Replied? ==> a.success in s.tm.notifyReplies)
    case BusinessEnds(b, _) => InPhase(s.branches, b, Running)
    case JoinAnswer(b, a) => InPhase(s.branches, b, JoinSent) && (a.Replied? ==> b in s.tm.joinsAcked)
    case ReceiveDecision(b, i) =>
      InPhase(s.branches, b, Held) && i < |s.tm.broadcasts| && b.key in s.tm.broadcasts[i].targets
    case StopWaiting(b) => InPhase(s.branches, b, Held)
    case TmCreate => s.tm.createInFlight
    case TmJoinRead(b) => b in s.tm.joinsInFlight
    case TmJoinWrite(b) => b in s.tm.joinCopies
    case TmNotifyRead(n) => n in s.tm.notifiesInFlight
    case TmNotifyWrite(n) => n in s.tm.notifyCopies
  }

  predicate IsInitiatorStep(step: Step) {
    step.SendCreate? || step.CreateAnswer? || step.Call? || step.CallReturns? || step.CallThrows?
    || step.EndBusiness? || step.SendNotify? || step.NotifyAnswer?
  }

  predicate IsParticipantStep(step: Step) {
    step.BusinessEnds? || step.JoinAnswer? || step.ReceiveDecision? || step.StopWaiting?
  }

  predicate IsManagerStep(step: Step) {
    step.TmCreate? || step.TmJoinRead? || step.TmJoinWrite? || step.TmNotifyRead? || step.TmNotifyWrite?
  }

  function DoInitiator(s: State, step: Step): State
    requires IsInitiatorStep(step) && Enabled(s, step)
  {
    var i := s.init;
    match step
    case SendCreate => s.(init := i.(phase := Creating), tm := s.tm.(createInFlight := true))
    case CreateAnswer(a) =>
      if CreateProceeds(a) then s.(init := i.(phase := InBusiness))
      else s.(init := i.(phase := Notifying, failed := true, success := Some(false)))
    case Call(b) => s.(init := i.(phase := Calling(b)), branches := s.branches[b := BranchState(Running, false)])
    case CallReturns => s.(init := i.(phase := InBusiness, returned := i.returned + [i.phase.branch]))
    case CallThrows => s.(init := i.(phase := InBusiness, failed := true))
    case EndBusiness(ok) => s.(init := i.(phase := Notifying, success := Some(ok)))
    case SendNotify =>
      s.(init := i.(phase := AwaitingNotify),
         tm := s.tm.(notifiesSent := s.tm.notifiesSent + 1,
                     notifiesInFlight := s.tm.notifiesInFlight[s.tm.notifiesSent := i.success.value]))
    case NotifyAnswer(a) =>
      match AfterNotify(i.success.value, a)
      case Retry => s.(init := i.(phase := Notifying))
      case TellLocal(commit) => s.(init := i.(phase := Finished), told := s.told + [Telling(TheInitiator, commit)])
      case Abort => s.(init := i.(phase := Finished))
  }

  function DoParticipant(s: State, step: Step): State
    requires IsParticipantStep(step) && Enabled(s, step)
  {
    var b := step.branch;
    var state := s.branches[b];
    match step
    case BusinessEnds(_, ok) =>
      // the join is requested whatever the outcome of the business method
      s.(branches := s.branches[b := BranchState(JoinSent, ok)], tm := s.tm.(joinsInFlight := s.tm.joinsInFlight + {b}))
    case JoinAnswer(_, a) =>
      (match AfterJoin(a)
       case Wait => s.(branches := s.branches[b := state.(phase := Held)])
       case RollBackAndThrow =>
         s.(branches := s.branches[b := state.(phase := Refused)], told := s.told + [Telling(Participant(b), false)])
       case Throw => s.(branches := s.branches[b := state.(phase := Broken)]))
    case ReceiveDecision(_, i) =>
      s.(branches := s.branches[b := state.(phase := Decided)],
         told := s.told + [Telling(Participant(b), s.tm.broadcasts[i].commit)])
    case StopWaiting(_) => s.(branches := s.branches[b := state.(phase := Expired)])
  }

  function DoManager(owner: Owner, tm: Manager, step: Step): Manager
    requires IsManagerStep(step) && Enabled(START.(tm := tm), step)
  {
    match step
    case TmCreate =>
      tm.(createInFlight := false, createAcked := true,
          store := Some(NewGroup(owner.groupId, owner.key, owner.moduleName)))
    case TmJoinRead(b) =>
      tm.(joinsInFlight := tm.joinsInFlight - {b}, joinCopies := tm.joinCopies[b := tm.store])
    case TmJoinWrite(b) =>
      // acknowledged even if the group was not found
      var copy := tm.joinCopies[b];
      tm.(joinCopies := tm.joinCopies - {b}, joinsAcked := tm.joinsAcked + {b},
          store := if copy.Some? then Some(WithJoiner(copy.value, b.key, b.moduleName)) else tm.store)
    case TmNotifyRead(n) =>
      tm.(notifiesInFlight := tm.notifiesInFlight - {n},
          notifyCopies := tm.notifyCopies[n := PendingNotify(tm.notifiesInFlight[n], tm.store)])
    case TmNotifyWrite(n) =>
      var p := tm.notifyCopies[n];
      var t := tm.(notifyCopies := tm.notifyCopies - {n}, notifyReplies := tm.notifyReplies + {p.success});
      if p.copy.None? then t else
      var g := WithDecision(p.copy.value, p.success);
      t.(store := Some(g), broadcasts := tm.broadcasts + [Broadcast(Keys(Joiners(g.infos)), g.state.Committed?)])
  }

  function Do(owner: Owner, s: State, step: Step): State
    requires Enabled(s, step)
  {
    if IsInitiatorStep(step) then DoInitiator(s, step)
    else if IsParticipantStep(step) then DoParticipant(s, step)
    else s.(tm := DoManager(owner, s.tm, step))
  }

  /** The state after a whole run, if every step of it could happen. */
  function Exec(owner: Owner, steps: seq<Step>): Option<State> {
    if steps == [] then Some(START)
    else
      var before := Exec(owner, steps[..|steps| - 1]);
      if before.Some? && Enabled(before.value, steps[|steps| - 1])
      then Some(Do(owner, before.value, steps[|steps| - 1]))
      else None
  }

  // ---- Agreement: what every step keeps -------------------------------------

  /** Everything the manager has heard or sent about the outcome is the initiator's outcome. */
  predicate CarriesOutcome(success: Option<bool>, tm: Manager) {
    && (forall n <- tm.notifiesInFlight :: success == Some(tm.notifiesInFlight[n]))
    && (forall n <- tm.notifyCopies :: success == Some(tm.notifyCopies[n].success))
    && (forall r <- tm.notifyReplies :: success == Some(r))
    && (forall i | 0 <= i < |tm.broadcasts| :: success == Some(tm.broadcasts[i].commit))
  }

  /** The outcome is fixed when the business ends, and success means nothing failed. */
  predicate OneOutcome(s: State) {
    && (s.init.success.Some? <==> s.init.phase.Notifying? || s.init.phase.AwaitingNotify? || s.init.phase.Finished?)
    && (s.init.success == Some(true) ==> !s.init.failed)
    && CarriesOutcome(s.init.success, s.tm)
  }

  /** A branch is under call, or its call returned normally, or the initiator has failed. */
  predicate AccountedFor(init: Initiator, branches: Branches) {
    && (forall b <- init.returned :: CanReturn(branches, b))
    && (init.phase.Calling? ==> init.phase.branch in branches && init.phase.branch !in init.returned)
    && (forall b <- branches :: init.failed || b in init.returned || init.phase == Calling(b))
  }

  /** What one telling says of the state it led to. */
  predicate ToldRightly(t: Telling, s: State) {
    match t.party
    case TheInitiator =>
      s.init.phase.Finished? && s.init.success == Some(t.commit) && (t.commit ==> s.tm.notifyReplies != {})
    case Participant(b) =>
      || (InPhase(s.branches, b, Decided) && s.init.success == Some(t.commit))
      || (InPhase(s.branches, b, Refused) && !t.commit)
  }

  /** Each party is told at most once, and rightly. */
  predicate ToldOnce(s: State) {
    && (forall i, j | 0 <= i < j < |s.told| :: s.told[i].party != s.told[j].party)
    && (forall i | 0 <= i < |s.told| :: ToldRightly(s.told[i], s))
  }

  lemma InitiatorKeepsOutcome(s: State, step: Step)
    requires IsInitiatorStep(step) && Enabled(s, step) && OneOutcome(s)
    ensures OneOutcome(DoInitiator(s, step))
  {
  }

  lemma ManagerKeepsOutcome(owner: Owner, success: Option<bool>, tm: Manager, step: Step)
    requires IsManagerStep(step) && Enabled(START.(tm := tm), step) && CarriesOutcome(success, tm)
    ensures CarriesOutcome(success, DoManager(owner, tm, step))
  {
    if step.TmNotifyWrite? {
      NotifyWriteKeepsOutcome(owner, success, tm, step.n);
    }
  }

  /** What a notify handler broadcasts is the flag it was sent. */
  lemma NotifyWriteKeepsOutcome(owner: Owner, success: Option<bool>, tm: Manager, n: nat)
    requires n in tm.notifyCopies && CarriesOutcome(success, tm)
    ensures CarriesOutcome(success, DoManager(owner, tm, TmNotifyWrite(n)))
  {
    var p := tm.notifyCopies[n];
    if p.copy.Some? {
      assert WithDecision(p.copy.value, p.success).state.Committed? == p.success;
    }
  }

  lemma StepKeepsOutcome(owner: Owner, s: State, step: Step)
    requires Enabled(s, step) && OneOutcome(s)
    ensures OneOutcome(Do(owner, s, step))
  {
    if IsInitiatorStep(step) {
      InitiatorKeepsOutcome(s, step);
    } else if IsManagerStep(step) {
      ManagerKeepsOutcome(owner, s.init.success, s.tm, step);
    }
  }

  lemma StepKeepsAccount(owner: Owner, s: State, step: Step)
    requires Enabled(s, step) && AccountedFor(s.init, s.branches)
    ensures var t := Do(owner, s, step); AccountedFor(t.init, t.branches)
  {
    if IsParticipantStep(step) {
      var t := DoParticipant(s, step);
      forall b <- s.init.returned ensures CanReturn(t.branches, b) {
        assert CanReturn(s.branches, b);
      }
    }
  }

  lemma InitiatorKeepsTold(s: State, step: Step)
    requires IsInitiatorStep(step) && Enabled(s, step) && OneOutcome(s) && ToldOnce(s)
    ensures ToldOnce(DoInitiator(s, step))
  {
    var t := DoInitiator(s, step);
    forall i | 0 <= i < |s.told| ensures ToldRightly(s.told[i], t) {
      assert ToldRightly(s.told[i], s);
    }
  }

  lemma ParticipantKeepsTold(s: State, step: Step)
    requires IsParticipantStep(step) && Enabled(s, step) && OneOutcome(s) && ToldOnce(s)
    ensures ToldOnce(DoParticipant(s, step))
  {
    var t := DoParticipant(s, step);
    forall i | 0 <= i < |s.told| ensures ToldRightly(s.told[i], t) && s.told[i].party != Participant(step.branch) {
      assert ToldRightly(s.told[i], s);
    }
  }

  lemma ManagerKeepsTold(owner: Owner, s: State, step: Step)
    requires IsManagerStep(step) && Enabled(s, step) && ToldOnce(s)
    ensures ToldOnce(s.(tm := DoManager(owner, s.tm, step)))
  {
    var t := s.(tm := DoManager(owner, s.tm, step));
    forall i | 0 <= i < |s.told| ensures ToldRightly(s.told[i], t) {
      assert ToldRightly(s.told[i], s);
    }
  }

  lemma StepKeepsTold(owner: Owner, s: State, step: Step)
    requires Enabled(s, step) && OneOutcome(s) && ToldOnce(s)
    ensures ToldOnce(Do(owner, s, step))
  {
    if IsInitiatorStep(step) {
      InitiatorKeepsTold(s, step);
    } else if IsParticipantStep(step) {
      ParticipantKeepsTold(s, step);
    } else {
      ManagerKeepsTold(owner, s, step);
    }
  }

  // ---- Coverage: what every step keeps --------------------------------------

  function JoinEntries(bs: seq<Branch>): (r: seq<TransactionGroups.TransactionInfo>)
    ensures |r| == |bs|
    ensures forall i | 0 <= i < |bs| :: r[i] == TransactionGroups.TransactionInfo(bs[i].key, bs[i].moduleName, Joiner)
  {
    seq(|bs|, i requires 0 <= i < |bs| => TransactionGroups.TransactionInfo(bs[i].key, bs[i].moduleName, Joiner))
  }

  function BranchKeys(bs: seq<Branch>): (r: seq<string>)
    ensures |r| == |bs|
    ensures forall i | 0 <= i < |bs| :: r[i] == bs[i].key
  {
    seq(|bs|, i requires 0 <= i < |bs| => bs[i].key)
  }

  /** The entries of a group that has the owner and exactly these joiners. */
  function Entries(owner: Owner, bs: seq<Branch>): seq<TransactionGroups.TransactionInfo> {
    [TransactionGroups.TransactionInfo(owner.key, owner.moduleName, Requester)] + JoinEntries(bs)
  }

  /** The branches that must be stored: those returned, and the one under call once its join is acknowledged. */
  function Stored(init: Initiator, acked: set<Branch>): seq<Branch> {
    init.returned + (if init.phase.Calling? && init.phase.branch in acked then [init.phase.branch] else [])
  }

  /** Only the branch under call has a join request or a join handler under way. */
  predicate OneJoinAtATime(s: State) {
    && (forall b <- s.tm.joinsInFlight ::
          s.init.phase == Calling(b) && b !in s.tm.joinCopies && b !in s.tm.joinsAcked && !InPhase(s.branches, b, Running))
    && (forall b <- s.tm.joinCopies ::
          s.init.phase == Calling(b) && b !in s.tm.joinsAcked && s.tm.joinCopies[b] == s.tm.store
          && !InPhase(s.branches, b, Running))
    && (forall b <- s.tm.joinsAcked :: b in s.branches && !InPhase(s.branches, b, Running))
    && (forall b <- s.branches :: s.branches[b].Joined() ==> b in s.tm.joinsAcked)
  }

  /** Every notify handler works on the complete list. */
  predicate NotifiesCover(tm: Manager) {
    && (forall n <- tm.notifyCopies ::
          tm.notifyCopies[n].copy.Some? && tm.store.Some? && tm.notifyCopies[n].copy.value.infos == tm.store.value.infos)
    && (forall i | 0 <= i < |tm.broadcasts| ::
          tm.store.Some? && tm.broadcasts[i].targets == Keys(Joiners(tm.store.value.infos)))
    && (tm.broadcasts == [] ==> tm.notifyReplies == {})
  }

  predicate StoreIsRecorded(success: Option<bool>, tm: Manager) {
    tm.broadcasts != [] && success.Some? ==> tm.store.Some? && tm.store.value.state == StateOf(success.value)
  }

  predicate Created(init: Initiator) { !init.phase.Starting? && !init.phase.Creating? }

  predicate CreateComesFirst(init: Initiator, branches: Branches, tm: Manager) {
    && (init.phase.Starting? ==> !tm.createInFlight && !tm.createAcked)
    && (Created(init) ==> tm.createAcked)
    && (tm.createAcked ==> !tm.createInFlight && tm.store.Some?)
    && (!Created(init) ==> branches == map[] && init.returned == []
                           && tm.notifiesInFlight == map[] && tm.notifyCopies == map[])
    && (!init.success.Some? ==> tm.notifiesInFlight == map[] && tm.notifyCopies == map[] && tm.broadcasts == [])
    && (init.success.Some? ==> !init.phase.Calling?)
  }

  predicate ListIsComplete(owner: Owner, s: State) {
    s.tm.createAcked ==> s.tm.store.Some? && s.tm.store.value.infos == Entries(owner, Stored(s.init, s.tm.joinsAcked))
  }

  /** While nothing has failed, the stored list is the owner and the joined branches in call order. */
  predicate Covered(owner: Owner, s: State) {
    !s.init.failed ==>
      && CreateComesFirst(s.init, s.branches, s.tm)
      && OneJoinAtATime(s)
      && NotifiesCover(s.tm)
      && StoreIsRecorded(s.init.success, s.tm)
      && ListIsComplete(owner, s)
  }

  lemma InitiatorKeepsCovered(owner: Owner, s: State, step: Step)
    requires IsInitiatorStep(step) && Enabled(s, step) && OneOutcome(s) && Covered(owner, s)
    ensures Covered(owner, DoInitiator(s, step))
  {
  }

  lemma ParticipantKeepsOneJoin(s: State, step: Step)
    requires IsParticipantStep(step) && Enabled(s, step) && OneJoinAtATime(s)
    requires AccountedFor(s.init, s.branches) && !s.init.failed
    ensures OneJoinAtATime(DoParticipant(s, step))
  {
  }

  lemma ParticipantKeepsCovered(owner: Owner, s: State, step: Step)
    requires IsParticipantStep(step) && Enabled(s, step) && AccountedFor(s.init, s.branches) && Covered(owner, s)
    ensures Covered(owner, DoParticipant(s, step))
  {
    if !s.init.failed {
      ParticipantKeepsOneJoin(s, step);
    }
  }

  lemma ManagerKeepsOneJoin(owner: Owner, s: State, step: Step)
    requires IsManagerStep(step) && Enabled(s, step) && OneJoinAtATime(s)
    requires AccountedFor(s.init, s.branches) && CreateComesFirst(s.init, s.branches, s.tm) && !s.init.failed
    ensures OneJoinAtATime(s.(tm := DoManager(owner, s.tm, step)))
  {
  }

  lemma ManagerKeepsList(owner: Owner, s: State, step: Step)
    requires IsManagerStep(step) && Enabled(s, step) && OneJoinAtATime(s) && NotifiesCover(s.tm)
    requires CreateComesFirst(s.init, s.branches, s.tm) && ListIsComplete(owner, s) && !s.init.failed
    ensures ListIsComplete(owner, s.(tm := DoManager(owner, s.tm, step)))
  {
  }

  lemma ManagerKeepsNotifies(owner: Owner, s: State, step: Step)
    requires IsManagerStep(step) && Enabled(s, step) && !s.init.failed && OneOutcome(s)
    requires OneJoinAtATime(s) && CreateComesFirst(s.init, s.branches, s.tm)
    requires NotifiesCover(s.tm) && StoreIsRecorded(s.init.success, s.tm)
    ensures var tm := DoManager(owner, s.tm, step);
            && NotifiesCover(tm) && StoreIsRecorded(s.init.success, tm)
            && CreateComesFirst(s.init, s.branches, tm)
  {
  }

  lemma ManagerKeepsCovered(owner: Owner, s: State, step: Step)
    requires IsManagerStep(step) && Enabled(s, step)
    requires OneOutcome(s) && AccountedFor(s.init, s.branches) && Covered(owner, s)
    ensures Covered(owner, s.(tm := DoManager(owner, s.tm, step)))
  {
    if !s.init.failed {
      ManagerKeepsOneJoin(owner, s, step);
      ManagerKeepsList(owner, s, step);
      ManagerKeepsNotifies(owner, s, step);
    }
  }

  // ---- Over whole runs ------------------------------------------------------

  predicate Safe(owner: Owner, s: State) {
    OneOutcome(s) && AccountedFor(s.init, s.branches) && ToldOnce(s) && Covered(owner, s)
  }

  lemma StepKeepsSafe(owner: Owner, s: State, step: Step)
    requires Enabled(s, step) && Safe(owner, s)
    ensures Safe(owner, Do(owner, s, step))
  {
    StepKeepsOutcome(owner, s, step);
    StepKeepsAccount(owner, s, step);
    StepKeepsTold(owner, s, step);
    if IsInitiatorStep(step) {
      InitiatorKeepsCovered(owner, s, step);
    } else if IsParticipantStep(step) {
      ParticipantKeepsCovered(owner, s, step);
    } else {
      ManagerKeepsCovered(owner, s, step);
    }
  }

  lemma {:induction false} RunsAreSafe(owner: Owner, steps: seq<Step>)
    ensures var s := Exec(owner, steps); s.Some? ==> Safe(owner, s.value)
  {
    if steps != [] && Exec(owner, steps).Some? {
      var before := Exec(owner, steps[..|steps| - 1]).value;
      RunsAreSafe(owner, steps[..|steps| - 1]);
      StepKeepsSafe(owner, before, steps[|steps| - 1]);
    }
  }

  /** Agreement: in every run, any two calls of commit in the group carry the same decision,
      and no party is told twice. */
  lemma Agreement(owner: Owner, steps: seq<Step>, i: nat, j: nat)
    requires Exec(owner, steps).Some?
    requires i < j < |Exec(owner, steps).value.told|
    ensures var told := Exec(owner, steps).value.told;
            told[i].commit == told[j].commit && told[i].party != told[j].party
  {
    RunsAreSafe(owner, steps);
    var s := Exec(owner, steps).value;
    assert ToldRightly(s.told[i], s) && ToldRightly(s.told[j], s);
  }

  /** A branch is told to commit only if the whole business succeeded, and to roll back only if it did not. */
  lemma DecisionIsTheOutcome(owner: Owner, steps: seq<Step>, i: nat)
    requires Exec(owner, steps).Some?
    requires i < |Exec(owner, steps).value.told|
    ensures var s := Exec(owner, steps).value;
            if s.told[i].commit then s.init.success == Some(true) && !s.init.failed
            else s.init.success != Some(true)
  {
    RunsAreSafe(owner, steps);
    var s := Exec(owner, steps).value;
    assert ToldRightly(s.told[i], s);
  }

  /** Whoever the code tells has been told: a refused join to roll back, a branch that received a decision, and an
      initiator that is finished and was answered. */
  predicate TellingsAreMade(s: State) {
    && (forall b <- s.branches :: s.branches[b].phase.Refused? ==> Telling(Participant(b), false) in s.told)
    && (forall b <- s.branches :: s.branches[b].phase.Decided? ==>
          Telling(Participant(b), true) in s.told || Telling(Participant(b), false) in s.told)
  }

  lemma StepKeepsTellings(owner: Owner, s: State, step: Step)
    requires Enabled(s, step) && TellingsAreMade(s)
    ensures TellingsAreMade(Do(owner, s, step))
  {
    var t := Do(owner, s, step);
    assert forall x <- s.told :: x in t.told;
    if IsParticipantStep(step) && |t.told| > |s.told| {
      assert t.told[|s.told|] in t.told;
    }
  }

  lemma {:induction false} RunsMakeTellings(owner: Owner, steps: seq<Step>)
    requires Exec(owner, steps).Some?
    ensures TellingsAreMade(Exec(owner, steps).value)
  {
    if steps != [] {
      RunsMakeTellings(owner, steps[..|steps| - 1]);
      StepKeepsTellings(owner, Exec(owner, steps[..|steps| - 1]).value, steps[|steps| - 1]);
    }
  }

  /** Who is told what, exactly: in every run a branch is told to roll back if and only if its join was refused or it
      received a decision and the business did not succeed, and to commit if and only if it received a decision and the
      business succeeded. */
  lemma WhoIsTold(owner: Owner, steps: seq<Step>, b: Branch)
    requires Exec(owner, steps).Some?
    ensures var s := Exec(owner, steps).value;
            && (Telling(Participant(b), false) in s.told
                <==> InPhase(s.branches, b, Refused) || (InPhase(s.branches, b, Decided) && s.init.success == Some(false)))
            && (Telling(Participant(b), true) in s.told
                <==> InPhase(s.branches, b, Decided) && s.init.success == Some(true))
  {
    RunsAreSafe(owner, steps);
    RunsMakeTellings(owner, steps);
    var s := Exec(owner, steps).value;
    if Telling(Participant(b), false) in s.told {
      var i :| 0 <= i < |s.told| && s.told[i] == Telling(Participant(b), false);
      assert ToldRightly(s.told[i], s);
    }
    if Telling(Participant(b), true) in s.told {
      var i :| 0 <= i < |s.told| && s.told[i] == Telling(Participant(b), true);
      assert ToldRightly(s.told[i], s);
    }
  }

  /** An initiator whose outcome is answered tells its own connection: a failure to roll back unless the answer is an
      exception, a success what the reply says. */
  lemma AnsweredInitiatorIsTold(owner: Owner, before: seq<Step>, a: Answer)
    requires Exec(owner, before).Some? && Enabled(Exec(owner, before).value, NotifyAnswer(a))
    ensures var s := Exec(owner, before).value;
            var t := Exec(owner, before + [NotifyAnswer(a)]);
            && t.Some?
            && (s.init.success == Some(false) && !a.Threw? ==>
                  t.value.told == s.told + [Telling(TheInitiator, false)] && t.value.init.phase.Finished?)
            && (s.init.success == Some(true) && a.Replied? ==>
                  t.value.told == s.told + [Telling(TheInitiator, a.success)] && t.value.init.phase.Finished?)
            && (s.init.success == Some(true) && a.Silent? ==> t.value.told == s.told && t.value.init.phase.Notifying?)
            && (a.Threw? ==> t.value.told == s.told && t.value.init.phase.Finished?)
  {
    Extend(owner, before, NotifyAnswer(a));
  }

  lemma JoinersOfEntries(owner: Owner, bs: seq<Branch>)
    ensures Keys(Joiners(Entries(owner, bs))) == BranchKeys(bs)
  {
    AllJoiners(bs);
    assert Entries(owner, bs)[1..] == JoinEntries(bs);
    assert Joiners(Entries(owner, bs)) == [] + Joiners(JoinEntries(bs));
  }

  lemma {:induction false} AllJoiners(bs: seq<Branch>)
    ensures Joiners(JoinEntries(bs)) == JoinEntries(bs)
  {
    if bs != [] {
      AllJoiners(bs[1..]);
      assert JoinEntries(bs)[1..] == JoinEntries(bs[1..]);
    }
  }

  /** Coverage: once the outcome is success, the stored list is the requester followed by
      every participant whose call returned, in call order, and every broadcast goes to
      exactly those participants with the commit decision. No overlapping read and write
      loses an entry, and the requester's entry is never broadcast to. */
  lemma Coverage(owner: Owner, steps: seq<Step>)
    requires Exec(owner, steps).Some?
    requires Exec(owner, steps).value.init.success == Some(true)
    ensures var s := Exec(owner, steps).value;
            && s.tm.store.Some? && s.tm.store.value.infos == Entries(owner, s.init.returned)
            && (forall b <- s.branches :: b in s.init.returned)
            && (forall i | 0 <= i < |s.tm.broadcasts| ::
                  s.tm.broadcasts[i] == Broadcast(BranchKeys(s.init.returned), true))
  {
    RunsAreSafe(owner, steps);
    var s := Exec(owner, steps).value;
    JoinersOfEntries(owner, s.init.returned);
  }

  /** The initiator commits only after the manager recorded the commit and broadcast it to
      every participant, whether its reply said "ok" or not. */
  lemma CommitIsRecordedFirst(owner: Owner, steps: seq<Step>)
    requires Exec(owner, steps).Some?
    requires Telling(TheInitiator, true) in Exec(owner, steps).value.told
    ensures var s := Exec(owner, steps).value;
            && s.tm.store.Some? && s.tm.store.value.state.Committed?
            && Broadcast(BranchKeys(s.init.returned), true) in s.tm.broadcasts
  {
    RunsAreSafe(owner, steps);
    var s := Exec(owner, steps).value;
    var i :| 0 <= i < |s.told| && s.told[i] == Telling(TheInitiator, true);
    assert ToldRightly(s.told[i], s);
    Coverage(owner, steps);
    assert s.tm.broadcasts != [];
    assert s.tm.broadcasts[0] == Broadcast(BranchKeys(s.init.returned), true);
  }

  lemma Extend(owner: Owner, steps: seq<Step>, step: Step)
    requires Exec(owner, steps).Some? && Enabled(Exec(owner, steps).value, step)
    ensures Exec(owner, steps + [step]) == Some(Do(owner, Exec(owner, steps).value, step))
  {
    assert (steps + [step])[..|steps + [step]| - 1] == steps;
  }

  lemma CreatedRun(owner: Owner) returns (steps: seq<Step>)
    ensures Exec(owner, steps).Some?
    ensures var s := Exec(owner, steps).value;
            s.init == Initiator(InBusiness, false, None, []) && s.branches == map[] && s.told == [] && s.tm.notifiesSent == 0
  {
    steps := [];
    Extend(owner, steps, SendCreate); steps := steps + [SendCreate];
    Extend(owner, steps, TmCreate); steps := steps + [TmCreate];
    Extend(owner, steps, CreateAnswer(Replied(true))); steps := steps + [CreateAnswer(Replied(true))];
  }

  lemma JoinedRun(owner: Owner, b: Branch) returns (steps: seq<Step>)
    ensures Exec(owner, steps).Some?
    ensures var s := Exec(owner, steps).value;
            && s.init == Initiator(InBusiness, false, None, [b]) && InPhase(s.branches, b, Held)
            && s.told == [] && s.tm.notifiesSent == 0
  {
    steps := CreatedRun(owner);
    Extend(owner, steps, Call(b)); steps := steps + [Call(b)];
    Extend(owner, steps, BusinessEnds(b, true)); steps := steps + [BusinessEnds(b, true)];
    Extend(owner, steps, TmJoinRead(b)); steps := steps + [TmJoinRead(b)];
    Extend(owner, steps, TmJoinWrite(b)); steps := steps + [TmJoinWrite(b)];
    Extend(owner, steps, JoinAnswer(b, Replied(true))); steps := steps + [JoinAnswer(b, Replied(true))];
    Extend(owner, steps, CallReturns); steps := steps + [CallReturns];
  }

  lemma NotifiedRun(owner: Owner, b: Branch) returns (steps: seq<Step>)
    ensures Exec(owner, steps).Some?
    ensures var s := Exec(owner, steps).value;
            && s.init == Initiator(AwaitingNotify, false, Some(true), [b]) && InPhase(s.branches, b, Held)
            && s.told == [] && true in s.tm.notifyReplies
  {
    steps := JoinedRun(owner, b);
    Extend(owner, steps, EndBusiness(true)); steps := steps + [EndBusiness(true)];
    Extend(owner, steps, SendNotify); steps := steps + [SendNotify];
    Extend(owner, steps, TmNotifyRead(0)); steps := steps + [TmNotifyRead(0)];
    Extend(owner, steps, TmNotifyWrite(0)); steps := steps + [TmNotifyWrite(0)];
  }

  /** The machine is not stuck: with one participant there is a run that commits everywhere. */
  lemma SomeRunCommits(owner: Owner, b: Branch) returns (steps: seq<Step>)
    ensures Exec(owner, steps).Some?
    ensures Exec(owner, steps).value.told == [Telling(TheInitiator, true), Telling(Participant(b), true)]
  {
    steps := NotifiedRun(owner, b);
    Extend(owner, steps, NotifyAnswer(Replied(true))); steps := steps + [NotifyAnswer(Replied(true))];
    CommitIsRecordedFirst(owner, steps);
    var s := Exec(owner, steps).value;
    var i :| 0 <= i < |s.tm.broadcasts| && s.tm.broadcasts[i] == Broadcast(BranchKeys([b]), true);
    assert BranchKeys([b])[0] == b.key;
    Extend(owner, steps, ReceiveDecision(b, i)); steps := steps + [ReceiveDecision(b, i)];
  }

  // ---- The machine does what the code does ----------------------------------------

  /** A run from a given state. */
  function ExecFrom(owner: Owner, s: State, steps: seq<Step>): Option<State>
    decreases |steps|
  {
    if steps == [] then Some(s)
    else if Enabled(s, steps[0]) then ExecFrom(owner, Do(owner, s, steps[0]), steps[1..])
    else None
  }

  lemma {:induction false} RunsCompose(owner: Owner, before: seq<Step>, steps: seq<Step>)
    requires Exec(owner, before).Some?
    ensures Exec(owner, before + steps) == ExecFrom(owner, Exec(owner, before).value, steps)
    decreases |steps|
  {
    if steps == [] {
      assert before + steps == before;
    } else {
      var s := Exec(owner, before).value;
      var longer := before + [steps[0]];
      assert before + steps == longer + steps[1..];
      assert longer[..|longer| - 1] == before;
      if Enabled(s, steps[0]) {
        RunsCompose(owner, longer, steps[1..]);
      } else {
        StuckStaysStuck(owner, longer, steps[1..]);
      }
    }
  }

  lemma {:induction false} StuckStaysStuck(owner: Owner, before: seq<Step>, steps: seq<Step>)
    requires Exec(owner, before).None?
    ensures Exec(owner, before + steps).None?
    decreases |steps|
  {
    if steps == [] {
      assert before + steps == before;
    } else {
      var all := before + steps;
      assert all[..|all| - 1] == before + steps[..|steps| - 1];
      StuckStaysStuck(owner, before, steps[..|steps| - 1]);
    }
  }

  /** The initiator's steps while its notify requests end as the script says. */
  function NotifySteps(success: bool, script: seq<Answer>): seq<Step> {
    if script == [] then []
    else [SendNotify, NotifyAnswer(script[0])]
         + (if AfterNotify(success, script[0]).Retry? then NotifySteps(success, script[1..]) else [])
  }

  lemma {:induction false} NotifyLoopFrom(owner: Owner, s: State, script: seq<Answer>)
    requires s.init.phase.Notifying? && s.init.success.Some? && script != []
    requires forall a <- script :: a.Replied? ==> a.success in s.tm.notifyReplies
    ensures var t := ExecFrom(owner, s, NotifySteps(s.init.success.value, script));
            var r := Notified(s.init.success.value, script);
            && t.Some?
            && t.value.told == s.told + (if r.told == [] then [] else [Telling(TheInitiator, r.told[0])])
            && t.value.tm.notifiesSent == s.tm.notifiesSent + r.asked
            && (t.value.init.phase.Finished? <==> !r.end.StillRetrying?)
    decreases script
  {
    var success := s.init.success.value;
    var sent := Do(owner, s, SendNotify);
    assert script[0] in script;
    var answered := Do(owner, sent, NotifyAnswer(script[0]));
    var steps := NotifySteps(success, script);
    assert steps[1..][0] == NotifyAnswer(script[0]);
    var rest := steps[1..][1..];
    assert ExecFrom(owner, s, steps) == ExecFrom(owner, answered, rest);
    if AfterNotify(success, script[0]).Retry? && |script| > 1 {
      assert rest == NotifySteps(success, script[1..]);
      assert forall a <- script[1..] :: a in script;
      NotifyLoopFrom(owner, answered, script[1..]);
    } else {
      assert rest == [];
    }
  }

  /** At the end of any run that is about to notify, and over any script of answers, the run goes on to tell the
      initiator's connection exactly what the notify loop of the client tells it, sends as many requests, and finishes
      exactly when the loop is left. */
  lemma MachineRunsTheNotifyLoop(owner: Owner, before: seq<Step>, script: seq<Answer>)
    requires Exec(owner, before).Some? && script != []
    requires var s := Exec(owner, before).value;
             && s.init.phase.Notifying? && s.init.success.Some?
             && forall a <- script :: a.Replied? ==> a.success in s.tm.notifyReplies
    ensures var s := Exec(owner, before).value;
            var t := Exec(owner, before + NotifySteps(s.init.success.value, script));
            var r := Notified(s.init.success.value, script);
            && t.Some?
            && t.value.told == s.told + (if r.told == [] then [] else [Telling(TheInitiator, r.told[0])])
            && t.value.tm.notifiesSent == s.tm.notifiesSent + r.asked
            && (t.value.init.phase.Finished? <==> !r.end.StillRetrying?)
  {
    var s := Exec(owner, before).value;
    NotifyLoopFrom(owner, s, script);
    RunsCompose(owner, before, NotifySteps(s.init.success.value, script));
  }

  /** At the end of any run in which a participant is running, the run goes on as the client's aspect does: whatever its
      business outcome the participant requests the join, it is told to roll back exactly if there is no answer, and its
      call can return exactly when business and join went well. The answer is any that can arrive once the manager's
      steps `handled` have been taken. */
  lemma MachineRunsTheParticipant(owner: Owner, before: seq<Step>, handled: seq<Step>, b: Branch, ok: bool, a: Answer)
    requires Exec(owner, before).Some? && InPhase(Exec(owner, before).value.branches, b, Running)
    requires forall step <- handled :: IsManagerStep(step)
    requires var t := Exec(owner, before + [BusinessEnds(b, ok)] + handled);
             t.Some? && (a.Replied? ==> b in t.value.tm.joinsAcked)
    ensures b in Exec(owner, before + [BusinessEnds(b, ok)]).value.tm.joinsInFlight
    ensures var s := Exec(owner, before).value;
            var t := Exec(owner, before + [BusinessEnds(b, ok)] + handled + [JoinAnswer(b, a)]);
            && t.Some?
            && t.value.told == s.told + (if a.Silent? then [Telling(Participant(b), false)] else [])
            && (CanReturn(t.value.branches, b) <==> ok && a.Replied?)
            && (InPhase(t.value.branches, b, Held) <==> a.Replied?)
  {
    Extend(owner, before, BusinessEnds(b, ok));
    ManagerLeavesClients(owner, before + [BusinessEnds(b, ok)], handled);
    Extend(owner, before + [BusinessEnds(b, ok)] + handled, JoinAnswer(b, a));
  }

  lemma {:induction false} ManagerLeavesClients(owner: Owner, before: seq<Step>, handled: seq<Step>)
    requires Exec(owner, before).Some? && Exec(owner, before + handled).Some?
    requires forall step <- handled :: IsManagerStep(step)
    ensures var s, t := Exec(owner, before).value, Exec(owner, before + handled).value;
            t.init == s.init && t.branches == s.branches && t.told == s.told
    decreases |handled|
  {
    if handled == [] {
      assert before + handled == before;
    } else {
      var last := |handled| - 1;
      assert (before + handled)[..|before + handled| - 1] == before + handled[..last];
      assert handled[last] in handled;
      ManagerLeavesClients(owner, before, handled[..last]);
    }
  }

  function Lookup(store: Store, groupId: string): Option<Group> {
    if groupId in store then Some(store[groupId]) else None
  }

  /** The create step, and the read and the write step of a join handler with nothing in between, are the handlers on the
      repository. */
  lemma MachineRunsTheHandlers(owner: Owner, store: Store, tm: Manager, b: Branch)
    requires tm.store == Lookup(store, owner.groupId)
    ensures tm.createInFlight ==>
              DoManager(owner, tm, TmCreate).store
              == Some(Group(owner.groupId, Joining, [TransactionGroups.TransactionInfo(owner.key, owner.moduleName, Requester)]))
    ensures b in tm.joinsInFlight ==>
              var t := DoManager(owner, DoManager(owner, tm, TmJoinRead(b)), TmJoinWrite(b));
              t.store == Lookup(StoreJoin(store, owner.groupId, b.key, b.moduleName), owner.groupId)
  {
  }

  /** The last packet is the reply, to the requester; the machine notes its flag. */
  predicate AnswersWith(packets: seq<Packet>, to: string, replies: set<bool>, before: set<bool>) {
    && packets != []
    && var last := packets[|packets| - 1];
       last.to == to && last.message.NotifyReply? && replies == before + {last.message.success}
  }

  /** The packets before the reply are the broadcast. */
  predicate Broadcasts(packets: seq<Packet>, groupId: string, sent: Broadcast) {
    packets != [] && CommitEvents(groupId, sent.commit, sent.targets) == packets[..|packets| - 1]
  }

  /** The read and the write step of a notify handler, with nothing in between, are the handler on the repository and
      what it sends: the decision to the joiners, and to the requester the reply that the machine lets it receive. */
  lemma MachineRunsTheNotifyHandler(owner: Owner, store: Store, tm: Manager, n: nat)
    requires tm.store == Lookup(store, owner.groupId) && n in tm.notifiesInFlight
    ensures var success := tm.notifiesInFlight[n];
            var t := DoManager(owner, DoManager(owner, tm, TmNotifyRead(n)), TmNotifyWrite(n));
            var packets := NotifyPackets(store, owner.groupId, success, owner.key);
            && t.store == Lookup(StoreNotify(store, owner.groupId, success), owner.groupId)
            && AnswersWith(packets, owner.key, t.notifyReplies, tm.notifyReplies)
            && success in t.notifyReplies
            && (if owner.groupId in store
                then |t.broadcasts| == |tm.broadcasts| + 1
                     && Broadcasts(packets, owner.groupId, t.broadcasts[|tm.broadcasts|])
                else t.broadcasts == tm.broadcasts)
  {
    NotifyAnswersTheSender(store, owner.groupId, tm.notifiesInFlight[n], owner.key);
  }
}
