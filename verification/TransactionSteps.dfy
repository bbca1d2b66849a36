/** The transaction client's side: what one annotated method asks of the
    transaction manager, in which order, and what it tells its own connection.

    The answers of the manager are an input, a script of how successive requests
    end; past its end no answer ever comes. */
module TransactionSteps {
  import opened Wrappers

  /** How a request ends: no answer in time, a reply, or an exception. */
  datatype Answer = Silent | Replied(success: bool) | Threw

  datatype Request =
    | CreateRequest(groupId: string)
    | JoinRequest(groupId: string)
    | NotifyRequest(groupId: string, success: bool)

  /** How a call ends. A call still in its retry loop when the script ends has not ended. */
  datatype Outcome = Returned | Raised | StillRetrying

  // ---- What each answer leads to ---------------------------------------------

  datatype NotifyVerdict = Retry | TellLocal(commit: bool) | Abort

  datatype JoinVerdict = Wait | RollBackAndThrow | Throw

  predicate CreateProceeds(a: Answer) {
    a.Replied?
  }

  function AfterNotify(success: bool, a: Answer): NotifyVerdict {
    match a
    case Threw => Abort
    case Silent => if success then Retry else TellLocal(false)
    case Replied(s) => TellLocal(s && success)
  }

  function AfterJoin(a: Answer): JoinVerdict {
    match a
    case Threw => Throw
    case Silent => RollBackAndThrow
    case Replied(_) => Wait
  }

  function First(script: seq<Answer>): Answer {
    if script == [] then Silent else script[0]
  }

  function Rest(script: seq<Answer>): seq<Answer> {
    if script == [] then [] else script[1..]
  }

  // ---- The notify loop over a script -----------------------------------------

  /** What a notify step does over a script: how many requests it sends, what it
      tells its own connection, and how it ends. */
  datatype NotifyRun = NotifyRun(asked: nat, told: seq<bool>, end: Outcome)

  function Notified(success: bool, script: seq<Answer>): NotifyRun {
    match AfterNotify(success, First(script))
    case Abort => NotifyRun(1, [], Raised)
    case TellLocal(commit) => NotifyRun(1, [commit], Returned)
    case Retry =>
      if |script| <= 1 then NotifyRun(1, [], StillRetrying)
      else var r := Notified(success, script[1..]); r.(asked := r.asked + 1)
  }

  /** The manager's replies echo the flag they were sent. */
  predicate Echoes(success: bool, script: seq<Answer>) {
    forall a <- script :: a.Replied? ==> a.success == success
  }

  /** The connection is told at most once and only the business outcome; it is told to
      commit only after a reply, and a failed business is notified exactly once. */
  lemma {:induction false} NotifyTellsTheOutcome(success: bool, script: seq<Answer>)
    requires Echoes(success, script)
    ensures var r := Notified(success, script);
            && (r.told == [success] || r.told == [])
            && (r.end.Returned? <==> r.told == [success])
            && (r.told == [true] ==> Replied(true) in script)
            && (!success ==> r.asked == 1 && !r.end.StillRetrying?)
  {
    if success && First(script).Silent? && |script| > 1 {
      NotifyTellsTheOutcome(success, script[1..]);
    }
  }

  /** A failed business is notified once; unless that throws, its own connection is told to roll back and the step returns. */
  lemma FailedBusinessRollsBack(script: seq<Answer>)
    ensures var threw := script != [] && script[0].Threw?;
            Notified(false, script) == NotifyRun(1, if threw then [] else [false], if threw then Raised else Returned)
  {
  }

  /** A success that is never answered is notified for ever and tells nothing. */
  lemma {:induction false} SilenceIsRetried(script: seq<Answer>)
    requires forall a <- script :: a.Silent?
    ensures Notified(true, script) == NotifyRun(if script == [] then 1 else |script|, [], StillRetrying)
  {
    if |script| > 1 {
      assert script[0] in script;
      assert forall a <- script[1..] :: a in script;
      SilenceIsRetried(script[1..]);
    } else if script != [] {
      assert script[0] in script;
    }
  }

  /** The loop of a successful business is left exactly at the first answer that is not silence. */
  lemma {:induction false} NotifyStopsAtFirstAnswer(script: seq<Answer>, k: nat)
    requires k < |script| && !script[k].Silent? && forall i | 0 <= i < k :: script[i].Silent?
    ensures var r := Notified(true, script);
            && r.asked == k + 1
            && r.end == (if script[k].Threw? then Raised else Returned)
            && r.told == (if script[k].Threw? then [] else [script[k].success])
  {
    if k > 0 {
      NotifyStopsAtFirstAnswer(script[1..], k - 1);
    }
  }

  // ---- The objects -------------------------------------------------------------

  datatype TransactionState = Create | Join | Notify

  class TransactionInfo {
    const groupId: string
    var transactionState: TransactionState
    var successReturn: Option<bool>

    constructor (groupId: string, transactionState: TransactionState)
      ensures this.groupId == groupId && this.transactionState == transactionState && successReturn == None
    {
      this.groupId := groupId;
      this.transactionState := transactionState;
      successReturn := None;
    }
  }

  /** The client's connection to the managers: it records every request sent. */
  class TxManagerReporter {
    var script: seq<Answer>
    var sent: seq<Request>

    constructor (script: seq<Answer>)
      ensures this.script == script && sent == []
    {
      this.script := script;
      sent := [];
    }

    method RequestMsg(r: Request) returns (a: Answer)
      modifies this
      ensures a == First(old(script)) && script == Rest(old(script))
      ensures a == (if old(script) == [] then Silent else old(script)[0])
      ensures old(script) != [] ==> script == old(script)[1..]
      ensures sent == old(sent) + [r]
    {
      sent := sent + [r];
      a := First(script);
      script := Rest(script);
    }
  }

  /** The commitor: it records every call of commit. Without a held connection the call throws. */
  class TransactionCommitorStrategy {
    const connectionHeld: bool
    var told: seq<bool>

    constructor (connectionHeld: bool)
      ensures this.connectionHeld == connectionHeld && told == []
    {
      this.connectionHeld := connectionHeld;
      told := [];
    }

    method Commit(state: bool) returns (outcome: Outcome)
      modifies this
      ensures told == old(told) + [state]
      ensures outcome == if connectionHeld then Returned else Raised
    {
      told := told + [state];
      outcome := if connectionHeld then Returned else Raised;
    }
  }

  function Times(n: nat, r: Request): (rs: seq<Request>)
    ensures |rs| == n && forall i | 0 <= i < n :: rs[i] == r
  {
    seq(n, _ => r)
  }

  lemma TimesMore(n: nat, r: Request)
    ensures Times(n + 1, r) == Times(n, r) + [r]
    ensures Times(1, r) == [r]
  {
  }

  lemma NotifiedRetries(script: seq<Answer>)
    requires First(script).Silent? && |script| > 1
    ensures var r := Notified(true, script[1..]); Notified(true, script) == r.(asked := r.asked + 1)
  {
  }

  class TransactionClient {
    const reporter: TxManagerReporter
    const commitor: TransactionCommitorStrategy
    /** A branch handed to the executor, waiting for the broadcast decision. */
    var waiting: bool

    constructor (reporter: TxManagerReporter, commitor: TransactionCommitorStrategy)
      ensures this.reporter == reporter && this.commitor == commitor && !waiting
    {
      this.reporter := reporter;
      this.commitor := commitor;
      waiting := false;
    }

    /** The create step. */
    method RunCreate(info: TransactionInfo) returns (outcome: Outcome)
      modifies reporter
      ensures reporter.sent == old(reporter.sent) + [CreateRequest(info.groupId)]
      ensures reporter.script == Rest(old(reporter.script))
      ensures outcome == if CreateProceeds(First(old(reporter.script))) then Returned else Raised
      ensures outcome.Returned? <==> old(reporter.script) != [] && old(reporter.script)[0].Replied?
    {
      var res := reporter.RequestMsg(CreateRequest(info.groupId));
      outcome := if CreateProceeds(res) then Returned else Raised;
    }

    /** The first request and the retries: `tail` is the script from the last answer on. */
    method AskUntilAnswered(request: Request, success: bool) returns (res: Answer, ghost asked: nat, ghost tail: seq<Answer>)
      modifies reporter
      ensures res == First(tail) && asked > 0
      ensures success && res.Silent? ==> |tail| <= 1
      ensures reporter.sent == old(reporter.sent) + Times(asked, request)
      ensures Notified(success, old(reporter.script)) == var r := Notified(success, tail); r.(asked := r.asked + asked - 1)
    {
      var ended := |reporter.script| <= 1;
      tail := reporter.script;
      res := reporter.RequestMsg(request);
      asked := 1;
      TimesMore(0, request);
      while success && res.Silent? && !ended
        invariant asked > 0
        invariant res == First(tail) && reporter.script == Rest(tail) && (ended <==> |tail| <= 1)
        invariant reporter.sent == old(reporter.sent) + Times(asked, request)
        invariant Notified(success, old(reporter.script))
                  == var r := Notified(success, tail); r.(asked := r.asked + asked - 1)
        decreases |tail|
      {
        ended := |reporter.script| <= 1;
        NotifiedRetries(tail);
        TimesMore(asked, request);
        tail := reporter.script;
        res := reporter.RequestMsg(request);
        asked := asked + 1;
      }
    }

    /** The notify step: ask, ask again while a success stays unanswered, then tell the own connection. */
    method RunNotify(info: TransactionInfo, success: bool) returns (outcome: Outcome)
      modifies reporter, commitor
      ensures var r := Notified(success, old(reporter.script));
              && reporter.sent == old(reporter.sent) + Times(r.asked, NotifyRequest(info.groupId, success))
              && commitor.told == old(commitor.told) + r.told
              && outcome == (if r.end.Returned? && !commitor.connectionHeld then Raised else r.end)
      // a failed business: one request, and a rollback unless it threw
      ensures !success ==>
                var threw := old(reporter.script) != [] && old(reporter.script)[0].Threw?;
                && reporter.sent == old(reporter.sent) + [NotifyRequest(info.groupId, false)]
                && commitor.told == old(commitor.told) + (if threw then [] else [false])
      // a successful one that is answered at once
      ensures success && old(reporter.script) != [] && old(reporter.script)[0].Replied? ==>
                && reporter.sent == old(reporter.sent) + [NotifyRequest(info.groupId, true)]
                && commitor.told == old(commitor.told) + [old(reporter.script)[0].success]
    {
      TimesMore(0, NotifyRequest(info.groupId, success));
      FailedBusinessRollsBack(reporter.script);
      if success && reporter.script != [] && reporter.script[0].Replied? {
        NotifyStopsAtFirstAnswer(reporter.script, 0);
      }
      var res, asked, tail := AskUntilAnswered(NotifyRequest(info.groupId, success), success);
      if success && res.Silent? {
        return StillRetrying;
      }
      if res.Threw? {
        return Raised;
      }
      var needCommit := res.Replied? && res.success && success;
      outcome := commitor.Commit(needCommit);
    }

    /** The join step: an unanswered join rolls back at once and throws. */
    method RunJoin(info: TransactionInfo) returns (outcome: Outcome)
      modifies this, reporter, commitor
      ensures reporter.sent == old(reporter.sent) + [JoinRequest(info.groupId)]
      ensures commitor.told == old(commitor.told)
                + (if AfterJoin(First(old(reporter.script))).RollBackAndThrow? then [false] else [])
      ensures waiting == (old(waiting) || AfterJoin(First(old(reporter.script))).Wait?)
      ensures outcome == if AfterJoin(First(old(reporter.script))).Wait? then Returned else Raised
      // silence rolls back, a reply waits, an exception tells nothing
      ensures var silent := old(reporter.script) == [] || old(reporter.script)[0].Silent?;
              var replied := old(reporter.script) != [] && old(reporter.script)[0].Replied?;
              && commitor.told == old(commitor.told) + (if silent then [false] else [])
              && waiting == (old(waiting) || replied)
              && (outcome.Returned? <==> replied)
    {
      var res := reporter.RequestMsg(JoinRequest(info.groupId));
      if res.Threw? {
        return Raised;
      }
      if res.Silent? {
        var _ := commitor.Commit(false);
        return Raised;
      }
      waiting := true;
      outcome := Returned;
    }

    /** The executor's part of the join: what arrives while waiting, if anything, decides. */
    method AwaitDecision(event: Option<bool>)
      requires waiting
      modifies this, commitor
      ensures commitor.told == old(commitor.told) + (if event.Some? then [event.value] else [])
      ensures !waiting
    {
      waiting := false;
      if event.Some? {
        var _ := commitor.Commit(event.value);
      }
    }

    method TryBeginTransaction(info: TransactionInfo) returns (outcome: Outcome)
      modifies reporter
      ensures info.transactionState.Create? ==>
                && reporter.sent == old(reporter.sent) + [CreateRequest(info.groupId)]
                && reporter.script == Rest(old(reporter.script))
                && outcome == if CreateProceeds(First(old(reporter.script))) then Returned else Raised
      ensures !info.transactionState.Create? ==> unchanged(reporter) && outcome == Returned
    {
      outcome := Returned;
      if info.transactionState.Create? {
        outcome := RunCreate(info);
      }
    }

    method TryEndTransaction(info: TransactionInfo) returns (outcome: Outcome)
      requires info.successReturn.Some?
      modifies this, reporter, commitor, info`transactionState
      ensures old(info.transactionState).Join? ==>
                && reporter.sent == old(reporter.sent) + [JoinRequest(info.groupId)]
                && commitor.told == old(commitor.told)
                     + (if AfterJoin(First(old(reporter.script))).RollBackAndThrow? then [false] else [])
                && waiting == (old(waiting) || AfterJoin(First(old(reporter.script))).Wait?)
                && outcome == if AfterJoin(First(old(reporter.script))).Wait? then Returned else Raised
      ensures !old(info.transactionState).Join? ==>
                var r := Notified(info.successReturn.value, old(reporter.script));
                && info.transactionState.Notify? && waiting == old(waiting)
                && reporter.sent == old(reporter.sent)
                     + Times(r.asked, NotifyRequest(info.groupId, info.successReturn.value))
                && commitor.told == old(commitor.told) + r.told
                && outcome == (if r.end.Returned? && !commitor.connectionHeld then Raised else r.end)
    {
      if info.transactionState.Create? {
        info.transactionState := Notify;
      }
      if info.transactionState.Notify? {
        outcome := RunNotify(info, info.successReturn.value);
      } else {
        outcome := RunJoin(info);
      }
    }

    /** The aspect around an annotated method. `businessOk` says how the method ends if it is run;
        `ran` says whether it was. */
    method RunWithTransaction(info: TransactionInfo, businessOk: bool) returns (outcome: Outcome, ran: bool)
      modifies this, reporter, commitor, info
      // the start of a group: create, business, notify the outcome
      ensures old(info.transactionState).Create? ==>
                var created := CreateProceeds(First(old(reporter.script)));
                var ok := created && businessOk;
                var r := Notified(ok, Rest(old(reporter.script)));
                && ran == created && info.successReturn == Some(ok)
                && reporter.sent == old(reporter.sent) + [CreateRequest(info.groupId)]
                                    + Times(r.asked, NotifyRequest(info.groupId, ok))
                && commitor.told == old(commitor.told) + r.told
                && (outcome.Returned? <==> ok && r.end.Returned? && commitor.connectionHeld)
                && (outcome.StillRetrying? <==> r.end.StillRetrying?)
      // a participant: business, then join whatever the outcome
      ensures old(info.transactionState).Join? ==>
                var verdict := AfterJoin(First(old(reporter.script)));
                && ran && info.successReturn == Some(businessOk)
                && reporter.sent == old(reporter.sent) + [JoinRequest(info.groupId)]
                && commitor.told == old(commitor.told) + (if verdict.RollBackAndThrow? then [false] else [])
                && waiting == (old(waiting) || verdict.Wait?)
                && outcome == (if businessOk && verdict.Wait? then Returned else Raised)
    {
      ran := false;
      var begun := TryBeginTransaction(info);
      if begun.Returned? {
        ran := true;
        info.successReturn := Some(businessOk);
      } else {
        info.successReturn := Some(false);
      }
      outcome := TryEndTransaction(info);
      if outcome.Returned? && info.successReturn == Some(false) {
        outcome := Raised;
      }
    }
  }
}
