/** The snowflake generator: a clock, the last time stamp and a sequence number.

    A call reads the clock one or more times; its readings are an input. A call
    whose readings run out while it waits for the next millisecond has not returned. */
module Generators {
  import opened Wrappers
  import opened Snowflakes

  /** The mutable part of a generator. */
  datatype Generator = Generator(sequence: nat, lastTimestamp: int)

  const FRESH: Generator := Generator(0, -1)

  /** The varying fields of an id. */
  datatype Stamp = Stamp(time: int, sequence: nat)

  datatype Drawn =
    | Drew(stamp: Stamp)
    | ClockBack    // refused at once: the clock is 2000 ms or more behind; nothing has changed
    | WaitFailed   // refused while waiting for the next millisecond; the sequence has been reset

  datatype Waited = Moved(time: int) | WentBack | NoMoreReadings

  /** The wait for the next millisecond, over the readings it takes. */
  function TilNext(last: int, clock: seq<int>): (w: Waited)
    ensures w.Moved? ==> w.time > last && w.time in clock
  {
    if clock == [] then NoMoreReadings
    else if clock[0] == last then TilNext(last, clock[1..])
    else if clock[0] < last then WentBack
    else Moved(clock[0])
  }

  /** One call: the new state and what it drew, or nothing if it has not returned. */
  function Next(g: Generator, clock: seq<int>): Option<(Generator, Drawn)> {
    if clock == [] then None
    else if g.lastTimestamp - clock[0] >= TOLERANCE then Some((g, ClockBack))
    else if clock[0] > g.lastTimestamp then Some((Generator(0, clock[0]), Drew(Stamp(clock[0], 0))))
    else
      var sequence := (g.sequence + 1) % SEQUENCES;
      if sequence != 0 then Some((g.(sequence := sequence), Drew(Stamp(g.lastTimestamp, sequence))))
      else
        match TilNext(g.lastTimestamp, clock[1..])
        case Moved(t) => Some((Generator(0, t), Drew(Stamp(t, 0))))
        case WentBack => Some((g.(sequence := 0), WaitFailed))
        case NoMoreReadings => None
  }

  // ---- Runs of one generator -------------------------------------------------

  /** `stale`: the last call that did not refuse at once failed while waiting. */
  datatype History = History(gen: Generator, drawn: seq<Stamp>, stale: bool)

  /** The state after a list of calls that have all returned. */
  function Run(calls: seq<seq<int>>): Option<History> {
    if calls == [] then Some(History(FRESH, [], false))
    else
      var h := Run(calls[..|calls| - 1]);
      if h.None? then None else After(h.value, calls[|calls| - 1])
  }

  function After(h: History, clock: seq<int>): Option<History> {
    var r := Next(h.gen, clock);
    if r.None? then None
    else match r.value.1
      case Drew(stamp) => Some(History(r.value.0, h.drawn + [stamp], false))
      case ClockBack => Some(h.(gen := r.value.0))
      case WaitFailed => Some(h.(gen := r.value.0, stale := true))
  }

  /** After a failed wait the clock reads a time not after the last one, within the tolerance. */
  predicate Repeats(h: History, clock: seq<int>) {
    h.stale && clock != [] && clock[0] <= h.gen.lastTimestamp && h.gen.lastTimestamp - clock[0] < TOLERANCE
  }

  predicate NeverRepeats(calls: seq<seq<int>>) {
    calls == [] ||
    var before := calls[..|calls| - 1];
    NeverRepeats(before) && (Run(before).Some? ==> !Repeats(Run(before).value, calls[|calls| - 1]))
  }

  predicate Earlier(a: Stamp, b: Stamp) {
    a.time < b.time || (a.time == b.time && a.sequence < b.sequence)
  }

  predicate Increasing(stamps: seq<Stamp>) {
    forall i, j | 0 <= i < j < |stamps| :: Earlier(stamps[i], stamps[j])
  }

  /** The state remembers the last stamp drawn, except that a failed wait has reset the sequence. */
  predicate Remembers(h: History) {
    && h.gen.sequence < SEQUENCES
    && (h.stale ==> h.gen.sequence == 0)
    && (if h.drawn == [] then h.gen == FRESH && !h.stale
        else h.drawn[|h.drawn| - 1] == Stamp(h.gen.lastTimestamp, if h.stale then SEQUENCES - 1 else h.gen.sequence))
  }

  lemma CallRemembers(h: History, clock: seq<int>)
    requires Remembers(h) && !Repeats(h, clock) && After(h, clock).Some?
    ensures Remembers(After(h, clock).value)
    ensures Increasing(h.drawn) ==> Increasing(After(h, clock).value.drawn)
  {
    var t := After(h, clock).value;
    if Increasing(h.drawn) && |t.drawn| > |h.drawn| && h.drawn != [] {
      assert Earlier(h.drawn[|h.drawn| - 1], t.drawn[|h.drawn|]);
      assert forall i | 0 <= i < |h.drawn| :: Earlier(h.drawn[i], h.drawn[|h.drawn| - 1]) || i == |h.drawn| - 1;
    }
  }

  /** A call that repeats draws the sequence number 1 of a millisecond whose 4095 is already drawn. */
  lemma RepeatingCallGoesBack(h: History, clock: seq<int>)
    requires Remembers(h) && Repeats(h, clock)
    ensures After(h, clock).Some? && !Increasing(After(h, clock).value.drawn)
  {
    var t := After(h, clock).value;
    var n := |h.drawn|;
    assert t.drawn == h.drawn + [Stamp(h.gen.lastTimestamp, 1)];
    assert t.drawn[n - 1] == Stamp(h.gen.lastTimestamp, SEQUENCES - 1);
    assert !Earlier(t.drawn[n - 1], t.drawn[n]);
  }

  lemma {:induction false} StampsIncreaseIff(calls: seq<seq<int>>)
    requires Run(calls).Some?
    ensures NeverRepeats(calls) ==> Remembers(Run(calls).value)
    ensures Increasing(Run(calls).value.drawn) <==> NeverRepeats(calls)
  {
    if calls != [] {
      var before, last := calls[..|calls| - 1], calls[|calls| - 1];
      StampsIncreaseIff(before);
      var h := Run(before).value;
      if NeverRepeats(before) {
        if Repeats(h, last) {
          RepeatingCallGoesBack(h, last);
        } else {
          CallRemembers(h, last);
        }
      } else {
        var t := After(h, last).value;
        assert t.drawn[..|h.drawn|] == h.drawn;
        var i, j :| 0 <= i < j < |h.drawn| && !Earlier(h.drawn[i], h.drawn[j]);
        assert t.drawn[i] == h.drawn[i] && t.drawn[j] == h.drawn[j];
      }
    }
  }

  // ---- Distinct stamps ---------------------------------------------------------

  predicate Distinct(stamps: seq<Stamp>) {
    forall i, j | 0 <= i < j < |stamps| :: stamps[i] != stamps[j]
  }

  lemma IncreasingIsDistinct(stamps: seq<Stamp>)
    ensures Increasing(stamps) ==> Distinct(stamps)
  {
  }

  /** The sequence numbers of the last millisecond that have been used up. */
  function UsedUp(h: History): nat {
    if h.stale then SEQUENCES - 1 else h.gen.sequence
  }

  /** All of them but 0 have been drawn. */
  predicate LastIsFilled(h: History) {
    forall k | 0 < k <= UsedUp(h) :: Stamp(h.gen.lastTimestamp, k) in h.drawn
  }

  lemma CallKeepsFilled(h: History, clock: seq<int>)
    requires Remembers(h) && LastIsFilled(h) && !Repeats(h, clock) && After(h, clock).Some?
    ensures LastIsFilled(After(h, clock).value)
  {
    var t := After(h, clock).value;
    assert forall s <- h.drawn :: s in t.drawn;
    if |t.drawn| > |h.drawn| {
      assert t.drawn[|h.drawn|] == Stamp(t.gen.lastTimestamp, t.gen.sequence);
    }
  }

  lemma {:induction false} RunsKeepFilled(calls: seq<seq<int>>)
    requires Run(calls).Some? && NeverRepeats(calls)
    ensures Remembers(Run(calls).value) && LastIsFilled(Run(calls).value)
  {
    StampsIncreaseIff(calls);
    if calls != [] {
      var before, last := calls[..|calls| - 1], calls[|calls| - 1];
      RunsKeepFilled(before);
      CallKeepsFilled(Run(before).value, last);
    }
  }

  /** A call that repeats draws a stamp that is already drawn. */
  lemma RepeatingCallRepeats(h: History, clock: seq<int>)
    requires Remembers(h) && LastIsFilled(h) && Repeats(h, clock)
    ensures After(h, clock).Some? && !Distinct(After(h, clock).value.drawn)
  {
    var t := After(h, clock).value;
    assert t.drawn == h.drawn + [Stamp(h.gen.lastTimestamp, 1)];
    assert Stamp(h.gen.lastTimestamp, 1) in h.drawn;
    var i :| 0 <= i < |h.drawn| && h.drawn[i] == Stamp(h.gen.lastTimestamp, 1);
    assert t.drawn[i] == t.drawn[|h.drawn|];
  }

  lemma DrawnStays(h: History, clock: seq<int>)
    requires After(h, clock).Some? && !Distinct(h.drawn)
    ensures !Distinct(After(h, clock).value.drawn)
  {
    var t := After(h, clock).value;
    var i, j :| 0 <= i < j < |h.drawn| && h.drawn[i] == h.drawn[j];
    assert t.drawn[i] == h.drawn[i] && t.drawn[j] == h.drawn[j];
  }

  /** No stamp is drawn twice, whatever the clock did, if and only if no draw follows a failed wait before the clock has
      passed the last time stamp. */
  lemma {:induction false} StampsDistinctIff(calls: seq<seq<int>>)
    requires Run(calls).Some?
    ensures Distinct(Run(calls).value.drawn) <==> NeverRepeats(calls)
  {
    if NeverRepeats(calls) {
      StampsIncreaseIff(calls);
      IncreasingIsDistinct(Run(calls).value.drawn);
    } else {
      var before, last := calls[..|calls| - 1], calls[|calls| - 1];
      if NeverRepeats(before) {
        RunsKeepFilled(before);
        RepeatingCallRepeats(Run(before).value, last);
      } else {
        StampsDistinctIff(before);
        DrawnStays(Run(before).value, last);
      }
    }
  }

  // ---- Ids -------------------------------------------------------------------

  /** The constant part of a generator. */
  datatype Identity = Identity(epoch: int, workerId: nat, dataCenterId: nat) {
    predicate Valid() { workerId <= MAX_WORKER && dataCenterId <= MAX_DATA_CENTER }
  }

  function IdOf(who: Identity, s: Stamp): int {
    Pack(s.time - who.epoch, who.dataCenterId, who.workerId, s.sequence)
  }

  /** Every reading is from the epoch up to 2^41 ms after it. */
  predicate ClockInRange(who: Identity, calls: seq<seq<int>>) {
    forall c <- calls :: forall t <- c :: who.epoch <= t < who.epoch + TIMES
  }

  lemma {:induction false} StampsInRange(who: Identity, calls: seq<seq<int>>)
    requires Run(calls).Some? && ClockInRange(who, calls) && who.epoch + TIMES > -1
    ensures var h := Run(calls).value;
            && (forall s <- h.drawn :: StampInRange(who, s))
            && (h.drawn != [] ==> who.epoch <= h.gen.lastTimestamp < who.epoch + TIMES)
            && (h.drawn == [] ==> h.gen.lastTimestamp == -1)
            && h.gen.sequence < SEQUENCES
            && (h.drawn == [] ==> h.gen.sequence == 0)
  {
    if calls != [] {
      var before, last := calls[..|calls| - 1], calls[|calls| - 1];
      assert last in calls;
      assert forall c <- before :: c in calls;
      assert last != [] ==> forall t <- last[1..] :: t in last;
      StampsInRange(who, before);
      var h, t := Run(before).value, Run(calls).value;
      assert last[0] in last;
      var drawn := Next(h.gen, last).value.1;
      if drawn.Drew? {
        var stamp := drawn.stamp;
        assert stamp.time in last || (stamp.time == h.gen.lastTimestamp && last[0] <= stamp.time);
        assert t.drawn == h.drawn + [stamp];
        assert who.epoch <= stamp.time < who.epoch + TIMES;
      }
    }
  }

  predicate StampInRange(who: Identity, s: Stamp) {
    who.epoch <= s.time < who.epoch + TIMES && s.sequence < SEQUENCES
  }

  /** What the decoders read from an id that was drawn. */
  lemma IdsDecode(who: Identity, s: Stamp)
    requires who.Valid() && s.sequence < SEQUENCES
    ensures var id := IdOf(who, s);
            && GetWorkerId(id) == who.workerId
            && GetDataCenterId(id) == who.dataCenterId
            && id % 4096 == s.sequence
            && (0 <= s.time - who.epoch < TIMES ==> GetGenerateDateTime(id, who.epoch) == s.time)
  {
    UnpackInvertsPack(s.time - who.epoch, who.dataCenterId, who.workerId, s.sequence, who.epoch);
    IdsEndInSequence(who, s);
  }

  lemma IdsEndInSequence(who: Identity, s: Stamp)
    requires who.Valid() && s.sequence < SEQUENCES
    ensures IdOf(who, s) % 4096 == s.sequence
  {
    LowBitsAlwaysHold(s.time - who.epoch, who.dataCenterId, who.workerId, s.sequence);
    LastTwelveBits(IdOf(who, s), who.dataCenterId, who.workerId, s.sequence);
  }

  lemma LastTwelveBits(id: int, dataCenter: nat, worker: nat, sequence: nat)
    requires id % 4194304 == Low(dataCenter, worker, sequence) && sequence < SEQUENCES
    ensures id % 4096 == sequence
  {
    var q := id / 4194304;
    var high := q * 1024 + dataCenter * 32 + worker;
    assert id == high * 4096 + sequence;
    Remainder4096(high, sequence);
  }

  lemma Remainder4096(high: int, low: nat)
    requires low < 4096
    ensures (high * 4096 + low) % 4096 == low
  {
  }

  lemma OrderOfSums(t1: int, s1: nat, t2: int, s2: nat, low: nat)
    requires s1 < SEQUENCES && s2 < SEQUENCES && low < 1024
    ensures t1 * 4194304 + low * 4096 + s1 < t2 * 4194304 + low * 4096 + s2 <==> t1 < t2 || (t1 == t2 && s1 < s2)
  {
  }

  /** The ids of one generator are ordered as their stamps. */
  lemma IdsOrderedAsStamps(who: Identity, a: Stamp, b: Stamp)
    requires who.Valid() && StampInRange(who, a) && StampInRange(who, b)
    ensures IdOf(who, a) < IdOf(who, b) <==> Earlier(a, b)
  {
    PackIsSum(a.time - who.epoch, who.dataCenterId, who.workerId, a.sequence);
    PackIsSum(b.time - who.epoch, who.dataCenterId, who.workerId, b.sequence);
    OrderOfSums(a.time - who.epoch, a.sequence, b.time - who.epoch, b.sequence, who.dataCenterId * 32 + who.workerId);
  }

  /** The ids of a list of stamps. */
  function Ids(who: Identity, stamps: seq<Stamp>): (r: seq<int>)
    ensures |r| == |stamps|
    ensures forall i | 0 <= i < |r| :: r[i] == IdOf(who, stamps[i])
  {
    seq(|stamps|, i requires 0 <= i < |stamps| => IdOf(who, stamps[i]))
  }

  predicate IncreasingIds(ids: seq<int>) {
    forall i, j | 0 <= i < j < |ids| :: ids[i] < ids[j]
  }

  lemma IncreaseTogether(who: Identity, stamps: seq<Stamp>)
    requires who.Valid() && forall s <- stamps :: StampInRange(who, s)
    ensures IncreasingIds(Ids(who, stamps)) <==> Increasing(stamps)
  {
    forall i, j | 0 <= i < j < |stamps|
      ensures Ids(who, stamps)[i] < Ids(who, stamps)[j] <==> Earlier(stamps[i], stamps[j])
    {
      IdsOrderedAsStamps(who, stamps[i], stamps[j]);
    }
    SameOrder(Ids(who, stamps), stamps);
  }

  lemma SameOrder(ids: seq<int>, stamps: seq<Stamp>)
    requires |ids| == |stamps|
    requires forall i, j | 0 <= i < j < |stamps| :: ids[i] < ids[j] <==> Earlier(stamps[i], stamps[j])
    ensures IncreasingIds(ids) <==> Increasing(stamps)
  {
    if !Increasing(stamps) {
      var i, j :| 0 <= i < j < |stamps| && !Earlier(stamps[i], stamps[j]);
      assert !(ids[i] < ids[j]);
    }
    if !IncreasingIds(ids) {
      var i, j :| 0 <= i < j < |ids| && !(ids[i] < ids[j]);
      assert !Earlier(stamps[i], stamps[j]);
    }
  }

  /** Strict monotonicity, and exactly when it holds: with a clock in range, the ids drawn strictly
      increase, whatever the clock did, if and only if no draw follows a failed wait before the clock
      has passed the last time stamp. */
  lemma IdsIncreaseIff(who: Identity, calls: seq<seq<int>>)
    requires Run(calls).Some? && ClockInRange(who, calls) && who.epoch + TIMES > -1 && who.Valid()
    ensures IncreasingIds(Ids(who, Run(calls).value.drawn)) <==> NeverRepeats(calls)
  {
    StampsIncreaseIff(calls);
    StampsInRange(who, calls);
    IncreaseTogether(who, Run(calls).value.drawn);
  }

  predicate DistinctIds(ids: seq<int>) {
    forall i, j | 0 <= i < j < |ids| :: ids[i] != ids[j]
  }

  lemma DifferTogether(who: Identity, stamps: seq<Stamp>)
    requires who.Valid() && forall s <- stamps :: StampInRange(who, s)
    ensures DistinctIds(Ids(who, stamps)) <==> Distinct(stamps)
  {
    forall i, j | 0 <= i < j < |stamps|
      ensures Ids(who, stamps)[i] != Ids(who, stamps)[j] <==> stamps[i] != stamps[j]
    {
      IdsOrderedAsStamps(who, stamps[i], stamps[j]);
      IdsOrderedAsStamps(who, stamps[j], stamps[i]);
    }
    if i, j :| 0 <= i < j < |stamps| && stamps[i] == stamps[j] {
      assert Ids(who, stamps)[i] == Ids(who, stamps)[j];
    }
  }

  /** No id is drawn twice, and exactly when: with a clock in range, under the same condition. */
  lemma IdsDistinctIff(who: Identity, calls: seq<seq<int>>)
    requires Run(calls).Some? && ClockInRange(who, calls) && who.epoch + TIMES > -1 && who.Valid()
    ensures DistinctIds(Ids(who, Run(calls).value.drawn)) <==> NeverRepeats(calls)
  {
    StampsDistinctIff(calls);
    StampsInRange(who, calls);
    DifferTogether(who, Run(calls).value.drawn);
  }

  /** If no call fails while waiting, no draw repeats. */
  lemma {:induction false} NoFailedWaitNoRepeat(calls: seq<seq<int>>)
    requires Run(calls).Some?
    requires forall k | 0 <= k < |calls| && Run(calls[..k]).Some? ::
               Next(Run(calls[..k]).value.gen, calls[k]).Some? ==>
               !Next(Run(calls[..k]).value.gen, calls[k]).value.1.WaitFailed?
    ensures !Run(calls).value.stale && NeverRepeats(calls)
  {
    if calls != [] {
      var n := |calls| - 1;
      var before := calls[..n];
      forall k | 0 <= k < n ensures before[..k] == calls[..k] {
      }
      NoFailedWaitNoRepeat(before);
      assert calls[..n] == before && Next(Run(calls[..n]).value.gen, calls[n]).Some?;
    }
  }

  /** `n` calls within the millisecond `t`. */
  function Burst(t: int, n: nat): seq<seq<int>> {
    seq(n, _ => [t])
  }

  function BurstStamps(t: int, n: nat): (r: seq<Stamp>)
    ensures |r| == n && forall i | 0 <= i < n :: r[i] == Stamp(t, i)
  {
    seq(n, i requires 0 <= i < n => Stamp(t, i))
  }

  lemma {:induction false} BurstDraws(t: int, n: nat)
    requires t > -1 && 0 < n <= SEQUENCES
    ensures Run(Burst(t, n)) == Some(History(Generator(n - 1, t), BurstStamps(t, n), false))
  {
    var calls := Burst(t, n);
    assert calls[..n - 1] == Burst(t, n - 1);
    if n == 1 {
      assert calls[..0] == [];
      assert BurstStamps(t, 1) == [] + [Stamp(t, 0)];
    } else {
      BurstDraws(t, n - 1);
      assert BurstStamps(t, n) == BurstStamps(t, n - 1) + [Stamp(t, n - 1)];
    }
  }

  /** A failed wait does make the generator draw the same stamp twice: 4096 draws in one millisecond, a
      step back while waiting for the next one, and a draw once the clock is where it was. */
  lemma FailedWaitRepeatsAStamp(t: int) returns (calls: seq<seq<int>>)
    requires t > -1
    ensures Run(calls).Some? && |Run(calls).value.drawn| == SEQUENCES + 1
    ensures Run(calls).value.drawn[1] == Run(calls).value.drawn[SEQUENCES]
  {
    var burst := Burst(t, SEQUENCES);
    BurstDraws(t, SEQUENCES);
    var failed := burst + [[t, t - 1]];
    assert failed[..SEQUENCES] == burst;
    assert TilNext(t, [t, t - 1][1..]) == WentBack;
    calls := failed + [[t]];
    assert calls[..SEQUENCES + 1] == failed;
  }

  // ---- The object ------------------------------------------------------------

  datatype NextId = Id(id: int) | Refused | Pending

  class Snowflake {
    const twepoch: int
    const workerId: nat
    const dataCenterId: nat
    var sequence: nat
    var lastTimestamp: int

    ghost predicate Valid()
      reads this
    {
      Who().Valid() && sequence < SEQUENCES
    }

    ghost function State(): Generator
      reads this
    {
      Generator(sequence, lastTimestamp)
    }

    function Who(): Identity {
      Identity(twepoch, workerId, dataCenterId)
    }

    constructor (epochDate: Option<int>, workerId: nat, dataCenterId: nat)
      requires workerId <= MAX_WORKER && dataCenterId <= MAX_DATA_CENTER
      ensures Valid() && State() == FRESH
      ensures Who() == Identity(if epochDate.Some? then epochDate.value else DEFAULT_EPOCH, workerId, dataCenterId)
    {
      twepoch := if epochDate.Some? then epochDate.value else DEFAULT_EPOCH;
      this.workerId := workerId;
      this.dataCenterId := dataCenterId;
      sequence := 0;
      lastTimestamp := -1;
    }

    /** Construction with its argument checks: a worker or data center outside 0 .. 31 is refused. */
    static method Create(epochDate: Option<int>, workerId: int, dataCenterId: int) returns (r: Snowflake?)
      ensures r == null <==> workerId > 31 || workerId < 0 || dataCenterId > 31 || dataCenterId < 0
      ensures r != null ==> fresh(r) && r.Valid() && r.State() == FRESH
      ensures r != null ==> r.workerId == workerId && r.dataCenterId == dataCenterId
      ensures r != null ==> r.twepoch == if epochDate.Some? then epochDate.value else 1288834974657
    {
      if workerId > MAX_WORKER || workerId < 0 {
        return null;
      }
      if dataCenterId > MAX_DATA_CENTER || dataCenterId < 0 {
        return null;
      }
      r := new Snowflake(epochDate, workerId, dataCenterId);
    }

    /** The loop that waits for the clock to leave the last time stamp. */
    method TilNextMillis(last: int, clock: seq<int>) returns (w: Waited)
      ensures w == TilNext(last, clock)
      ensures w.NoMoreReadings? <==> forall t <- clock :: t == last
      ensures !w.NoMoreReadings? ==> exists k | 0 <= k < |clock| ::
                && (forall i | 0 <= i < k :: clock[i] == last) && clock[k] != last
                && w == if clock[k] < last then WentBack else Moved(clock[k])
    {
      var i := 0;
      while i < |clock| && clock[i] == last
        invariant 0 <= i <= |clock|
        invariant TilNext(last, clock) == TilNext(last, clock[i..])
        invariant forall k | 0 <= k < i :: clock[k] == last
      {
        assert clock[i..][1..] == clock[i + 1..];
        i := i + 1;
      }
      if i == |clock| {
        return NoMoreReadings;
      }
      assert clock[i] in clock;
      w := if clock[i] < last then WentBack else Moved(clock[i]);
    }

    method CountUp()
      modifies this`sequence
      ensures sequence == (old(sequence) + 1) % SEQUENCES
    {
      sequence := MaskSequence(sequence + 1);
    }

    /** The state change of a call; the stamp drawn is then the last time stamp and the sequence. */
    method Advance(clock: seq<int>) returns (drawn: Option<Drawn>)
      requires Valid()
      modifies this`sequence, this`lastTimestamp
      ensures Valid()
      ensures var n := Next(old(State()), clock);
              if n.None? then drawn.None? && lastTimestamp == old(lastTimestamp)
              else State() == n.value.0 && drawn == Some(n.value.1)
      // a clock 2000 ms or more behind is refused and changes nothing; a later one starts the sequence again
      ensures clock != [] && old(lastTimestamp) - clock[0] >= 2000 ==>
                drawn == Some(ClockBack) && lastTimestamp == old(lastTimestamp) && sequence == old(sequence)
      ensures clock != [] && clock[0] > old(lastTimestamp) ==>
                drawn == Some(Drew(Stamp(clock[0], 0))) && lastTimestamp == clock[0] && sequence == 0
      // in between the last time stamp is kept and counted in, or the next millisecond awaited after 4095
      ensures clock != [] && 0 <= old(lastTimestamp) - clock[0] < 2000 && old(sequence) < 4095 ==>
                && drawn == Some(Drew(Stamp(old(lastTimestamp), old(sequence) + 1)))
                && lastTimestamp == old(lastTimestamp) && sequence == old(sequence) + 1
      ensures clock != [] && 0 <= old(lastTimestamp) - clock[0] < 2000 && old(sequence) == 4095 ==>
                && sequence == 0
                && (drawn.Some? && drawn.value.Drew? ==> drawn.value.stamp == Stamp(lastTimestamp, 0)
                                                         && lastTimestamp > old(lastTimestamp) && lastTimestamp in clock[1..])
                && (drawn.Some? && !drawn.value.Drew? ==> drawn.value.WaitFailed? && lastTimestamp == old(lastTimestamp))
    {
      if clock == [] {
        return None;
      }
      var timestamp := clock[0];
      if timestamp < lastTimestamp {
        if lastTimestamp - timestamp < TOLERANCE {
          timestamp := lastTimestamp;
        } else {
          return Some(ClockBack);
        }
      }
      if timestamp == lastTimestamp {
        CountUp();
        if sequence == 0 {
          var w := TilNextMillis(lastTimestamp, clock[1..]);
          if w.NoMoreReadings? {
            return None;
          }
          if w.WentBack? {
            return Some(WaitFailed);
          }
          timestamp := w.time;
        }
      } else {
        sequence := 0;
      }
      lastTimestamp := timestamp;
      return Some(Drew(Stamp(timestamp, sequence)));
    }

    /** The next id, over the readings the call takes. */
    method GetNextId(clock: seq<int>) returns (r: NextId)
      requires Valid()
      modifies this`sequence, this`lastTimestamp
      ensures Valid()
      ensures var n := Next(old(State()), clock);
              if n.None? then r.Pending? && lastTimestamp == old(lastTimestamp)
              else State() == n.value.0 && (r.Id? <==> n.value.1.Drew?) && !r.Pending?
                   && (r.Id? ==> r.id == IdOf(Who(), n.value.1.stamp))
      // the decoders read what went into the id
      ensures r.Id? ==>
                && GetWorkerId(r.id) == workerId && GetDataCenterId(r.id) == dataCenterId && r.id % 4096 == sequence
                && (0 <= lastTimestamp - twepoch < TIMES ==> GetGenerateDateTime(r.id, twepoch) == lastTimestamp)
    {
      var drawn := Advance(clock);
      if drawn.None? {
        return Pending;
      }
      if !drawn.value.Drew? {
        return Refused;
      }
      IdsDecode(Who(), Stamp(lastTimestamp, sequence));
      return Id(Pack(lastTimestamp - twepoch, dataCenterId, workerId, sequence));
    }
  }
}
