/** Snowflake ids: the packing of an id into 64 bits, and its decoders. */
module Snowflakes {
  import opened Bits

  const TIME_SHIFT: nat := 22
  const DATA_CENTER_SHIFT: nat := 17
  const WORKER_SHIFT: nat := 12
  const SEQUENCES: nat := 4096
  const MAX_WORKER: int := 31
  const MAX_DATA_CENTER: int := 31
  const TIMES: int := 0x200_0000_0000
  const TOLERANCE: int := 2000
  const DEFAULT_EPOCH: int := 1288834974657

  /** The lower 22 bits of an id. */
  function Low(dataCenter: nat, worker: nat, sequence: nat): nat {
    dataCenter * 131072 + worker * 4096 + sequence
  }

  predicate InRange(dataCenter: nat, worker: nat, sequence: nat) {
    dataCenter <= MAX_DATA_CENTER && worker <= MAX_WORKER && sequence < SEQUENCES
  }

  function PackedWord(time: int, dataCenter: nat, worker: nat, sequence: nat): nat {
    Or(Or(Or(Shl(ToWord(time), TIME_SHIFT), Shl(dataCenter, DATA_CENTER_SHIFT)), Shl(worker, WORKER_SHIFT)), sequence)
  }

  /** An id: the four fields shifted and or-ed. `time` is counted from the epoch. */
  function Pack(time: int, dataCenter: nat, worker: nat, sequence: nat): int {
    ToLong(PackedWord(time, dataCenter, worker, sequence))
  }

  /** The twelve bits a sequence number has: counting past 4095 starts again at 0. */
  function MaskSequence(sequence: nat): (r: nat)
    ensures r == sequence % SEQUENCES
  {
    Powers();
    AndMask(sequence, 12);
    And(sequence, Pow2(12) - 1)
  }

  function GetWorkerId(id: int): int {
    And(ToWord(Shr(id, WORKER_SHIFT)), Pow2(5) - 1)
  }

  function GetDataCenterId(id: int): int {
    And(ToWord(Shr(id, DATA_CENTER_SHIFT)), Pow2(5) - 1)
  }

  function GetGenerateDateTime(id: int, epoch: int): int {
    And(ToWord(Shr(id, TIME_SHIFT)), Pow2(41) - 1) + epoch
  }

  lemma Powers()
    ensures Pow2(5) == 32 && Pow2(12) == 4096 && Pow2(17) == 131072 && Pow2(22) == 4194304
    ensures Pow2(41) == TIMES
  {
    assert Pow2(4) == 16;
    assert Pow2(8) == 256;
    assert Pow2(12) == 4096;
    assert Pow2(16) == 65536;
    assert Pow2(20) == 1048576;
    assert Pow2(24) == 16777216;
    assert Pow2(28) == 268435456;
    assert Pow2(32) == 4294967296;
    assert Pow2(36) == 68719476736;
    assert Pow2(40) == 1099511627776;
  }

  lemma ShiftedTime(time: int) returns (q: nat)
    ensures Shl(ToWord(time), TIME_SHIFT) == q * 4194304
    ensures q < 4398046511104
    ensures 0 <= time < TIMES ==> q == time
  {
    Powers();
    var high := Shl(ToWord(time), TIME_SHIFT);
    assert high == (ToWord(time) * 4194304) % WORD;
    q := high / 4194304;
  }

  lemma OrStep(high: nat, low: nat, k: nat, power: nat)
    requires power == Pow2(k) && low < power
    ensures Or(high * power, low) == high * power + low
  {
    OrIsSum(high, low, k);
  }

  /** The or of the shifted fields is their sum. */
  lemma OrOfFieldsIsSum(q: nat, dataCenter: nat, worker: nat, sequence: nat)
    requires InRange(dataCenter, worker, sequence)
    ensures Or(Or(Or(q * 4194304, dataCenter * 131072), worker * 4096), sequence)
            == q * 4194304 + Low(dataCenter, worker, sequence)
  {
    OrDataCenter(q, dataCenter);
    OrWorker(q * 32 + dataCenter, worker);
    OrSequence(q * 1024 + dataCenter * 32 + worker, sequence);
  }

  lemma OrDataCenter(high: nat, dataCenter: nat)
    requires dataCenter <= MAX_DATA_CENTER
    ensures Or(high * 4194304, dataCenter * 131072) == (high * 32 + dataCenter) * 131072
  {
    Powers();
    OrStep(high, dataCenter * 131072, 22, 4194304);
  }

  lemma OrWorker(high: nat, worker: nat)
    requires worker <= MAX_WORKER
    ensures Or(high * 131072, worker * 4096) == (high * 32 + worker) * 4096
  {
    Powers();
    OrStep(high, worker * 4096, 17, 131072);
  }

  lemma OrSequence(high: nat, sequence: nat)
    requires sequence < SEQUENCES
    ensures Or(high * 4096, sequence) == high * 4096 + sequence
  {
    Powers();
    OrStep(high, sequence, 12, 4096);
  }

  lemma ShiftedFields(dataCenter: nat, worker: nat)
    requires InRange(dataCenter, worker, 0)
    ensures Shl(dataCenter, DATA_CENTER_SHIFT) == dataCenter * 131072 && Shl(worker, WORKER_SHIFT) == worker * 4096
  {
    Powers();
  }

  /** The shape of every id: a multiple of 2^22 and the lower fields. */
  lemma PackShape(time: int, dataCenter: nat, worker: nat, sequence: nat) returns (q: int)
    requires InRange(dataCenter, worker, sequence)
    ensures Pack(time, dataCenter, worker, sequence) == q * 4194304 + Low(dataCenter, worker, sequence)
    ensures 0 <= time < TIMES ==> q == time
  {
    q := ShiftedTime(time);
    ShiftedFields(dataCenter, worker);
    OrOfFieldsIsSum(q, dataCenter, worker, sequence);
    ShapeOfLong(q, Low(dataCenter, worker, sequence));
    if q >= 2199023255552 {
      q := q - 4398046511104;
    }
  }

  lemma ShapeOfLong(q: nat, low: nat)
    requires q < 4398046511104 && low < 4194304
    ensures ToLong(q * 4194304 + low)
            == (if q < 2199023255552 then q else q - 4398046511104) * 4194304 + low
  {
  }

  /** Whatever the clock said, the lower 22 bits of an id are its data center, worker and sequence. */
  lemma LowBitsAlwaysHold(time: int, dataCenter: nat, worker: nat, sequence: nat)
    requires InRange(dataCenter, worker, sequence)
    ensures Pack(time, dataCenter, worker, sequence) % 4194304 == Low(dataCenter, worker, sequence)
  {
    var q := PackShape(time, dataCenter, worker, sequence);
    LowRemainder(q, Low(dataCenter, worker, sequence));
  }

  lemma LowRemainder(q: int, low: nat)
    requires low < 4194304
    ensures (q * 4194304 + low) % 4194304 == low
  {
  }

  /** With a time in range an id is the sum of its fields, not negative and below 2^63. */
  lemma PackIsSum(time: int, dataCenter: nat, worker: nat, sequence: nat)
    requires 0 <= time < TIMES && InRange(dataCenter, worker, sequence)
    ensures Pack(time, dataCenter, worker, sequence) == time * 4194304 + Low(dataCenter, worker, sequence)
    ensures Pack(time, dataCenter, worker, sequence) == time * 4194304 + dataCenter * 131072 + worker * 4096 + sequence
    ensures 0 <= Pack(time, dataCenter, worker, sequence) < HALF
  {
    var q := PackShape(time, dataCenter, worker, sequence);
  }

  lemma ShiftWraps(time: int)
    ensures Shl(ToWord(time), TIME_SHIFT) == (time * 4194304) % WORD
  {
    Powers();
    var k := time / WORD;
    assert time == k * WORD + ToWord(time);
    assert time * 4194304 == ToWord(time) * 4194304 + (k * 4194304) * WORD;
    AddMultiple(ToWord(time) * 4194304, k * 4194304);
  }

  lemma AddMultiple(x: int, k: int)
    ensures (x + k * WORD) % WORD == x % WORD
  {
  }

  lemma WrapsAround(x: int, low: nat)
    requires x % 4194304 == 0 && low < 4194304
    ensures (x + low) % WORD == x % WORD + low
  {
  }

  /** Whatever the time, an id is a long, and the sum of its fields up to overflow. */
  lemma PackWraps(time: int, dataCenter: nat, worker: nat, sequence: nat)
    requires InRange(dataCenter, worker, sequence)
    ensures var id := Pack(time, dataCenter, worker, sequence);
            && -HALF <= id < HALF
            && ToWord(id) == ToWord(time * 4194304 + dataCenter * 131072 + worker * 4096 + sequence)
  {
    PackedWordIs(time, dataCenter, worker, sequence);
    LongOfSum(time, Low(dataCenter, worker, sequence), PackedWord(time, dataCenter, worker, sequence));
  }

  lemma LongOfSum(time: int, low: nat, w: nat)
    requires low < 4194304 && w == (time * 4194304) % WORD + low
    ensures -HALF <= ToLong(w) < HALF && ToWord(ToLong(w)) == ToWord(time * 4194304 + low)
  {
    WrapsAround(time * 4194304, low);
    LongOfWord(w);
  }

  lemma PackedWordIs(time: int, dataCenter: nat, worker: nat, sequence: nat)
    requires InRange(dataCenter, worker, sequence)
    ensures PackedWord(time, dataCenter, worker, sequence)
            == (time * 4194304) % WORD + Low(dataCenter, worker, sequence)
  {
    var q := ShiftedTime(time);
    ShiftedFields(dataCenter, worker);
    OrOfFieldsIsSum(q, dataCenter, worker, sequence);
    ShiftWraps(time);
  }

  /** Masking a long shifted right with `k` ones. */
  lemma Field(id: int, shift: nat, k: nat)
    requires k <= 64
    ensures And(ToWord(Shr(id, shift)), Pow2(k) - 1) == ToWord(id / Pow2(shift)) % Pow2(k)
  {
    AndMask(ToWord(Shr(id, shift)), k);
  }

  /** The worker and the data center are recovered from every id, the time from every id in range. */
  lemma UnpackInvertsPack(time: int, dataCenter: nat, worker: nat, sequence: nat, epoch: int)
    requires InRange(dataCenter, worker, sequence)
    ensures var id := Pack(time, dataCenter, worker, sequence);
            && GetWorkerId(id) == worker
            && GetDataCenterId(id) == dataCenter
            && (0 <= time < TIMES ==> GetGenerateDateTime(id, epoch) == time + epoch)
  {
    var q := PackShape(time, dataCenter, worker, sequence);
    WorkerRead(q, dataCenter, worker, sequence);
    DataCenterRead(q, dataCenter, worker, sequence);
    if 0 <= time < TIMES {
      TimeRead(q, dataCenter, worker, sequence, epoch);
    }
  }

  lemma WorkerRead(q: int, dataCenter: nat, worker: nat, sequence: nat)
    requires InRange(dataCenter, worker, sequence)
    ensures GetWorkerId(q * 4194304 + Low(dataCenter, worker, sequence)) == worker
  {
    Powers();
    Field(q * 4194304 + Low(dataCenter, worker, sequence), WORKER_SHIFT, 5);
    WorkerOf(q, dataCenter, worker, sequence);
  }

  lemma DataCenterRead(q: int, dataCenter: nat, worker: nat, sequence: nat)
    requires InRange(dataCenter, worker, sequence)
    ensures GetDataCenterId(q * 4194304 + Low(dataCenter, worker, sequence)) == dataCenter
  {
    Powers();
    Field(q * 4194304 + Low(dataCenter, worker, sequence), DATA_CENTER_SHIFT, 5);
    DataCenterOf(q, dataCenter, worker, sequence);
  }

  lemma TimeRead(q: int, dataCenter: nat, worker: nat, sequence: nat, epoch: int)
    requires InRange(dataCenter, worker, sequence) && 0 <= q < TIMES
    ensures GetGenerateDateTime(q * 4194304 + Low(dataCenter, worker, sequence), epoch) == q + epoch
  {
    Powers();
    Field(q * 4194304 + Low(dataCenter, worker, sequence), TIME_SHIFT, 41);
    TimeOf(q, dataCenter, worker, sequence);
  }

  lemma WordKeepsRemainder(x: int)
    ensures ToWord(x) % 32 == x % 32
  {
  }

  lemma Remainder(high: int, low: nat)
    requires low < 32
    ensures (high * 32 + low) % 32 == low
  {
  }

  lemma TimeInWord(q: int)
    requires 0 <= q < TIMES
    ensures ToWord(q) % TIMES == q
  {
  }

  lemma WorkerOf(q: int, dataCenter: nat, worker: nat, sequence: nat)
    requires InRange(dataCenter, worker, sequence)
    ensures ToWord((q * 4194304 + Low(dataCenter, worker, sequence)) / 4096) % 32 == worker
  {
    var x := (q * 32 + dataCenter) * 32 + worker;
    Quotient(q * 4194304 + Low(dataCenter, worker, sequence), x, 4096, sequence);
    WordKeepsRemainder(x);
    Remainder(q * 32 + dataCenter, worker);
  }

  lemma DataCenterOf(q: int, dataCenter: nat, worker: nat, sequence: nat)
    requires InRange(dataCenter, worker, sequence)
    ensures ToWord((q * 4194304 + Low(dataCenter, worker, sequence)) / 131072) % 32 == dataCenter
  {
    var x := q * 32 + dataCenter;
    Quotient(q * 4194304 + Low(dataCenter, worker, sequence), x, 131072, worker * 4096 + sequence);
    WordKeepsRemainder(x);
    Remainder(q, dataCenter);
  }

  lemma TimeOf(q: int, dataCenter: nat, worker: nat, sequence: nat)
    requires InRange(dataCenter, worker, sequence) && 0 <= q < TIMES
    ensures ToWord((q * 4194304 + Low(dataCenter, worker, sequence)) / 4194304) % TIMES == q
  {
    Quotient(q * 4194304 + Low(dataCenter, worker, sequence), q, 4194304, Low(dataCenter, worker, sequence));
    TimeInWord(q);
  }

  lemma Quotient(x: int, q: int, y: nat, r: nat)
    requires y == 4096 || y == 131072 || y == 4194304
    requires r < y && x == q * y + r
    ensures x / y == q
  {
  }

  /** Ids are ordered as their fields are, time first. */
  lemma PackOrder(t1: int, d1: nat, w1: nat, s1: nat, t2: int, d2: nat, w2: nat, s2: nat)
    requires 0 <= t1 < TIMES && InRange(d1, w1, s1)
    requires 0 <= t2 < TIMES && InRange(d2, w2, s2)
    ensures Pack(t1, d1, w1, s1) < Pack(t2, d2, w2, s2)
            <==> t1 < t2 || (t1 == t2 && (d1 < d2 || (d1 == d2 && (w1 < w2 || (w1 == w2 && s1 < s2)))))
  {
    PackIsSum(t1, d1, w1, s1);
    PackIsSum(t2, d2, w2, s2);
  }
}
