// A sensor that is lost: from some read on, the line stays where it is. Whether
// what the firmware gathers from such a line passes its checksum depends on the
// bytes that were whole by then, and on the one that was not.

module Dht11Lost {
  import opened Osal
  import opened Dht11

  ghost predicate Stuck(pin: Pin, p: nat, level: bool) {
    forall j: nat | p <= j :: High(pin, j) == level
  }

  // How many of `n` bytes are over by read `p`.
  function Whole(pin: Pin, t: nat, data: uint8, n: nat, p: nat): (m: nat)
    ensures m <= n
    decreases n, t
  {
    if n == 0 then 0
    else
      var r := ReadByte(pin, t, data);
      if p < r.t then 0 else 1 + Whole(pin, r.t, r.data, n - 1, p)
  }

  // When the bit that starts at `t` is sampled.
  function SampleAt(pin: Pin, t: nat): nat {
    Wait(pin, false, t, 2).t
  }

  // How many of `n` bits are sampled before read `p`.
  function Sampled(pin: Pin, t: nat, n: nat, p: nat): (k: nat)
    ensures k <= n
    decreases n, t
  {
    if n == 0 || p <= SampleAt(pin, t) then 0 else 1 + Sampled(pin, ReadBit(pin, t).t, n - 1, p)
  }

  lemma BitAdvances(pin: Pin, t: nat)
    ensures t < SampleAt(pin, t) < ReadBit(pin, t).t
    ensures ReadBit(pin, t).flag == 1 <==> High(pin, ReadBit(pin, t).t - 1)
  {
    WaitTests(pin, false, t, 2);
    WaitTests(pin, true, SampleAt(pin, t) + 1, 2);
  }

  lemma {:induction false} BitsAdvance(pin: Pin, t: nat, n: nat, data: uint8)
    ensures t <= ReadBits(pin, t, n, data).t
    ensures 0 < n ==> t < ReadBits(pin, t, n, data).t
    decreases n
  {
    if n != 0 {
      BitAdvances(pin, t);
      var r := ReadBit(pin, t);
      if r.flag != 1 {
        BitsAdvance(pin, r.t, n - 1, Shifted(data, r.bit));
      }
    }
  }

  // ----- lost high

  // Bits that are still being read when the line goes high end in a timeout.
  lemma {:induction false} HighTimesOut(pin: Pin, p: nat, t: nat, n: nat, data: uint8)
    requires Stuck(pin, p, true) && p < ReadBits(pin, t, n, data).t && (n == 0 ==> t <= p)
    ensures ReadBits(pin, t, n, data).timedOut
    decreases n
  {
    if n != 0 {
      var r := ReadBit(pin, t);
      BitAdvances(pin, t);
      BitsStep(pin, t, n, data);
      if r.flag != 1 {
        HighTimesOut(pin, p, r.t, n - 1, Shifted(data, r.bit));
      }
    }
  }

  // A byte that only starts then brings no bit at all.
  lemma HighByte(pin: Pin, p: nat, t: nat, data: uint8)
    requires Stuck(pin, p, true) && p <= t
    ensures ReadByte(pin, t, data).data == data && t < ReadByte(pin, t, data).t
    ensures BitsRead(pin, t, 8) == []
  {
    BitAdvances(pin, t);
    BitsStep(pin, t, 8, data);
  }

  lemma {:induction false} HighBytes(pin: Pin, p: nat, t: nat, data: uint8, n: nat)
    requires Stuck(pin, p, true) && p <= t
    ensures Bytes(pin, t, data, n) == seq(n, _ => data)
    decreases n
  {
    if n != 0 {
      HighByte(pin, p, t, data);
      HighBytes(pin, p, ReadByte(pin, t, data).t, data, n - 1);
    }
  }

  // The byte read from `t` on is broken off: what came of it, behind what the
  // shift variable held.
  predicate BrokenOff(pin: Pin, t: nat, held: uint8, x: uint8) {
    var bits := BitsRead(pin, t, 8);
    |bits| < 8 && x == (held * Pow2(|bits|) + Binary(bits)) % 0x100
  }

  function Previous(data: uint8, s: seq<uint8>, m: nat): uint8
    requires m < |s|
  {
    if m == 0 then data else s[m - 1]
  }

  lemma {:induction false} HighLost(pin: Pin, p: nat, t: nat, data: uint8, n: nat)
    requires Stuck(pin, p, true)
    ensures var s, m := Bytes(pin, t, data, n), Whole(pin, t, data, n, p);
      m < n ==>
        && BrokenOff(pin, Starts(pin, t, data, n)[m], Previous(data, s, m), s[m])
        && forall i | m <= i < n :: s[i] == s[m]
    decreases n
  {
    if n != 0 {
      var r := ReadByte(pin, t, data);
      if r.t <= p {
        HighLost(pin, p, r.t, r.data, n - 1);
      } else {
        BitsAdvance(pin, t, 8, data);
        HighTimesOut(pin, p, t, 8, data);
        BitsShiftIn(pin, t, 8, data);
        HighBytes(pin, p, r.t, r.data, n - 1);
      }
    }
  }

  // ----- lost low

  // Bits that are still being read when the line goes low are all there, and
  // those sampled from then on are zeros.
  lemma {:induction false} LowCompletes(pin: Pin, p: nat, t: nat, n: nat, data: uint8)
    requires Stuck(pin, p, false) && p < ReadBits(pin, t, n, data).t
    ensures |BitsRead(pin, t, n)| == n
    ensures forall i | Sampled(pin, t, n, p) <= i < n :: !BitsRead(pin, t, n)[i]
    decreases n
  {
    if n != 0 {
      var r := ReadBit(pin, t);
      BitAdvances(pin, t);
      BitsStep(pin, t, n, data);
      assert r.flag != 1;
      LowCompletes(pin, p, r.t, n - 1, Shifted(data, r.bit));
      BitAdvances(pin, r.t);
    }
  }

  lemma {:induction false} ZeroBits(bits: seq<bool>)
    requires forall i | 0 <= i < |bits| :: !bits[i]
    ensures Binary(bits) == 0
  {
    if bits != [] {
      ZeroBits(bits[..|bits| - 1]);
    }
  }

  lemma LowByte(pin: Pin, p: nat, t: nat, data: uint8)
    requires Stuck(pin, p, false) && p <= t
    ensures ReadByte(pin, t, data).data == 0 && t < ReadByte(pin, t, data).t
  {
    BitsAdvance(pin, t, 8, data);
    LowCompletes(pin, p, t, 8, data);
    BitAdvances(pin, t);
    ByteDecodes(pin, t, data);
    ZeroBits(BitsRead(pin, t, 8));
  }

  lemma {:induction false} LowBytes(pin: Pin, p: nat, t: nat, data: uint8, n: nat)
    requires Stuck(pin, p, false) && p <= t
    ensures Bytes(pin, t, data, n) == seq(n, _ => 0)
    decreases n
  {
    if n != 0 {
      LowByte(pin, p, t, data);
      LowBytes(pin, p, ReadByte(pin, t, data).t, 0, n - 1);
    }
  }

  // The byte read from `t` on is the bits that were sampled by `p`, and zeros.
  predicate FilledUp(pin: Pin, t: nat, p: nat, x: uint8) {
    var bits := BitsRead(pin, t, 8);
    |bits| == 8 && x == Binary(bits) && forall i | Sampled(pin, t, 8, p) <= i < 8 :: !bits[i]
  }

  lemma {:induction false} LowLost(pin: Pin, p: nat, t: nat, data: uint8, n: nat)
    requires Stuck(pin, p, false)
    ensures var s, m := Bytes(pin, t, data, n), Whole(pin, t, data, n, p);
      m < n ==>
        && FilledUp(pin, Starts(pin, t, data, n)[m], p, s[m])
        && forall i | m < i < n :: s[i] == 0
    decreases n
  {
    if n != 0 {
      var r := ReadByte(pin, t, data);
      if r.t <= p {
        LowLost(pin, p, r.t, r.data, n - 1);
      } else {
        LowCompletes(pin, p, t, 8, data);
        ByteDecodes(pin, t, data);
        LowBytes(pin, p, r.t, r.data, n - 1);
      }
    }
  }

  // ----- what is published

  // The bytes of a reading, where they start, and how many are over by read `p`.
  function Received(before: Gathered, pin: Pin): (s: seq<uint8>)
    ensures |s| == 5
  {
    Bytes(pin, StartOfData(pin), before.data, 5)
  }

  function StartOf(before: Gathered, pin: Pin, m: nat): nat
    requires m < 5
  {
    Starts(pin, StartOfData(pin), before.data, 5)[m]
  }

  function WholeBytes(before: Gathered, pin: Pin, p: nat): (m: nat)
    ensures m <= 5
  {
    Whole(pin, StartOfData(pin), before.data, 5, p)
  }

  // Whether five bytes are published.
  predicate Published(before: Gathered, pin: Pin, s: seq<uint8>, yes: bool)
    requires |s| == 5
  {
    Reading(before, pin) == if yes then Framed(s) else before.(data := s[4])
  }

  function Sum(s: seq<uint8>): nat {
    if s == [] then 0 else Sum(s[..|s| - 1]) + s[|s| - 1]
  }

  lemma Sums(s: seq<uint8>)
    requires |s| == 5
    ensures Sum(s[..0]) == 0 && Sum(s[..1]) == s[0]
    ensures forall i | 0 < i < 5 :: Sum(s[..i + 1]) == Sum(s[..i]) + s[i]
  {
    forall i | 0 <= i < 5
      ensures Sum(s[..i + 1]) == Sum(s[..i]) + s[i]
    {
      assert s[..i + 1][..i] == s[..i];
    }
    assert s[..0] == [];
  }

  lemma AgreesSums(s: seq<uint8>)
    requires |s| == 5
    ensures Agrees(Framed(s).frame) <==> Sum(s[..4]) % 0x100 == s[4]
  {
    Sums(s);
    assert Sum(s[..1 + 1]) == Sum(s[..1]) + s[1];
    assert Sum(s[..2 + 1]) == Sum(s[..2]) + s[2];
    assert Sum(s[..3 + 1]) == Sum(s[..3]) + s[3];
  }

  lemma SumIsLast(y: nat, x: uint8)
    ensures (y + x) % 0x100 == x <==> y % 0x100 == 0
  {
  }

  lemma ThreeTimes(d: nat)
    requires d < 0x100
    ensures 3 * d % 0x100 == 0 <==> d == 0
  {
  }

  // A frame of which byte `m` and all behind it are the same.
  predicate HighPasses(s: seq<uint8>, m: nat)
    requires |s| == 5 && m < 5
  {
    match m
    case 0 => s[0] == 0
    case 1 => (Sum(s[..2]) + s[1]) % 0x100 == 0
    case 2 => Sum(s[..3]) % 0x100 == 0
    case 3 => Sum(s[..3]) % 0x100 == 0
    case _ => Sum(s[..4]) % 0x100 == s[4]
  }

  lemma HighSums(s: seq<uint8>, m: nat)
    requires |s| == 5 && m < 5 && forall i | m <= i < 5 :: s[i] == s[m]
    ensures Sum(s[..4]) % 0x100 == s[4] <==> HighPasses(s, m)
  {
    Sums(s);
    assert Sum(s[..1 + 1]) == Sum(s[..1]) + s[1];
    assert Sum(s[..2 + 1]) == Sum(s[..2]) + s[2];
    assert Sum(s[..3 + 1]) == Sum(s[..3]) + s[3];
    SumIsLast(Sum(s[..3]), s[3]);
    ThreeTimes(s[0]);
  }

  // The line goes high for good before the frame is over: what the byte in
  // progress is, and all behind it, and exactly when they are published.
  lemma LostHighExactly(before: Gathered, pin: Pin, p: nat, s: seq<uint8>, m: nat)
    requires !High(pin, 0) && Stuck(pin, p, true)
    requires s == Received(before, pin) && m == WholeBytes(before, pin, p) < 5
    ensures BrokenOff(pin, StartOf(before, pin, m), Previous(before.data, s, m), s[m])
    ensures forall i | m <= i < 5 :: s[i] == s[m]
    ensures Published(before, pin, s, HighPasses(s, m))
  {
    HighLost(pin, p, StartOfData(pin), before.data, 5);
    HighSums(s, m);
    AgreesSums(s);
  }

  // The same when no bit of the next byte has come: what the bytes before say.
  predicate HighBetweenPasses(data: uint8, s: seq<uint8>, m: nat)
    requires |s| == 5 && m < 5
  {
    match m
    case 0 => data == 0
    case 1 => s[0] == 0
    case 2 => (Sum(s[..2]) + s[1]) % 0x100 == 0
    case _ => Sum(s[..3]) % 0x100 == 0
  }

  lemma LostHighBetween(before: Gathered, pin: Pin, p: nat, s: seq<uint8>, m: nat)
    requires !High(pin, 0) && Stuck(pin, p, true)
    requires s == Received(before, pin) && m == WholeBytes(before, pin, p) < 5
    requires BitsRead(pin, StartOf(before, pin, m), 8) == []
    ensures Published(before, pin, s, HighBetweenPasses(before.data, s, m))
  {
    LostHighExactly(before, pin, p, s, m);
    NothingCame(Previous(before.data, s, m), BitsRead(pin, StartOf(before, pin, m), 8));
    BetweenSums(before.data, s, m);
  }

  lemma NothingCame(held: uint8, bits: seq<bool>)
    requires bits == []
    ensures (held * Pow2(|bits|) + Binary(bits)) % 0x100 == held
  {
  }

  lemma BetweenSums(data: uint8, s: seq<uint8>, m: nat)
    requires |s| == 5 && m < 5 && s[m] == Previous(data, s, m) && forall i | m <= i < 5 :: s[i] == s[m]
    ensures HighPasses(s, m) <==> HighBetweenPasses(data, s, m)
  {
    Sums(s);
    assert Sum(s[..1 + 1]) == Sum(s[..1]) + s[1];
    assert Sum(s[..2 + 1]) == Sum(s[..2]) + s[2];
    assert Sum(s[..3 + 1]) == Sum(s[..3]) + s[3];
    SumIsLast(Sum(s[..3]), s[3]);
    ThreeTimes(s[0]);
  }

  // A frame of which the bytes behind byte `m` are zeros.
  predicate LowPasses(s: seq<uint8>, m: nat)
    requires |s| == 5 && m < 5
  {
    if m < 4 then Sum(s[..m + 1]) % 0x100 == 0 else Sum(s[..4]) % 0x100 == s[4]
  }

  lemma LowSums(s: seq<uint8>, m: nat)
    requires |s| == 5 && m < 5 && forall i | m < i < 5 :: s[i] == 0
    ensures Sum(s[..4]) % 0x100 == s[4] <==> LowPasses(s, m)
  {
    Sums(s);
    assert Sum(s[..1 + 1]) == Sum(s[..1]) + s[1];
    assert Sum(s[..2 + 1]) == Sum(s[..2]) + s[2];
    assert Sum(s[..3 + 1]) == Sum(s[..3]) + s[3];
  }

  // The line goes low for good before the frame is over.
  lemma LostLowExactly(before: Gathered, pin: Pin, p: nat, s: seq<uint8>, m: nat)
    requires !High(pin, 0) && Stuck(pin, p, false)
    requires s == Received(before, pin) && m == WholeBytes(before, pin, p) < 5
    ensures FilledUp(pin, StartOf(before, pin, m), p, s[m])
    ensures forall i | m < i < 5 :: s[i] == 0
    ensures Published(before, pin, s, LowPasses(s, m))
  {
    LowLost(pin, p, StartOfData(pin), before.data, 5);
    LowSums(s, m);
    AgreesSums(s);
  }

  // Lost before a bit of the next byte was sampled: the whole bytes decide.
  lemma LostLowBetween(before: Gathered, pin: Pin, p: nat, s: seq<uint8>, m: nat)
    requires !High(pin, 0) && Stuck(pin, p, false)
    requires s == Received(before, pin) && m == WholeBytes(before, pin, p) < 5
    requires Sampled(pin, StartOf(before, pin, m), 8, p) == 0
    ensures Published(before, pin, s, Sum(s[..m]) % 0x100 == 0)
  {
    LostLowExactly(before, pin, p, s, m);
    ZeroBits(BitsRead(pin, StartOf(before, pin, m), 8));
    Sums(s);
    assert Sum(s[..m + 1]) == Sum(s[..m]) + s[m];
  }

  // ----- lost from the beginning

  // A line stuck low: five zero bytes, whose checksum agrees.
  lemma StuckLow(before: Gathered, pin: Pin)
    requires Stuck(pin, 0, false)
    ensures Reading(before, pin) == Gathered(Frame(0, 0, 0, 0, 0), 0)
  {
    LowBytes(pin, 0, StartOfData(pin), before.data, 5);
  }

  // A line that stays high after the answer: the old byte five times, published
  // exactly when it is zero.
  lemma StuckHigh(before: Gathered, pin: Pin)
    requires !High(pin, 0) && Stuck(pin, 1, true)
    ensures Reading(before, pin).data == before.data
    ensures Reading(before, pin).frame == if before.data == 0 then Frame(0, 0, 0, 0, 0) else before.frame
  {
    WaitTests(pin, false, 1, 2);
    WaitTests(pin, true, Wait(pin, false, 1, 2).t, 2);
    var t := StartOfData(pin);
    HighByte(pin, 1, t, before.data);
    HighBytes(pin, 1, t, before.data, 5);
    LostHighBetween(before, pin, 1, Received(before, pin), 0);
  }
}
