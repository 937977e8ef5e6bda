// AT_DHT11.c: bits of a one-wire sensor, decoded by busy-wait loops whose
// timeouts are the wrap-around of an 8-bit counter, gathered into bytes, and
// published only when their checksum agrees.

module Dht11 {
  import opened Osal

  // The line, as the numbers of the reads of DATA_PIN that find it high.
  type Pin = iset<nat>

  predicate High(pin: Pin, t: nat) {
    t in pin
  }

  // ----- a wait loop

  // The counter after the loop, and the number of the next read.
  datatype Waited = Waited(flag: uint8, t: nat)

  // ucharFLAG++
  function Inc(flag: uint8): uint8 {
    if flag == 0xFF then 0 else flag + 1
  }

  // while (DATA_PIN == level && ucharFLAG++), entered with `flag`
  function Wait(pin: Pin, level: bool, t: nat, flag: uint8): Waited
    decreases if flag == 0 then 0 else 0x100 - flag, t
  {
    if High(pin, t) != level then Waited(flag, t + 1)
    else if flag == 0 then Waited(1, t + 1)
    else Wait(pin, level, t + 1, Inc(flag))
  }

  function TestsLeft(flag: uint8): nat
    requires flag != 1
  {
    if flag == 0 then 1 else 0x101 - flag
  }

  lemma {:induction false} WaitTests(pin: Pin, level: bool, t: nat, flag: uint8)
    requires flag != 1
    ensures var w := Wait(pin, level, t, flag);
      && t < w.t <= t + TestsLeft(flag)
      && (w.flag == 1 <==> forall j | t <= j < t + TestsLeft(flag) :: High(pin, j) == level)
      && (w.flag != 1 ==> High(pin, w.t - 1) != level && forall j | t <= j < w.t - 1 :: High(pin, j) == level)
    decreases TestsLeft(flag)
  {
    if High(pin, t) == level && flag != 0 {
      WaitTests(pin, level, t + 1, Inc(flag));
    }
  }

  // From 2, where every loop starts: at most 255 reads, and the counter is left
  // at 1 exactly when all of them found the level that is waited on.
  lemma WaitTimesOut(pin: Pin, level: bool, t: nat)
    ensures var w := Wait(pin, level, t, 2);
      && t < w.t <= t + 255
      && (w.flag == 1 <==> forall j | t <= j < t + 255 :: High(pin, j) == level)
  {
    WaitTests(pin, level, t, 2);
  }

  // ----- a byte

  // One bit: wait out the low phase, sample, wait out the high phase.
  datatype BitRead = BitRead(bit: bool, flag: uint8, t: nat)

  function ReadBit(pin: Pin, t: nat): BitRead {
    var low := Wait(pin, false, t, 2);
    var high := Wait(pin, true, low.t + 1, 2);
    BitRead(High(pin, low.t), high.flag, high.t)
  }

  function Shifted(data: uint8, bit: bool): uint8 {
    (2 * data + if bit then 1 else 0) % 0x100
  }

  datatype Com = Com(data: uint8, timedOut: bool, t: nat)

  // The loop of COM with `n` bits to go: a high phase that times out ends it.
  function ReadBits(pin: Pin, t: nat, n: nat, data: uint8): Com
    decreases n, t
  {
    if n == 0 then Com(data, false, t)
    else
      var r := ReadBit(pin, t);
      if r.flag == 1 then Com(data, true, r.t)
      else ReadBits(pin, r.t, n - 1, Shifted(data, r.bit))
  }

  lemma BitsStep(pin: Pin, t: nat, n: nat, data: uint8)
    requires 0 < n
    ensures var r := ReadBit(pin, t);
      ReadBits(pin, t, n, data) ==
        if r.flag == 1 then Com(data, true, r.t) else ReadBits(pin, r.t, n - 1, Shifted(data, r.bit))
  {
  }

  function ReadByte(pin: Pin, t: nat, data: uint8): Com {
    ReadBits(pin, t, 8, data)
  }

  // The bits that the loop shifts in.
  function BitsRead(pin: Pin, t: nat, n: nat): (s: seq<bool>)
    ensures |s| <= n
    decreases n, t
  {
    if n == 0 then []
    else
      var r := ReadBit(pin, t);
      if r.flag == 1 then [] else [r.bit] + BitsRead(pin, r.t, n - 1)
  }

  // Most significant bit first.
  function Binary(bits: seq<bool>): nat {
    if bits == [] then 0 else 2 * Binary(bits[..|bits| - 1]) + if bits[|bits| - 1] then 1 else 0
  }

  function Pow2(n: nat): (p: nat)
    ensures 0 < p
  {
    if n == 0 then 1 else 2 * Pow2(n - 1)
  }

  lemma {:induction false} BinaryCons(b: bool, bits: seq<bool>)
    ensures Binary([b] + bits) == (if b then Pow2(|bits|) else 0) + Binary(bits)
    decreases |bits|
  {
    if bits == [] {
      assert ([b] + bits)[..0] == [];
    } else {
      BinaryCons(b, bits[..|bits| - 1]);
      assert ([b] + bits)[..|bits|] == [b] + bits[..|bits| - 1];
    }
  }

  lemma ShiftMod(data: uint8, b: bool, p: nat, rest: nat)
    ensures (Shifted(data, b) * p + rest) % 0x100 == (data * (2 * p) + (if b then p else 0) + rest) % 0x100
  {
    var bit := if b then 1 else 0;
    ScaledMod(2 * data + bit, p, rest);
    Doubled(data, bit, p);
  }

  lemma Doubled(data: nat, bit: nat, p: nat)
    ensures (2 * data + bit) * p == data * (2 * p) + bit * p
  {
  }

  lemma ScaledMod(x: nat, p: nat, rest: nat)
    ensures (x % 0x100 * p + rest) % 0x100 == (x * p + rest) % 0x100
  {
    var q := x / 0x100;
    TakeOut(x, q, p);
    DropMultiple(x % 0x100 * p + rest, q * p);
  }

  lemma TakeOut(x: nat, q: nat, p: nat)
    requires q == x / 0x100
    ensures x * p == x % 0x100 * p + 0x100 * (q * p)
  {
    assert x == x % 0x100 + 0x100 * q;
  }

  lemma DropMultiple(a: nat, q: nat)
    ensures (a + 0x100 * q) % 0x100 == a % 0x100
  {
  }

  // Whatever the byte held before, the bits are shifted in behind it.
  lemma {:induction false} BitsShiftIn(pin: Pin, t: nat, n: nat, data: uint8)
    ensures var bits := BitsRead(pin, t, n);
      ReadBits(pin, t, n, data).data == (data * Pow2(|bits|) + Binary(bits)) % 0x100
    ensures ReadBits(pin, t, n, data).timedOut <==> |BitsRead(pin, t, n)| < n
    decreases n
  {
    if n != 0 {
      var r := ReadBit(pin, t);
      if r.flag != 1 {
        var rest := BitsRead(pin, r.t, n - 1);
        BitsShiftIn(pin, r.t, n - 1, Shifted(data, r.bit));
        BinaryCons(r.bit, rest);
        ShiftMod(data, r.bit, Pow2(|rest|), Binary(rest));
      }
    }
  }

  lemma {:induction false} BinaryBound(bits: seq<bool>)
    ensures Binary(bits) < Pow2(|bits|)
    decreases |bits|
  {
    if bits != [] {
      BinaryBound(bits[..|bits| - 1]);
    }
  }

  // Eight bits without a timeout are the byte, most significant bit first,
  // regardless of what it held.
  lemma ByteDecodes(pin: Pin, t: nat, data: uint8)
    ensures ReadByte(pin, t, data).timedOut <==> |BitsRead(pin, t, 8)| < 8
    ensures !ReadByte(pin, t, data).timedOut ==> ReadByte(pin, t, data).data == Binary(BitsRead(pin, t, 8))
  {
    BitsShiftIn(pin, t, 8, data);
    if !ReadByte(pin, t, data).timedOut {
      EightIn(data, BitsRead(pin, t, 8));
    }
  }

  lemma EightIn(data: uint8, bits: seq<bool>)
    requires |bits| == 8
    ensures (data * Pow2(|bits|) + Binary(bits)) % 0x100 == Binary(bits)
  {
    BinaryBound(bits);
    EightBits();
    DropMultiple(Binary(bits), data);
  }

  lemma EightBits()
    ensures Pow2(8) == 0x100
  {
    assert Pow2(2) == 4 && Pow2(4) == 16 && Pow2(6) == 64;
  }

  // ----- a frame

  datatype Frame = Frame(rhH: uint8, rhL: uint8, tH: uint8, tL: uint8, check: uint8)

  predicate Agrees(f: Frame) {
    (f.tH + f.tL + f.rhH + f.rhL) % 0x100 == f.check
  }

  // Bytes one after the other, each starting from what the one before it left.
  function Bytes(pin: Pin, t: nat, data: uint8, n: nat): (s: seq<uint8>)
    ensures |s| == n
    decreases n, t
  {
    if n == 0 then []
    else
      var r := ReadByte(pin, t, data);
      [r.data] + Bytes(pin, r.t, r.data, n - 1)
  }

  // A frame, and the byte it leaves in the shift variable.
  datatype Gathered = Gathered(frame: Frame, data: uint8)

  function Framed(s: seq<uint8>): Gathered
    requires |s| == 5
  {
    Gathered(Frame(s[0], s[1], s[2], s[3], s[4]), s[4])
  }

  function Gather(pin: Pin, t: nat, data: uint8): Gathered {
    Framed(Bytes(pin, t, data, 5))
  }

  // The sensor answers by pulling the line low, then high, then sends.
  function StartOfData(pin: Pin): nat {
    Wait(pin, true, Wait(pin, false, 1, 2).t, 2).t
  }

  // A reading: the first read of the pin tells whether a sensor answers at all.
  function Reading(before: Gathered, pin: Pin): Gathered {
    if High(pin, 0) then before
    else Judged(before, Gather(pin, StartOfData(pin), before.data))
  }

  function Judged(before: Gathered, g: Gathered): Gathered {
    if Agrees(g.frame) then g else before.(data := g.data)
  }

  class Sensor {
    var published: Frame
    var received: Frame   // the _temp variables
    var data: uint8       // ucharcomdata
    var flag: uint8       // ucharFLAG
    var temp: uint8       // uchartemp

    constructor ()
      ensures published == Frame(0, 0, 0, 0, 0) && data == 0
    {
      published, received := Frame(0, 0, 0, 0, 0), Frame(0, 0, 0, 0, 0);
      data, flag, temp := 0, 0, 0;
    }

    // while (DATA_PIN == level && ucharFLAG++), from read number `t0` on
    method WaitWhile(pin: Pin, level: bool, t0: nat) returns (t: nat)
      modifies this`flag
      ensures Waited(flag, t) == Wait(pin, level, t0, 2)
    {
      flag := 2;
      t := t0;
      while true
        invariant flag != 1 && Wait(pin, level, t, flag) == Wait(pin, level, t0, 2)
        decreases TestsLeft(flag)
      {
        var read := High(pin, t);
        t := t + 1;
        if read != level {
          return;
        }
        var was := flag;
        flag := Inc(flag);
        if was == 0 {
          return;
        }
      }
    }

    // One turn of COM's loop, up to the timeout test.
    method SampleBit(pin: Pin, t0: nat) returns (t: nat)
      modifies this`flag, this`temp
      ensures ReadBit(pin, t0) == BitRead(temp == 1, flag, t) && temp <= 1
    {
      t := WaitWhile(pin, false, t0);
      temp := 0;
      if High(pin, t) {
        temp := 1;
      }
      t := WaitWhile(pin, true, t + 1);
    }

    // COM
    method ReadOne(pin: Pin, t0: nat) returns (t: nat)
      modifies this`data, this`flag, this`temp
      ensures var r := ReadByte(pin, t0, old(data));
        data == r.data && t == r.t && (flag == 1 <==> r.timedOut)
    {
      var i := 0;
      t, flag, temp := t0, 0, 0;
      while i < 8
        invariant i <= 8 && flag != 1 && temp <= 1
        invariant ReadBits(pin, t, 8 - i, data) == ReadBits(pin, t0, 8, old(data))
      {
        BitsStep(pin, t, 8 - i, data);
        t := SampleBit(pin, t);
        if flag == 1 {
          break;
        }
        ShiftIn();
        i := i + 1;
      }
    }

    // ucharcomdata <<= 1, then |= uchartemp into the free low bit
    method ShiftIn()
      requires temp <= 1
      modifies this`data
      ensures data == Shifted(old(data), temp == 1)
    {
      data := (data * 2) % 0x100;
      data := data + temp;
    }

    // One of the five calls of COM, with `n` of them to go.
    method NextByte(pin: Pin, t0: nat, ghost n: nat) returns (t: nat)
      requires 0 < n
      modifies this`data, this`flag, this`temp
      ensures Bytes(pin, t0, old(data), n) == [data] + Bytes(pin, t, data, n - 1)
    {
      t := ReadOne(pin, t0);
    }

    method ReadFrame(pin: Pin, t0: nat)
      modifies this`received, this`data, this`flag, this`temp
      ensures Gathered(received, data) == Gather(pin, t0, old(data))
    {
      var t := NextByte(pin, t0, 5);
      received := received.(rhH := data);
      t := NextByte(pin, t, 4);
      received := received.(rhL := data);
      t := NextByte(pin, t, 3);
      received := received.(tH := data);
      t := NextByte(pin, t, 2);
      received := received.(tL := data);
      t := NextByte(pin, t, 1);
      received := received.(check := data);
    }

    method Publish()
      modifies this`published, this`temp
      ensures Gathered(published, data) == Judged(Gathered(old(published), data), Gathered(received, data))
    {
      temp := (received.tH + received.tL + received.rhH + received.rhL) % 0x100;
      if temp == received.check {
        published := received;
      }
    }

    // DHT11
    method Read(pin: Pin)
      modifies this
      ensures Gathered(published, data) == Reading(old(Gathered(published, data)), pin)
    {
      if !High(pin, 0) {
        var t := WaitWhile(pin, false, 1);
        t := WaitWhile(pin, true, t);
        ReadFrame(pin, t);
        Publish();
      }
    }
  }

  // ----- readings over whole runs

  // One reading after another, whatever the line does in each.
  function ReadAll(before: Gathered, pins: seq<Pin>): Gathered
    decreases |pins|
  {
    if pins == [] then before else ReadAll(Reading(before, pins[0]), pins[1..])
  }

  // What is published agrees with its checksum, and is all of it what some one
  // reading gathered, or all of it what was there before.
  lemma {:induction false} AlwaysAgrees(before: Gathered, pins: seq<Pin>)
    requires Agrees(before.frame)
    ensures Agrees(ReadAll(before, pins).frame)
    ensures ReadAll(before, pins).frame == before.frame
      || exists i | 0 <= i < |pins| :: var past := ReadAll(before, pins[..i]);
           !High(pins[i], 0) && ReadAll(before, pins).frame == Gather(pins[i], StartOfData(pins[i]), past.data).frame
    decreases |pins|
  {
    if pins != [] {
      var next := Reading(before, pins[0]);
      AlwaysAgrees(next, pins[1..]);
      var last := ReadAll(before, pins).frame;
      if i :| 0 <= i < |pins[1..]| && var past := ReadAll(next, pins[1..][..i]);
           !High(pins[1..][i], 0) && last == Gather(pins[1..][i], StartOfData(pins[1..][i]), past.data).frame {
        assert pins[..i + 1][1..] == pins[1..][..i];
        assert pins[i + 1] == pins[1..][i];
      } else if next.frame != before.frame {
        assert pins[..0] == [];
      }
    }
  }

  // ----- a frame without timeouts

  // Where the bytes of a frame start.
  function Starts(pin: Pin, t: nat, data: uint8, n: nat): (s: seq<nat>)
    ensures |s| == n
    decreases n, t
  {
    if n == 0 then []
    else
      var r := ReadByte(pin, t, data);
      [t] + Starts(pin, r.t, r.data, n - 1)
  }

  // Without a timeout each byte is its eight sampled bits, whatever was in the
  // shift variable before.
  lemma {:induction false} CleanBytes(pin: Pin, t: nat, data: uint8, n: nat)
    requires forall i | 0 <= i < n :: |BitsRead(pin, Starts(pin, t, data, n)[i], 8)| == 8
    ensures forall i | 0 <= i < n ::
      Bytes(pin, t, data, n)[i] == Binary(BitsRead(pin, Starts(pin, t, data, n)[i], 8))
    decreases n
  {
    if n != 0 {
      var r, starts := ReadByte(pin, t, data), Starts(pin, t, data, n);
      var rest := Starts(pin, r.t, r.data, n - 1);
      assert forall i | 0 <= i < n - 1 :: rest[i] == starts[i + 1];
      CleanBytes(pin, r.t, r.data, n - 1);
      assert starts[0] == t;
      ByteDecodes(pin, t, data);
      var bytes := Bytes(pin, t, data, n);
      forall i | 0 <= i < n
        ensures bytes[i] == Binary(BitsRead(pin, starts[i], 8))
      {
        if i != 0 {
          assert bytes[i] == Bytes(pin, r.t, r.data, n - 1)[i - 1] && starts[i] == rest[i - 1];
        }
      }
    }
  }
}
