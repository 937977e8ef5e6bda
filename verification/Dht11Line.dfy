// A line that carries a frame, told from its levels alone, and what the firmware
// makes of it: whatever the phases of the pulses last, short of a timeout, the
// five bytes come out as they went in.

module Dht11Line {
  import opened Osal
  import opened Dht11

  // `n` reads from number `t` on find the same level.
  ghost predicate Phase(pin: Pin, t: nat, n: nat, level: bool) {
    forall j | t <= j < t + n :: High(pin, j) == level
  }

  // No phase that the firmware waits out lasts for more reads than this.
  const LONGEST_PHASE := 254

  // A pulse: a low phase, ended by a high read; a read that is high for a 1; and
  // what is left of the high phase, ended by a low read.
  datatype Pulse = Pulse(low: nat, bit: bool, high: nat)

  function Reads(p: Pulse): nat {
    p.low + p.high + 3
  }

  ghost predicate Shape(pin: Pin, t: nat, p: Pulse) {
    && p.low <= LONGEST_PHASE && p.high <= LONGEST_PHASE
    && Phase(pin, t, p.low, false) && High(pin, t + p.low)
    && High(pin, t + p.low + 1) == p.bit
    && Phase(pin, t + p.low + 2, p.high, true) && !High(pin, t + p.low + 2 + p.high)
  }

  ghost predicate Carries(pin: Pin, t: nat, pulses: seq<Pulse>)
    decreases |pulses|
  {
    pulses == [] || (Shape(pin, t, pulses[0]) && Carries(pin, t + Reads(pulses[0]), pulses[1..]))
  }

  // The sensor answers the first read with a low line, then sends one low and one
  // high phase ahead of its bits.
  ghost predicate Answers(pin: Pin, low: nat, high: nat) {
    && !High(pin, 0)
    && low <= LONGEST_PHASE && high <= LONGEST_PHASE
    && Phase(pin, 1, low, false) && High(pin, 1 + low)
    && Phase(pin, 2 + low, high, true) && !High(pin, 2 + low + high)
  }

  // The bits of a byte, most significant first.
  function BitsOf(x: nat, n: nat): (s: seq<bool>)
    ensures |s| == n
    decreases n, x
  {
    if n == 0 then [] else BitsOf(x / 2, n - 1) + [x % 2 == 1]
  }

  // The pulses spell these bytes.
  predicate Spell(pulses: seq<Pulse>, bytes: seq<uint8>)
    decreases |bytes|
  {
    if bytes == [] then pulses == []
    else
      && 8 <= |pulses|
      && (forall i | 0 <= i < 8 :: pulses[i].bit == BitsOf(bytes[0], 8)[i])
      && Spell(pulses[8..], bytes[1..])
  }

  // ----- one wait, one bit

  lemma {:induction false} WaitsOut(pin: Pin, level: bool, t: nat, n: nat, flag: uint8)
    requires flag != 1 && n < TestsLeft(flag)
    requires Phase(pin, t, n, level) && High(pin, t + n) != level
    ensures Wait(pin, level, t, flag).t == t + n + 1 && Wait(pin, level, t, flag).flag != 1
    decreases n
  {
    if n != 0 {
      WaitsOut(pin, level, t + 1, n - 1, Inc(flag));
    }
  }

  lemma PulseReads(pin: Pin, t: nat, p: Pulse)
    requires Shape(pin, t, p)
    ensures var r := ReadBit(pin, t);
      r.bit == p.bit && r.flag != 1 && r.t == t + Reads(p)
  {
    WaitsOut(pin, false, t, p.low, 2);
    WaitsOut(pin, true, t + p.low + 2, p.high, 2);
  }

  // ----- bytes

  function Length(pulses: seq<Pulse>): nat {
    if pulses == [] then 0 else Reads(pulses[0]) + Length(pulses[1..])
  }

  function BitsIn(pulses: seq<Pulse>, n: nat): (s: seq<bool>)
    requires n <= |pulses|
    ensures |s| == n && forall i | 0 <= i < n :: s[i] == pulses[i].bit
    decreases n, pulses
  {
    if n == 0 then [] else [pulses[0].bit] + BitsIn(pulses[1..], n - 1)
  }

  lemma {:induction false} PulsesRead(pin: Pin, t: nat, pulses: seq<Pulse>, n: nat)
    requires n <= |pulses| && Carries(pin, t, pulses)
    ensures BitsRead(pin, t, n) == BitsIn(pulses, n)
    decreases n
  {
    if n != 0 {
      var next := ReadBit(pin, t).t;
      PulseReads(pin, t, pulses[0]);
      assert next == t + Reads(pulses[0]);
      PulsesRead(pin, next, pulses[1..], n - 1);
    }
  }

  lemma {:induction false} PulsesLeft(pin: Pin, t: nat, pulses: seq<Pulse>, n: nat, data: uint8, left: seq<Pulse>)
    requires n <= |pulses| && left == pulses[n..] && Carries(pin, t, pulses)
    ensures Carries(pin, ReadBits(pin, t, n, data).t, left)
    decreases n
  {
    if n == 0 {
      assert left == pulses;
    } else {
      var r := ReadBit(pin, t);
      PulseReads(pin, t, pulses[0]);
      BitsStep(pin, t, n, data);
      assert r.t == t + Reads(pulses[0]);
      RestDrops(pulses, n);
      PulsesLeft(pin, r.t, pulses[1..], n - 1, Shifted(data, r.bit), left);
    }
  }

  lemma RestDrops(pulses: seq<Pulse>, n: nat)
    requires 0 < n <= |pulses|
    ensures pulses[1..][n - 1..] == pulses[n..]
  {
  }

  lemma {:induction false} BinaryOfBits(x: nat, n: nat)
    ensures Binary(BitsOf(x, n)) == x % Pow2(n)
    decreases n
  {
    if n != 0 {
      BinaryOfBits(x / 2, n - 1);
      assert (BitsOf(x / 2, n - 1) + [x % 2 == 1])[..n - 1] == BitsOf(x / 2, n - 1);
      Halves(x, Pow2(n - 1));
    }
  }

  lemma Halves(x: nat, m: nat)
    requires 0 < m
    ensures 2 * (x / 2 % m) + x % 2 == x % (2 * m) && x / 2 / m == x / (2 * m)
  {
    var q, r := x / 2 / m, x / 2 % m;
    assert x / 2 == m * q + r;
    Twice(m, q);
    Quotient(x, 2 * m, q, 2 * r + x % 2);
  }

  lemma Twice(m: nat, q: nat)
    ensures 2 * m * q == 2 * (m * q)
  {
  }

  lemma Quotient(x: nat, m: nat, q: nat, r: nat)
    requires 0 < m && x == m * q + r && r < m
    ensures x / m == q && x % m == r
  {
    var q', r' := x / m, x % m;
    assert x == m * q' + r';
    if q < q' {
      Apart(m, q, q', r, r');
    } else if q' < q {
      Apart(m, q', q, r', r);
    }
  }

  lemma Apart(m: nat, q: nat, q': nat, r: nat, r': nat)
    requires q < q' && r < m
    ensures m * q + r < m * q' + r'
  {
    TimesGrows(m, q, q);
    TimesGrows(m, q + 1, q');
  }

  lemma TimesGrows(m: nat, x: nat, y: nat)
    requires x <= y
    ensures m * x <= m * y && m * (x + 1) == m * x + m
  {
  }

  lemma ByteValue(x: uint8, bits: seq<bool>, n: nat)
    requires n == 8 && bits == BitsOf(x, n)
    ensures Binary(bits) == x
  {
    BinaryOfBits(x, n);
    EightBits();
    SmallMod(x, Pow2(n));
  }

  lemma SmallMod(x: nat, m: nat)
    requires x < m
    ensures x % m == x
  {
  }

  lemma ByteReads(pin: Pin, t: nat, pulses: seq<Pulse>, data: uint8, x: uint8, bits: seq<bool>) returns (next: nat)
    requires bits == BitsOf(x, 8) && |bits| <= |pulses| && Carries(pin, t, pulses)
    requires forall i | 0 <= i < |bits| :: pulses[i].bit == bits[i]
    ensures ReadByte(pin, t, data).data == x && ReadByte(pin, t, data).t == next
    ensures Carries(pin, next, pulses[8..])
  {
    next := ReadByte(pin, t, data).t;
    PulsesRead(pin, t, pulses, |bits|);
    PulsesLeft(pin, t, pulses, 8, data, pulses[8..]);
    assert BitsIn(pulses, |bits|) == bits;
    ByteDecodes(pin, t, data);
    ByteValue(x, bits, 8);
  }

  lemma BytesStep(pin: Pin, t: nat, data: uint8, n: nat)
    requires 0 < n
    ensures var r := ReadByte(pin, t, data);
      Bytes(pin, t, data, n) == [r.data] + Bytes(pin, r.t, r.data, n - 1)
  {
  }

  lemma SpellStep(pulses: seq<Pulse>, bytes: seq<uint8>) returns (bits: seq<bool>)
    requires Spell(pulses, bytes) && bytes != []
    ensures bits == BitsOf(bytes[0], 8) && |bits| <= |pulses| && forall i | 0 <= i < |bits| :: pulses[i].bit == bits[i]
    ensures 8 <= |pulses| && Spell(pulses[8..], bytes[1..])
  {
    bits := BitsOf(bytes[0], 8);
  }

  lemma {:induction false} BytesRead(pin: Pin, t: nat, pulses: seq<Pulse>, data: uint8, bytes: seq<uint8>, n: nat)
    requires Carries(pin, t, pulses) && Spell(pulses, bytes) && n == |bytes|
    ensures Bytes(pin, t, data, n) == bytes
    decreases n
  {
    if n != 0 {
      var x, rest := bytes[0], bytes[1..];
      var bits := SpellStep(pulses, bytes);
      var next := ByteReads(pin, t, pulses, data, x, bits);
      BytesStep(pin, t, data, n);
      BytesRead(pin, next, pulses[8..], x, rest, n - 1);
      HeadAndTail(bytes, x, rest);
    }
  }

  lemma HeadAndTail(s: seq<uint8>, x: uint8, rest: seq<uint8>)
    requires s != [] && x == s[0] && rest == s[1..]
    ensures [x] + rest == s
  {
  }

  // ----- a reading

  lemma LineStarts(pin: Pin, low: nat, high: nat)
    requires Answers(pin, low, high)
    ensures StartOfData(pin) == 3 + low + high
  {
    WaitsOut(pin, false, 1, low, 2);
    WaitsOut(pin, true, 2 + low, high, 2);
  }

  lemma JudgedIs(before: Gathered, s: seq<uint8>)
    requires |s| == 5
    ensures Judged(before, Framed(s)) ==
      Gathered(if (s[0] as int + s[1] as int + s[2] as int + s[3] as int) % 0x100 == s[4]
               then Frame(s[0], s[1], s[2], s[3], s[4]) else before.frame,
               s[4])
  {
  }

  // Every line that answers and then spells five bytes: these are what is
  // gathered, in the order humidity, temperature, checksum, and they are
  // published exactly when the fifth is the sum of the others modulo 256.
  lemma ReadingDecodes(before: Gathered, pin: Pin, low: nat, high: nat, pulses: seq<Pulse>, s: seq<uint8>)
    requires Answers(pin, low, high) && |s| == 5
    requires Carries(pin, 3 + low + high, pulses) && Spell(pulses, s)
    ensures Reading(before, pin) ==
      Gathered(if (s[0] as int + s[1] as int + s[2] as int + s[3] as int) % 0x100 == s[4]
               then Frame(s[0], s[1], s[2], s[3], s[4]) else before.frame,
               s[4])
  {
    LineStarts(pin, low, high);
    BytesRead(pin, StartOfData(pin), pulses, before.data, s, 5);
    JudgedIs(before, s);
  }

  // No answer, no reading.
  lemma NoAnswer(before: Gathered, pin: Pin)
    requires High(pin, 0)
    ensures Reading(before, pin) == before
  {
  }

  // The bit that comes first is worth most.
  lemma {:induction false} BitAt(x: nat, n: nat, i: nat)
    requires i < n
    ensures BitsOf(x, n)[i] <==> x / Pow2(n - 1 - i) % 2 == 1
    decreases n
  {
    if i < n - 1 {
      BitAt(x / 2, n - 1, i);
      Halves(x, Pow2(n - 2 - i));
    }
  }
}
