// AT_printf.c itself: loops that walk format and string pointers, fill a small
// buffer from its end and write through a moving output pointer.

module PrintfDriver {
  import opened Sequences
  import opened PrintfModel

  // Where the characters go: through a cursor into memory (`out` not null), or
  // to putchar.
  class Sink {
    const toMemory: bool
    const memory: array<char>
    var at: nat
    var wire: string

    constructor Wire()
      ensures !toMemory && fresh(memory) && Sent() == ""
    {
      toMemory, memory, at, wire := false, new char[0], 0, "";
    }

    constructor Memory(memory: array<char>)
      ensures toMemory && this.memory == memory && at == 0 && Sent() == ""
    {
      this.toMemory, this.memory, at, wire := true, memory, 0, "";
    }

    // What has been printed so far.
    ghost function Sent(): string
      reads this, memory
      requires toMemory ==> at <= memory.Length
    {
      if toMemory then memory[..at] else wire
    }

    // The caller's buffer can take `n` more characters.
    ghost predicate Room(n: nat)
      reads this
    {
      toMemory ==> at + n <= memory.Length
    }

    // printchar
    method PrintChar(c: char)
      requires Room(1)
      modifies this, memory
      ensures Room(0) && Sent() == old(Sent()) + [c]
      ensures toMemory ==> at == old(at) + 1
    {
      if toMemory {
        memory[at] := c;
        at := at + 1;
      } else {
        wire := wire + [c];
      }
    }
  }

  // prints
  method Prints(out: Sink, text: string, width0: int, pad: Pad) returns (pc: nat)
    requires out.Room(|Field(text, width0, pad)|)
    modifies out, out.memory
    ensures out.Room(0) && out.Sent() == old(out.Sent()) + Field(text, width0, pad)
    ensures pc == |Field(text, width0, pad)|
    ensures out.toMemory ==> out.at == old(out.at) + pc
  {
    var padchar, width := ' ', width0;
    pc := 0;
    if width > 0 {
      var len := 0;
      while len < |text|
        invariant len <= |text|
      {
        len := len + 1;
      }
      if len >= width { width := 0; } else { width := width - len; }
      if pad.zero { padchar := '0'; }
    }
    ghost var start := out.Sent();
    if !pad.right {
      width, pc := Repeat(out, padchar, width, pc);
    }
    pc := Copy(out, text, pc);
    width, pc := Repeat(out, padchar, width, pc);
    FieldEmitted(start, text, width0, pad, padchar);
  }

  // The three loops of prints, put together.
  lemma FieldEmitted(start: string, text: string, width: int, pad: Pad, padchar: char)
    requires width > 0 ==> padchar == PadChar(width, pad)
    ensures var fill := Fill(padchar, Padding(|text|, width));
      if pad.right then start + text + fill == start + Field(text, width, pad)
      else start + fill + text + Fill(padchar, 0) == start + Field(text, width, pad)
  {
    var fill := Fill(padchar, Padding(|text|, width));
    assert fill == Fill(PadChar(width, pad), Padding(|text|, width));
    assert Fill(padchar, 0) == "";
    Assoc(start, text, fill);
    Assoc(start, fill, text);
    Units(start + fill + text);
  }

  // The middle loop of prints.
  method Copy(out: Sink, text: string, pc0: nat) returns (pc: nat)
    requires out.Room(|text|)
    modifies out, out.memory
    ensures out.Room(0) && out.Sent() == old(out.Sent()) + text
    ensures pc == pc0 + |text|
    ensures out.toMemory ==> out.at == old(out.at) + |text|
  {
    var i := 0;
    pc := pc0;
    while i < |text|
      invariant i <= |text| && pc == pc0 + i
      invariant out.Room(|text| - i)
      invariant out.Sent() == old(out.Sent()) + text[..i]
      invariant out.toMemory ==> out.at == old(out.at) + i
    {
      out.PrintChar(text[i]);
      pc := pc + 1;
      i := i + 1;
    }
    assert text[..i] == text;
  }

  // A padding loop of prints.
  method Repeat(out: Sink, padchar: char, width0: int, pc0: nat) returns (width: int, pc: nat)
    requires out.Room(Max(width0, 0))
    modifies out, out.memory
    ensures out.Room(0) && out.Sent() == old(out.Sent()) + Fill(padchar, Max(width0, 0))
    ensures width == if width0 > 0 then 0 else width0
    ensures pc == pc0 + Max(width0, 0)
    ensures out.toMemory ==> out.at == old(out.at) + Max(width0, 0)
  {
    width, pc := width0, pc0;
    while width > 0
      invariant width0 <= 0 ==> width == width0
      invariant width0 > 0 ==> 0 <= width <= width0
      invariant pc == pc0 + (width0 - width)
      invariant out.Room(Max(width, 0))
      invariant out.Sent() == old(out.Sent()) + Fill(padchar, width0 - width)
      invariant out.toMemory ==> out.at == old(out.at) + (width0 - width)
    {
      out.PrintChar(padchar);
      width := width - 1;
      pc := pc + 1;
    }
  }

  // ----- numbers

  const PRINT_BUF_LEN := 6

  // The division loop of printi, for any buffer, number and base: the digits
  // end up, most significant first, right before where it started.
  method FillDigits(buf: array<char>, start: nat, u0: nat, b: nat, letbase: char) returns (s: nat)
    requires 2 <= b <= 36 && LetBase(letbase)
    requires |Digits(u0, b, letbase)| <= start <= buf.Length
    modifies buf
    ensures s == start - |Digits(u0, b, letbase)|
    ensures buf[s..start] == Digits(u0, b, letbase)
    ensures forall i | 0 <= i < buf.Length && !(s <= i < start) :: buf[i] == old(buf[i])
  {
    var u := u0;
    s := start;
    assert Digits(u, b, letbase) + buf[s..start] == Digits(u0, b, letbase);
    while u != 0
      invariant |Digits(u, b, letbase)| <= s <= start
      invariant Digits(u, b, letbase) + buf[s..start] == Digits(u0, b, letbase)
      invariant forall i | 0 <= i < buf.Length && !(s <= i < start) :: buf[i] == old(buf[i])
      decreases u
    {
      ghost var tail := buf[s..start];
      var rest, t := Divide(u, b, letbase);
      s := s - 1;
      buf[s] := DigitCode(t, letbase);
      assert buf[s..start] == [buf[s]] + tail;
      Assoc(Digits(rest, b, letbase), [buf[s]], tail);
      u := rest;
    }
  }

  // u % b and u / b
  method Divide(u: nat, b: nat, letbase: char) returns (rest: nat, t: nat)
    requires 2 <= b <= 36 && LetBase(letbase) && 0 < u
    ensures rest < u && t < b && u == rest * b + t
    ensures Digits(u, b, letbase) == Digits(rest, b, letbase) + [DigitChar(t, letbase)]
  {
    Shrinks(u, b);
    t := u % b;
    rest := u / b;
  }

  // One digit: letters continue from letbase where the decimals end.
  method DigitCode(t0: nat, letbase: char) returns (c: char)
    requires t0 < 36 && LetBase(letbase)
    ensures c == DigitChar(t0, letbase)
  {
    var t := t0;
    if t >= 10 {
      t := t + (letbase as int - '0' as int - 10);
    }
    c := (t + '0' as int) as char;
  }

  // What printi does before it calls prints: fill the buffer from its end. The
  // cell in front of the buffer stands for whatever the stack holds there.
  method FillBuffer(i: int16, b: nat, sg: bool, width: int, pad: Pad, letbase: char)
    returns (guarded: array<char>, s: nat, signFirst: bool)
    requires (b == 10 || b == 16) && LetBase(letbase) && i != 0
    ensures fresh(guarded) && guarded.Length == 1 + PRINT_BUF_LEN && s <= PRINT_BUF_LEN
    ensures guarded[PRINT_BUF_LEN] == NUL
    ensures signFirst == SignFirst(i, b, sg, width, pad)
    ensures guarded[s..PRINT_BUF_LEN] ==
      if signFirst then Digits(Magnitude(i, b, sg), b, letbase) else Numeral(i, b, sg, letbase)
    ensures s < 1 <==> Negative(i, b, sg) && i <= -10000 && !signFirst
  {
    guarded, signFirst := new char[1 + PRINT_BUF_LEN], false;
    var neg := sg && b == 10 && i < 0;
    var u: nat := if neg then -(i as int) else i % 0x1_0000;
    DigitsBound(u, b, letbase);
    s := PRINT_BUF_LEN;
    guarded[s] := NUL;
    s := FillDigits(guarded, s, u, b, letbase);
    if neg {
      if width != 0 && pad.zero {
        signFirst := true;
      } else {
        ghost var digits := guarded[s..PRINT_BUF_LEN];
        s := s - 1;
        guarded[s] := '-';
        assert guarded[s..PRINT_BUF_LEN] == ['-'] + digits;
      }
    } else {
      assert Numeral(i, b, sg, letbase) == "" + Digits(u, b, letbase);
    }
  }

  // printi. `below` says that the call writes in front of its buffer.
  method Printi(out: Sink, i: int16, b: nat, sg: bool, width0: int, pad: Pad, letbase: char)
    returns (pc: nat, below: bool)
    requires (b == 10 || b == 16) && LetBase(letbase)
    requires out.Room(|Number(i, b, sg, width0, pad, letbase)|)
    modifies out, out.memory
    ensures out.Room(0) && out.Sent() == old(out.Sent()) + Number(i, b, sg, width0, pad, letbase)
    ensures pc == |Number(i, b, sg, width0, pad, letbase)|
    ensures out.toMemory ==> out.at == old(out.at) + pc
    ensures below <==> Negative(i, b, sg) && i <= -10000 && !SignFirst(i, b, sg, width0, pad)
  {
    var width := width0;
    pc, below := 0, false;
    if i == 0 {
      pc := Prints(out, "0", width, pad);
      return;
    }
    var guarded, s, signFirst := FillBuffer(i, b, sg, width, pad, letbase);
    below := s < 1;
    pc := Emit(out, guarded[s..PRINT_BUF_LEN], signFirst, width, pad);
  }

  // What is in the buffer, padded, behind a sign that goes out ahead of it.
  method Emit(out: Sink, text: string, signFirst: bool, width0: int, pad: Pad) returns (pc: nat)
    requires out.Room(|if signFirst then "-" + Field(text, width0 - 1, pad) else Field(text, width0, pad)|)
    modifies out, out.memory
    ensures out.Room(0)
    ensures out.Sent() == old(out.Sent())
      + if signFirst then "-" + Field(text, width0 - 1, pad) else Field(text, width0, pad)
    ensures pc == |if signFirst then "-" + Field(text, width0 - 1, pad) else Field(text, width0, pad)|
    ensures out.toMemory ==> out.at == old(out.at) + pc
  {
    var width := width0;
    pc := 0;
    if signFirst {
      out.PrintChar('-');
      pc := pc + 1;
      width := width - 1;
    }
    Assoc(old(out.Sent()), "-", Field(text, width, pad));
    var rest := Prints(out, text, width, pad);
    pc := pc + rest;
  }

  // A 16-bit magnitude has at most five decimal or four hexadecimal digits.
  lemma DigitsBound(u: nat, b: nat, letbase: char)
    requires (b == 10 || b == 16) && LetBase(letbase) && 0 < u < 0x1_0000
    ensures |Digits(u, b, letbase)| <= 5
    ensures b == 10 ==> (|Digits(u, b, letbase)| == 5 <==> 10000 <= u)
    ensures b == 16 ==> |Digits(u, b, letbase)| <= 4
  {
    assert Pow(10, 4) == 10000 && Pow(10, 5) == 100000 && Pow(16, 4) == 0x1_0000 by {
      assert Pow(10, 2) == 100 && Pow(16, 2) == 0x100;
      assert Pow(10, 3) == 1000 && Pow(16, 3) == 0x1000;
    }
    DigitCount(u, b, letbase, 4);
    DigitCount(u, b, letbase, 5);
  }

  // ----- formats

  // The character under a pointer into a C string.
  function Fetch(f: string, p: nat): char
    requires p <= |f|
  {
    if p < |f| then f[p] else NUL
  }

  lemma OnlyNulEnds(f: string, p: nat)
    requires CString(f) && p <= |f|
    ensures Fetch(f, p) == NUL <==> p == |f|
  {
    if p < |f| {
      assert f[p] in f;
    }
  }

  // The flags and the width of a directive; `p` is just past the percent sign.
  method ReadSpec(format: string, p0: nat) returns (p: nat, width: nat, pad: Pad)
    requires CString(format) && p0 <= |format|
    ensures p == p0 + WidthEnd(format[p0..]) <= |format|
    ensures pad == PadOf(format[p0..]) && width == WidthOf(format[p0..])
  {
    ghost var spec := format[p0..];
    width := 0;
    p, pad := ReadFlags(format, p0);
    Offset(format, p0, p - p0);
    ghost var start := p;
    p, width := ReadWidth(format, p);
    Between(format, p0, start - p0, p - p0);
    assert format[start..p] == spec[FlagsEnd(spec)..WidthEnd(spec)];
    assert width == WidthOf(spec);
  }

  method ReadFlags(format: string, p0: nat) returns (p: nat, pad: Pad)
    requires CString(format) && p0 <= |format|
    ensures p == p0 + FlagsEnd(format[p0..]) <= |format|
    ensures pad == PadOf(format[p0..])
  {
    p, pad := p0, Pad(false, false);
    if Fetch(format, p) == '-' {
      p := p + 1;
      pad := pad.(right := true);
    }
    Offset(format, p0, p - p0);
    p, pad := ReadZeros(format, p, pad);
  }

  method ReadZeros(format: string, p0: nat, pad0: Pad) returns (p: nat, pad: Pad)
    requires CString(format) && p0 <= |format|
    ensures p == p0 + Zeros(format[p0..]) <= |format|
    ensures pad == if p0 < p then pad0.(zero := true) else pad0
  {
    p, pad := p0, pad0;
    while Fetch(format, p) == '0'
      invariant p0 <= p <= |format|
      invariant p0 + Zeros(format[p0..]) == p + Zeros(format[p..])
      invariant pad == if p0 < p then pad0.(zero := true) else pad0
      decreases |format| - p
    {
      assert format[p..][1..] == format[p + 1..];
      p := p + 1;
      pad := pad.(zero := true);
    }
  }

  lemma OneDecimal(f: string, p0: nat, p: nat)
    requires p0 <= p < |f| && IsDecimal(f[p])
    requires forall c | c in f[p0..p] :: IsDecimal(c)
    ensures Decimals(f[p..]) == 1 + Decimals(f[p + 1..])
    ensures forall c | c in f[p0..p + 1] :: IsDecimal(c)
    ensures Width(f[p0..p + 1]) == 10 * Width(f[p0..p]) + (f[p] as int - '0' as int)
  {
    Offset(f, p, 1);
    var s := f[p0..p + 1];
    assert s == f[p0..p] + [f[p]];
    SplitSum(f[p0..p], [f[p]]);
  }

  method ReadWidth(format: string, p0: nat) returns (p: nat, width: nat)
    requires CString(format) && p0 <= |format|
    ensures p == p0 + Decimals(format[p0..]) <= |format|
    ensures forall c | c in format[p0..p] :: IsDecimal(c)
    ensures width == Width(format[p0..p])
  {
    p, width := p0, 0;
    while '0' <= Fetch(format, p) <= '9'
      invariant p0 <= p <= |format|
      invariant p0 + Decimals(format[p0..]) == p + Decimals(format[p..])
      invariant forall c | c in format[p0..p] :: IsDecimal(c)
      invariant width == Width(format[p0..p])
      decreases |format| - p
    {
      OneDecimal(format, p0, p);
      width := width * 10;
      width := width + (format[p] as int - '0' as int);
      p := p + 1;
    }
  }

  // One conversion. `below` is printi's.
  method Convert(out: Sink, pad: Pad, width: nat, kind: char, a: Arg) returns (pc: nat, below: bool)
    requires Known(kind) && Accepts(kind, a)
    requires out.Room(|ConvText(pad, width, kind, a)|)
    modifies out, out.memory
    ensures out.Room(0) && out.Sent() == old(out.Sent()) + ConvText(pad, width, kind, a)
    ensures pc == |ConvText(pad, width, kind, a)|
    ensures out.toMemory ==> out.at == old(out.at) + pc
    ensures below <==> kind == 'd' && a.i <= -10000 && !(width != 0 && pad.zero)
  {
    below := false;
    match kind
    case 's' => pc := Prints(out, if a.s.Some? then a.s.value else "(null)", width, pad);
    case 'd' => pc, below := Printi(out, a.i, 10, true, width, pad, 'a');
    case 'x' => pc, below := Printi(out, a.i, 16, false, width, pad, 'a');
    case 'X' => pc, below := Printi(out, a.i, 16, false, width, pad, 'A');
    case 'u' => pc, below := Printi(out, a.i, 10, false, width, pad, 'a');
    case _ => pc := Prints(out, CharText(a.i), width, pad);
  }

  // What a parsed format does with the arguments left: its text, how many
  // arguments it takes, whether a number in it is too long for printi, how it
  // ends; and whether the arguments are those it needs.
  datatype Meaning = Meaning(text: string, uses: nat, long: bool, end: End, ok: bool)

  function Before(text: string, uses: nat, long: bool, m: Meaning): Meaning {
    m.(text := text + m.text, uses := uses + m.uses, long := long || m.long)
  }

  function Means(f: Parsed, args: seq<Arg>): Meaning
    decreases |f.items|
  {
    if f.items == [] then Meaning("", 0, false, f.end, true)
    else if !Fits(f.items[0], args) then Meaning("", 0, false, f.end, false)
    else
      var it := f.items[0];
      Before(ItemText(it, args), Needs(it), TooLong(it, args), Means(f.(items := f.items[1..]), args[Needs(it)..]))
  }

  lemma {:induction false} MeansText(f: Parsed, args: seq<Arg>)
    requires Match(f.items, args)
    ensures Means(f, args) == Meaning(Text(f.items, args), Uses(f.items), AnyTooLong(f.items, args), f.end, true)
    decreases |f.items|
  {
    if f.items != [] {
      MeansText(f.(items := f.items[1..]), args[Needs(f.items[0])..]);
    }
  }

  // What is left of a format and of its arguments, and what they mean.
  datatype Left = Left(f: Parsed, args: seq<Arg>, m: Meaning)

  predicate Sound(h: Left) {
    h.m == Means(h.f, h.args) && h.m.ok
  }

  // At position `p` of a format, `used` arguments in.
  ghost predicate Here(format: string, p: nat, args: seq<Arg>, used: nat, h: Left) {
    p <= |format| && used <= |args| && h.f == Parse(format[p..]) && h.args == args[used..] && Sound(h)
  }

  function Ended(end: End): Meaning {
    Meaning("", 0, false, end, true)
  }

  // One directive consumed: its text, then what is left.
  lemma Consume(h0: Left, it: Item, f: Parsed) returns (n: nat, text: string, long: bool, h: Left)
    requires Sound(h0) && h0.f == Prepend(it, f)
    ensures Fits(it, h0.args) && text == ItemText(it, h0.args) && long == TooLong(it, h0.args)
    ensures n == Needs(it) <= |h0.args|
    ensures h.f == f && h.args == h0.args[n..] && Sound(h) && h0.m == Before(text, n, long, h.m)
  {
    MeansFirst(it, f, h0.args);
    n, text, long := Needs(it), ItemText(it, h0.args), TooLong(it, h0.args);
    h := Left(f, h0.args[n..], Means(f, h0.args[n..]));
  }

  lemma MeansFirst(it: Item, f: Parsed, args: seq<Arg>)
    requires Means(Prepend(it, f), args).ok
    ensures Fits(it, args)
    ensures Means(Prepend(it, f), args)
         == Before(ItemText(it, args), Needs(it), TooLong(it, args), Means(f, args[Needs(it)..]))
  {
    assert ([it] + f.items)[1..] == f.items;
  }

  // Where the directives end, nothing is printed.
  lemma NothingLeft(h: Left, end: End)
    requires Sound(h) && h.f == Parsed([], end)
    ensures h.m == Ended(end)
  {
  }

  lemma Stops(format: string, p: nat)
    requires p == |format| || (p < |format| && format[p..] == "%")
    ensures Parse(format[p..]) == Parsed([], if p == |format| then Complete else Dangling)
  {
  }

  lemma PlainParses(format: string, p: nat, next: nat) returns (it: Item, f: Parsed)
    requires p < |format| && format[p] != '%' && next == p + 1
    ensures it == Plain(format[p]) && f == Parse(format[next..]) && Parse(format[p..]) == Prepend(it, f)
  {
    it, f := Plain(format[p]), Parse(format[next..]);
    Offset(format, p, 1);
  }

  lemma PercentParses(format: string, p: nat, next: nat) returns (it: Item, f: Parsed)
    requires p + 1 < |format| && format[p] == '%' && format[p + 1] == '%' && next == p + 2
    ensures it == Percent && f == Parse(format[next..]) && Parse(format[p..]) == Prepend(it, f)
  {
    it, f := Percent, Parse(format[next..]);
    Offset(format, p, 2);
  }

  // One turn of print's loop, from position `p0`: it prints `text` and leaves
  // the pointer at `p`. `stop` is the lone percent sign, `overrun` the step
  // past the terminator.
  method Turn(out: Sink, format: string, p0: nat, args: seq<Arg>, used0: nat, ghost h0: Left)
    returns (n: nat, p: nat, used: nat, stop: bool, overrun: bool, below: bool, ghost text: string, ghost h: Left)
    requires CString(format) && p0 < |format| && Here(format, p0, args, used0, h0)
    requires out.Room(|h0.m.text|)
    modifies out, out.memory
    ensures Here(format, p, args, used, h) && used0 <= used && h0.m == Before(text, used - used0, below, h.m)
    ensures out.Room(0) && out.Sent() == old(out.Sent()) + text && n == |text|
    ensures out.toMemory ==> out.at == old(out.at) + n
    ensures !(stop && overrun)
    ensures if stop || overrun then p == p0 && h.m == Ended(if stop then Dangling else CutOff) else p0 < p
  {
    n, p, used, stop, overrun, below, text, h := 0, p0, used0, false, false, false, "", h0;
    ghost var it, f;
    if Fetch(format, p) == '%' {
      OnlyNulEnds(format, p + 1);
      if Fetch(format, p + 1) == NUL {
        Stops(format, p);
        NothingLeft(h, Dangling);
        stop := true;
      } else if Fetch(format, p + 1) == '%' {
        p := p + 2;
        it, f := PercentParses(format, p0, p);
        n, text, h := Literal(out, '%', it, f, h);
      } else {
        n, p, used, overrun, below, text, h := Directive(out, format, p, args, used, h);
      }
    } else {
      p := p + 1;
      it, f := PlainParses(format, p0, p);
      n, text, h := Literal(out, format[p0], it, f, h);
    }
  }

  // A character that prints itself.
  method Literal(out: Sink, c: char, ghost it: Item, ghost f: Parsed, ghost h0: Left)
    returns (n: nat, ghost text: string, ghost h: Left)
    requires Sound(h0) && h0.f == Prepend(it, f)
    requires it == Plain(c) || (it == Percent && c == '%')
    requires out.Room(|h0.m.text|)
    modifies out, out.memory
    ensures h.f == f && h.args == h0.args && Sound(h) && h0.m == Before(text, 0, false, h.m)
    ensures out.Room(0) && out.Sent() == old(out.Sent()) + text && n == |text|
    ensures out.toMemory ==> out.at == old(out.at) + n
  {
    ghost var uses, long;
    uses, text, long, h := Consume(h0, it, f);
    out.PrintChar(c);
    n := 1;
  }

  // A directive with flags, width and conversion character.
  method Directive(out: Sink, format: string, p0: nat, args: seq<Arg>, used0: nat, ghost h0: Left)
    returns (n: nat, p: nat, used: nat, overrun: bool, below: bool, ghost text: string, ghost h: Left)
    requires CString(format) && p0 + 1 < |format| && Here(format, p0, args, used0, h0)
    requires format[p0] == '%' && format[p0 + 1] != '%'
    requires out.Room(|h0.m.text|)
    modifies out, out.memory
    ensures Here(format, p, args, used, h) && used0 <= used && h0.m == Before(text, used - used0, below, h.m)
    ensures out.Room(0) && out.Sent() == old(out.Sent()) + text && n == |text|
    ensures out.toMemory ==> out.at == old(out.at) + n
    ensures if overrun then p == p0 && h.m == Ended(CutOff) else p0 < p
  {
    n, p, used, overrun, below, text, h := 0, p0, used0, false, false, "", h0;
    var q, next, width, pad;
    ghost var it, f;
    q, next, width, pad, it, f := ReadDirective(format, p0);
    if q == |format| {
      // none of the conversions matches the terminator: step past it
      overrun := true;
      NothingLeft(h, CutOff);
      return;
    }
    p := next;
    ghost var uses, past, long;
    uses, text, long, h := Consume(h0, it, f);
    past := Arrive(format, p, args, used0, uses, h0, h);
    n, used, below := PrintConv(out, pad, width, format[q], args[used0..], used0, it, past, text, long);
  }

  lemma Arrive(format: string, p: nat, args: seq<Arg>, used0: nat, uses: nat, h0: Left, h: Left) returns (used: nat)
    requires p <= |format| && h.f == Parse(format[p..]) && Sound(h)
    requires used0 <= |args| && h0.args == args[used0..] && uses <= |h0.args| && h.args == h0.args[uses..]
    ensures used == used0 + uses && Here(format, p, args, used, h)
  {
    used := used0 + uses;
    Offset(args, used0, uses);
  }

  // The pointer moves up to the conversion character; `next` is where it goes on.
  method ReadDirective(format: string, p: nat)
    returns (q: nat, next: nat, width: nat, pad: Pad, ghost it: Item, ghost f: Parsed)
    requires CString(format) && p + 1 < |format| && format[p] == '%' && format[p + 1] != '%'
    ensures p < q <= |format| && next == q + 1 && it == Conv(pad, width, Fetch(format, q))
    ensures q == |format| ==> Parse(format[p..]) == Parsed([], CutOff)
    ensures q < |format| ==> f == Parse(format[next..]) && Parse(format[p..]) == Prepend(it, f)
  {
    q, width, pad := ReadSpec(format, p + 1);
    next, it := q + 1, Conv(pad, width, Fetch(format, q));
    f := if q < |format| then Parse(format[q + 1..]) else Parsed([], CutOff);
    SpecParses(format, p, q, it);
  }

  // The conversion at the end of a directive, with the arguments left; an
  // unknown one prints nothing.
  method PrintConv(out: Sink, pad: Pad, width: nat, kind: char, args: seq<Arg>, used0: nat,
                   ghost it: Item, ghost past: nat, ghost text: string, ghost long: bool)
    returns (n: nat, used: nat, below: bool)
    requires it == Conv(pad, width, kind) && Fits(it, args)
    requires past == used0 + Needs(it) && text == ItemText(it, args) && long == TooLong(it, args)
    requires out.Room(|text|)
    modifies out, out.memory
    ensures out.Room(0) && out.Sent() == old(out.Sent()) + text
    ensures n == |text| && used == past && below == long
    ensures out.toMemory ==> out.at == old(out.at) + n
  {
    n, used, below := 0, used0, false;
    if Known(kind) {
      n, below := Convert(out, pad, width, kind, args[0]);
      used := used + 1;
    }
  }

  // A directive at the front of a text, whose width ends at `n` of `spec`.
  lemma DirectiveParses(f: string, spec: string, n: nat, it: Item, rest: string)
    requires |f| >= 2 && f[0] == '%' && f[1] != '%'
    requires spec == f[1..] && n == WidthEnd(spec) < |spec| && it == Conv(PadOf(spec), WidthOf(spec), spec[n])
    requires rest == f[n + 2..]
    ensures Parse(f) == Prepend(it, Parse(rest))
  {
  }

  lemma CutOffParses(f: string, spec: string)
    requires |f| >= 2 && f[0] == '%' && f[1] != '%'
    requires spec == f[1..] && WidthEnd(spec) == |spec|
    ensures Parse(f) == Parsed([], CutOff)
  {
  }

  // The directive at `p`, whose width ends at `q`.
  lemma SpecParses(format: string, p: nat, q: nat, it: Item)
    requires p + 1 < |format| && format[p] == '%' && format[p + 1] != '%'
    requires q == p + 1 + WidthEnd(format[p + 1..]) <= |format|
    requires it == Conv(PadOf(format[p + 1..]), WidthOf(format[p + 1..]), Fetch(format, q))
    ensures q == |format| ==> Parse(format[p..]) == Parsed([], CutOff)
    ensures q < |format| ==> Parse(format[p..]) == Prepend(it, Parse(format[q + 1..]))
  {
    Offset(format, p, 1);
    if q < |format| {
      Offset(format, p, q - p + 1);
      DirectiveParses(format[p..], format[p + 1..], q - p - 1, it, format[q + 1..]);
    } else {
      CutOffParses(format[p..], format[p + 1..]);
    }
  }

  // print
  method Print(out: Sink, format: string, args: seq<Arg>)
    returns (pc: nat, used: nat, overrun: bool, below: bool)
    requires CString(format) && Match(Parse(format).items, args)
    requires out.Room(|Text(Parse(format).items, args)| + 1)
    modifies out, out.memory
    ensures out.Room(0)
    ensures out.Sent() == old(out.Sent()) + Text(Parse(format).items, args)
    ensures pc == |Text(Parse(format).items, args)|
    ensures used == Uses(Parse(format).items)
    ensures overrun <==> Parse(format).end == CutOff
    ensures below <==> AnyTooLong(Parse(format).items, args)
    ensures out.toMemory ==> out.at == old(out.at) + pc && out.at < out.memory.Length
    ensures out.toMemory && !overrun ==> out.memory[out.at] == NUL
  {
    ghost var whole := Whole(format, args);
    pc, used, overrun, below := PrintAll(out, format, args, whole);
  }

  // All that a format has to do.
  lemma Whole(format: string, args: seq<Arg>) returns (h: Left)
    requires Match(Parse(format).items, args)
    ensures Here(format, 0, args, 0, h)
    ensures h.m.text == Text(Parse(format).items, args) && h.m.uses == Uses(Parse(format).items)
    ensures h.m.long == AnyTooLong(Parse(format).items, args) && h.m.end == Parse(format).end
  {
    h := Left(Parse(format), args, Means(Parse(format), args));
    MeansText(Parse(format), args);
    assert format[0..] == format && args[0..] == args;
  }

  // The loop of print.
  method PrintAll(out: Sink, format: string, args: seq<Arg>, ghost whole: Left)
    returns (pc: nat, used: nat, overrun: bool, below: bool)
    requires CString(format) && Here(format, 0, args, 0, whole)
    requires out.Room(|whole.m.text| + 1)
    modifies out, out.memory
    ensures out.Room(0) && out.Sent() == old(out.Sent()) + whole.m.text
    ensures pc == |whole.m.text| && used == whole.m.uses
    ensures overrun <==> whole.m.end == CutOff
    ensures below == whole.m.long
    ensures out.toMemory ==> out.at == old(out.at) + pc && out.at < out.memory.Length
    ensures out.toMemory && !overrun ==> out.memory[out.at] == NUL
  {
    var p, stop := 0, false;
    pc, used, overrun, below := 0, 0, false, false;
    ghost var printed, h := "", whole;
    Units(whole.m.text);
    while !stop && !overrun && Fetch(format, p) != NUL
      invariant Here(format, p, args, used, h) && whole.m == Before(printed, used, below, h.m)
      invariant out.Room(|h.m.text| + 1)
      invariant out.Sent() == old(out.Sent()) + printed && pc == |printed|
      invariant out.toMemory ==> out.at == old(out.at) + pc
      invariant !(stop && overrun)
      invariant stop || overrun ==> h.m == Ended(if stop then Dangling else CutOff)
      decreases |format| - p, !stop && !overrun
    {
      OnlyNulEnds(format, p);
      var n, long;
      ghost var text;
      n, p, used, stop, overrun, long, text, h := Turn(out, format, p, args, used, h);
      Assoc(printed, text, h.m.text);
      Assoc(old(out.Sent()), printed, text);
      printed := printed + text;
      pc := pc + n;
      below := below || long;
    }
    if !stop && !overrun {
      OnlyNulEnds(format, p);
      Stops(format, p);
      NothingLeft(h, Complete);
    }
    Units(printed);
    if !overrun && out.toMemory {
      out.memory[out.at] := NUL;
    }
  }

  // printf: the characters handed to putchar.
  method Printf(format: string, args: seq<Arg>) returns (pc: nat, stream: string, overrun: bool)
    requires CString(format) && Match(Parse(format).items, args)
    ensures stream == Text(Parse(format).items, args) && pc == |stream|
    ensures overrun <==> Parse(format).end == CutOff
  {
    var out := new Sink.Wire();
    var used, below;
    pc, used, overrun, below := Print(out, format, args);
    stream := out.wire;
  }

  // sprintf: the same characters, in memory, with a NUL behind them.
  method Sprintf(memory: array<char>, format: string, args: seq<Arg>) returns (pc: nat, overrun: bool)
    requires CString(format) && Match(Parse(format).items, args)
    requires |Text(Parse(format).items, args)| < memory.Length
    modifies memory
    ensures pc == |Text(Parse(format).items, args)|
    ensures memory[..pc] == Text(Parse(format).items, args)
    ensures overrun <==> Parse(format).end == CutOff
    ensures !overrun ==> memory[pc] == NUL
  {
    var out := new Sink.Memory(memory);
    var used, below;
    pc, used, overrun, below := Print(out, format, args);
  }
}
