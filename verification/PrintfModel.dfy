// The meaning of AT_printf.c: what a padded field, a number and a whole format
// print, as functions from their arguments to text.

module PrintfModel {
  import opened Osal

  type int16 = i: int | -0x8000 <= i < 0x8000

  const NUL := '\0'

  // The PAD_RIGHT and PAD_ZERO bits of `pad`.
  datatype Pad = Pad(right: bool, zero: bool)

  function Max(a: int, b: int): int {
    if a < b then b else a
  }

  function Fill(c: char, n: nat): (s: string)
    ensures |s| == n && forall i | 0 <= i < n :: s[i] == c
  {
    seq(n, _ => c)
  }

  // prints
  function Padding(len: nat, width: int): nat {
    if width <= len then 0 else width - len
  }

  function PadChar(width: int, pad: Pad): char {
    if width > 0 && pad.zero then '0' else ' '
  }

  function Field(s: string, width: int, pad: Pad): string {
    var fill := Fill(PadChar(width, pad), Padding(|s|, width));
    if pad.right then s + fill else fill + s
  }

  // ----- numbers

  predicate LetBase(c: char) {
    c == 'a' || c == 'A'
  }

  function DigitChar(t: nat, letbase: char): char
    requires t < 36 && LetBase(letbase)
  {
    if t < 10 then (t + '0' as int) as char else (t - 10 + letbase as int) as char
  }

  // Most significant digit first; zero has no digits.
  function Digits(u: nat, b: nat, letbase: char): string
    requires 2 <= b <= 36 && LetBase(letbase)
    decreases u
  {
    if u == 0 then "" else
      Shrinks(u, b);
      Digits(u / b, b, letbase) + [DigitChar(u % b, letbase)]
  }

  lemma Shrinks(u: nat, b: nat)
    requires 0 < u && 2 <= b
    ensures 0 <= u / b < u && 0 <= u % b < b && u == u / b * b + u % b
  {
  }

  predicate Negative(i: int16, b: nat, sg: bool) {
    sg && b == 10 && i < 0
  }

  // `u` as the division loop finds it: the magnitude, or the 16-bit pattern.
  function Magnitude(i: int16, b: nat, sg: bool): nat {
    if Negative(i, b, sg) then -(i as int) else i % 0x1_0000
  }

  function Pow(b: nat, n: nat): nat {
    if n == 0 then 1 else b * Pow(b, n - 1)
  }

  // A number has at most n digits exactly when it is below b to the n.
  lemma {:induction false} DigitCount(u: nat, b: nat, letbase: char, n: nat)
    requires 2 <= b <= 36 && LetBase(letbase)
    ensures |Digits(u, b, letbase)| <= n <==> u < Pow(b, n)
    decreases n
  {
    if u == 0 {
      PowPositive(b, n);
    } else if 0 < n {
      Shrinks(u, b);
      DigitCount(u / b, b, letbase, n - 1);
      QuotientBelow(u, b, Pow(b, n - 1));
    }
  }

  lemma {:induction false} PowPositive(b: nat, n: nat)
    requires 0 < b
    ensures 0 < Pow(b, n)
  {
    if 0 < n {
      PowPositive(b, n - 1);
    }
  }

  lemma QuotientBelow(u: nat, b: nat, m: nat)
    requires 0 < b
    ensures u / b < m <==> u < b * m
  {
    var q := u / b;
    assert u == b * q + u % b;
    TimesGrows(b, q, q);
    if q < m {
      TimesGrows(b, q + 1, m);
    } else {
      TimesGrows(b, m, q);
    }
  }

  lemma TimesGrows(b: nat, x: nat, y: nat)
    requires x <= y
    ensures b * x <= b * y && b * (x + 1) == b * x + b
  {
  }

  // The sign goes out ahead of the field when zeros are to follow it.
  predicate SignFirst(i: int16, b: nat, sg: bool, width: int, pad: Pad) {
    Negative(i, b, sg) && width != 0 && pad.zero
  }

  function Sign(i: int16, b: nat, sg: bool): string {
    if Negative(i, b, sg) then "-" else ""
  }

  function Numeral(i: int16, b: nat, sg: bool, letbase: char): string
    requires 2 <= b <= 36 && LetBase(letbase)
  {
    if i == 0 then "0" else Sign(i, b, sg) + Digits(Magnitude(i, b, sg), b, letbase)
  }

  // printi
  function Number(i: int16, b: nat, sg: bool, width: int, pad: Pad, letbase: char): string
    requires 2 <= b <= 36 && LetBase(letbase)
  {
    if SignFirst(i, b, sg, width, pad) then
      "-" + Field(Digits(Magnitude(i, b, sg), b, letbase), width - 1, pad)
    else
      Field(Numeral(i, b, sg, letbase), width, pad)
  }

  // ----- formats

  datatype Item =
    | Plain(c: char)
    | Percent
    | Conv(pad: Pad, width: nat, kind: char)

  // How a format ends: on a directive boundary, with a lone percent sign, or
  // inside a directive that has begun.
  datatype End = Complete | Dangling | CutOff

  datatype Parsed = Parsed(items: seq<Item>, end: End)

  predicate IsDecimal(c: char) {
    '0' <= c <= '9'
  }

  // The leading zeros, and the leading decimal digits, of a text.
  function Zeros(f: string): (n: nat)
    ensures n <= |f|
  {
    if f == "" || f[0] != '0' then 0 else 1 + Zeros(f[1..])
  }

  function Decimals(f: string): (n: nat)
    ensures n <= |f|
    ensures forall i | 0 <= i < n :: IsDecimal(f[i])
  {
    if f == "" || !IsDecimal(f[0]) then 0 else 1 + Decimals(f[1..])
  }

  function Width(digits: string): nat
    requires forall c | c in digits :: IsDecimal(c)
  {
    if digits == "" then 0
    else
      assert IsDecimal(digits[|digits| - 1]);
      10 * Width(digits[..|digits| - 1]) + (digits[|digits| - 1] as int - '0' as int)
  }

  // Where a directive's flags end, its width ends: positions in the text that
  // follows the percent sign.
  function FlagsEnd(f: string): (n: nat)
    ensures n <= |f|
  {
    var dash := if f != "" && f[0] == '-' then 1 else 0;
    dash + Zeros(f[dash..])
  }

  function WidthEnd(f: string): (n: nat)
    ensures FlagsEnd(f) <= n <= |f|
  {
    FlagsEnd(f) + Decimals(f[FlagsEnd(f)..])
  }

  function PadOf(f: string): Pad {
    var right := f != "" && f[0] == '-';
    Pad(right, FlagsEnd(f) > if right then 1 else 0)
  }

  function WidthOf(f: string): nat {
    Width(f[FlagsEnd(f)..WidthEnd(f)])
  }

  function Prepend(it: Item, p: Parsed): Parsed {
    p.(items := [it] + p.items)
  }

  // The front of a format: nothing more to print, or a directive of `n` characters.
  datatype Front = Stop(end: End) | Take(it: Item, n: nat)

  function FrontOf(f: string): (r: Front)
    ensures r.Take? ==> 0 < r.n <= |f|
  {
    if f == "" then Stop(Complete)
    else if f[0] != '%' then Take(Plain(f[0]), 1)
    else if |f| == 1 then Stop(Dangling)
    else if f[1] == '%' then Take(Percent, 2)
    else
      var spec := f[1..];
      var n := WidthEnd(spec);
      if n == |spec| then Stop(CutOff)
      else Take(Conv(PadOf(spec), WidthOf(spec), spec[n]), n + 2)
  }

  function Parse(f: string): Parsed
    decreases |f|
  {
    match FrontOf(f)
    case Stop(end) => Parsed([], end)
    case Take(it, n) => Prepend(it, Parse(f[n..]))
  }

  // ----- arguments

  // What va_arg yields: an int, or a string pointer that may be null.
  datatype Arg = Int(i: int16) | Ptr(s: Option<string>)

  predicate Known(kind: char) {
    kind == 's' || kind == 'd' || kind == 'x' || kind == 'X' || kind == 'u' || kind == 'c'
  }

  predicate CString(s: string) {
    NUL !in s
  }

  // The argument that a conversion needs.
  predicate Accepts(kind: char, a: Arg) {
    if kind == 's' then a.Ptr? && (a.s.Some? ==> CString(a.s.value)) else a.Int?
  }

  function Needs(it: Item): nat {
    if it.Conv? && Known(it.kind) then 1 else 0
  }

  function Uses(items: seq<Item>): nat {
    if items == [] then 0 else Needs(items[0]) + Uses(items[1..])
  }

  // The arguments left begin with what a directive needs.
  predicate Fits(it: Item, args: seq<Arg>) {
    Needs(it) == 0 || (args != [] && Accepts(it.kind, args[0]))
  }

  predicate Match(items: seq<Item>, args: seq<Arg>) {
    items == [] || (Fits(items[0], args) && Match(items[1..], args[Needs(items[0])..]))
  }

  // A char argument arrives as an int; a NUL one prints as nothing.
  function CharText(i: int16): string {
    if i % 0x100 == 0 then "" else [(i % 0x100) as char]
  }

  function ConvText(pad: Pad, width: nat, kind: char, a: Arg): string
    requires Known(kind) && Accepts(kind, a)
  {
    match kind
    case 's' => Field(if a.s.Some? then a.s.value else "(null)", width, pad)
    case 'd' => Number(a.i, 10, true, width, pad, 'a')
    case 'x' => Number(a.i, 16, false, width, pad, 'a')
    case 'X' => Number(a.i, 16, false, width, pad, 'A')
    case 'u' => Number(a.i, 10, false, width, pad, 'a')
    case _ => Field(CharText(a.i), width, pad)
  }

  function ItemText(it: Item, args: seq<Arg>): string
    requires Fits(it, args)
  {
    match it
    case Plain(c) => [c]
    case Percent => "%"
    case Conv(pad, width, kind) => if Known(kind) then ConvText(pad, width, kind, args[0]) else ""
  }

  // A format's text: the meanings of its directives, one after another.
  function Text(items: seq<Item>, args: seq<Arg>): string
    requires Match(items, args)
  {
    if items == [] then ""
    else ItemText(items[0], args) + Text(items[1..], args[Needs(items[0])..])
  }

  // Conversions whose number does not fit the digit buffer of printi: signed
  // decimals of -10000 and below whose sign goes into the buffer.
  predicate TooLong(it: Item, args: seq<Arg>)
    requires Fits(it, args)
  {
    it.Conv? && it.kind == 'd' && args[0].i <= -10000 && !(it.width != 0 && it.pad.zero)
  }

  predicate AnyTooLong(items: seq<Item>, args: seq<Arg>)
    requires Match(items, args)
  {
    items != [] && (TooLong(items[0], args) || AnyTooLong(items[1..], args[Needs(items[0])..]))
  }
}
