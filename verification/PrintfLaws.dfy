// What AT_printf.c is for: numbers read back as they were, fields are as wide
// as asked, the digit buffer is nearly large enough, and the meaning of a format
// is made of the meanings of its directives.

module PrintfLaws {
  import opened Sequences
  import opened PrintfModel

  // ----- widths and layout

  // A string's field is as wide as asked, or as the string.
  lemma FieldWidth(s: string, width: int, pad: Pad)
    ensures |Field(s, width, pad)| == Max(width, |s|)
  {
  }

  function Body(i: int16, b: nat, sg: bool, letbase: char): string
    requires 2 <= b <= 36 && LetBase(letbase)
  {
    if i == 0 then "0" else Digits(Magnitude(i, b, sg), b, letbase)
  }

  // The sign stays ahead of zeros, blanks stay ahead of the sign, and all the
  // fill is on one side.
  lemma NumberLayout(i: int16, b: nat, sg: bool, width: int, pad: Pad, letbase: char)
    requires 2 <= b <= 36 && LetBase(letbase)
    ensures var sign, body := Sign(i, b, sg), Body(i, b, sg, letbase);
      var n := Padding(|sign| + |body|, width);
      Number(i, b, sg, width, pad, letbase) ==
        if pad.right then sign + body + Fill(if pad.zero then '0' else ' ', n)
        else if pad.zero then sign + Fill('0', n) + body
        else Fill(' ', n) + sign + body
  {
    var sign, body := Sign(i, b, sg), Body(i, b, sg, letbase);
    var n := Padding(|sign| + |body|, width);
    assert Numeral(i, b, sg, letbase) == sign + body;
    if SignFirst(i, b, sg, width, pad) {
      assert Padding(|body|, width - 1) == n;
      NoFill(n);
      Assoc(sign, body, Fill('0', n));
      Assoc(sign, Fill('0', n), body);
    } else {
      FieldLayout(sign, body, width, pad);
    }
  }

  lemma NoFill(n: nat)
    ensures n == 0 ==> Fill('0', n) == Fill(' ', n) == ""
  {
  }

  lemma FieldLayout(sign: string, body: string, width: int, pad: Pad)
    requires sign == "" || width == 0 || !pad.zero
    ensures var n := Padding(|sign| + |body|, width);
      Field(sign + body, width, pad) ==
        if pad.right then sign + body + Fill(if pad.zero then '0' else ' ', n)
        else if pad.zero then sign + Fill('0', n) + body
        else Fill(' ', n) + sign + body
  {
    var n := Padding(|sign| + |body|, width);
    NoFill(n);
    Units(sign);
    Units(body);
    Units(sign + body);
    Units(Fill('0', n));
    Assoc(Fill(' ', n), sign, body);
  }

  lemma NumberWidth(i: int16, b: nat, sg: bool, width: int, pad: Pad, letbase: char)
    requires 2 <= b <= 36 && LetBase(letbase)
    ensures |Number(i, b, sg, width, pad, letbase)| == Max(width, |Numeral(i, b, sg, letbase)|)
  {
    NumberLayout(i, b, sg, width, pad, letbase);
  }

  // ----- reading a number back

  function DigitVal(c: char): nat {
    if '0' <= c <= '9' then c as int - '0' as int
    else if 'a' <= c <= 'z' then 10 + (c as int - 'a' as int)
    else if 'A' <= c <= 'Z' then 10 + (c as int - 'A' as int)
    else 99
  }

  predicate AllDigits(s: string, b: nat) {
    forall c | c in s :: DigitVal(c) < b
  }

  function Value(s: string, b: nat): nat {
    if s == "" then 0 else Value(s[..|s| - 1], b) * b + DigitVal(s[|s| - 1])
  }

  function Lead(s: string, b: nat): (n: nat)
    ensures n <= |s|
  {
    if s == "" || DigitVal(s[0]) >= b then 0 else 1 + Lead(s[1..], b)
  }

  function Blanks(s: string): (n: nat)
    ensures n <= |s|
  {
    if s == "" || s[0] != ' ' then 0 else 1 + Blanks(s[1..])
  }

  // As strtol does it: skip blanks, take a sign, take digits, stop.
  function ReadBack(s: string, b: nat): int {
    var t := s[Blanks(s)..];
    if t != "" && t[0] == '-' then -(Value(t[1..][..Lead(t[1..], b)], b) as int)
    else Value(t[..Lead(t, b)], b)
  }

  lemma {:induction false} DigitsValue(u: nat, b: nat, letbase: char)
    requires 2 <= b <= 36 && LetBase(letbase)
    ensures Value(Digits(u, b, letbase), b) == u && AllDigits(Digits(u, b, letbase), b)
    decreases u
  {
    if u != 0 {
      Shrinks(u, b);
      DigitsValue(u / b, b, letbase);
      var front, c := Digits(u / b, b, letbase), DigitChar(u % b, letbase);
      assert DigitVal(c) == u % b;
      assert (front + [c])[..|front|] == front;
    }
  }

  // Digits beyond 9 are letters from letbase on: lower case for %x, upper for %X.
  lemma {:induction false} DigitsCase(u: nat, b: nat, letbase: char)
    requires 2 <= b <= 36 && LetBase(letbase)
    ensures forall c | c in Digits(u, b, letbase) ::
        IsDecimal(c) || letbase as int <= c as int < letbase as int + b - 10
    decreases u
  {
    if u != 0 {
      Shrinks(u, b);
      DigitsCase(u / b, b, letbase);
    }
  }

  lemma {:induction false} ZerosLeft(n: nat, s: string, b: nat)
    ensures Value(Fill('0', n) + s, b) == Value(s, b)
    decreases n, |s|
  {
    if s != "" {
      var front := s[..|s| - 1];
      ZerosLeft(n, front, b);
      assert (Fill('0', n) + s)[..n + |s| - 1] == Fill('0', n) + front;
    } else if n != 0 {
      ZerosLeft(n - 1, "", b);
      assert (Fill('0', n) + "")[..n - 1] == Fill('0', n - 1) + "";
    } else {
      assert Fill('0', 0) + "" == "";
    }
  }

  lemma {:induction false} ZerosRight(s: string, n: nat, b: nat)
    ensures Value(s + Fill('0', n), b) == Value(s, b) * Pow(b, n)
  {
    if n == 0 {
      assert s + Fill('0', 0) == s;
    } else {
      ZerosRight(s, n - 1, b);
      assert (s + Fill('0', n))[..|s| + n - 1] == s + Fill('0', n - 1);
      Rearrange(Value(s, b), Pow(b, n - 1), b);
    }
  }

  lemma Rearrange(v: nat, p: nat, b: nat)
    ensures v * p * b == v * (b * p)
  {
  }

  lemma {:induction false} LeadStops(s: string, rest: string, b: nat)
    requires AllDigits(s, b) && (rest == "" || DigitVal(rest[0]) >= b)
    ensures Lead(s + rest, b) == |s|
  {
    if s == "" {
      assert s + rest == rest;
    } else {
      assert DigitVal(s[0]) < b;
      TailOfSum(s, rest);
      LeadStops(s[1..], rest, b);
    }
  }

  lemma {:induction false} BlanksStop(n: nat, rest: string)
    requires rest == "" || rest[0] != ' '
    ensures Blanks(Fill(' ', n) + rest) == n
  {
    if n == 0 {
      assert Fill(' ', 0) + rest == rest;
    } else {
      BlanksStop(n - 1, rest);
      assert (Fill(' ', n) + rest)[1..] == Fill(' ', n - 1) + rest;
    }
  }

  lemma ReadParts(blanks: string, sign: string, digits: string, rest: string)
    ensures blanks + sign + digits + rest == blanks + (sign + (digits + rest))
    ensures (blanks + (sign + (digits + rest)))[|blanks|..] == sign + (digits + rest)
  {
    Assoc(blanks, sign, digits);
    Assoc(blanks, sign + digits, rest);
    Assoc(sign, digits, rest);
    SplitSum(blanks, sign + (digits + rest));
  }

  lemma ReadFrom(s: string, sign: string, u: string, digits: string, b: nat)
    requires s[Blanks(s)..] == sign + u && (sign == "-" || (sign == "" && (u == "" || u[0] != '-')))
    requires Lead(u, b) == |digits| && u[..|digits|] == digits
    ensures ReadBack(s, b) == if sign == "-" then -(Value(digits, b) as int) else Value(digits, b)
  {
    SplitSum(sign, u);
    Units(u);
  }

  // Blanks, a sign, digits and something that is no digit.
  lemma ReadSigned(n: nat, neg: bool, digits: string, rest: string, b: nat)
    requires b <= 36 && digits != "" && AllDigits(digits, b)
    requires rest == "" || DigitVal(rest[0]) >= b
    ensures ReadBack(Fill(' ', n) + (if neg then "-" else "") + digits + rest, b)
            == if neg then -(Value(digits, b) as int) else Value(digits, b)
  {
    var sign := if neg then "-" else "";
    assert DigitVal(digits[0]) < b;
    ReadParts(Fill(' ', n), sign, digits, rest);
    BlanksStop(n, sign + (digits + rest));
    LeadStops(digits, rest, b);
    SplitSum(digits, rest);
    ReadFrom(Fill(' ', n) + (sign + (digits + rest)), sign, digits + rest, digits, b);
  }

  // What the text of a number stands for.
  function Worth(i: int16, b: nat, sg: bool): int {
    if sg && b == 10 then i as int else i % 0x1_0000
  }

  lemma BodyValue(i: int16, b: nat, sg: bool, letbase: char)
    requires 2 <= b <= 36 && LetBase(letbase)
    ensures var body := Body(i, b, sg, letbase);
      && body != "" && AllDigits(body, b)
      && Worth(i, b, sg) == if Negative(i, b, sg) then -(Value(body, b) as int) else Value(body, b)
  {
    if i == 0 {
      assert Value("0", b) == Value("", b) * b + 0;
    } else {
      DigitsValue(Magnitude(i, b, sg), b, letbase);
    }
  }

  // Digits and nothing else, behind an optional sign.
  lemma ReadPlain(neg: bool, digits: string, b: nat)
    requires 2 <= b <= 36 && digits != "" && AllDigits(digits, b)
    ensures ReadBack((if neg then "-" else "") + digits, b)
            == if neg then -(Value(digits, b) as int) else Value(digits, b)
  {
    var sign := if neg then "-" else "";
    ReadSigned(0, neg, digits, "", b);
    assert Fill(' ', 0) + sign + digits + "" == sign + digits;
  }

  // The three layouts, read back.
  lemma ReadZeroFilled(neg: bool, body: string, n: nat, right: bool, b: nat)
    requires 2 <= b <= 36 && body != "" && AllDigits(body, b)
    ensures var sign, zeros := if neg then "-" else "", Fill('0', n);
      var text := if right then sign + body + zeros else sign + zeros + body;
      var v := Value(body, b) * if right then Pow(b, n) else 1;
      ReadBack(text, b) == if neg then -v else v
  {
    var sign, zeros := if neg then "-" else "", Fill('0', n);
    var digits := if right then body + zeros else zeros + body;
    assert AllDigits(digits, b);
    ReadPlain(neg, digits, b);
    if right {
      Assoc(sign, body, zeros);
      ZerosRight(body, n, b);
    } else {
      Assoc(sign, zeros, body);
      ZerosLeft(n, body, b);
    }
  }

  lemma ReadBlankFilled(neg: bool, body: string, n: nat, right: bool, b: nat)
    requires 2 <= b <= 36 && body != "" && AllDigits(body, b)
    ensures var sign, blanks := if neg then "-" else "", Fill(' ', n);
      var text := if right then sign + body + blanks else blanks + sign + body;
      ReadBack(text, b) == if neg then -(Value(body, b) as int) else Value(body, b)
  {
    var sign, blanks := if neg then "-" else "", Fill(' ', n);
    if right {
      ReadSigned(0, neg, body, blanks, b);
      assert Fill(' ', 0) + sign + body + blanks == sign + body + blanks;
    } else {
      ReadSigned(n, neg, body, "", b);
      assert blanks + sign + body + "" == blanks + sign + body;
    }
  }

  // Reading a printed number back gives the number, except that zeros to the
  // right of it count as digits.
  lemma NumberReadsBack(i: int16, b: nat, sg: bool, width: int, pad: Pad, letbase: char)
    requires 2 <= b <= 36 && LetBase(letbase)
    ensures ReadBack(Number(i, b, sg, width, pad, letbase), b) ==
      if pad.right && pad.zero then Worth(i, b, sg) * Pow(b, Padding(|Numeral(i, b, sg, letbase)|, width))
      else Worth(i, b, sg)
  {
    var sign, body := Sign(i, b, sg), Body(i, b, sg, letbase);
    var n, neg := Padding(|sign| + |body|, width), Negative(i, b, sg);
    assert Numeral(i, b, sg, letbase) == sign + body;
    NumberLayout(i, b, sg, width, pad, letbase);
    BodyValue(i, b, sg, letbase);
    if pad.zero {
      ReadZeroFilled(neg, body, n, pad.right, b);
      Signed(Value(body, b), Pow(b, n));
    } else {
      ReadBlankFilled(neg, body, n, pad.right, b);
    }
  }

  lemma Signed(v: int, p: int)
    ensures -(v * p) == -v * p
  {
  }

  // ----- the digit buffer

  // Unpadded, a number takes six characters exactly when it is a signed decimal
  // of -10000 or below, and never more: one too many for a buffer of six.
  lemma NumeralLength(i: int16, b: nat, sg: bool, letbase: char)
    requires (b == 10 || b == 16) && LetBase(letbase)
    ensures |Numeral(i, b, sg, letbase)| <= 6
    ensures |Numeral(i, b, sg, letbase)| == 6 <==> Negative(i, b, sg) && i <= -10000
  {
    if i != 0 {
      var u := Magnitude(i, b, sg);
      assert Pow(10, 2) == 100 && Pow(16, 2) == 0x100;
      assert Pow(10, 3) == 1000 && Pow(16, 3) == 0x1000;
      assert Pow(10, 4) == 10000 && Pow(10, 5) == 100000 && Pow(16, 4) == 0x1_0000;
      DigitCount(u, b, letbase, 4);
      DigitCount(u, b, letbase, 5);
    }
  }

  // ----- formats are made of directives

  lemma {:induction false} DecimalsFront(f: string, g: string)
    requires Decimals(f) < |f|
    ensures Decimals(f + g) == Decimals(f)
  {
    if f != "" && IsDecimal(f[0]) {
      TailOfSum(f, g);
      DecimalsFront(f[1..], g);
    }
  }

  lemma {:induction false} ZerosFront(f: string, g: string)
    requires Zeros(f) < |f|
    ensures Zeros(f + g) == Zeros(f)
  {
    if f != "" && f[0] == '0' {
      TailOfSum(f, g);
      ZerosFront(f[1..], g);
    }
  }

  // The flags end at `m` and the width at `n`.
  lemma SpecIs(f: string, dash: nat, m: nat, n: nat)
    requires f != "" && dash == (if f[0] == '-' then 1 else 0)
    requires dash <= m <= n <= |f| && Zeros(f[dash..]) == m - dash && Decimals(f[m..]) == n - m
    ensures WidthEnd(f) == n && PadOf(f) == Pad(dash == 1, m > dash) && WidthOf(f) == Width(f[m..n])
  {
  }

  // A directive that is whole does not look at what follows it.
  lemma SpecFront(f: string, g: string)
    requires WidthEnd(f) < |f|
    ensures WidthEnd(f + g) == WidthEnd(f) && PadOf(f + g) == PadOf(f) && WidthOf(f + g) == WidthOf(f)
  {
    var dash := if f[0] == '-' then 1 else 0;
    var m := FlagsEnd(f);
    var n := Decimals(f[m..]);
    DropOfSum(f, g, dash);
    DropOfSum(f, g, m);
    ZerosFront(f[dash..], g);
    DecimalsFront(f[m..], g);
    SliceOfSum(f, g, m, m + n);
    SpecIs(f + g, dash, m, m + n);
  }

  lemma SliceOfSum(f: string, g: string, m: nat, n: nat)
    requires m <= n <= |f|
    ensures (f + g)[m..n] == f[m..n]
  {
  }

  lemma {:induction false} DecimalsBack(f: string, n: nat)
    requires Decimals(f) < n <= |f|
    ensures Decimals(f[..n]) == Decimals(f)
  {
    if f != "" && IsDecimal(f[0]) {
      DecimalsBack(f[1..], n - 1);
      assert f[..n][1..] == f[1..][..n - 1];
    }
  }

  lemma {:induction false} ZerosBack(f: string, n: nat)
    requires Zeros(f) < n <= |f|
    ensures Zeros(f[..n]) == Zeros(f)
  {
    if f != "" && f[0] == '0' {
      ZerosBack(f[1..], n - 1);
      assert f[..n][1..] == f[1..][..n - 1];
    }
  }

  lemma CutTail(s: string, n: nat, m: nat)
    requires m <= n <= |s|
    ensures s[..n][m..] == s[m..][..n - m]
  {
  }

  lemma SpecBack(s: string, n: nat)
    requires n == WidthEnd(s) < |s|
    ensures WidthEnd(s[..n + 1]) == n
  {
    var dash := if s[0] == '-' then 1 else 0;
    var m := FlagsEnd(s);
    CutTail(s, n + 1, dash);
    CutTail(s, n + 1, m);
    ZerosBack(s[dash..], n + 1 - dash);
    DecimalsBack(s[m..], n + 1 - m);
    SpecIs(s[..n + 1], dash, m, n);
  }

  lemma SpecStays(s: string, m: nat, g: string)
    requires m == WidthEnd(s) < |s|
    ensures var h := s[..m + 1] + g;
      WidthEnd(h) == m && PadOf(h) == PadOf(s) && WidthOf(h) == WidthOf(s) && h[m] == s[m]
  {
    SpecBack(s, m);
    SpecFront(s[..m + 1], s[m + 1..]);
    SpecFront(s[..m + 1], g);
    assert s == s[..m + 1] + s[m + 1..];
  }

  lemma FrontConv(f: string, spec: string, m: nat)
    requires |f| >= 2 && f[0] == '%' && f[1] != '%' && spec == f[1..] && m == WidthEnd(spec) < |spec|
    ensures FrontOf(f) == Take(Conv(PadOf(spec), WidthOf(spec), spec[m]), m + 2)
  {
  }

  // A whole directive at the front of a format means the same whatever follows it.
  lemma FrontStays(f: string, g: string)
    requires FrontOf(f).Take?
    ensures FrontOf(f[..FrontOf(f).n] + g) == FrontOf(f)
  {
    if f[0] == '%' && f[1] != '%' {
      var spec := f[1..];
      var m := WidthEnd(spec);
      SpecStays(spec, m, g);
      TailOfCut(f, m, g);
      FrontConv(f, spec, m);
      FrontConv(f[..m + 2] + g, spec[..m + 1] + g, m);
    }
  }

  lemma TailOfCut(f: string, m: nat, g: string)
    requires m + 2 <= |f|
    ensures (f[..m + 2] + g)[1..] == f[1..][..m + 1] + g
  {
  }

  lemma FirstDirective(f: string, g: string)
    requires FrontOf(f).Take?
    ensures Parse(f[..FrontOf(f).n] + g) == Prepend(FrontOf(f).it, Parse(g))
  {
    FrontStays(f, g);
    assert (f[..FrontOf(f).n] + g)[FrontOf(f).n..] == g;
  }

  lemma CutAt(f: string, n: nat, g: string)
    requires n <= |f|
    ensures f + g == f[..n] + (f[n..] + g)
  {
  }

  lemma CutAround(f: string, n: nat, whole: string, spec: string)
    requires n <= |f| && f[n..] == whole + "%" + spec
    ensures f == f[..n] + whole + "%" + spec
  {
    assert f == f[..n] + f[n..];
  }

  lemma PrependAppend(it: Item, p: Parsed, q: Parsed)
    ensures Prepend(it, Parsed(p.items + q.items, q.end)) == Parsed(Prepend(it, p).items + q.items, q.end)
  {
  }

  // After a complete format, whatever follows is parsed on its own.
  lemma {:induction false} ParseAppend(f: string, g: string)
    requires Parse(f).end == Complete
    ensures Parse(f + g) == Parsed(Parse(f).items + Parse(g).items, Parse(g).end)
    decreases |f|
  {
    if FrontOf(f).Stop? {
      assert f + g == g;
    } else {
      var Take(it, n) := FrontOf(f);
      FirstDirective(f, f[n..] + g);
      CutAt(f, n, g);
      ParseAppend(f[n..], g);
      PrependAppend(it, Parse(f[n..]), Parse(g));
    }
  }

  lemma TextFirst(a: seq<Item>, args: seq<Arg>, rest: string)
    requires a != [] && Match(a, args) && Needs(a[0]) <= |args|
    requires Text(a[1..], args[Needs(a[0])..]) == rest
    ensures Text(a, args) == ItemText(a[0], args) + rest
  {
  }

  lemma {:induction false} TextAppend(a: seq<Item>, b: seq<Item>, args: seq<Arg>)
    requires Match(a, args) && Uses(a) <= |args| && Match(b, args[Uses(a)..])
    ensures Match(a + b, args)
    ensures Text(a + b, args) == Text(a, args) + Text(b, args[Uses(a)..])
  {
    if a == [] {
      assert a + b == b && args[0..] == args;
    } else {
      var n := Needs(a[0]);
      var head, mine, other := ItemText(a[0], args), Text(a[1..], args[n..]), Text(b, args[Uses(a)..]);
      TailOfSum(a, b);
      Offset(args, n, Uses(a[1..]));
      TextAppend(a[1..], b, args[n..]);
      TextFirst(a, args, mine);
      TextFirst(a + b, args, mine + other);
      Assoc(head, mine, other);
    }
  }

  // print(f + g) is print(f) followed by print(g) on the arguments left over.
  lemma PrintAppend(f: string, g: string, args: seq<Arg>)
    requires Parse(f).end == Complete
    requires var n := Uses(Parse(f).items);
      Match(Parse(f).items, args) && n <= |args| && Match(Parse(g).items, args[n..])
    ensures Match(Parse(f + g).items, args)
    ensures Text(Parse(f + g).items, args)
            == Text(Parse(f).items, args) + Text(Parse(g).items, args[Uses(Parse(f).items)..])
  {
    ParseAppend(f, g);
    TextAppend(Parse(f).items, Parse(g).items, args);
  }

  // ----- formats that step past their terminator

  // A directive that has begun but has no conversion character: a dash, then
  // decimal digits, not both missing.
  predicate Unfinished(spec: string) {
    spec != "" && var rest := if spec[0] == '-' then spec[1..] else spec; Decimals(rest) == |rest|
  }

  lemma {:induction false} ZerosThenDecimals(f: string)
    ensures Zeros(f) + Decimals(f[Zeros(f)..]) == Decimals(f)
  {
    if f != "" && f[0] == '0' {
      ZerosThenDecimals(f[1..]);
      assert f[Zeros(f)..] == f[1..][Zeros(f[1..])..];
    }
  }

  lemma UnfinishedExactly(spec: string)
    requires spec != ""
    ensures WidthEnd(spec) == |spec| <==> Unfinished(spec)
  {
    var dash := if spec[0] == '-' then 1 else 0;
    var rest := spec[dash..];
    ZerosThenDecimals(rest);
    assert rest[Zeros(rest)..] == spec[FlagsEnd(spec)..];
  }

  // The format is a complete one followed by an unfinished directive.
  predicate Splits(f: string, whole: string, spec: string) {
    f == whole + "%" + spec && Parse(whole).end == Complete && Unfinished(spec)
  }

  lemma {:induction false} CutOffTail(f: string) returns (whole: string, spec: string)
    requires Parse(f).end == CutOff
    ensures Splits(f, whole, spec)
    decreases |f|
  {
    if FrontOf(f).Stop? {
      whole, spec := "", f[1..];
      UnfinishedExactly(spec);
      assert f == "" + "%" + spec;
    } else {
      var n := FrontOf(f).n;
      whole, spec := CutOffTail(f[n..]);
      FirstDirective(f, whole);
      CutAround(f, n, whole, spec);
      whole := f[..n] + whole;
    }
  }

  // print steps past the end of a format exactly when it splits in that way.
  lemma CutOffExactly(f: string)
    ensures Parse(f).end == CutOff <==> exists whole, spec :: Splits(f, whole, spec)
  {
    if Parse(f).end == CutOff {
      var whole, spec := CutOffTail(f);
    }
    forall whole, spec | Splits(f, whole, spec)
      ensures Parse(f).end == CutOff
    {
      var g := "%" + spec;
      UnfinishedExactly(spec);
      assert g[1..] == spec;
      Assoc(whole, "%", spec);
      ParseAppend(whole, g);
    }
  }
}
