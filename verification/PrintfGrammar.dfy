// The grammar of formats, independent of how print reads them: every sequence of
// directives has a spelling, and print reads that spelling back.

module PrintfGrammar {
  import opened Sequences
  import opened PrintfModel
  import opened PrintfLaws

  // A conversion character ends the width, and without flags or width it is not
  // taken for a flag or for a second percent sign.
  predicate Spellable(it: Item) {
    match it
    case Plain(c) => c != '%'
    case Percent => true
    case Conv(pad, width, kind) =>
      !IsDecimal(kind) && (!pad.right && !pad.zero && width == 0 ==> kind != '-' && kind != '%')
  }

  function Dash(pad: Pad): string {
    if pad.right then "-" else ""
  }

  function Zero(pad: Pad): string {
    if pad.zero then "0" else ""
  }

  function SpellSpec(pad: Pad, width: nat, kind: char): string {
    Dash(pad) + Zero(pad) + Digits(width, 10, 'a') + [kind]
  }

  function Spell(it: Item): string {
    match it
    case Plain(c) => [c]
    case Percent => "%%"
    case Conv(pad, width, kind) => "%" + SpellSpec(pad, width, kind)
  }

  function SpellAll(items: seq<Item>): string {
    if items == [] then "" else Spell(items[0]) + SpellAll(items[1..])
  }

  lemma {:induction false} WidthDigits(w: nat)
    ensures forall c | c in Digits(w, 10, 'a') :: IsDecimal(c)
    ensures Width(Digits(w, 10, 'a')) == w
    decreases w
  {
    if w != 0 {
      Shrinks(w, 10);
      WidthDigits(w / 10);
      var front, c := Digits(w / 10, 10, 'a'), DigitChar(w % 10, 'a');
      assert (front + [c])[..|front|] == front;
    }
  }

  lemma {:induction false} NoLeadingZero(w: nat)
    requires w != 0
    ensures Digits(w, 10, 'a') != "" && Digits(w, 10, 'a')[0] != '0'
    decreases w
  {
    Shrinks(w, 10);
    if w / 10 != 0 {
      NoLeadingZero(w / 10);
    } else {
      assert Digits(0, 10, 'a') == "";
      assert w % 10 == w;
    }
  }

  lemma {:induction false} DecimalsStop(s: string, rest: string)
    requires (forall c | c in s :: IsDecimal(c)) && rest != "" && !IsDecimal(rest[0])
    ensures Decimals(s + rest) == |s|
  {
    if s == "" {
      assert s + rest == rest;
    } else {
      assert IsDecimal(s[0]);
      DecimalsStop(s[1..], rest);
      TailOfSum(s, rest);
    }
  }

  lemma ZeroFlag(pad: Pad, rest: string)
    requires rest != "" && rest[0] != '0'
    ensures Zeros(Zero(pad) + rest) == |Zero(pad)|
  {
    if pad.zero {
      assert ("0" + rest)[1..] == rest;
    } else {
      assert "" + rest == rest;
    }
  }

  lemma FlagsReadBack(pad: Pad, tail: string)
    requires tail != "" && tail[0] != '0' && (!pad.right && !pad.zero ==> tail[0] != '-')
    ensures var spec := Dash(pad) + Zero(pad) + tail;
      FlagsEnd(spec) == |Dash(pad)| + |Zero(pad)| && PadOf(spec) == pad
  {
    var spec := Dash(pad) + Zero(pad) + tail;
    assert spec[|Dash(pad)|..] == Zero(pad) + tail;
    ZeroFlag(pad, tail);
  }

  lemma WidthReadsBack(flags: string, digits: string, kind: char)
    requires (forall c | c in digits :: IsDecimal(c)) && !IsDecimal(kind)
    requires FlagsEnd(flags + (digits + [kind])) == |flags|
    ensures var spec := flags + (digits + [kind]);
      WidthEnd(spec) == |spec| - 1 && WidthOf(spec) == Width(digits)
  {
    var spec := flags + (digits + [kind]);
    assert spec[|flags|..] == digits + [kind];
    DecimalsStop(digits, [kind]);
    assert spec[|flags|..|flags| + |digits|] == digits;
  }

  // Flags and width, spelled and read back.
  lemma SpecReadsBack(pad: Pad, width: nat, kind: char)
    requires Spellable(Conv(pad, width, kind))
    ensures var spec := SpellSpec(pad, width, kind);
      && WidthEnd(spec) == |spec| - 1
      && spec[|spec| - 1] == kind && spec[0] != '%'
      && PadOf(spec) == pad && WidthOf(spec) == width
  {
    var digits := Digits(width, 10, 'a');
    var tail := digits + [kind];
    WidthDigits(width);
    if width != 0 {
      NoLeadingZero(width);
      assert digits[0] in digits;
    }
    FlagsReadBack(pad, tail);
    Assoc(Dash(pad) + Zero(pad), digits, [kind]);
    WidthReadsBack(Dash(pad) + Zero(pad), digits, kind);
  }

  lemma WholeDirective(s: string, it: Item, g: string)
    requires FrontOf(s) == Take(it, |s|)
    ensures Parse(s + g) == Prepend(it, Parse(g))
  {
    assert s[..|s|] == s;
    FirstDirective(s, g);
  }

  lemma ConvReadsBack(pad: Pad, width: nat, kind: char, g: string)
    requires Spellable(Conv(pad, width, kind))
    ensures Parse(Spell(Conv(pad, width, kind)) + g) == Prepend(Conv(pad, width, kind), Parse(g))
  {
    var s, spec := Spell(Conv(pad, width, kind)), SpellSpec(pad, width, kind);
    SpecReadsBack(pad, width, kind);
    assert s[1..] == spec;
    FrontConv(s, spec, |spec| - 1);
    WholeDirective(s, Conv(pad, width, kind), g);
  }

  lemma SpellReadsBack(it: Item, g: string)
    requires Spellable(it)
    ensures Parse(Spell(it) + g) == Prepend(it, Parse(g))
  {
    var s := Spell(it);
    match it
    case Plain(c) => assert (s + g)[1..] == g;
    case Percent => assert (s + g)[2..] == g;
    case Conv(pad, width, kind) => ConvReadsBack(pad, width, kind, g);
  }

  // Every sequence of directives is what print makes of its spelling.
  lemma {:induction false} GrammarReadsBack(items: seq<Item>)
    requires forall it | it in items :: Spellable(it)
    ensures Parse(SpellAll(items)) == Parsed(items, Complete)
  {
    if items != [] {
      GrammarReadsBack(items[1..]);
      assert items[0] in items;
      SpellReadsBack(items[0], SpellAll(items[1..]));
      assert [items[0]] + items[1..] == items;
    }
  }
}
