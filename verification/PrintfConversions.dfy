// What each conversion character of a format prints, told from the text alone:
// reading a number back in the base of its letter gives the argument.

module PrintfConversions {
  import opened Osal
  import opened Sequences
  import opened PrintfModel
  import opened PrintfLaws
  import opened PrintfGrammar

  // ----- one directive in a format

  // A format that is one directive streams the text of that directive.
  lemma OneDirective(f: string, it: Item, args: seq<Arg>)
    requires Parse(f).items == [it] && Fits(it, args)
    ensures Match(Parse(f).items, args) && Text(Parse(f).items, args) == ItemText(it, args)
  {
    Units(ItemText(it, args));
  }

  // And every directive has such a format: its spelling.
  lemma SpelledAlone(it: Item)
    requires Spellable(it)
    ensures Parse(Spell(it)) == Parsed([it], Complete)
  {
    assert SpellAll([it]) == Spell(it) + SpellAll([]);
    Units(Spell(it));
    GrammarReadsBack([it]);
  }

  // Characters outside directives, and the percent sign, print themselves and
  // take no argument; neither does an unknown conversion, which prints nothing.
  lemma LiteralText(c: char, pad: Pad, width: nat, args: seq<Arg>)
    ensures Needs(Plain(c)) == 0 && ItemText(Plain(c), args) == [c]
    ensures Needs(Percent) == 0 && ItemText(Percent, args) == "%"
    ensures c !in "sdxXuc" ==> Needs(Conv(pad, width, c)) == 0 && ItemText(Conv(pad, width, c), args) == ""
    ensures c in "sdxXuc" ==> Needs(Conv(pad, width, c)) == 1
  {
  }

  // ----- numbers

  // The number conversions, and the base in which each is read.
  predicate IsNumber(kind: char) {
    kind in "duxX"
  }

  function BaseOf(kind: char): nat {
    if kind == 'x' || kind == 'X' then 16 else 10
  }

  // What a 16-bit int argument is worth to a conversion.
  function Meant(kind: char, i: int16): int {
    if kind == 'd' then i else if i < 0 then i + 0x1_0000 else i
  }

  // The text of a number, and the same without width and flags.
  function NumberText(kind: char, i: int16, width: nat, pad: Pad): string
    requires IsNumber(kind)
  {
    ItemText(Conv(pad, width, kind), [Int(i)])
  }

  function Unpadded(kind: char, i: int16): string
    requires IsNumber(kind)
  {
    NumberText(kind, i, 0, Pad(false, false))
  }

  // The base, sign flag and letters that a conversion asks printi for.
  lemma Asks(kind: char, i: int16, width: nat, pad: Pad) returns (b: nat, sg: bool, letbase: char)
    requires IsNumber(kind)
    ensures b == BaseOf(kind) && sg == (kind == 'd') && letbase == (if kind == 'X' then 'A' else 'a')
    ensures NumberText(kind, i, width, pad) == Number(i, b, sg, width, pad, letbase)
    ensures Worth(i, b, sg) == Meant(kind, i)
  {
    b, sg, letbase := BaseOf(kind), kind == 'd', if kind == 'X' then 'A' else 'a';
  }

  lemma PlainNumber(i: int16, b: nat, sg: bool, letbase: char)
    requires 2 <= b <= 36 && LetBase(letbase)
    ensures Number(i, b, sg, 0, Pad(false, false), letbase) == Numeral(i, b, sg, letbase)
  {
    NoFill(0);
    Units(Numeral(i, b, sg, letbase));
  }

  lemma PaddingIs(len: nat, width: nat)
    ensures Padding(len, width) == Max(width, len) - len
  {
  }

  // What it means for a text to read back as a number, `plain` being the same
  // without width and flags: zeros to the right count as digits.
  predicate ReadsAs(text: string, plain: string, b: nat, width: nat, pad: Pad, v: int) {
    && |text| == Max(width, |plain|)
    && ReadBack(text, b) == if pad.right && pad.zero then v * Pow(b, |text| - |plain|) else v
  }

  // Printed and read back, a number is what it was: i for %d, i modulo 2^16 for
  // %u, %x and %X.
  lemma NumberConversion(kind: char, i: int16, width: nat, pad: Pad, text: string, plain: string)
    requires IsNumber(kind) && text == NumberText(kind, i, width, pad) && plain == Unpadded(kind, i)
    ensures ReadsAs(text, plain, BaseOf(kind), width, pad, Meant(kind, i))
  {
    var b, sg, letbase := Asks(kind, i, 0, Pad(false, false));
    PlainNumber(i, b, sg, letbase);
    b, sg, letbase := Asks(kind, i, width, pad);
    ReadsBackAs(i, BaseOf(kind), sg, width, pad, letbase, text, plain, Meant(kind, i));
  }

  lemma ReadsBackAs(i: int16, b: nat, sg: bool, width: nat, pad: Pad, letbase: char,
                    text: string, plain: string, v: int)
    requires 2 <= b <= 36 && LetBase(letbase) && plain == Numeral(i, b, sg, letbase) && v == Worth(i, b, sg)
    requires text == Number(i, b, sg, width, pad, letbase)
    ensures ReadsAs(text, plain, b, width, pad, v)
  {
    NumberWidth(i, b, sg, width, pad, letbase);
    NumberReadsBack(i, b, sg, width, pad, letbase);
    PaddingIs(|plain|, width);
    assert Padding(|plain|, width) == |text| - |plain|;
  }

  // Unpadded, it has no digit too many: zero is one digit, and any other number
  // has at most n digits exactly when it is below the base to the n.
  lemma NumberIsShort(kind: char, i: int16, n: nat)
    requires IsNumber(kind)
    ensures i == 0 ==> Unpadded(kind, i) == "0"
    ensures var v, b := Meant(kind, i), BaseOf(kind);
      && (0 < v ==> (|Unpadded(kind, i)| <= n <==> v < Pow(b, n)))
      && (v < 0 ==> Unpadded(kind, i) != "" && Unpadded(kind, i)[0] == '-'
                    && (|Unpadded(kind, i)| <= n + 1 <==> -v < Pow(b, n)))
  {
    var b, sg, letbase := Asks(kind, i, 0, Pad(false, false));
    PlainNumber(i, b, sg, letbase);
    NumeralIsShort(i, b, sg, letbase, n, Meant(kind, i), Numeral(i, b, sg, letbase));
  }

  lemma NumeralIsShort(i: int16, b: nat, sg: bool, letbase: char, n: nat, v: int, plain: string)
    requires (b == 10 || b == 16) && LetBase(letbase) && v == Worth(i, b, sg) && plain == Numeral(i, b, sg, letbase)
    ensures i == 0 ==> plain == "0"
    ensures 0 < v ==> (|plain| <= n <==> v < Pow(b, n))
    ensures v < 0 ==> plain != "" && plain[0] == '-' && (|plain| <= n + 1 <==> -v < Pow(b, n))
  {
    if i != 0 {
      var u, neg := WorthIs(i, b, sg);
      var digits := Digits(u, b, letbase);
      DigitCount(u, b, letbase, n);
      assert plain == (if neg then "-" else "") + digits;
      Units(digits);
    }
  }

  lemma WorthIs(i: int16, b: nat, sg: bool) returns (u: nat, neg: bool)
    requires i != 0
    ensures u == Magnitude(i, b, sg) && neg == Negative(i, b, sg)
    ensures 0 < u && Worth(i, b, sg) == if neg then -(u as int) else u
  {
    u, neg := Magnitude(i, b, sg), Negative(i, b, sg);
  }

  // The same for what printf streams.
  lemma StreamedNumber(f: string, kind: char, i: int16, width: nat, pad: Pad, text: string, plain: string)
    requires IsNumber(kind) && Parse(f).items == [Conv(pad, width, kind)] && plain == Unpadded(kind, i)
    requires Match(Parse(f).items, [Int(i)]) ==> text == Text(Parse(f).items, [Int(i)])
    ensures Match(Parse(f).items, [Int(i)])
    ensures ReadsAs(text, plain, BaseOf(kind), width, pad, Meant(kind, i))
  {
    OneDirective(f, Conv(pad, width, kind), [Int(i)]);
    NumberConversion(kind, i, width, pad, text, plain);
  }

  // The characters of a number: blanks, a minus sign for %d alone, and digits of
  // its base, in lower case for %x and in upper case for %X.
  predicate NumberChar(kind: char, c: char) {
    || c == ' '
    || '0' <= c <= '9'
    || (c == '-' && kind == 'd')
    || ('a' <= c <= 'f' && kind == 'x')
    || ('A' <= c <= 'F' && kind == 'X')
  }

  lemma NumberCharacters(kind: char, i: int16, width: nat, pad: Pad)
    requires IsNumber(kind)
    ensures forall c | c in NumberText(kind, i, width, pad) :: NumberChar(kind, c)
  {
    var b, sg, letbase := Asks(kind, i, width, pad);
    DigitsCase(Magnitude(i, b, sg), b, letbase);
    NumberLayout(i, b, sg, width, pad, letbase);
    var sign, body := Sign(i, b, sg), Body(i, b, sg, letbase);
    forall c | c in body
      ensures NumberChar(kind, c)
    {
    }
    var n := Padding(|sign| + |body|, width);
    InThree(sign, body, Fill(if pad.zero then '0' else ' ', n));
    InThree(sign, Fill('0', n), body);
    InThree(Fill(' ', n), sign, body);
    forall c | c in NumberText(kind, i, width, pad)
      ensures NumberChar(kind, c)
    {
      assert c in sign || c in body || c in Fill('0', n) || c in Fill(' ', n);
    }
  }

  lemma InThree(a: string, b: string, c: string)
    ensures forall x | x in a + b + c :: x in a || x in b || x in c
  {
  }

  // ----- strings and characters

  // The fill of a padded text: on its right for a dash, zeros for a zero flag.
  predicate PaddedAs(text: string, s: string, width: nat, pad: Pad) {
    && |text| == (if width < |s| then |s| else width)
    && (pad.right ==> text[..|s|] == s && forall i | |s| <= i < |text| :: text[i] == if pad.zero then '0' else ' ')
    && (!pad.right ==> text[|text| - |s|..] == s
                       && forall i | 0 <= i < |text| - |s| :: text[i] == if pad.zero then '0' else ' ')
  }

  lemma FieldPads(s: string, width: nat, pad: Pad)
    ensures PaddedAs(Field(s, width, pad), s, width, pad)
  {
    var fill := Fill(PadChar(width, pad), Padding(|s|, width));
    SplitSum(s, fill);
    SplitSum(fill, s);
  }

  // %s prints the string, or "(null)".
  lemma StringConversion(s: Option<string>, width: nat, pad: Pad)
    requires s.Some? ==> CString(s.value)
    ensures PaddedAs(ItemText(Conv(pad, width, 's'), [Ptr(s)]), if s.None? then "(null)" else s.value, width, pad)
  {
    FieldPads(if s.None? then "(null)" else s.value, width, pad);
  }

  // %c prints the character with the low eight bits of its argument; a NUL ends
  // the text before it begins.
  lemma CharConversion(i: int16, width: nat, pad: Pad)
    ensures var code := i % 0x100;
      PaddedAs(ItemText(Conv(pad, width, 'c'), [Int(i)]), if code == 0 then "" else [code as char], width, pad)
  {
    var s := CharText(i);
    FieldPads(s, width, pad);
    CharItem(i, width, pad, s);
  }

  lemma CharItem(i: int16, width: nat, pad: Pad, s: string)
    requires s == CharText(i)
    ensures ItemText(Conv(pad, width, 'c'), [Int(i)]) == Field(s, width, pad)
    ensures s == if i % 0x100 == 0 then "" else [(i % 0x100) as char]
  {
  }

  // ----- arguments

  // A format takes one argument for each conversion it knows.
  function Conversions(items: seq<Item>): nat {
    if items == [] then 0
    else (if items[0].Conv? && items[0].kind in "sdxXuc" then 1 else 0) + Conversions(items[1..])
  }

  lemma {:induction false} OneArgumentEach(items: seq<Item>)
    ensures Uses(items) == Conversions(items)
  {
    if items != [] {
      OneArgumentEach(items[1..]);
    }
  }
}
