/** Integers as text: the log printer, in bases 8, 10 and 16 with sign and padding, and the small
    printf's hexadecimal. */
module NumberPrinting {
  import opened Quotients

  const WORDS := 0x1_0000_0000

  datatype Base = Octal | Decimal | Hex

  function Times(b: Base, x: int): (y: int) {
    match b case Octal => 8 * x case Decimal => 10 * x case Hex => 16 * x
  }

  function Quot(b: Base, x: nat): (q: nat) {
    match b case Octal => x / 8 case Decimal => x / 10 case Hex => x / 16
  }

  function Rem(b: Base, x: nat): (r: nat) {
    match b case Octal => x % 8 case Decimal => x % 10 case Hex => x % 16
  }

  function Pow(b: Base, n: nat): (p: nat)
    ensures p > 0
  {
    if n == 0 then 1 else Times(b, Pow(b, n - 1))
  }

  // ---- digits --------------------------------------------------------------------------

  /** How many digits a number has. */
  function Count(b: Base, v: nat): (n: nat)
    ensures n > 0
    decreases v
  {
    if Quot(b, v) == 0 then 1 else 1 + Count(b, Quot(b, v))
  }

  /** The n low digits, most significant first. */
  function DigitsN(b: Base, v: nat, n: nat): (digits: seq<nat>)
    ensures |digits| == n
    decreases n
  {
    if n == 0 then [] else DigitsN(b, Quot(b, v), n - 1) + [Rem(b, v)]
  }

  function Digits(b: Base, v: nat): (digits: seq<nat>) { DigitsN(b, v, Count(b, v)) }

  /** Reading digits: the usual evaluation from the left. */
  function ValueOf(b: Base, digits: seq<nat>): (v: nat) {
    if digits == [] then 0
    else Times(b, ValueOf(b, digits[..|digits| - 1])) + digits[|digits| - 1]
  }

  lemma Division(b: Base, v: nat)
    ensures v == Times(b, Quot(b, v)) + Rem(b, v)
    ensures Rem(b, v) < Times(b, 1)
  {
  }

  lemma {:induction false} CountBounds(b: Base, v: nat)
    ensures v < Pow(b, Count(b, v))
    ensures Count(b, v) == 1 || Pow(b, Count(b, v) - 1) <= v
    decreases v
  {
    if Quot(b, v) != 0 {
      CountBounds(b, Quot(b, v));
      Division(b, v);
    }
  }

  /** Evaluating the digits of a number gives the number back. */
  lemma {:induction false} DigitsReadBack(b: Base, v: nat, n: nat)
    requires v < Pow(b, n)
    ensures ValueOf(b, DigitsN(b, v, n)) == v
    decreases n
  {
    if n > 0 {
      Division(b, v);
      DigitsReadBack(b, Quot(b, v), n - 1);
      assert DigitsN(b, v, n)[..n - 1] == DigitsN(b, Quot(b, v), n - 1);
    }
  }

  lemma TimesOut(b: Base, q: nat, p: nat)
    ensures Times(b, q * p) == q * Times(b, p)
  {
  }

  /** Dividing by a power and by the base, in either order. */
  lemma Swap(b: Base, v: nat, p: nat)
    requires p > 0
    ensures Div(v, Times(b, p)) == Div(Quot(b, v), p)
    ensures Quot(b, Mod(v, Times(b, p))) == Mod(Quot(b, v), p)
    ensures Rem(b, Mod(v, Times(b, p))) == Rem(b, v)
  {
    var w, m := Quot(b, v), Rem(b, v);
    var q, r := Div(w, p), Mod(w, p);
    Division(b, v);
    TimesOut(b, q, p);
    DivMeans(w, p);
    DivUnique(v, q, Times(b, p), Times(b, r) + m);
  }

  /** The first of n digits is the quotient by the place value. */
  lemma {:induction false} FirstDigit(b: Base, v: nat, n: nat)
    requires n > 0 && v < Pow(b, n)
    ensures DigitsN(b, v, n)
         == [Div(v, Pow(b, n - 1))] + DigitsN(b, Mod(v, Pow(b, n - 1)), n - 1)
    decreases n
  {
    if n == 1 {
      OneDigit(b, v);
      DivUnique(v, v, 1, 0);
    } else {
      Division(b, v);
      FirstDigit(b, Quot(b, v), n - 1);
      Swap(b, v, Pow(b, n - 2));
      var low := Mod(v, Pow(b, n - 1));
      assert DigitsN(b, low, n - 1) == DigitsN(b, Quot(b, low), n - 2) + [Rem(b, low)];
    }
  }

  lemma OneDigit(b: Base, v: nat)
    requires v < Pow(b, 1)
    ensures DigitsN(b, v, 1) == [v]
  {
    assert DigitsN(b, Quot(b, v), 0) == [];
  }

  lemma {:induction false} DigitsAreDigits(b: Base, v: nat, n: nat)
    ensures forall k :: 0 <= k < n ==> DigitsN(b, v, n)[k] < Times(b, 1)
    decreases n
  {
    if n > 0 {
      Division(b, v);
      DigitsAreDigits(b, Quot(b, v), n - 1);
    }
  }

  /** The first digit of a number is zero only if it is the only one. */
  lemma NoLeadingZero(b: Base, v: nat)
    ensures |Digits(b, v)| == 1 || Digits(b, v)[0] != 0
  {
    var n := Count(b, v);
    CountBounds(b, v);
    FirstDigit(b, v, n);
    if n > 1 {
      QuotientPositive(v, Pow(b, n - 1));
    }
  }

  lemma QuotientPositive(v: nat, p: nat)
    requires 0 < p <= v
    ensures Div(v, p) > 0
  {
    DivMeans(v, p);
  }

  // ---- characters ----------------------------------------------------------------------

  function DigitChar(d: nat, upper: bool): (c: char)
    requires d < 16
  {
    if d <= 9 then (48 + d) as char
    else if upper then (65 + d - 10) as char else (97 + d - 10) as char
  }

  function CharDigit(c: char): (d: nat) {
    if '0' <= c <= '9' then c as int - 48
    else if 'a' <= c <= 'f' then c as int - 87
    else if 'A' <= c <= 'F' then c as int - 55
    else 0
  }

  lemma CharReadsBack(d: nat, upper: bool)
    requires d < 16
    ensures CharDigit(DigitChar(d, upper)) == d
    ensures DigitChar(d, upper) != ' ' && DigitChar(d, upper) != '-'
    ensures d > 9 ==> if upper then 'A' <= DigitChar(d, upper) <= 'F' else 'a' <= DigitChar(d, upper) <= 'f'
  {
  }

  predicate AllDigits(digits: seq<nat>) { forall k :: 0 <= k < |digits| ==> digits[k] < 16 }

  function Chars(digits: seq<nat>, upper: bool): (s: string)
    requires AllDigits(digits)
    ensures |s| == |digits|
  {
    seq(|digits|, k requires 0 <= k < |digits| => DigitChar(digits[k], upper))
  }

  function DigitsOf(s: string): (digits: seq<nat>)
    ensures |digits| == |s|
  {
    seq(|s|, k requires 0 <= k < |s| => CharDigit(s[k]))
  }

  /** The digits of a number as text. */
  function Text(b: Base, v: nat, upper: bool): (s: string)
    ensures |s| == Count(b, v)
  {
    DigitsAreDigits(b, v, Count(b, v));
    Chars(Digits(b, v), upper)
  }

  // ---- fields --------------------------------------------------------------------------

  function Repeat(c: char, n: int): (s: string) { if n <= 0 then "" else seq(n, _ => c) }

  function Sign(negative: bool): (s: string) { if negative then "-" else "" }

  /** What comes before the digits, given the room they leave: blanks go before the sign, zeros
      after it. */
  function Lead(negative: bool, room: int, zeros: bool): (s: string) {
    var pad := room - |Sign(negative)|;
    if zeros then Sign(negative) + Repeat('0', pad) else Repeat(' ', pad) + Sign(negative)
  }

  function Layout(negative: bool, width: int, zeros: bool, digits: string): (s: string) {
    Lead(negative, width - |digits|, zeros) + digits
  }

  lemma FieldLength(negative: bool, width: int, zeros: bool, digits: string)
    ensures var needed := |digits| + |Sign(negative)|;
      |Layout(negative, width, zeros, digits)| == if width > needed then width else needed
  {
  }

  /** Padding is all of one kind: zeros between sign and digits, or blanks before both. */
  lemma PadIsPure(negative: bool, width: int, zeros: bool, digits: string)
    ensures var s, sign := Layout(negative, width, zeros, digits), |Sign(negative)|;
      && s[|s| - |digits|..] == digits
      && (zeros ==> s[..sign] == Sign(negative)
                    && forall k :: sign <= k < |s| - |digits| ==> s[k] == '0')
      && (!zeros ==> s[|s| - |digits| - sign..|s| - |digits|] == Sign(negative)
                     && forall k :: 0 <= k < |s| - |digits| - sign ==> s[k] == ' ')
  {
    var lead := Lead(negative, width - |digits|, zeros);
    assert (lead + digits)[|lead|..] == digits && (lead + digits)[..|lead|] == lead;
  }

  /** What a printed word stands for: the top bit is a sign if the format says so. */
  function Meaning(word: nat, signed: bool): (v: int) {
    if signed && word >= 0x8000_0000 then word - WORDS else word
  }

  function Magnitude(v: int): (m: nat) { if v < 0 then -v else v }

  function Printed(b: Base, v: int, width: int, zeros: bool, upper: bool): (s: string) {
    Layout(v < 0, width, zeros, Text(b, Magnitude(v), upper))
  }

  /** Reading a field: blanks, a sign, digits. */
  function ReadField(b: Base, s: string): (v: int)
    decreases |s|
  {
    if s != [] && s[0] == ' ' then ReadField(b, s[1..])
    else if s != [] && s[0] == '-' then 0 - ValueOf(b, DigitsOf(s[1..]))
    else ValueOf(b, DigitsOf(s))
  }

  lemma {:induction false} BlanksSkipped(b: Base, n: int, rest: string)
    ensures ReadField(b, Repeat(' ', n) + rest) == ReadField(b, rest)
    decreases n
  {
    if n <= 0 {
      assert Repeat(' ', n) + rest == rest;
    } else {
      assert (Repeat(' ', n) + rest)[1..] == Repeat(' ', n - 1) + rest;
      BlanksSkipped(b, n - 1, rest);
    }
  }

  predicate AllZero(zeros: seq<nat>) { forall k :: 0 <= k < |zeros| ==> zeros[k] == 0 }

  lemma {:induction false} ZerosSkipped(b: Base, zeros: seq<nat>, digits: seq<nat>)
    requires AllZero(zeros)
    ensures ValueOf(b, zeros + digits) == ValueOf(b, digits)
    decreases |zeros| + |digits|
  {
    var all := zeros + digits;
    if digits != [] {
      assert all[..|all| - 1] == zeros + digits[..|digits| - 1];
      ZerosSkipped(b, zeros, digits[..|digits| - 1]);
    } else if zeros != [] {
      assert all == zeros && zeros[..|zeros| - 1] + [] == zeros[..|zeros| - 1];
      ZerosSkipped(b, zeros[..|zeros| - 1], []);
    }
  }

  lemma TextReadsBack(b: Base, m: nat, upper: bool, pad: int)
    ensures ValueOf(b, DigitsOf(Repeat('0', pad) + Text(b, m, upper))) == m
  {
    var text := Text(b, m, upper);
    var zeros := DigitsOf(Repeat('0', pad));
    DigitsAreDigits(b, m, Count(b, m));
    forall k | 0 <= k < |text| ensures DigitsOf(text)[k] == Digits(b, m)[k] {
      CharReadsBack(Digits(b, m)[k], upper);
    }
    assert DigitsOf(text) == Digits(b, m);
    assert DigitsOf(Repeat('0', pad) + text) == zeros + Digits(b, m);
    ZerosSkipped(b, zeros, Digits(b, m));
    CountBounds(b, m);
    DigitsReadBack(b, m, Count(b, m));
  }

  lemma TextStart(b: Base, m: nat, upper: bool)
    ensures Text(b, m, upper)[0] != ' ' && Text(b, m, upper)[0] != '-'
  {
    DigitsAreDigits(b, m, Count(b, m));
    CharReadsBack(Digits(b, m)[0], upper);
  }

  lemma ZeroLeadReads(b: Base, negative: bool, pad: int, text: string)
    requires text != [] && text[0] != ' ' && text[0] != '-'
    ensures var m := ValueOf(b, DigitsOf(Repeat('0', pad) + text));
      ReadField(b, Sign(negative) + Repeat('0', pad) + text) == if negative then 0 - m else m
  {
    UnsignedReads(b, negative, Repeat('0', pad) + text);
    assert Sign(negative) + Repeat('0', pad) + text == Sign(negative) + (Repeat('0', pad) + text);
  }

  lemma BlankLeadReads(b: Base, negative: bool, pad: int, text: string)
    requires text != [] && text[0] != ' ' && text[0] != '-'
    ensures var m := ValueOf(b, DigitsOf(text));
      ReadField(b, Repeat(' ', pad) + Sign(negative) + text) == if negative then 0 - m else m
  {
    UnsignedReads(b, negative, text);
    assert Repeat(' ', pad) + Sign(negative) + text == Repeat(' ', pad) + (Sign(negative) + text);
    BlanksSkipped(b, pad, Sign(negative) + text);
  }

  lemma ZeroPaddedReadsBack(b: Base, v: int, width: int, upper: bool)
    ensures ReadField(b, Printed(b, v, width, true, upper)) == v
  {
    var text := Text(b, Magnitude(v), upper);
    var pad := width - |text| - |Sign(v < 0)|;
    TextStart(b, Magnitude(v), upper);
    TextReadsBack(b, Magnitude(v), upper, pad);
    ZeroLeadReads(b, v < 0, pad, text);
  }

  lemma BlankPaddedReadsBack(b: Base, v: int, width: int, upper: bool)
    ensures ReadField(b, Printed(b, v, width, false, upper)) == v
  {
    var text := Text(b, Magnitude(v), upper);
    TextStart(b, Magnitude(v), upper);
    TextReadsBack(b, Magnitude(v), upper, 0);
    assert Repeat('0', 0) + text == text;
    BlankLeadReads(b, v < 0, width - |text| - |Sign(v < 0)|, text);
  }

  /** Every field reads back to the value printed. */
  lemma FieldReadsBack(b: Base, v: int, width: int, zeros: bool, upper: bool)
    ensures ReadField(b, Printed(b, v, width, zeros, upper)) == v
  {
    if zeros {
      ZeroPaddedReadsBack(b, v, width, upper);
    } else {
      BlankPaddedReadsBack(b, v, width, upper);
    }
  }

  lemma UnsignedReads(b: Base, negative: bool, rest: string)
    requires rest != [] && rest[0] != ' ' && rest[0] != '-'
    ensures var m := ValueOf(b, DigitsOf(rest));
      ReadField(b, Sign(negative) + rest) == if negative then 0 - m else m
  {
    if negative {
      assert ("-" + rest)[1..] == rest;
    } else {
      assert "" + rest == rest;
    }
  }

  // ---- the log printer -----------------------------------------------------------------

  lemma PowerQuotient(b: Base, n: nat)
    ensures Quot(b, Pow(b, n)) == if n == 0 then 0 else Pow(b, n - 1)
  {
  }

  /** Print an integer as the log printer does; a width of -1 means none was given. */
  method PrintInteger(word: nat, b: Base, signed: bool, zeros: bool, width: int, upper: bool)
    returns (out: string)
    requires word < WORDS
    ensures out == Printed(b, Meaning(word, signed), width, zeros, upper)
  {
    var v, sign := StripSign(word, signed);
    var digitCount, p := CountDigits(b, v);
    var lead := PrintLead(sign, width - digitCount, zeros);
    var digits := PrintDigits(b, v, p, upper);
    PrintedIs(b, Meaning(word, signed), v, width, zeros, upper);
    out := lead + digits;
  }

  lemma PrintedIs(b: Base, v: int, m: nat, width: int, zeros: bool, upper: bool)
    requires m == Magnitude(v)
    ensures Printed(b, v, width, zeros, upper) == Lead(v < 0, width - Count(b, m), zeros) + Text(b, m, upper)
  {
  }

  /** A word with the top bit set is negated if the format is a signed one. */
  method StripSign(word: nat, signed: bool) returns (v: nat, sign: bool)
    requires word < WORDS
    ensures v == Magnitude(Meaning(word, signed)) && sign == (Meaning(word, signed) < 0)
  {
    v := word;
    sign := false;
    if signed && v >= 0x8000_0000 {
      v := WORDS - v;
      sign := true;
    }
  }

  /** The padding and the sign. */
  method PrintLead(sign: bool, room: int, zeros: bool) returns (out: string)
    ensures out == Lead(sign, room, zeros)
  {
    var before := room;
    out := "";
    if zeros {
      if sign {
        out := out + "-";
        before := before - 1;
      }
      out := out + Repeat('0', before);
    } else {
      if sign {
        before := before - 1;
      }
      out := out + Repeat(' ', before);
      if sign {
        out := out + "-";
      }
    }
  }

  /** Count the digits, and get the place value of the first: it never passes the number, so it
      does not overflow. */
  method CountDigits(b: Base, v: nat) returns (digitCount: nat, p: nat)
    ensures digitCount == Count(b, v) && p == Pow(b, digitCount - 1)
    ensures p == 1 || p <= v
  {
    var vShrink := v;
    p, digitCount := 1, 1;
    while Quot(b, vShrink) > 0
      invariant digitCount >= 1 && p == Pow(b, digitCount - 1)
      invariant Count(b, v) == digitCount - 1 + Count(b, vShrink)
      decreases vShrink
    {
      vShrink := Quot(b, vShrink);
      digitCount := digitCount + 1;
      p := Times(b, p);
    }
    CountBounds(b, v);
  }

  function TextN(b: Base, v: nat, n: nat, upper: bool): (s: string) {
    DigitsAreDigits(b, v, n);
    Chars(DigitsN(b, v, n), upper)
  }

  lemma NextDigit(b: Base, v: nat, n: nat, p: nat, upper: bool)
    requires n > 0 && p == Pow(b, n - 1) && v < Pow(b, n)
    ensures Div(v, p) < 16
    ensures TextN(b, v, n, upper) == [DigitChar(Div(v, p), upper)] + TextN(b, Mod(v, p), n - 1, upper)
  {
    FirstDigit(b, v, n);
    DigitsAreDigits(b, v, n);
    DigitsAreDigits(b, Mod(v, p), n - 1);
    assert DigitsN(b, v, n)[0] == Div(v, p);
  }

  /** The place value p goes with n digits left; none are left when it is zero. */
  predicate PlaceOf(b: Base, v: nat, p: nat, n: nat) {
    if n == 0 then p == 0 else p == Pow(b, n - 1) && v < Pow(b, n)
  }

  /** One turn of the digit loop. */
  method PrintDigit(b: Base, v: nat, p: nat, upper: bool, ghost n: nat)
    returns (c: char, rest: nat, place: nat)
    requires n > 0 && PlaceOf(b, v, p, n)
    ensures PlaceOf(b, rest, place, n - 1)
    ensures TextN(b, v, n, upper) == [c] + TextN(b, rest, n - 1, upper)
  {
    NextDigit(b, v, n, p, upper);
    PowerQuotient(b, n - 1);
    c := DigitChar(Div(v, p), upper);
    rest := Mod(v, p);
    place := Quot(b, p);
  }

  method PrintDigits(b: Base, v0: nat, p0: nat, upper: bool) returns (out: string)
    requires p0 == Pow(b, Count(b, v0) - 1)
    ensures out == Text(b, v0, upper)
  {
    var v: nat, p: nat := v0, p0;
    ghost var left: nat := Count(b, v0);
    ghost var whole := TextN(b, v0, left, upper);
    out := "";
    CountBounds(b, v0);
    while p != 0
      invariant PlaceOf(b, v, p, left) && out + TextN(b, v, left, upper) == whole
      decreases left
    {
      var c;
      c, v, p := PrintDigit(b, v, p, upper, left);
      left := left - 1;
      out := out + [c];
    }
  }

  // ---- the small printf ----------------------------------------------------------------

  /** (v & (0xF << 4 * place)) >> 4 * place. */
  function Nibble(v: nat, place: nat): (digit: nat)
    ensures digit < 16
  {
    Div(v, Pow(Hex, place)) % 16
  }

  lemma QuotientByBoth(v: nat, p: nat)
    requires p > 0
    ensures Div(v, 16 * p) == Div(v, p) / 16
  {
    var d, r := Div(v, p), Mod(v, p);
    var e, f := d / 16, d % 16;
    DivMeans(v, p);
    Spread(e, f, p);
    ProductGrows(f, 15, p);
    DivUnique(v, e, 16 * p, f * p + r);
  }

  lemma Spread(e: nat, f: nat, p: nat)
    ensures (16 * e + f) * p == e * (16 * p) + f * p
  {
  }

  /** The digits of v above a place, and the one at it. */
  lemma DigitAt(v: nat, place: nat, n: nat)
    ensures TextN(Hex, Div(v, Pow(Hex, place)), n + 1, false)
         == TextN(Hex, Div(v, Pow(Hex, place + 1)), n, false) + [DigitChar(Nibble(v, place), false)]
  {
    QuotientByBoth(v, Pow(Hex, place));
    LastDigit(Div(v, Pow(Hex, place)), n);
  }

  lemma LastDigit(w: nat, n: nat)
    ensures TextN(Hex, w, n + 1, false) == TextN(Hex, w / 16, n, false) + [DigitChar(w % 16, false)]
  {
    DigitsAreDigits(Hex, w, n + 1);
    DigitsAreDigits(Hex, w / 16, n);
  }

  lemma {:induction false} CountIsUnique(b: Base, v: nat, n: nat)
    requires n > 0 && v < Pow(b, n) && (n == 1 || Pow(b, n - 1) <= v)
    ensures n == Count(b, v)
    decreases n
  {
    Division(b, v);
    if n == 1 {
      assert Pow(b, 1) == Times(b, 1);
    } else {
      assert Pow(b, n - 1) == Times(b, Pow(b, n - 2));
      if n > 2 {
        assert Pow(b, n - 2) <= Quot(b, v);
      }
      CountIsUnique(b, Quot(b, v), n - 1);
    }
  }

  lemma ZeroNibble(v: nat, place: nat)
    requires v < Pow(Hex, place + 1) && Nibble(v, place) == 0
    ensures v < Pow(Hex, place)
  {
    var p := Pow(Hex, place);
    DivMeans(v, p);
    if Div(v, p) >= 16 {
      ProductGrows(16, Div(v, p), p);
    }
  }

  lemma NonzeroNibble(v: nat, place: nat)
    requires Nibble(v, place) != 0
    ensures Pow(Hex, place) <= v
  {
    if v < Pow(Hex, place) {
      DivUnique(v, 0, Pow(Hex, place), v);
    }
  }

  lemma EightDigits()
    ensures Pow(Hex, 8) == WORDS
  {
    assert Pow(Hex, 4) == 0x1_0000;
  }

  /** Find the first nonzero digit, then print from there on. */
  method PrintHex(v: nat) returns (out: string)
    requires v < WORDS
    ensures out == Text(Hex, v, false)
  {
    if v == 0 {
      return "0";
    }
    var place: nat := 7;
    EightDigits();
    while Nibble(v, place) == 0
      invariant v < Pow(Hex, place + 1)
      decreases place
    {
      ZeroNibble(v, place);
      place := place - 1;
    }
    NonzeroNibble(v, place);
    CountIsUnique(Hex, v, place + 1);
    out := PrintFrom(v, place + 1);
  }

  method PrintFrom(v: nat, n: nat) returns (out: string)
    requires v < Pow(Hex, n)
    ensures out == TextN(Hex, v, n, false)
  {
    var left: nat := n;
    out := "";
    DivUnique(v, 0, Pow(Hex, n), v);
    while left > 0
      invariant left <= n
      invariant out == TextN(Hex, Div(v, Pow(Hex, left)), n - left, false)
    {
      left := left - 1;
      DigitAt(v, left, n - left - 1);
      out := out + [DigitChar(Nibble(v, left), false)];
    }
    DivUnique(v, v, 1, 0);
  }

  /** The log's plain %x, unsigned and without a width, is the string of the small printf. */
  lemma PlainHexAgrees(word: nat)
    ensures Printed(Hex, Meaning(word, false), -1, false, false) == Text(Hex, word, false)
  {
    assert Lead(false, -1 - Count(Hex, word), false) == "";
  }
}
