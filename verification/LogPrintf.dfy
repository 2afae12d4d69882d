/** The format language of the log printer: the state machine that reads a format string, and what
    it prints for a format put together from literal text and number directives. */
module LogPrintf {
  import opened NumberPrinting

  /** An argument; on this processor int and long are both 32-bit words. */
  datatype Arg = Word(word: nat) | Str(text: string)

  datatype Mode = Plain | FirstFormatChar | OtherFormatChar

  /** Where the machine is, what it has read of a directive, the arguments left and the text
      printed.  A width or precision of -1 has not been given. */
  datatype Machine = Machine(mode: Mode, zeros: bool, before: int, afterPoint: int, radix: Base,
                             signed: bool, upper: bool, args: seq<Arg>, out: string)

  // ---- one character -------------------------------------------------------------------

  /** A missing or mistyped argument, to which C gives no meaning, reads as zero or empty. */
  function NextWord(args: seq<Arg>): (w: nat)
    ensures w < WORDS
  {
    if args != [] && args[0].Word? then args[0].word % 0x1_0000_0000 else 0
  }

  function NextText(args: seq<Arg>): (s: string) {
    if args != [] && args[0].Str? then args[0].text else ""
  }

  function RestOf(args: seq<Arg>): (rest: seq<Arg>) { if args == [] then [] else args[1..] }

  predicate IsDigit(c: char) { '0' <= c <= '9' }

  function Printing(m: Machine, text: string): (n: Machine) {
    m.(out := m.out + text, args := RestOf(m.args), mode := Plain)
  }

  function Number(m: Machine): (n: Machine) {
    Printing(m, Printed(m.radix, Meaning(NextWord(m.args), m.signed), m.before, m.zeros, m.upper))
  }

  /** The letter that ends a directive; an unknown one prints nothing. */
  function Letter(m: Machine, c: char): (n: Machine) {
    match c
    case 'd' => Number(m)
    case 'i' => Number(m)
    case 'u' => Number(m.(signed := false))
    case 'o' => Number(m.(signed := false, radix := Octal))
    case 'x' => Number(m.(signed := false, radix := Hex))
    case 'X' => Number(m.(signed := false, radix := Hex, upper := true))
    case 'c' => Printing(m, Repeat(' ', m.before - 1) + [(NextWord(m.args) % 256) as char])
    case 's' => Printing(m, Repeat(' ', m.before - |NextText(m.args)|) + NextText(m.args))
    case _ => m.(mode := Plain)
  }

  function OtherChar(m: Machine, c: char): (n: Machine) {
    if c == '.' then m.(afterPoint := 0)
    else if IsDigit(c) then
      var d := CharDigit(c);
      if m.afterPoint < 0 then m.(before := (if m.before < 0 then 0 else m.before * 10) + d)
      else m.(afterPoint := m.afterPoint * 10 + d)
    else if c == 'l' then m
    else Letter(m, c)
  }

  function Feed(m: Machine, c: char): (n: Machine) {
    match m.mode
    case Plain =>
      if c == '%' then Machine(FirstFormatChar, false, -1, -1, Decimal, true, false, m.args, m.out)
      else m.(out := m.out + [c])
    case FirstFormatChar =>
      if c == '0' then m.(zeros := true, mode := OtherFormatChar)
      else if c == '%' then m.(out := m.out + "%", mode := Plain)
      else OtherChar(m.(mode := OtherFormatChar), c)
    case OtherFormatChar => OtherChar(m, c)
  }

  function Run(m: Machine, fmt: string): (n: Machine)
    decreases |fmt|
  {
    if fmt == [] then m else Run(Feed(m, fmt[0]), fmt[1..])
  }

  /** The machine before a format is read; its directive fields are set by each directive. */
  function Start(args: seq<Arg>): (m: Machine) {
    Machine(Plain, false, 0, 0, Decimal, false, false, args, "")
  }

  lemma {:induction false} RunAppends(m: Machine, first: string, second: string)
    ensures Run(m, first + second) == Run(Run(m, first), second)
    decreases |first|
  {
    if first == [] {
      assert first + second == second;
    } else {
      assert (first + second)[1..] == first[1..] + second;
      RunAppends(Feed(m, first[0]), first[1..], second);
    }
  }

  // ---- formats put together from pieces ------------------------------------------------

  datatype Conversion = Signed(i: bool) | Unsigned | InOctal | InHex(upper: bool)

  /** Literal text, or a number with a pad, a width (zero for none), and the long flag. */
  datatype Piece =
    | Literal(text: string)
    | Field(zeros: bool, width: nat, isLong: bool, conversion: Conversion)

  function LetterOf(k: Conversion): (c: char) {
    match k
    case Signed(i) => if i then 'i' else 'd'
    case Unsigned => 'u'
    case InOctal => 'o'
    case InHex(upper) => if upper then 'X' else 'x'
  }

  function BaseOf(k: Conversion): (b: Base) {
    match k
    case Signed(_) => Decimal
    case Unsigned => Decimal
    case InOctal => Octal
    case InHex(_) => Hex
  }

  /** A percent sign in literal text is doubled. */
  function Escaped(text: string): (s: string) {
    if text == [] then "" else (if text[0] == '%' then "%%" else [text[0]]) + Escaped(text[1..])
  }

  function WidthText(width: nat): (s: string) {
    if width == 0 then "" else Text(Decimal, width, false)
  }

  function FormatOf(p: Piece): (s: string) {
    match p
    case Literal(text) => Escaped(text)
    case Field(zeros, width, isLong, conversion) =>
      "%" + (if zeros then "0" else "") + WidthText(width) + (if isLong then "l" else "")
      + [LetterOf(conversion)]
  }

  function Format(pieces: seq<Piece>): (s: string) {
    if pieces == [] then "" else FormatOf(pieces[0]) + Format(pieces[1..])
  }

  /** What a piece is meant to print, given the next argument. */
  function Meant(p: Piece, args: seq<Arg>): (s: string) {
    match p
    case Literal(text) => text
    case Field(zeros, width, _, conversion) =>
      Printed(BaseOf(conversion), Meaning(NextWord(args), conversion.Signed?), width, zeros,
              conversion.InHex? && conversion.upper)
  }

  function ArgsAfter(p: Piece, args: seq<Arg>): (rest: seq<Arg>) {
    if p.Field? then RestOf(args) else args
  }

  function Rendered(pieces: seq<Piece>, args: seq<Arg>): (s: string) {
    if pieces == [] then "" else Meant(pieces[0], args) + Rendered(pieces[1..], ArgsAfter(pieces[0], args))
  }

  /** In plain mode, only the arguments left and the text printed matter. */
  predicate Ready(m: Machine, args: seq<Arg>, out: string) {
    m.mode == Plain && m.args == args && m.out == out
  }

  lemma OneChar(m: Machine, c: char)
    ensures Run(m, [c]) == Feed(m, c)
  {
    assert [c][1..] == [];
  }

  lemma EscapedChar(m: Machine, c: char)
    requires m.mode == Plain
    ensures Ready(Run(m, if c == '%' then "%%" else [c]), m.args, m.out + [c])
  {
    OneChar(m, c);
    if c == '%' {
      assert "%%" == "%" + "%";
      RunAppends(m, "%", "%");
      OneChar(Feed(m, '%'), '%');
    }
  }

  lemma {:induction false} LiteralRuns(m: Machine, text: string)
    requires m.mode == Plain
    ensures Ready(Run(m, Escaped(text)), m.args, m.out + text)
    decreases |text|
  {
    if text == [] {
      assert m.out + text == m.out;
    } else {
      var head := if text[0] == '%' then "%%" else [text[0]];
      EscapedChar(m, text[0]);
      RunAppends(m, head, Escaped(text[1..]));
      LiteralRuns(Run(m, head), text[1..]);
      assert m.out + [text[0]] + text[1..] == m.out + text;
    }
  }

  /** Reading a width: the value of its digits so far. */
  lemma {:induction false} WidthRuns(m: Machine, s: string)
    requires m.mode == OtherFormatChar && m.afterPoint < 0 && m.before < 0
    requires s != [] && forall k :: 0 <= k < |s| ==> IsDigit(s[k])
    ensures Run(m, s) == m.(before := ValueOf(Decimal, DigitsOf(s)))
    decreases |s|
  {
    var front, last := s[..|s| - 1], s[|s| - 1];
    assert s == front + [last];
    RunAppends(m, front, [last]);
    assert DigitsOf(s)[..|s| - 1] == DigitsOf(front);
    if front == [] {
      assert Run(m, front) == m;
    } else {
      WidthRuns(m, front);
    }
    OneChar(Run(m, front), last);
  }

  /** After the percent sign only a zero or another percent sign is special. */
  lemma FirstIsOther(m: Machine, s: string)
    requires m.mode == FirstFormatChar && s != [] && s[0] != '0' && s[0] != '%'
    ensures Run(m, s) == Run(m.(mode := OtherFormatChar), s)
  {
  }

  lemma WidthTextIs(width: nat)
    requires width > 0
    ensures var s := WidthText(width);
      && s != [] && s[0] != '0' && s[0] != '%'
      && (forall k :: 0 <= k < |s| ==> IsDigit(s[k]))
      && ValueOf(Decimal, DigitsOf(s)) == width
  {
    var digits := Digits(Decimal, width);
    DigitsAreDigits(Decimal, width, Count(Decimal, width));
    NoLeadingZero(Decimal, width);
    TextReadsBack(Decimal, width, false, 0);
    assert Repeat('0', 0) + WidthText(width) == WidthText(width);
    if |digits| == 1 {
      CountBounds(Decimal, width);
      OneDigit(Decimal, width);
    }
  }

  /** The machine of a directive once its flags and width are read. */
  function Described(m: Machine, zeros: bool, width: nat): (n: Machine) {
    Machine(OtherFormatChar, zeros, if width == 0 then -1 else width, -1, Decimal, true, false, m.args, m.out)
  }

  lemma WidthIsRead(m: Machine, zeros: bool, width: nat)
    ensures Run(Described(m, zeros, 0), WidthText(width)) == Described(m, zeros, width)
  {
    if width > 0 {
      WidthTextIs(width);
      WidthRuns(Described(m, zeros, 0), WidthText(width));
    }
  }

  function Tail(width: nat, isLong: bool, k: Conversion): (s: string) {
    WidthText(width) + ((if isLong then "l" else "") + [LetterOf(k)])
  }

  lemma TailStart(width: nat, isLong: bool, k: Conversion)
    ensures Tail(width, isLong, k)[0] != '0' && Tail(width, isLong, k)[0] != '%'
  {
    if width > 0 {
      WidthTextIs(width);
    }
  }

  lemma FlagsAreRead(m: Machine, zeros: bool, tail: string)
    requires m.mode == Plain && tail != [] && tail[0] != '0' && tail[0] != '%'
    ensures Run(m, "%" + (if zeros then "0" else "") + tail) == Run(Described(m, zeros, 0), tail)
  {
    var begun := Feed(m, '%');
    OneChar(m, '%');
    if zeros {
      assert "%" + "0" + tail == "%" + ("0" + tail);
      RunAppends(m, "%", "0" + tail);
      OneChar(begun, '0');
      RunAppends(begun, "0", tail);
    } else {
      assert "%" + "" + tail == "%" + tail;
      RunAppends(m, "%", tail);
      FirstIsOther(begun, tail);
    }
  }

  lemma LetterPrints(m: Machine, isLong: bool, k: Conversion)
    requires m.mode == OtherFormatChar && m.radix == Decimal && m.signed && !m.upper
    ensures Ready(Run(m, (if isLong then "l" else "") + [LetterOf(k)]), RestOf(m.args),
      m.out + Printed(BaseOf(k), Meaning(NextWord(m.args), k.Signed?), m.before, m.zeros, k.InHex? && k.upper))
  {
    OneChar(m, LetterOf(k));
    if isLong {
      RunAppends(m, "l", [LetterOf(k)]);
      OneChar(m, 'l');
    } else {
      assert "" + [LetterOf(k)] == [LetterOf(k)];
    }
  }

  lemma NoWidth(b: Base, v: int, zeros: bool, upper: bool)
    ensures Printed(b, v, -1, zeros, upper) == Printed(b, v, 0, zeros, upper)
  {
  }

  lemma FieldRuns(m: Machine, p: Piece)
    requires m.mode == Plain && p.Field?
    ensures Ready(Run(m, FormatOf(p)), RestOf(m.args), m.out + Meant(p, m.args))
  {
    var tail := Tail(p.width, p.isLong, p.conversion);
    var start, letters := Described(m, p.zeros, 0), (if p.isLong then "l" else "") + [LetterOf(p.conversion)];
    TailStart(p.width, p.isLong, p.conversion);
    assert FormatOf(p) == "%" + (if p.zeros then "0" else "") + tail;
    FlagsAreRead(m, p.zeros, tail);
    RunAppends(start, WidthText(p.width), letters);
    WidthIsRead(m, p.zeros, p.width);
    LetterPrints(Described(m, p.zeros, p.width), p.isLong, p.conversion);
    NoWidth(BaseOf(p.conversion), Meaning(NextWord(m.args), p.conversion.Signed?), p.zeros,
            p.conversion.InHex? && p.conversion.upper);
  }

  lemma PieceRuns(m: Machine, p: Piece)
    requires m.mode == Plain
    ensures Ready(Run(m, FormatOf(p)), ArgsAfter(p, m.args), m.out + Meant(p, m.args))
  {
    if p.Literal? {
      LiteralRuns(m, p.text);
    } else {
      FieldRuns(m, p);
    }
  }

  lemma FormatUnfolds(m: Machine, p: Piece, rest: seq<Piece>)
    ensures Run(m, Format([p] + rest)) == Run(Run(m, FormatOf(p)), Format(rest))
  {
    assert ([p] + rest)[1..] == rest;
    RunAppends(m, FormatOf(p), Format(rest));
  }

  lemma RenderedUnfolds(p: Piece, rest: seq<Piece>, args: seq<Arg>, out: string)
    ensures out + Meant(p, args) + Rendered(rest, ArgsAfter(p, args)) == out + Rendered([p] + rest, args)
  {
    assert ([p] + rest)[1..] == rest;
  }

  /** A format put together from pieces prints what its pieces mean, one after the other, each
      number directive taking the next argument. */
  lemma {:induction false} FormatPrintsItsPieces(m: Machine, pieces: seq<Piece>)
    requires m.mode == Plain
    ensures Run(m, Format(pieces)).mode == Plain
    ensures Run(m, Format(pieces)).out == m.out + Rendered(pieces, m.args)
    decreases |pieces|
  {
    if pieces == [] {
      assert m.out + "" == m.out;
    } else {
      var p, rest := pieces[0], pieces[1..];
      assert pieces == [p] + rest;
      PieceRuns(m, p);
      FormatUnfolds(m, p, rest);
      FormatPrintsItsPieces(Run(m, FormatOf(p)), rest);
      RenderedUnfolds(p, rest, m.args, m.out);
    }
  }

  // ---- the printer ---------------------------------------------------------------------

  /** The number a directive ends in, and what it leaves of the arguments. */
  method PrintNumber(args: seq<Arg>, b: Base, signed: bool, zeros: bool, width: int, upper: bool)
    returns (text: string, rest: seq<Arg>)
    ensures text == Printed(b, Meaning(NextWord(args), signed), width, zeros, upper) && rest == RestOf(args)
  {
    text := PrintInteger(NextWord(args), b, signed, zeros, width, upper);
    rest := RestOf(args);
  }

  /** The letter that ends a directive, after which the printer is back in plain text. */
  method PrintLetter(c: char, args: seq<Arg>, zeros: bool, width: int) returns (text: string, rest: seq<Arg>)
    ensures forall m: Machine ::
      m.args == args && m.zeros == zeros && m.before == width && m.radix == Decimal && m.signed && !m.upper ==>
        Ready(Letter(m, c), rest, m.out + text)
  {
    text, rest := "", args;
    match c {
      case 'd' => text, rest := PrintNumber(args, Decimal, true, zeros, width, false);
      case 'i' => text, rest := PrintNumber(args, Decimal, true, zeros, width, false);
      case 'u' => text, rest := PrintNumber(args, Decimal, false, zeros, width, false);
      case 'o' => text, rest := PrintNumber(args, Octal, false, zeros, width, false);
      case 'x' => text, rest := PrintNumber(args, Hex, false, zeros, width, false);
      case 'X' => text, rest := PrintNumber(args, Hex, false, zeros, width, true);
      case 'c' =>
        text, rest := Repeat(' ', width - 1) + [(NextWord(args) % 256) as char], RestOf(args);
      case 's' =>
        text, rest := Repeat(' ', width - |NextText(args)|) + NextText(args), RestOf(args);
      case _ =>
    }
  }

  /** What the machine's registers mean to the rest of the run. */
  predicate Alike(m: Machine, n: Machine) {
    m.mode == n.mode && m.args == n.args && m.out == n.out
    && (m.mode == Plain || m == n)
  }

  lemma {:induction false} AlikeRunsAlike(m: Machine, n: Machine, fmt: string)
    requires Alike(m, n)
    ensures Run(m, fmt).out == Run(n, fmt).out
    decreases |fmt|
  {
    if fmt != [] {
      AlikeRunsAlike(Feed(m, fmt[0]), Feed(n, fmt[0]), fmt[1..]);
    }
  }

  /** The loop over the format string. */
  method Print(fmt: string, args0: seq<Arg>) returns (out: string)
    ensures out == Run(Start(args0), fmt).out
  {
    var mode, zeros, before, afterPoint, args := Plain, false, -1, -1, args0;
    out := "";
    AlikeRunsAlike(Start(args0), Machine(Plain, false, -1, -1, Decimal, true, false, args0, ""), fmt);
    for i := 0 to |fmt|
      invariant Run(Machine(mode, zeros, before, afterPoint, Decimal, true, false, args, out), fmt[i..]).out
             == Run(Start(args0), fmt).out
    {
      var c := fmt[i];
      ghost var m := Machine(mode, zeros, before, afterPoint, Decimal, true, false, args, out);
      assert fmt[i..][1..] == fmt[i + 1..];
      if mode == Plain {
        if c == '%' {
          mode, zeros, before, afterPoint := FirstFormatChar, false, -1, -1;
        } else {
          out := out + [c];
        }
      } else if mode == FirstFormatChar && c == '0' {
        mode, zeros := OtherFormatChar, true;
      } else if mode == FirstFormatChar && c == '%' {
        mode, out := Plain, out + "%";
      } else {
        mode := OtherFormatChar;
        if c == '.' {
          afterPoint := 0;
        } else if IsDigit(c) {
          if afterPoint < 0 {
            before := if before < 0 then 0 else before * 10;
            before := before + CharDigit(c);
          } else {
            afterPoint := afterPoint * 10 + CharDigit(c);
          }
        } else if c != 'l' {
          var text;
          text, args := PrintLetter(c, args, zeros, before);
          mode, out := Plain, out + text;
        }
      }
      ghost var n := Machine(mode, zeros, before, afterPoint, Decimal, true, false, args, out);
      assert Alike(Feed(m, c), n);
      AlikeRunsAlike(Feed(m, c), n, fmt[i + 1..]);
    }
  }
}
