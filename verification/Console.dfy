/** The text console (kernel_os/src/console.cpp): a scrolling window of 25 x 80
    cells onto a terminal whose transcript never ends, with a copy on the serial
    port, and number printing. */
module Console {
  import opened Wrappers

  type Byte = b: nat | b < 0x100
  type Cell = c: nat | c < 0x1_0000

  const WIDTH: nat := 80
  const HEIGHT: nat := 25
  const BLANK: Cell := 0x0F20

  function CellOf(character: Byte): Cell
  {
    0x0F00 + character
  }

  // The unbounded terminal

  /** All rows up to the one with the cursor, cell after cell, and what went to the
      serial port. */
  datatype Terminal = Terminal(cells: seq<Cell>, row: nat, column: nat, sent: seq<Byte>)

  function Blanks(n: nat): seq<Cell>
  {
    seq(n, i => BLANK)
  }

  const EMPTY: Terminal := Terminal(Blanks(WIDTH), 0, 0, [])

  predicate WellFormed(t: Terminal)
  {
    |t.cells| == WIDTH * (t.row + 1) && t.column < WIDTH
  }

  function NewLine(t: Terminal): Terminal
  {
    t.(cells := t.cells + Blanks(WIDTH), row := t.row + 1, column := 0)
  }

  /** The cell in the cursor's row at this column. */
  function At(t: Terminal, column: nat): nat
  {
    WIDTH * t.row + column
  }

  /** The copy of a character on the serial port. */
  function OnSerial(character: Byte): seq<Byte>
  {
    if character == 0x0A then [0x0D, 0x0A] else if character == 0x0D then [] else [character]
  }

  function Put(t: Terminal, character: Byte): (t': Terminal)
    requires WellFormed(t)
    ensures WellFormed(t')
  {
    OnScreen(t, character).(sent := t.sent + OnSerial(character))
  }

  function OnScreen(t: Terminal, character: Byte): (t': Terminal)
    requires WellFormed(t)
    ensures WellFormed(t')
  {
    if character == 0x0A then NewLine(t)
    else if character == 0x0D then t.(column := 0)
    else if character == 0x08 then
      if t.column == 0 then t else t.(cells := t.cells[At(t, t.column - 1) := BLANK], column := t.column - 1)
    else
      var written := t.cells[At(t, t.column) := CellOf(character)];
      if t.column + 1 == WIDTH then NewLine(t.(cells := written)) else t.(cells := written, column := t.column + 1)
  }

  function PutAll(t: Terminal, text: seq<Byte>): (t': Terminal)
    requires WellFormed(t)
    ensures WellFormed(t')
    decreases |text|
  {
    if text == [] then t else Put(PutAll(t, text[..|text| - 1]), text[|text| - 1])
  }

  /** What the serial port receives for a text. */
  function SerialCopy(text: seq<Byte>): seq<Byte>
    decreases |text|
  {
    if text == [] then [] else SerialCopy(text[..|text| - 1]) + OnSerial(text[|text| - 1])
  }

  /** Where the copy of character i starts: a line feed before it takes a place more
      than in the text, and a carriage return takes none. */
  function CopyStart(text: seq<Byte>, i: nat): int
    requires i <= |text|
  {
    i + multiset(text[..i])[0x0A] - multiset(text[..i])[0x0D]
  }

  predicate Copied(text: seq<Byte>, i: nat, copy: seq<Byte>)
    requires i < |text|
  {
    var at := CopyStart(text, i);
    && 0 <= at <= |copy|
    && (text[i] == 0x0A ==> at + 1 < |copy| && copy[at] == 0x0D && copy[at + 1] == 0x0A)
    && (text[i] != 0x0A && text[i] != 0x0D ==> at < |copy| && copy[at] == text[i])
  }

  /** Each line feed gives a carriage return and a line feed, each carriage return
      nothing, every other character itself, in the order of the text, and there is
      nothing else. */
  ghost predicate IsSerialCopy(text: seq<Byte>, copy: seq<Byte>)
  {
    |copy| == CopyStart(text, |text|) && forall i :: 0 <= i < |text| ==> Copied(text, i, copy)
  }

  lemma {:induction false} SerialCopySent(t: Terminal, text: seq<Byte>)
    requires WellFormed(t)
    ensures PutAll(t, text).sent == t.sent + SerialCopy(text) && IsSerialCopy(text, SerialCopy(text))
    decreases |text|
  {
    if text == [] {
      assert PutAll(t, text) == t;
    } else {
      var front, last := text[..|text| - 1], text[|text| - 1];
      SerialCopySent(t, front);
      OneMoreCopied(front, last, SerialCopy(front));
      assert front + [last] == text;
    }
  }

  lemma OneMoreCopied(text: seq<Byte>, c: Byte, copy: seq<Byte>)
    requires IsSerialCopy(text, copy)
    ensures IsSerialCopy(text + [c], copy + OnSerial(c))
  {
    hide Copied;
    var longer := text + [c];
    CopyStartStays(text, c, |text|);
    assert longer[..|text| + 1] == longer;
    forall i | 0 <= i < |longer|
      ensures Copied(longer, i, copy + OnSerial(c))
    {
      CopyStartStays(text, c, i);
      if i < |text| {
        CopiedStays(text, c, i, copy);
      } else {
        LastCopied(text, c, copy);
      }
    }
  }

  lemma CopyStartStays(text: seq<Byte>, c: Byte, i: nat)
    requires i <= |text|
    ensures CopyStart(text + [c], i) == CopyStart(text, i)
  {
    assert (text + [c])[..i] == text[..i];
  }

  lemma CopiedStays(text: seq<Byte>, c: Byte, i: nat, copy: seq<Byte>)
    requires i < |text| && Copied(text, i, copy)
    ensures Copied(text + [c], i, copy + OnSerial(c))
  {
    CopyStartStays(text, c, i);
  }

  lemma LastCopied(text: seq<Byte>, c: Byte, copy: seq<Byte>)
    requires |copy| == CopyStart(text, |text|)
    ensures Copied(text + [c], |text|, copy + OnSerial(c))
  {
    CopyStartStays(text, c, |text|);
  }

  /** The first transcript row in a window of 25 rows that ends at the cursor. */
  function Top(row: nat): nat
  {
    if row < HEIGHT then 0 else row - HEIGHT + 1
  }

  /** Cell k of the window from row `top`; rows not reached yet are blank. */
  function Window(t: Terminal, top: nat, k: nat): Cell
  {
    if WIDTH * top + k < |t.cells| then t.cells[WIDTH * top + k] else BLANK
  }

  /** A visible character changes one cell of the window. */
  lemma VisibleWindow(t: Terminal, character: Byte, top: nat, k: nat)
    requires WellFormed(t) && character != 0x0A && character != 0x0D && character != 0x08
    ensures Window(Put(t, character), top, k) ==
              if WIDTH * top + k == At(t, t.column) then CellOf(character) else Window(t, top, k)
  {
  }

  /** A backspace blanks the cell on the left; the others change no cell, and a line
      feed's new row is blank. */
  lemma ControlWindow(t: Terminal, character: Byte)
    requires WellFormed(t) && (character == 0x0A || character == 0x0D || character == 0x08)
    ensures forall k: nat :: Window(Put(t, character), Top(t.row), k) ==
              if character == 0x08 && t.column > 0 && WIDTH * Top(t.row) + k == At(t, t.column) - 1 then BLANK
              else Window(t, Top(t.row), k)
    ensures character == 0x0A ==>
              forall k :: WIDTH * (t.row + 1) <= k < |Put(t, character).cells| ==> Put(t, character).cells[k] == BLANK
  {
  }

  /** Where a visible character leaves the cursor: possibly at the start of a new,
      blank row. */
  lemma NewRowBlank(t: Terminal, character: Byte)
    requires WellFormed(t) && character != 0x0A && character != 0x0D && character != 0x08
    ensures var t' := Put(t, character);
      if t.column + 1 == WIDTH
      then && t'.row == t.row + 1 && t'.column == 0
           && forall k :: WIDTH * t'.row <= k < |t'.cells| ==> t'.cells[k] == BLANK
      else t'.row == t.row && t'.column == t.column + 1
  {
  }

  // The grid alone

  /** The 25 rows that end at the cursor. */
  function Grid(t: Terminal): (cells: seq<Cell>)
    ensures |cells| == WIDTH * HEIGHT
  {
    seq(WIDTH * HEIGHT, k requires 0 <= k => Window(t, Top(t.row), k))
  }

  /** The grid position of the cursor. */
  function Spot(t: Terminal): nat
  {
    WIDTH * (t.row - Top(t.row)) + t.column
  }

  /** The cursor moves from this row of the grid to the next, which is blank; below the
      last row everything moves up by one row first. */
  predicate NextRow(cells: seq<Cell>, row: nat, cells': seq<Cell>, row': nat)
    requires |cells| == |cells'| == WIDTH * HEIGHT
  {
    && row' == (if row + 1 < HEIGHT then row + 1 else row)
    && cells' == (if row + 1 < HEIGHT then cells else cells[WIDTH..] + seq(WIDTH, i => BLANK))
    && forall k :: WIDTH * row' <= k < WIDTH * (row' + 1) && k < |cells'| ==> cells'[k] == BLANK
  }

  lemma NewLineGrid(t: Terminal)
    requires WellFormed(t)
    ensures NextRow(Grid(t), t.row - Top(t.row), Grid(NewLine(t)), NewLine(t).row - Top(NewLine(t).row))
  {
    if t.row + 1 >= HEIGHT {
      assert Grid(NewLine(t)) == Grid(t)[WIDTH..] + seq(WIDTH, i => BLANK);
    } else {
      assert Grid(NewLine(t)) == Grid(t);
    }
  }

  lemma BackspaceGrid(t: Terminal)
    requires WellFormed(t)
    ensures t.column == 0 ==> Grid(Put(t, 0x08)) == Grid(t)
    ensures t.column > 0 ==> Spot(t) <= WIDTH * HEIGHT && Grid(Put(t, 0x08)) == Grid(t)[Spot(t) - 1 := BLANK]
  {
  }

  lemma WrittenGrid(t: Terminal, c: Cell)
    requires WellFormed(t)
    ensures Spot(t) < WIDTH * HEIGHT && Grid(t.(cells := t.cells[At(t, t.column) := c])) == Grid(t)[Spot(t) := c]
  {
  }

  /** What one character does to the grid, the cursor and the serial port, for a cursor
      at this row and column of the grid: a line feed starts a new row and sends a
      carriage return first; a carriage return goes back to column 0 and sends nothing;
      a backspace blanks the cell on the left, if there is one; every other character
      is written, and the cursor steps on. */
  predicate Typewriter(character: Byte, cells: seq<Cell>, row: nat, column: nat, cells': seq<Cell>, row': nat,
                       column': nat, sent: seq<Byte>)
    requires |cells| == |cells'| == WIDTH * HEIGHT && row < HEIGHT && column < WIDTH
  {
    if character == 0x0A then NextRow(cells, row, cells', row') && column' == 0 && sent == [0x0D, 0x0A]
    else if character == 0x0D then cells' == cells && row' == row && column' == 0 && sent == []
    else if character == 0x08 then
      && row' == row && sent == [0x08]
      && if column == 0 then cells' == cells && column' == 0
         else column' == column - 1 && cells' == cells[WIDTH * row + column - 1 := 0x0F20]
    else
      var written := cells[WIDTH * row + column := 0x0F00 + character];
      && sent == [character]
      && if column == 79 then NextRow(written, row, cells', row') && column' == 0
         else cells' == written && row' == row && column' == column + 1
  }

  lemma PutTypewriter(t: Terminal, character: Byte)
    requires WellFormed(t)
    ensures Typewriter(character, Grid(t), t.row - Top(t.row), t.column, Grid(Put(t, character)),
                       Put(t, character).row - Top(Put(t, character).row), Put(t, character).column,
                       OnSerial(character))
  {
    hide NextRow, Grid;
    var t' := Put(t, character);
    SameGrid(t, t'.(cells := t.cells));
    if character == 0x0A {
      NewLineGrid(t);
      SameGrid(NewLine(t), t');
    } else if character == 0x0D {
      SameGrid(t, t');
    } else if character == 0x08 {
      BackspaceGrid(t);
    } else {
      var written := t.(cells := t.cells[At(t, t.column) := CellOf(character)]);
      WrittenGrid(t, CellOf(character));
      NewLineGrid(written);
      SameGrid(if t.column + 1 == WIDTH then NewLine(written) else written, t');
    }
  }

  lemma SentTail(t: Terminal, character: Byte)
    requires WellFormed(t)
    ensures t.sent <= Put(t, character).sent && Put(t, character).sent[|t.sent|..] == OnSerial(character)
  {
  }

  /** The grid depends on cells and row only. */
  lemma SameGrid(t: Terminal, u: Terminal)
    ensures t.cells == u.cells && t.row == u.row ==> Grid(t) == Grid(u)
  {
  }

  // Numbers

  /** The digits of a number, most significant first. */
  function Digits(value: nat, base: nat): (ds: seq<nat>)
    requires base >= 2
    ensures ds != []
    decreases value
  {
    DivisionFacts(value, base, 0);
    if value < base then [value] else Digits(value / base, base) + [value % base]
  }

  function Number(ds: seq<nat>, base: nat): nat
    decreases |ds|
  {
    if ds == [] then 0 else Number(ds[..|ds| - 1], base) * base + ds[|ds| - 1]
  }

  function Power(base: nat, n: nat): nat
  {
    if n == 0 then 1 else base * Power(base, n - 1)
  }

  lemma ScaleOrder(a: int, b: int, k: nat)
    requires a <= b
    ensures k * a <= k * b
  {
    assert k * b == k * a + k * (b - a);
  }

  lemma QuotientBounds(value: nat, base: nat, q: int, r: nat)
    requires base >= 2 && value == base * q + r && r < base
    ensures 0 <= q && (value >= base ==> 0 < q < value)
  {
    if q < 0 { ScaleOrder(q, -1, base); } else if q == 0 { ScaleOrder(q, 0, base); } else { ScaleOrder(2, base, q); }
  }

  lemma QuotientBelow(value: nat, base: nat, q: int, r: nat, p: nat)
    requires base >= 2 && value == base * q + r && r < base
    ensures q < p <==> value < base * p
  {
    if q < p { ScaleOrder(q + 1, p, base); } else { ScaleOrder(p, q, base); }
  }

  lemma DivisionFacts(value: nat, base: nat, p: nat)
    requires base >= 2
    ensures value == value / base * base + value % base
    ensures 0 <= value / base && (value >= base ==> 0 < value / base < value)
    ensures value / base < p <==> value < base * p
  {
    var q, r := value / base, value % base;
    assert value == base * q + r;
    QuotientBounds(value, base, q, r);
    QuotientBelow(value, base, q, r, p);
  }

  lemma NumberOneMore(ds: seq<nat>, d: nat, base: nat)
    ensures Number(ds + [d], base) == Number(ds, base) * base + d
  {
    assert (ds + [d])[..|ds|] == ds;
  }

  /** The digits stand for the number, are below the base, and do not start with a
      superfluous zero. */
  lemma {:induction false} DigitsMeaning(value: nat, base: nat)
    requires base >= 2
    ensures Number(Digits(value, base), base) == value
    ensures forall i :: 0 <= i < |Digits(value, base)| ==> Digits(value, base)[i] < base
    ensures Digits(value, base)[0] == 0 ==> value == 0 && |Digits(value, base)| == 1
    decreases value
  {
    if value >= base {
      hide Number;
      DivisionFacts(value, base, 0);
      var q, r := value / base, value % base;
      DigitsMeaning(q, base);
      NumberOneMore(Digits(q, base), r, base);
    } else {
      assert [value][..0] == [];
    }
  }

  /** What one turn of the digit loop takes off. */
  lemma LastDigit(rest: nat, base: nat)
    requires base >= 2
    ensures var ds := Digits(rest, base);
            && 0 <= rest / base && rest % base == ds[|ds| - 1] && (rest / base != 0 <==> |ds| > 1)
            && (rest / base != 0 ==> Digits(rest / base, base) == ds[..|ds| - 1])
  {
    DivisionFacts(rest, base, 1);
  }

  /** A digit buffer of n entries is large enough exactly for the values below base^n. */
  lemma {:induction false} DigitCount(value: nat, base: nat, n: nat)
    requires base >= 2 && n > 0
    ensures |Digits(value, base)| <= n <==> value < Power(base, n)
    decreases value
  {
    var p := Power(base, n - 1);
    DivisionFacts(value, base, p);
    if value < base {
      PowerAtLeast(base, n);
    } else if n == 1 {
      assert p == 1 && base * p == base;
    } else {
      DigitCount(value / base, base, n - 1);
    }
  }

  lemma {:induction false} PowerAtLeast(base: nat, n: nat)
    requires base >= 2 && n > 0
    ensures Power(base, n) >= base
  {
    if n == 1 {
    } else {
      PowerAtLeast(base, n - 1);
    }
  }

  const DIGIT_BUFFER: nat := 16
  const UINT_LIMIT: nat := 0x1_0000_0000

  /** Every 32-bit value fits the digit buffer. */
  lemma CallersFit(value: nat, base: nat)
    requires (base == 10 || base == 16) && value < UINT_LIMIT
    ensures value < Power(base, DIGIT_BUFFER)
  {
    assert Power(10, 5) == 100000;
    assert Power(10, 10) == 100000 * Power(10, 5);
    assert Power(16, 4) == 0x1_0000;
    assert Power(16, 8) == 0x1_0000 * Power(16, 4);
    PowerGrows(base, if base == 10 then 10 else 8, DIGIT_BUFFER);
  }

  lemma {:induction false} PowerGrows(base: nat, m: nat, n: nat)
    requires base >= 2 && m <= n
    ensures Power(base, m) <= Power(base, n)
    decreases n
  {
    if m == n {
    } else {
      PowerGrows(base, m, n - 1);
      ScaleOrder(1, base, Power(base, n - 1));
    }
  }

  /** '0'..'9', then 'a'. */
  function DigitCharacter(digit: nat): Byte
    requires digit < 16
  {
    if digit < 10 then 0x30 + digit else 0x61 + digit - 10
  }

  function DigitValue(character: Byte): nat
  {
    if 0x30 <= character < 0x3A then character - 0x30 else if 0x61 <= character then character - 0x61 + 10 else 0
  }

  function Text(ds: seq<nat>): seq<Byte>
    requires forall i :: 0 <= i < |ds| ==> ds[i] < 16
  {
    seq(|ds|, i requires 0 <= i < |ds| => DigitCharacter(ds[i]))
  }

  function Values(text: seq<Byte>): seq<nat>
  {
    seq(|text|, i requires 0 <= i < |text| => DigitValue(text[i]))
  }

  /** What %u and %x print. */
  function UnsignedText(value: nat, base: nat): seq<Byte>
    requires 2 <= base <= 16
  {
    DigitsMeaning(value, base);
    Text(Digits(value, base))
  }

  const MINUS: Byte := 0x2D

  /** What %d prints. */
  function SignedText(value: int): seq<Byte>
  {
    if value < 0 then [MINUS] + UnsignedText(-value, 10) else UnsignedText(value, 10)
  }

  function ReadUnsigned(text: seq<Byte>, base: nat): nat
  {
    Number(Values(text), base)
  }

  function ReadSigned(text: seq<Byte>): int
  {
    if text != [] && text[0] == MINUS then 0 - ReadUnsigned(text[1..], 10) else ReadUnsigned(text, 10)
  }

  /** Printed numbers read back, without a superfluous leading zero. */
  lemma UnsignedRoundTrip(value: nat, base: nat)
    requires 2 <= base <= 16
    ensures ReadUnsigned(UnsignedText(value, base), base) == value
    ensures UnsignedText(value, base) != [] && (UnsignedText(value, base)[0] == 0x30 ==>
              UnsignedText(value, base) == [0x30] && value == 0)
    ensures UnsignedText(value, base)[0] != MINUS
  {
    DigitsMeaning(value, base);
    assert Values(UnsignedText(value, base)) == Digits(value, base);
  }

  /** The characters "0" to "9" and "a" to "f" by their values, no needless zero in
      front, and the value of the text in this base. */
  predicate IsNumeral(text: seq<Byte>, value: nat, base: nat)
  {
    && text != [] && (text[0] == 0x30 ==> text == [0x30])
    && (forall i :: 0 <= i < |text| ==> exists d: nat :: d < base && d < 16 && text[i] == "0123456789abcdef"[d] as nat)
    && ReadUnsigned(text, base) == value
  }

  lemma DigitPrinted(d: nat)
    requires d < 16
    ensures DigitCharacter(d) == "0123456789abcdef"[d] as nat
  {
  }

  lemma Numeral(value: nat, base: nat)
    requires 2 <= base <= 16
    ensures IsNumeral(UnsignedText(value, base), value, base)
  {
    hide ReadUnsigned, Digits, Number, DigitCharacter;
    UnsignedRoundTrip(value, base);
    DigitsMeaning(value, base);
    var ds, text := Digits(value, base), UnsignedText(value, base);
    forall i | 0 <= i < |text|
      ensures exists d: nat :: d < base && d < 16 && text[i] == "0123456789abcdef"[d] as nat
    {
      DigitPrinted(ds[i]);
    }
  }

  /** The same for signed numbers: a minus sign exactly for the negative ones, and no
      superfluous zero after it. */
  lemma SignedRoundTrip(value: int)
    ensures ReadSigned(SignedText(value)) == value
    ensures SignedText(value) != [] && (SignedText(value)[0] == MINUS <==> value < 0)
    ensures var digits := if value < 0 then SignedText(value)[1..] else SignedText(value);
            digits != [] && (digits[0] == 0x30 ==> digits == [0x30] && value == 0)
  {
    hide UnsignedText, ReadUnsigned, Number, Digits, Values;
    if value < 0 {
      UnsignedRoundTrip(-value, 10);
      assert SignedText(value)[1..] == UnsignedText(-value, 10);
    } else {
      UnsignedRoundTrip(value, 10);
    }
  }

  // printk

  datatype Argument =
    | CharArgument(character: Byte)
    | StringArgument(text: Option<seq<Byte>>)
    | IntArgument(value: int)
    | UnsignedArgument(number: nat)

  const PERCENT: Byte := 0x25
  const NULL_TEXT: seq<Byte> := [0x28, 0x6E, 0x75, 0x6C, 0x6C, 0x29]

  predicate NeedsArgument(directive: Byte)
  {
    directive == 0x63 || directive == 0x73 || directive == 0x64 || directive == 0x75 || directive == 0x78
  }

  /** The argument has the type that %c, %s, %d, %u or %x reads. */
  predicate Suits(directive: Byte, a: Argument)
  {
    match a
    case CharArgument(_) => directive == 0x63
    case StringArgument(s) => directive == 0x73 && (s.Some? ==> 0 !in s.value)
    case IntArgument(v) => directive == 0x64 && -0x8000_0000 <= v < 0x8000_0000
    case UnsignedArgument(n) => (directive == 0x75 || directive == 0x78) && n < UINT_LIMIT
  }

  function ArgumentText(directive: Byte, a: Argument): seq<Byte>
  {
    match a
    case CharArgument(c) => [c]
    case StringArgument(s) => if s.Some? then s.value else NULL_TEXT
    case IntArgument(v) => SignedText(v)
    case UnsignedArgument(n) => UnsignedText(n, if directive == 0x78 then 16 else 10)
  }

  /** The format has no NUL inside, does not end in a lone '%', and the arguments suit
      its directives. */
  predicate FormatOk(format: seq<Byte>, arguments: seq<Argument>)
    decreases |format|
  {
    if format == [] then true
    else if format[0] == 0 then false
    else if format[0] != PERCENT then FormatOk(format[1..], arguments)
    else if |format| == 1 || format[1] == 0 then false
    else if NeedsArgument(format[1]) then
      arguments != [] && Suits(format[1], arguments[0]) && FormatOk(format[2..], arguments[1..])
    else FormatOk(format[2..], arguments)
  }

  /** What the format means: each directive stands for its argument's text, "%%" for
      '%', and an unknown directive for itself. */
  function Rendered(format: seq<Byte>, arguments: seq<Argument>): seq<Byte>
    requires FormatOk(format, arguments)
    decreases |format|
  {
    if format == [] then []
    else if format[0] != PERCENT then [format[0]] + Rendered(format[1..], arguments)
    else if NeedsArgument(format[1]) then
      ArgumentText(format[1], arguments[0]) + Rendered(format[2..], arguments[1..])
    else (if format[1] == PERCENT then [PERCENT] else [PERCENT, format[1]]) + Rendered(format[2..], arguments)
  }

  lemma PlainFirst(c: Byte, format: seq<Byte>, arguments: seq<Argument>)
    requires c != PERCENT
    ensures FormatOk([c] + format, arguments) <==> c != 0 && FormatOk(format, arguments)
    ensures FormatOk([c] + format, arguments) ==>
              Rendered([c] + format, arguments) == [c] + Rendered(format, arguments)
  {
    assert ([c] + format)[1..] == format;
  }

  /** Characters before the first '%' are printed as they are. */
  lemma {:induction false} PlainStart(before: seq<Byte>, format: seq<Byte>, arguments: seq<Argument>)
    requires PERCENT !in before
    ensures FormatOk(before + format, arguments) <==> 0 !in before && FormatOk(format, arguments)
    ensures FormatOk(before + format, arguments) ==>
              Rendered(before + format, arguments) == before + Rendered(format, arguments)
    decreases |before|
  {
    hide FormatOk, Rendered;
    if before == [] {
      assert before + format == format;
    } else {
      PlainFirst(before[0], before[1..] + format, arguments);
      PlainStart(before[1..], format, arguments);
      assert before + format == [before[0]] + (before[1..] + format);
    }
  }

  /** A format without '%' stands for itself, whatever the arguments. */
  lemma PlainFormat(format: seq<Byte>, arguments: seq<Argument>)
    requires PERCENT !in format && FormatOk(format, arguments)
    ensures Rendered(format, arguments) == format
  {
    PlainStart(format, [], arguments);
    assert format + [] == format;
  }

  /** The argument text of each directive: %c the character, %s the string or "(null)",
      %d a text that reads back in base 10 with a minus sign exactly for negative
      values, %u one that reads back in base 10 and %x in base 16. */
  lemma ArgumentMeaning(directive: Byte, a: Argument)
    requires Suits(directive, a)
    ensures directive in {0x63, 0x73, 0x64, 0x75, 0x78}
    ensures var text := ArgumentText(directive, a);
      && (directive == 0x63 ==> a.CharArgument? && text == [a.character])
      && (directive == 0x73 ==> a.StringArgument? && text == match a.text case Some(s) => s case None => NULL_TEXT)
      && (directive == 0x64 ==>
            a.IntArgument? && text != [] && ReadSigned(text) == a.value && (text[0] == MINUS <==> a.value < 0))
      && (directive == 0x75 ==> a.UnsignedArgument? && IsNumeral(text, a.number, 10))
      && (directive == 0x78 ==> a.UnsignedArgument? && IsNumeral(text, a.number, 16))
  {
    hide ReadSigned, SignedText, ReadUnsigned, UnsignedText, Values, IsNumeral;
    match a
    case IntArgument(v) => SignedRoundTrip(v);
    case UnsignedArgument(n) => Numeral(n, 10); Numeral(n, 16);
    case _ =>
  }

  /** What stands before and after a directive is printed as it is: the directive is
      replaced by its argument's text, "%%" by '%', and an unknown one by itself. */
  lemma DirectiveFormat(before: seq<Byte>, directive: Byte, after: seq<Byte>, arguments: seq<Argument>)
    requires PERCENT !in before && 0 !in before && directive != 0
    requires NeedsArgument(directive) ==> arguments != [] && Suits(directive, arguments[0])
    requires FormatOk(after, if NeedsArgument(directive) then arguments[1..] else arguments)
    ensures var format := before + ([PERCENT, directive] + after);
      && FormatOk(format, arguments)
      && Rendered(format, arguments) ==
           if NeedsArgument(directive)
           then before + (ArgumentText(directive, arguments[0]) + Rendered(after, arguments[1..]))
           else before
                + ((if directive == PERCENT then [PERCENT] else [PERCENT, directive]) + Rendered(after, arguments))
  {
    hide ArgumentText, Suits, NeedsArgument;
    var format := [PERCENT, directive] + after;
    assert format[2..] == after && format[0] == PERCENT && format[1] == directive;
    PlainStart(before, format, arguments);
  }

  class Screen {
    const vga: array<Cell>
    var cursorRow: nat
    var cursorColumn: nat
    /** The bytes handed to the serial port. */
    var serial: seq<Byte>
    /** Everything ever written. */
    ghost var terminal: Terminal

    ghost predicate Shows(t: Terminal, top: nat)
      reads vga
    {
      forall k :: 0 <= k < vga.Length ==> vga[k] == Window(t, top, k)
    }

    ghost predicate Valid()
      reads this, vga
    {
      && vga.Length == WIDTH * HEIGHT && WellFormed(terminal) && Shows(terminal, Top(terminal.row))
      && cursorColumn == terminal.column && cursorRow == terminal.row - Top(terminal.row) && serial == terminal.sent
    }

    lemma Shown()
      requires Valid()
      ensures vga[..] == Grid(terminal)
    {
    }

    /** The cursor is always inside the grid. */
    lemma CursorInside()
      requires Valid()
      ensures cursorRow < HEIGHT && cursorColumn < WIDTH
    {
    }

    /** console_init. */
    constructor (vga: array<Cell>)
      requires vga.Length == WIDTH * HEIGHT
      modifies vga
      ensures Valid() && this.vga == vga && terminal == EMPTY
      ensures cursorRow == cursorColumn == 0 && serial == []
      ensures forall k :: 0 <= k < vga.Length ==> vga[k] == 0x0F20
    {
      this.vga, cursorRow, cursorColumn, serial, terminal := vga, 0, 0, [], EMPTY;
      new;
      for row := 0 to HEIGHT
        invariant cursorRow == cursorColumn == 0 && serial == [] && terminal == EMPTY
        invariant forall k :: 0 <= k < WIDTH * row ==> vga[k] == BLANK
      {
        for column := 0 to WIDTH
          invariant cursorRow == cursorColumn == 0 && serial == [] && terminal == EMPTY
          invariant forall k :: 0 <= k < WIDTH * row + column ==> vga[k] == BLANK
        {
          vga[row * WIDTH + column] := BLANK;
        }
      }
    }

    /** Between writing and scrolling the cursor may be one row below the grid, at
        the start of a new row. */
    ghost predicate Written()
      reads this, vga
    {
      && vga.Length == WIDTH * HEIGHT && WellFormed(terminal) && cursorRow <= HEIGHT
      && cursorRow <= terminal.row && Shows(terminal, terminal.row - cursorRow) && cursorColumn == terminal.column
      && serial == terminal.sent
      && if cursorRow < HEIGHT then terminal.row - cursorRow == Top(terminal.row)
         else forall k :: WIDTH * terminal.row <= k < |terminal.cells| ==> terminal.cells[k] == BLANK
    }

    /** scroll_if_needed: a cursor just below the grid moves the window one row on. */
    method ScrollIfNeeded()
      requires Written()
      modifies vga, this`cursorRow
      ensures Valid()
    {
      if cursorRow < HEIGHT {
        return;
      }
      ghost var top := terminal.row - cursorRow;
      CopyRowsUp(terminal, top);
      for column := 0 to WIDTH
        invariant forall k :: 0 <= k < WIDTH * (HEIGHT - 1) + column ==> vga[k] == Window(terminal, top + 1, k)
      {
        vga[(HEIGHT - 1) * WIDTH + column] := BLANK;
      }
      cursorRow := HEIGHT - 1;
    }

    /** The first loop of scroll_if_needed. */
    method CopyRowsUp(ghost t: Terminal, ghost top: nat)
      requires vga.Length == WIDTH * HEIGHT && Shows(t, top)
      modifies vga
      ensures forall k :: 0 <= k < WIDTH * (HEIGHT - 1) ==> vga[k] == Window(t, top + 1, k)
    {
      for row := 1 to HEIGHT
        invariant forall k :: 0 <= k < WIDTH * (row - 1) ==> vga[k] == Window(t, top + 1, k)
        invariant forall k :: WIDTH * (row - 1) <= k < vga.Length ==> vga[k] == Window(t, top, k)
      {
        for column := 0 to WIDTH
          invariant forall k :: 0 <= k < WIDTH * (row - 1) + column ==> vga[k] == Window(t, top + 1, k)
          invariant forall k :: WIDTH * (row - 1) + column <= k < vga.Length ==> vga[k] == Window(t, top, k)
        {
          vga[(row - 1) * WIDTH + column] := vga[row * WIDTH + column];
        }
      }
    }

    /** The last branch of console_put_char. */
    method PutVisible(character: Byte)
      requires Valid() && character != 0x0A && character != 0x0D && character != 0x08
      modifies this, vga
      ensures Written() && terminal == Put(old(terminal), character)
    {
      hide OnScreen, Window;
      ghost var top := Top(terminal.row);
      forall k: nat
        ensures Window(Put(terminal, character), top, k) ==
                  if WIDTH * top + k == At(terminal, terminal.column) then CellOf(character)
                      else Window(terminal, top, k)
      {
        VisibleWindow(terminal, character, top, k);
      }
      NewRowBlank(terminal, character);
      vga[cursorRow * WIDTH + cursorColumn] := CellOf(character);
      serial := serial + [character];
      cursorColumn := cursorColumn + 1;
      if cursorColumn == WIDTH {
        cursorColumn := 0;
        cursorRow := cursorRow + 1;
      }
      terminal := Put(terminal, character);
    }

    /** The other branches. */
    method PutControl(character: Byte)
      requires Valid() && (character == 0x0A || character == 0x0D || character == 0x08)
      modifies this, vga
      ensures Written() && terminal == Put(old(terminal), character)
    {
      hide Window;
      ControlWindow(terminal, character);
      if character == 0x0A {
        serial := serial + [0x0D] + [0x0A];
        cursorColumn := 0;
        cursorRow := cursorRow + 1;
      } else if character == 0x0D {
        cursorColumn := 0;
      } else {
        if cursorColumn > 0 {
          cursorColumn := cursorColumn - 1;
          vga[cursorRow * WIDTH + cursorColumn] := BLANK;
        }
        serial := serial + [0x08];
      }
      terminal := Put(terminal, character);
    }

    /** console_put_char. */
    method PutChar(character: Byte)
      requires Valid()
      modifies this, vga
      ensures Valid() && terminal == Put(old(terminal), character)
      ensures old(cursorRow) < HEIGHT && old(cursorColumn) < WIDTH && old(serial) <= serial
      ensures Typewriter(character, old(vga[..]), old(cursorRow), old(cursorColumn),
                         vga[..], cursorRow, cursorColumn, serial[|old(serial)|..])
    {
      hide Window, Put, OnSerial, Grid, Typewriter;
      PutTypewriter(terminal, character);
      Shown();
      if character == 0x0A || character == 0x0D || character == 0x08 {
        PutControl(character);
      } else {
        PutVisible(character);
      }
      ScrollIfNeeded();
      Shown();
      SentTail(old(terminal), character);
    }

    /** console_write, for the characters before the terminating NUL. */
    method Write(text: seq<Byte>)
      requires Valid() && 0 !in text
      modifies this, vga
      ensures Valid() && terminal == PutAll(old(terminal), text)
      ensures old(serial) <= serial && IsSerialCopy(text, serial[|old(serial)|..])
    {
      hide IsSerialCopy, Typewriter;
      for i := 0 to |text|
        invariant Valid() && terminal == PutAll(old(terminal), text[..i])
      {
        assert text[..i + 1][..i] == text[..i];
        PutChar(text[i]);
      }
      assert text[..|text|] == text;
      SerialCopySent(old(terminal), text);
      assert serial[|old(serial)|..] == SerialCopy(text);
    }

    /** write_unsigned, for every value whose digits the buffer can hold. */
    method WriteUnsigned(value: nat, base: nat)
      requires Valid() && 2 <= base <= 16 && value < Power(base, DIGIT_BUFFER)
      modifies this, vga
      ensures Valid() && terminal == PutAll(old(terminal), UnsignedText(value, base))
    {
      var digits, count: nat := TakeDigits(value, base);
      ghost var text := UnsignedText(value, base);
      while count > 0
        invariant 0 <= count <= |text| && Valid() && terminal == PutAll(old(terminal), text[..|text| - count])
        invariant forall i :: 0 <= i < count ==> digits[i] == text[|text| - 1 - i]
      {
        count := count - 1;
        assert text[..|text| - count][..|text| - count - 1] == text[..|text| - count - 1];
        PutChar(digits[count]);
      }
      assert text[..|text|] == text;
    }

    /** The digit loop of write_unsigned: least significant digit first. */
    static method TakeDigits(value: nat, base: nat) returns (digits: array<Byte>, count: nat)
      requires 2 <= base <= 16 && value < Power(base, DIGIT_BUFFER)
      ensures fresh(digits) && digits.Length == DIGIT_BUFFER && count == |UnsignedText(value, base)| <= DIGIT_BUFFER
      ensures forall i :: 0 <= i < count ==> digits[i] == UnsignedText(value, base)[count - 1 - i]
    {
      hide Number, Power, Digits;
      DigitCount(value, base, DIGIT_BUFFER);
      DigitsMeaning(value, base);
      ghost var ds := Digits(value, base);
      digits := new Byte[DIGIT_BUFFER];
      count := 0;
      var rest: nat, more := value, true;
      while more
        invariant 0 <= count <= |ds| && (more <==> count < |ds|)
        invariant more ==> Digits(rest, base) == ds[..|ds| - count]
        invariant forall i :: 0 <= i < count ==> digits[i] == DigitCharacter(ds[|ds| - 1 - i])
        decreases |ds| - count
      {
        LastDigit(rest, base);
        digits[count] := DigitCharacter(rest % base);
        count := count + 1;
        rest := rest / base;
        more := rest != 0;
      }
    }

    /** %u and %x. */
    method PrintUnsigned(value: nat, hexadecimal: bool)
      requires Valid() && value < UINT_LIMIT
      modifies this, vga
      ensures Valid() && terminal == PutAll(old(terminal), UnsignedText(value, if hexadecimal then 16 else 10))
    {
      var base := if hexadecimal then 16 else 10;
      CallersFit(value, base);
      WriteUnsigned(value, base);
    }

    /** %d; -(value + 1) is computed first, so the most negative value does not overflow. */
    method PrintSigned(value: int)
      requires Valid() && -0x8000_0000 <= value < 0x8000_0000
      modifies this, vga
      ensures Valid() && terminal == PutAll(old(terminal), SignedText(value))
    {
      if value < 0 {
        ghost var t := terminal;
        PutChar(MINUS);
        var magnitude := -(value + 1);
        assert 0 <= magnitude < 0x8000_0000;
        PrintUnsigned(magnitude + 1, false);
        assert [MINUS][..0] == [];
        PutAllBoth(t, [MINUS], UnsignedText(-value, 10));
      } else {
        PrintUnsigned(value, false);
      }
    }

    /** One directive of printk. */
    method PrintArgument(directive: Byte, a: Argument)
      requires Valid() && Suits(directive, a)
      modifies this, vga
      ensures Valid() && terminal == PutAll(old(terminal), ArgumentText(directive, a))
    {
      match a
      case CharArgument(c) => PutOne(terminal, c); PutChar(c);
      case StringArgument(s) => Write(if s.Some? then s.value else NULL_TEXT);
      case IntArgument(v) => PrintSigned(v);
      case UnsignedArgument(n) => PrintUnsigned(n, directive == 0x78);
    }

    /** One turn of the loop of printk. */
    method PrintNext(format: seq<Byte>, arguments: seq<Argument>, index: nat, next: nat)
      returns (index': nat, next': nat, ghost text: seq<Byte>)
      requires Valid() && index < |format| && next <= |arguments| && FormatOk(format[index..], arguments[next..])
      modifies this, vga
      ensures Valid() && terminal == PutAll(old(terminal), text)
      ensures index < index' <= |format| && next' <= |arguments| && FormatOk(format[index'..], arguments[next'..])
      ensures Rendered(format[index..], arguments[next..]) == text + Rendered(format[index'..], arguments[next'..])
    {
      hide PutAll, Suits, ArgumentText, NeedsArgument;
      ghost var rest, left := format[index..], arguments[next..];
      if format[index] != PERCENT {
        index', next', text := index + 1, next, [format[index]];
        assert rest[1..] == format[index'..];
        PutOne(terminal, format[index]);
        PutChar(format[index]);
        return;
      }
      var directive := format[index + 1];
      assert rest[2..] == format[index + 2..];
      if NeedsArgument(directive) {
        assert left[1..] == arguments[next + 1..];
        index', next', text := index + 2, next + 1, ArgumentText(directive, arguments[next]);
        PrintArgument(directive, arguments[next]);
      } else {
        index', next', text := index + 2, next, if directive == PERCENT then [PERCENT] else [PERCENT, directive];
        PutOne(terminal, PERCENT);
        PutTwo(terminal, PERCENT, directive);
        PutChar(PERCENT);
        if directive != PERCENT { PutChar(directive); }
      }
    }

    /** printk, for formats that do not end in a lone '%'. */
    method Printk(format: seq<Byte>, arguments: seq<Argument>)
      requires Valid() && FormatOk(format, arguments)
      modifies this, vga
      ensures Valid() && terminal == PutAll(old(terminal), Rendered(format, arguments))
      ensures PERCENT !in format ==> terminal == PutAll(old(terminal), format)
    {
      hide PutAll, FormatOk, Rendered;
      if PERCENT !in format { PlainFormat(format, arguments); }
      var index: nat, next: nat := 0, 0;
      ghost var t, done: seq<Byte> := terminal, [];
      assert format[0..] == format && arguments[0..] == arguments;
      NothingPrinted(t, format, arguments);
      while index < |format|
        invariant index <= |format| && next <= |arguments| && FormatOk(format[index..], arguments[next..])
        invariant done + Rendered(format[index..], arguments[next..]) == Rendered(format, arguments)
        invariant Valid() && terminal == PutAll(t, done)
        decreases |format| - index
      {
        ghost var rest := Rendered(format[index..], arguments[next..]);
        ghost var text;
        index, next, text := PrintNext(format, arguments, index, next);
        PutAllBoth(t, done, text);
        assert done + rest == done + text + Rendered(format[index..], arguments[next..]);
        done := done + text;
      }
      NothingPrinted(t, format[index..], arguments[next..]);
      assert done + [] == done;
    }
  }

  lemma PutOne(t: Terminal, c: Byte)
    requires WellFormed(t)
    ensures PutAll(t, [c]) == Put(t, c)
  {
    assert [c][..0] == [] && PutAll(t, []) == t;
  }

  lemma PutTwo(t: Terminal, c: Byte, d: Byte)
    requires WellFormed(t)
    ensures PutAll(t, [c, d]) == Put(Put(t, c), d)
  {
    PutOne(t, c);
    assert [c, d][..1] == [c];
  }

  lemma NothingPrinted(t: Terminal, format: seq<Byte>, arguments: seq<Argument>)
    requires WellFormed(t) && FormatOk(format, arguments)
    ensures PutAll(t, []) == t && (format == [] ==> Rendered(format, arguments) == [])
  {
  }

  lemma {:induction false} PutAllBoth(t: Terminal, first: seq<Byte>, second: seq<Byte>)
    requires WellFormed(t)
    ensures PutAll(t, first + second) == PutAll(PutAll(t, first), second)
    decreases |second|
  {
    if second == [] {
      assert first + second == first;
    } else {
      assert (first + second)[..|first + second| - 1] == first + second[..|second| - 1];
      PutAllBoth(t, first, second[..|second| - 1]);
    }
  }
}