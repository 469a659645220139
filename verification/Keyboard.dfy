/** The keyboard driver (kernel_os/src/keyboard.cpp): a scancode state machine
    that feeds a ring of 64 characters, written by the interrupt handler and read
    by keyboard_read_char. */
module Keyboard {
  type Byte = b: nat | b < 0x100

  /** normal_map; the entries not listed are zero. */
  function Normal(code: nat): char
  {
    match code
    case 2 => '1' case 3 => '2' case 4 => '3' case 5 => '4' case 6 => '5' case 7 => '6' case 8 => '7' case 9 => '8'
    case 10 => '9' case 11 => '0' case 12 => '-' case 13 => '=' case 14 => '\U{8}' case 15 => '\t' case 16 => 'q'
    case 17 => 'w' case 18 => 'e' case 19 => 'r' case 20 => 't' case 21 => 'y' case 22 => 'u' case 23 => 'i'
    case 24 => 'o' case 25 => 'p' case 26 => '[' case 27 => ']' case 28 => '\n' case 30 => 'a' case 31 => 's'
    case 32 => 'd' case 33 => 'f' case 34 => 'g' case 35 => 'h' case 36 => 'j' case 37 => 'k' case 38 => 'l'
    case 39 => ';' case 40 => '\'' case 41 => '`' case 43 => '\\' case 44 => 'z' case 45 => 'x' case 46 => 'c'
    case 47 => 'v' case 48 => 'b' case 49 => 'n' case 50 => 'm' case 51 => ',' case 52 => '.' case 53 => '/'
    case 55 => '*' case 57 => ' '
    case _ => '\0'
  }

  /** shifted_map */
  function Shifted(code: nat): char
  {
    match code
    case 2 => '!' case 3 => '@' case 4 => '#' case 5 => '$' case 6 => '%' case 7 => '^' case 8 => '&' case 9 => '*'
    case 10 => '(' case 11 => ')' case 12 => '_' case 13 => '+' case 14 => '\U{8}' case 15 => '\t' case 16 => 'Q'
    case 17 => 'W' case 18 => 'E' case 19 => 'R' case 20 => 'T' case 21 => 'Y' case 22 => 'U' case 23 => 'I'
    case 24 => 'O' case 25 => 'P' case 26 => '{' case 27 => '}' case 28 => '\n' case 30 => 'A' case 31 => 'S'
    case 32 => 'D' case 33 => 'F' case 34 => 'G' case 35 => 'H' case 36 => 'J' case 37 => 'K' case 38 => 'L'
    case 39 => ':' case 40 => '"' case 41 => '~' case 43 => '|' case 44 => 'Z' case 45 => 'X' case 46 => 'C'
    case 47 => 'V' case 48 => 'B' case 49 => 'N' case 50 => 'M' case 51 => '<' case 52 => '>' case 53 => '?'
    case 55 => '*' case 57 => ' '
    case _ => '\0'
  }

  predicate IsLower(c: char)
  {
    'a' <= c <= 'z'
  }

  predicate IsUpper(c: char)
  {
    'A' <= c <= 'Z'
  }

  function ToUpper(c: char): char
    requires IsLower(c)
  {
    c - 'a' + 'A'
  }

  /** translate_scancode. */
  function Translate(code: nat, shift: bool, caps: bool): char
  {
    var c := if shift then Shifted(code) else Normal(code);
    if IsLower(c) && caps then c - 'a' + 'A'
    else if IsUpper(c) && caps then c - 'A' + 'a'
    else c
  }

  /** What a key means: a letter is upper case when exactly one of shift and caps
      lock is on; caps lock does not matter to other keys. */
  function Meaning(code: nat, shift: bool, caps: bool): char
  {
    if IsLower(Normal(code)) then (if shift != caps then ToUpper(Normal(code)) else Normal(code))
    else if shift then Shifted(code) else Normal(code)
  }

  lemma TranslateMeaning(code: nat, shift: bool, caps: bool)
    ensures Translate(code, shift, caps) == Meaning(code, shift, caps)
  {
  }

  // What was typed, as a function of the bytes received so far

  /** Whether the last byte about this key was a press. */
  predicate Held(history: seq<Byte>, key: Byte)
    decreases |history|
  {
    if history == [] then false
    else
      var b := history[|history| - 1];
      if b % 0x80 == key then b < 0x80 else Held(history[..|history| - 1], key)
  }

  function Presses(history: seq<Byte>, key: Byte): nat
    decreases |history|
  {
    if history == [] then 0
    else Presses(history[..|history| - 1], key) + if history[|history| - 1] == key then 1 else 0
  }

  const PREFIX: Byte := 0xE0
  const LEFT_SHIFT: Byte := 0x2A
  const RIGHT_SHIFT: Byte := 0x36
  const CAPS_LOCK: Byte := 0x3A

  /** The character that byte b stands for after `history`, if any: only presses of
      character keys that do not follow a prefix byte stand for one. */
  function Typed(history: seq<Byte>, b: Byte): seq<char>
  {
    if b >= 0x80 || b in {LEFT_SHIFT, RIGHT_SHIFT, CAPS_LOCK} then []
    else if history != [] && history[|history| - 1] == PREFIX then []
    else
      var c := Meaning(b, Held(history, LEFT_SHIFT) || Held(history, RIGHT_SHIFT), Presses(history,
          CAPS_LOCK) % 2 == 1);
      if c == '\0' then [] else [c]
  }

  function TypedAll(history: seq<Byte>): (cs: seq<char>)
    decreases |history|
  {
    if history == [] then []
    else TypedAll(history[..|history| - 1]) + Typed(history[..|history| - 1], history[|history| - 1])
  }

  lemma OneMore(history: seq<Byte>, b: Byte)
    ensures forall key: Byte :: Held(history + [b], key) == if b % 0x80 == key then b < 0x80 else Held(history, key)
    ensures forall key: Byte :: Presses(history + [b], key) == Presses(history, key) + if b == key then 1 else 0
    ensures TypedAll(history + [b]) == TypedAll(history) + Typed(history, b)
  {
    assert (history + [b])[..|history|] == history;
  }

  /** The key was pressed at some point and not released since. */
  ghost predicate Down(history: seq<Byte>, key: nat)
  {
    exists i :: 0 <= i < |history| && history[i] == key && key + 0x80 !in history[i..]
  }

  lemma {:induction false} HeldMeaning(history: seq<Byte>, key: Byte)
    requires key < 0x80
    ensures Held(history, key) <==> Down(history, key)
    decreases |history|
  {
    if history != [] {
      var front, b := history[..|history| - 1], history[|history| - 1];
      HeldMeaning(front, key);
      if b == key {
        assert history[|history| - 1..] == [key];
      } else if b == key + 0x80 {
        assert forall i :: 0 <= i < |history| ==> history[i..][|history| - 1 - i] == b;
      } else {
        assert forall i :: 0 <= i < |front| ==> history[i..] == front[i..] + [b];
      }
    }
  }

  lemma {:induction false} PressesMeaning(history: seq<Byte>, key: Byte)
    ensures Presses(history, key) == multiset(history)[key]
    decreases |history|
  {
    if history != [] {
      PressesMeaning(history[..|history| - 1], key);
      assert history == history[..|history| - 1] + [history[|history| - 1]];
    }
  }

  /** A letter key and a digit key: releases and bytes after a prefix type nothing; with
      a shift key down (scancodes 0x2A and 0x36) or an odd number of caps lock presses
      (0x3A), but not both, a letter is upper case; a digit key looks at shift alone. */
  lemma TypedMeaning(history: seq<Byte>, b: Byte)
    ensures b >= 0x80 || (history != [] && history[|history| - 1] == 0xE0) ==> Typed(history, b) == []
    ensures var shift, caps := Down(history, 0x2A) || Down(history, 0x36), multiset(history)[0x3A] % 2 == 1;
      history == [] || history[|history| - 1] != 0xE0 ==>
        && (b == 0x1E ==> Typed(history, b) == [if shift != caps then 'A' else 'a'])
        && (b == 0x02 ==> Typed(history, b) == [if shift then '!' else '1'])
  {
    hide Held, Presses, Down;
    HeldMeaning(history, LEFT_SHIFT);
    HeldMeaning(history, RIGHT_SHIFT);
    PressesMeaning(history, CAPS_LOCK);
  }

  const BUFFER_SIZE: nat := 64

  /** Slot i places after `from` in the ring. */
  function RingSlot(from: nat, i: nat): nat
  {
    (from + i) % BUFFER_SIZE
  }

  function Distance(tail: nat, head: nat): nat
    requires tail < BUFFER_SIZE && head < BUFFER_SIZE
  {
    (head + BUFFER_SIZE - tail) % BUFFER_SIZE
  }

  /** A character that arrived, and how many were pending then. */
  datatype Arrival = Arrival(character: char, pending: nat)

  function Characters(log: seq<Arrival>): seq<char>
    decreases |log|
  {
    if log == [] then [] else Characters(log[..|log| - 1]) + [log[|log| - 1].character]
  }

  /** The arrivals that found room. */
  function Accepted(log: seq<Arrival>): seq<char>
    decreases |log|
  {
    if log == [] then []
    else
      var a := log[|log| - 1];
      Accepted(log[..|log| - 1]) + if a.pending < BUFFER_SIZE - 1 then [a.character] else []
  }

  lemma OneMoreArrival(log: seq<Arrival>, a: Arrival)
    ensures Characters(log + [a]) == Characters(log) + [a.character]
    ensures Accepted(log + [a]) == Accepted(log) + if a.pending < BUFFER_SIZE - 1 then [a.character] else []
  {
    assert (log + [a])[..|log|] == log;
  }

  /** n characters of the ring, oldest first. */
  function Ring(buf: seq<char>, from: nat, n: nat): (cs: seq<char>)
    requires |buf| == BUFFER_SIZE
    ensures |cs| == n
  {
    seq(n, i requires 0 <= i => buf[RingSlot(from, i)])
  }

  lemma RingAfterPush(buf: seq<char>, tail: nat, head: nat, c: char)
    requires |buf| == BUFFER_SIZE && tail < BUFFER_SIZE && head < BUFFER_SIZE
    ensures (head + 1) % BUFFER_SIZE == tail <==> Distance(tail, head) == BUFFER_SIZE - 1
    ensures var next := (head + 1) % BUFFER_SIZE;
            next != tail ==>
              Ring(buf[head := c], tail, Distance(tail, next)) == Ring(buf, tail, Distance(tail, head)) + [c]
  {
    var next := (head + 1) % BUFFER_SIZE;
    if next != tail {
      assert Distance(tail, next) == Distance(tail, head) + 1;
      forall i | 0 <= i < Distance(tail, next)
        ensures RingSlot(tail, i) == head <==> i == Distance(tail, head)
      {
      }
    }
  }

  lemma RingAfterPop(buf: seq<char>, tail: nat, head: nat)
    requires |buf| == BUFFER_SIZE && tail < BUFFER_SIZE && head < BUFFER_SIZE
    ensures tail == head <==> Distance(tail, head) == 0
    ensures tail != head ==>
              && Ring(buf, tail, Distance(tail, head))[0] == buf[tail]
              && Ring(buf, (tail + 1) % BUFFER_SIZE, Distance((tail + 1) % BUFFER_SIZE, head))
                 == Ring(buf, tail, Distance(tail, head))[1..]
  {
    if tail != head {
      assert Distance((tail + 1) % BUFFER_SIZE, head) == Distance(tail, head) - 1;
    }
  }

  // The driver seen from outside: a queue of at most 63 characters

  datatype Step = Irq(status: Byte, data: Byte) | Read

  /** How far a call of keyboard_read_char has come: it has looked at the queue, has
      decided to take a character, or holds it. */
  datatype Reading = NotReading | Looked(nonempty: bool) | Decided | Holds(character: char)

  /** The bytes of the keyboard, the characters that arrived and those that wait, and
      every result of keyboard_read_char, a zero for each time it found nothing. */
  datatype Pipeline = Pipeline(history: seq<Byte>, arrivals: seq<Arrival>, pending: seq<char>,
                               results: seq<char>, reading: Reading)

  const IDLE: Pipeline := Pipeline([], [], [], [], NotReading)

  /** Status bit 0 says there is data, bit 5 that it is from the second PS/2 port. */
  predicate FromKeyboard(status: Byte)
  {
    status % 2 == 1 && status / 0x20 % 2 == 0
  }

  function Receive(p: Pipeline, b: Byte): Pipeline
  {
    var typed, n := Typed(p.history, b), |p.pending|;
    p.(history := p.history + [b],
       arrivals := p.arrivals + if typed == [] then [] else [Arrival(typed[0], n)],
       pending := if n < BUFFER_SIZE - 1 then p.pending + typed else p.pending)
  }

  function Advance(p: Pipeline): Pipeline
  {
    match p.reading
    case NotReading => p.(reading := Looked(p.pending != []))
    case Looked(nonempty) => if nonempty then p.(reading := Decided)
        else p.(results := p.results + ['\0'], reading := NotReading)
    case Decided => if p.pending == [] then p else p.(reading := Holds(p.pending[0]))
    case Holds(c) =>
      p.(pending := if p.pending == [] then [] else p.pending[1..], results := p.results + [c], reading := NotReading)
  }

  function Next(p: Pipeline, s: Step): Pipeline
  {
    match s
    case Irq(status, data) => if FromKeyboard(status) then Receive(p, data) else p
    case Read => Advance(p)
  }

  function After(p: Pipeline, steps: seq<Step>): Pipeline
    decreases |steps|
  {
    if steps == [] then p else Next(After(p, steps[..|steps| - 1]), steps[|steps| - 1])
  }

  /** The bytes of the first PS/2 port. */
  function Received(steps: seq<Step>): seq<Byte>
    decreases |steps|
  {
    if steps == [] then []
    else
      var s := steps[|steps| - 1];
      Received(steps[..|steps| - 1]) + if s.Irq? && FromKeyboard(s.status) then [s.data] else []
  }

  /** The characters among the results. */
  function Delivered(results: seq<char>): seq<char>
    decreases |results|
  {
    if results == [] then []
    else
      var c := results[|results| - 1];
      Delivered(results[..|results| - 1]) + if c == '\0' then [] else [c]
  }

  lemma OneMoreResult(results: seq<char>, c: char)
    ensures Delivered(results + [c]) == Delivered(results) + if c == '\0' then [] else [c]
  {
    assert (results + [c])[..|results|] == results;
  }

  /** Everything typed arrived, what found room was accepted, and what was accepted
      was delivered or waits, all in order; at most 63 characters wait; and a read
      that is under way is right about the oldest one. */
  ghost predicate Lawful(p: Pipeline)
  {
    && Characters(p.arrivals) == TypedAll(p.history)
    && Accepted(p.arrivals) == Delivered(p.results) + p.pending
    && |p.pending| < BUFFER_SIZE && '\0' !in p.pending
    && match p.reading
       case NotReading => true
       case Looked(nonempty) => nonempty ==> p.pending != []
       case Decided => p.pending != []
       case Holds(c) => p.pending != [] && p.pending[0] == c
  }

  lemma ReceiveLawful(p: Pipeline, b: Byte)
    requires Lawful(p)
    ensures Lawful(Receive(p, b))
  {
    hide Characters, Accepted, TypedAll, Delivered, Typed;
    OneMore(p.history, b);
    TypedIsOne(p.history, b);
    if Typed(p.history, b) != [] {
      OneMoreArrival(p.arrivals, Arrival(Typed(p.history, b)[0], |p.pending|));
    } else {
      assert p.arrivals + [] == p.arrivals;
    }
  }

  lemma TypedIsOne(history: seq<Byte>, b: Byte)
    ensures |Typed(history, b)| <= 1 && '\0' !in Typed(history, b)
  {
  }

  lemma AdvanceLawful(p: Pipeline)
    requires Lawful(p)
    ensures Lawful(Advance(p))
  {
    hide Characters, Accepted, TypedAll, Delivered, Typed;
    OneMoreResult(p.results, '\0');
    if p.reading.Holds? {
      OneMoreResult(p.results, p.reading.character);
    }
  }

  lemma NextLawful(p: Pipeline, s: Step)
    requires Lawful(p)
    ensures Lawful(Next(p, s))
    ensures Next(p, s).history == p.history + if s.Irq? && FromKeyboard(s.status) then [s.data] else []
  {
    hide Lawful, Typed;
    assert p.history + [] == p.history;
    match s
    case Irq(_, data) => ReceiveLawful(p, data);
    case Read => AdvanceLawful(p);
  }

  /** For every stream of bytes and every placement of interrupts between the steps
      of a read: the laws hold, and the bytes are those of the keyboard. */
  lemma {:induction false} AlwaysLawful(p: Pipeline, steps: seq<Step>)
    requires Lawful(p)
    ensures Lawful(After(p, steps)) && After(p, steps).history == p.history + Received(steps)
    decreases |steps|
  {
    if steps == [] {
      assert p.history + [] == p.history;
    } else {
      hide Lawful, Next, FromKeyboard;
      var before, last := steps[..|steps| - 1], steps[|steps| - 1];
      AlwaysLawful(p, before);
      NextLawful(After(p, before), last);
      Longer(p.history, Received(before), if last.Irq? && FromKeyboard(last.status) then [last.data] else []);
    }
  }

  lemma Longer(a: seq<Byte>, b: seq<Byte>, c: seq<Byte>)
    ensures a + (b + c) == a + b + c
  {
  }

  // What a call of keyboard_read_char answers

  function Reads(steps: seq<Step>): nat
    decreases |steps|
  {
    if steps == [] then 0 else Reads(steps[..|steps| - 1]) + if steps[|steps| - 1].Read? then 1 else 0
  }

  lemma IrqKeeps(p: Pipeline, status: Byte, data: Byte)
    ensures var q := Next(p, Irq(status, data));
      p.pending <= q.pending && q.results == p.results && q.reading == p.reading
  {
  }

  /** A call that starts while a character waits is right about it after each of its
      steps, whatever arrives in between. */
  lemma {:induction false} CallUnderWay(p: Pipeline, steps: seq<Step>)
    requires p.reading == NotReading && p.pending != [] && Reads(steps) <= 4
    ensures var q, n := After(p, steps), Reads(steps);
      && (n < 4 ==> p.pending <= q.pending && q.results == p.results)
      && (n == 4 ==> p.pending[1..] <= q.pending && q.results == p.results + [p.pending[0]])
      && q.reading == if n == 1 then Looked(true) else if n == 2 then Decided
                      else if n == 3 then Holds(p.pending[0]) else NotReading
    decreases |steps|
  {
    if steps != [] {
      var before, last := steps[..|steps| - 1], steps[|steps| - 1];
      CallUnderWay(p, before);
      if last.Irq? {
        IrqKeeps(After(p, before), last.status, last.data);
      }
    }
  }

  /** A call that starts while nothing waits. */
  lemma {:induction false} EmptyCallUnderWay(p: Pipeline, steps: seq<Step>)
    requires p.reading == NotReading && p.pending == [] && steps != [] && steps[0] == Read && Reads(steps) <= 2
    ensures var q, n := After(p, steps), Reads(steps);
      && n >= 1 && q.results == (if n == 1 then p.results else p.results + ['\0'])
      && q.reading == if n == 1 then Looked(false) else NotReading
    decreases |steps|
  {
    var before, last := steps[..|steps| - 1], steps[|steps| - 1];
    if before == [] {
      assert After(p, before) == p;
    } else {
      EmptyCallUnderWay(p, before);
      if last.Irq? {
        IrqKeeps(After(p, before), last.status, last.data);
      }
    }
  }

  /** A whole call, with any interrupts between its steps: when a character waits as the
      call looks, the call takes four steps, returns the oldest one and removes it
      alone; otherwise it takes two and returns '\0', even if a character arrives before
      it returns. */
  lemma CallAnswers(p: Pipeline, steps: seq<Step>)
    requires p.reading == NotReading && steps != [] && steps[0] == Read
    requires Reads(steps) == if p.pending == [] then 2 else 4
    ensures var q := After(p, steps);
      && q.reading == NotReading
      && q.results == p.results + [if p.pending == [] then '\0' else p.pending[0]]
      && (p.pending != [] ==> p.pending[1..] <= q.pending)
  {
    if p.pending == [] { EmptyCallUnderWay(p, steps); } else { CallUnderWay(p, steps); }
  }

  /** In every run, a '\0' answers only a call that found nothing waiting when it looked:
      the last read before the answer was that look. */
  lemma {:induction false} EmptyAnswer(p: Pipeline, steps: seq<Step>, look: nat)
    requires Lawful(p) && p.reading == NotReading && look < |steps| && steps[look] == Read
    requires forall i :: look < i < |steps| ==> steps[i].Irq?
    requires After(p, steps + [Read]).results == After(p, steps).results + ['\0']
    ensures After(p, steps[..look]).reading == NotReading && After(p, steps[..look]).pending == []
    decreases |steps|
  {
    hide Lawful, Next;
    assert (steps + [Read])[..|steps|] == steps;
    AlwaysLawful(p, steps);
    EmptyStep(After(p, steps));
    LookedEmpty(p, steps, look);
  }

  lemma EmptyStep(p: Pipeline)
    requires Lawful(p) && Next(p, Read).results == p.results + ['\0']
    ensures p.reading == Looked(false)
  {
    hide Characters, Accepted, TypedAll, Delivered;
    var held := if p.reading.Holds? then p.reading.character else '\0';
    assert (p.results + [held])[|p.results|] == held && |p.results + ['\0']| == |p.results| + 1;
  }

  lemma {:induction false} LookedEmpty(p: Pipeline, steps: seq<Step>, look: nat)
    requires look < |steps| && steps[look] == Read && After(p, steps).reading == Looked(false)
    requires forall i :: look < i < |steps| ==> steps[i].Irq?
    ensures After(p, steps[..look]).reading == NotReading && After(p, steps[..look]).pending == []
    decreases |steps|
  {
    var before, last := steps[..|steps| - 1], steps[|steps| - 1];
    if look < |steps| - 1 {
      IrqKeeps(After(p, before), last.status, last.data);
      LookedEmpty(p, before, look);
      assert before[..look] == steps[..look];
    }
  }

  /** How far keyboard_read_char has come. */
  datatype Reader = Outside | HeadRead(head: nat) | Nonempty | Loaded(character: char)

  class Driver {
    const buffer: array<char>
    var head: nat
    var tail: nat
    var leftShift: bool
    var rightShift: bool
    var caps: bool
    var extended: bool
    /** Where the one reader is inside keyboard_read_char. */
    var reader: Reader
    /** What the driver amounts to. */
    ghost var model: Pipeline

    constructor ()
      ensures Valid() && model == IDLE && fresh(buffer)
    {
      buffer := new char[BUFFER_SIZE](i => '\0');
      head, tail, leftShift, rightShift, caps, extended, reader := 0, 0, false, false, false, false, Outside;
      model := IDLE;
    }

    ghost predicate RingOk()
      reads this`head, this`tail
    {
      buffer.Length == BUFFER_SIZE && head < BUFFER_SIZE && tail < BUFFER_SIZE
    }

    /** The characters between tail and head. */
    ghost function Pending(): (cs: seq<char>)
      requires RingOk()
      reads this`head, this`tail, buffer
      ensures |cs| < BUFFER_SIZE
    {
      Ring(buffer[..], tail, Distance(tail, head))
    }

    /** The flags say what the bytes so far say. */
    ghost predicate FlagsOk(history: seq<Byte>)
      reads this`leftShift, this`rightShift, this`caps, this`extended
    {
      && leftShift == Held(history, LEFT_SHIFT) && rightShift == Held(history, RIGHT_SHIFT)
      && caps == (Presses(history, CAPS_LOCK) % 2 == 1)
      && extended == (history != [] && history[|history| - 1] == PREFIX)
    }

    ghost function ReadingNow(): Reading
      reads this`tail, this`reader
    {
      match reader
      case Outside => NotReading
      case HeadRead(h) => Looked(h != tail)
      case Nonempty => Decided
      case Loaded(c) => Holds(c)
    }

    ghost predicate Valid()
      reads this, buffer
    {
      && RingOk() && FlagsOk(model.history) && model.pending == Pending() && model.reading == ReadingNow()
      && Lawful(model)
    }

    /** push_char: a full ring keeps its oldest characters. */
    method PushChar(character: char)
      requires RingOk()
      modifies this`head, buffer
      ensures RingOk()
      ensures Pending() == if |old(Pending())| == BUFFER_SIZE - 1 then old(Pending()) else old(Pending()) + [character]
    {
      RingAfterPush(buffer[..], tail, head, character);
      var nextHead := (head + 1) % BUFFER_SIZE;
      if nextHead == tail {
        return;
      }
      buffer[head] := character;
      head := nextHead;
    }

    /** The part of keyboard_handle_irq that follows the status checks. */
    method HandleByte(byte: Byte)
      requires RingOk() && FlagsOk(model.history)
      modifies this`head, buffer, this`leftShift, this`rightShift, this`caps, this`extended
      ensures RingOk() && FlagsOk(model.history + [byte])
      ensures Pending() == if |old(Pending())| == BUFFER_SIZE - 1 then old(Pending())
                           else old(Pending()) + Typed(model.history, byte)
    {
      hide Translate, Meaning, Normal, Shifted, Held, Presses, TypedAll, Distance, Ring, RingSlot;
      OneMore(model.history, byte);
      if byte == 0xE0 {
        extended := true;
        return;
      }
      var released := byte >= 0x80;
      var scancode := byte % 0x80;
      if scancode == 0x2A {
        leftShift := !released;
      } else if scancode == 0x36 {
        rightShift := !released;
      } else if scancode == 0x3A && !released {
        caps := !caps;
      } else if !released && !extended {
        TranslateMeaning(scancode, leftShift || rightShift, caps);
        var character := Translate(scancode, leftShift || rightShift, caps);
        if character != '\0' {
          PushChar(character);
        }
      }
      extended := false;
    }

    /** keyboard_handle_irq for a status and a data byte: data of the second port
        is dropped. */
    method HandleIrq(status: Byte, data: Byte)
      requires Valid()
      modifies this`head, buffer, this`leftShift, this`rightShift, this`caps, this`extended, this`model
      ensures Valid() && model == Next(old(model), Irq(status, data))
      ensures status % 2 == 1 && status / 0x20 % 2 == 0 ==>
                && model.history == old(model).history + [data]
                && Pending() == if |old(Pending())| == 63 then old(Pending())
                                else old(Pending()) + Typed(old(model).history, data)
      ensures status % 2 == 0 || status / 0x20 % 2 == 1 ==> model == old(model) && Pending() == old(Pending())
    {
      hide Lawful, Typed, Held, Presses, Distance, Ring;
      if status % 2 == 0 {
        return;
      }
      if status / 0x20 % 2 == 1 {
        return;
      }
      HandleByte(data);
      ReceiveLawful(model, data);
      model := Receive(model, data);
    }

    /** keyboard_char_available. */
    predicate CharAvailable()
      requires RingOk()
      reads this`head, this`tail, buffer
      ensures CharAvailable() <==> Pending() != []
    {
      RingAfterPop(buffer[..], tail, head);
      head != tail
    }

    /** The next step of keyboard_read_char; interrupts may come between any two.
        `results` holds what the call returns, once it does: a character, or '\0'
        when there was none. */
    method ReadStep() returns (results: seq<char>)
      requires Valid()
      modifies this`tail, this`reader, this`model
      ensures Valid() && model == Next(old(model), Read) && model.results == old(model).results + results
    {
      hide TypedAll, Characters, Accepted, Delivered, Distance, Ring, RingSlot, Held, Presses;
      results := [];
      AdvanceLawful(model);
      RingAfterPop(buffer[..], tail, head);
      match reader {
        case Outside => reader := HeadRead(head);
        case HeadRead(h) =>
          if h == tail {
            results, reader := ['\0'], Outside;
          } else {
            reader := Nonempty;
          }
        case Nonempty => reader := Loaded(buffer[tail]);
        case Loaded(c) =>
          tail := (tail + 1) % BUFFER_SIZE;
          results, reader := [c], Outside;
      }
      model := Advance(model);
    }

    /** keyboard_read_char, when no interrupt comes in between. */
    method ReadChar() returns (character: char)
      requires Valid() && reader == Outside
      modifies this`tail, this`reader, this`model
      ensures Valid() && reader == Outside && model.results == old(model).results + [character]
      ensures old(Pending()) == [] ==> character == '\0' && Pending() == []
      ensures old(Pending()) != [] ==> [character] + Pending() == old(Pending())
    {
      hide Lawful, Distance, Ring, RingSlot, FlagsOk;
      ghost var none := model.results;
      assert none + [] == none;
      var results := ReadStep();
      results := ReadStep();
      if results == [] {
        results := ReadStep();
        results := ReadStep();
      }
      assert model.results[|old(model).results|] == results[0];
      character := results[0];
    }

    /** Any interleaving of keyboard interrupts with the steps of keyboard_read_char:
        the driver goes through the model's states, and the reads return its results.
        So what was read and what waits is exactly what found room, in order; only
        arrivals at 63 waiting characters are missing; and what arrived is exactly
        what was typed. */
    method Run(steps: seq<Step>) returns (results: seq<char>)
      requires Valid()
      modifies this, buffer
      ensures Valid() && model == After(old(model), steps)
      ensures Pending() == model.pending && model.results == old(model).results + results
      ensures model.history == old(model).history + Received(steps)
          && Characters(model.arrivals) == TypedAll(model.history)
      ensures Delivered(model.results) + Pending() == Accepted(model.arrivals)
    {
      hide Characters, TypedAll, Accepted, Delivered, Held, Presses, Ring, Distance, Next;
      results := [];
      AlwaysLawful(model, steps);
      for i := 0 to |steps|
        invariant Valid() && model == After(old(model), steps[..i]) && model.results == old(model).results + results
      {
        assert steps[..i + 1][..i] == steps[..i];
        match steps[i] {
          case Irq(status, data) =>
            KeepsResults(model, status, data);
            HandleIrq(status, data);
          case Read =>
            var more := ReadStep();
            results := results + more;
        }
      }
      assert steps[..|steps|] == steps;
    }
  }

  lemma KeepsResults(p: Pipeline, status: Byte, data: Byte)
    ensures Next(p, Irq(status, data)).results == p.results
  {
  }
}
