/**
 * Model of `src/log.rs`: the interactive log view. It reads key events one at a time, keeps
 * the index of the selected output format and a repaint counter, repaints a fixed region of
 * the terminal after every event, and stops on Ctrl+C. The terminal is modelled as the
 * sequence of operations written to it; the blocking `read()` is the sequence of its results.
 */
module Log {
  import opened Common
  import Text

  /** The formats the view cycles through. */
  const Formats: seq<string> := ["oneline", "short"]

  /** Number of content lines between the header and the hint. */
  const Height: nat := 3

  const Hint: string := "[↑↓ to move, ←→ to switch format, type to filter]"

  /** `counter` and `height` are `u16`: arithmetic on them wraps modulo 2^16 in a release build. */
  const U16Modulus: nat := 0x1_0000

  const ErrorPrefix: string := "An error occurred during log: "

  datatype KeyCode = Char(c: char) | Right | Left | OtherKey

  datatype Modifier = Shift | Control | Alt | Super | Hyper | Meta

  datatype KeyEventKind = Press | Repeat | Release

  datatype Event =
    | Key(code: KeyCode, modifiers: set<Modifier>, kind: KeyEventKind)
    | OtherEvent

  /** What one call of the blocking `read()` gives. */
  datatype ReadResult = Read(event: Event) | ReadError(message: string)

  /** Ctrl+C: the character `c` with exactly the Control modifier, of any kind. */
  predicate IsQuit(e: Event)
  {
    e.Key? && e.code == Char('c') && e.modifiers == {Control}
  }

  /** A read that ends the loop: a read error, or Ctrl+C. */
  predicate Stops(r: ReadResult)
  {
    r.ReadError? || IsQuit(r.event)
  }

  /** A key event with the given code, of kind Press. */
  predicate IsPress(e: Event, code: KeyCode)
  {
    e.Key? && e.code == code && e.kind == Press
  }

  /** The format index after an event that does not end the loop: it stays a valid index. */
  function NextIndex(index: nat, e: Event): (next: nat)
    ensures index < |Formats| ==> next < |Formats|
  {
    if IsPress(e, Right) then (index + 1) % |Formats|
    else if IsPress(e, Left) then (index + |Formats| - 1) % |Formats|
    else index
  }

  /** The format index after a sequence of handled events, starting from the first format. */
  function IndexAfter(events: seq<Event>): (index: nat)
    ensures index < |Formats|
  {
    if events == [] then 0 else NextIndex(IndexAfter(events[..|events| - 1]), events[|events| - 1])
  }

  /** The events the loop handles: those read before the first read that ends it. */
  function Handled(input: seq<ReadResult>): (events: seq<Event>)
  {
    if input == [] || Stops(input[0]) then [] else [input[0].event] + Handled(input[1..])
  }

  datatype Outcome = Stopped | ReadFailed(message: string) | AwaitingInput

  /** How the loop ends on `input`: on Ctrl+C, on a read error, or not yet. */
  function Ending(input: seq<ReadResult>): Outcome
  {
    if input == [] then AwaitingInput
    else if input[0].ReadError? then ReadFailed(input[0].message)
    else if IsQuit(input[0].event) then Stopped
    else Ending(input[1..])
  }

  datatype Style = Plain | Green | Magenta

  /** The terminal operations the view issues. */
  datatype TermOp =
    | HideCursor
    | EnableRawMode
    | MoveUp(lines: nat)
    | MoveToColumn(column: nat)
    | ClearLine
    | WriteLine(style: Style, text: string)
    | ShowCursor
    | DisableRawMode

  const Prologue: seq<TermOp> := [HideCursor, EnableRawMode]

  /** Clear the last line, then show the cursor, then leave raw mode. */
  const Epilogue: seq<TermOp> := [MoveUp(1), MoveToColumn(0), ClearLine, ShowCursor, DisableRawMode]

  /** Content line `i` (from 0) of a repaint: `Line {i + 1}: {counter + i}`, in `u16`. */
  function ContentText(i: nat, counter: nat): string
  {
    "Line " + Text.NatToString(i + 1) + ": " + Text.NatToString((counter + i) % U16Modulus)
  }

  /** The first `m` content lines, each written over a cleared line. */
  function Content(counter: nat, m: nat): (ops: seq<TermOp>)
    ensures |ops| == 2 * m
  {
    if m == 0 then [] else Content(counter, m - 1) + [ClearLine, WriteLine(Plain, ContentText(m - 1, counter))]
  }

  /** One repaint: back to the top of the region, then header, content and hint. */
  function Repaint(index: nat, counter: nat): (ops: seq<TermOp>)
    requires index < |Formats|
    ensures |ops| == FrameSize
  {
    [MoveUp(Height + 2), MoveToColumn(0), ClearLine, WriteLine(Green, Formats[index])]
    + Content(counter, Height)
    + [ClearLine, WriteLine(Magenta, Hint)]
  }

  /** All repaints for the handled events, in order. */
  function Frames(events: seq<Event>): (ops: seq<TermOp>)
    ensures |ops| == |events| * FrameSize
  {
    if events == [] then []
    else Multiples(|events| - 1, |events|, FrameSize); Frames(events[..|events| - 1]) + Repaint(IndexAfter(events), (|events| - 1) % U16Modulus)
  }

  /** The texts written, in order. */
  function Written(ops: seq<TermOp>): seq<string>
  {
    if ops == [] then [] else (if ops[0].WriteLine? then [ops[0].text] else []) + Written(ops[1..])
  }

  /**
   * Reading one more event that does not end the loop extends the handled events by it and
   * leaves the outcome to the rest of the input.
   */
  lemma HandledStep(input: seq<ReadResult>, n: nat, events: seq<Event>)
    requires n < |input| && !Stops(input[n])
    requires events + Handled(input[n..]) == Handled(input) && Ending(input[n..]) == Ending(input)
    ensures (events + [input[n].event]) + Handled(input[n + 1..]) == Handled(input)
    ensures Ending(input[n + 1..]) == Ending(input)
  {
    assert input[n..][0] == input[n] && input[n..][1..] == input[n + 1..];
    assert Handled(input[n..]) == [input[n].event] + Handled(input[n + 1..]);
  }

  /** A read that ends the loop is where the handled events end, and decides the outcome. */
  lemma HandledStop(input: seq<ReadResult>, n: nat)
    requires n < |input| && Stops(input[n])
    ensures Handled(input[n..]) == []
    ensures Ending(input[n..]) == if input[n].ReadError? then ReadFailed(input[n].message) else Stopped
  {
    assert input[n..][0] == input[n];
  }

  /** One more handled event moves the format index as that event dictates. */
  lemma IndexStep(events: seq<Event>, e: Event)
    ensures IndexAfter(events + [e]) == NextIndex(IndexAfter(events), e)
  {
    assert (events + [e])[..|events|] == events;
  }

  /** One more handled event moves the index by that event and adds its repaint. */
  lemma FramesStep(events: seq<Event>, e: Event)
    ensures IndexAfter(events + [e]) == NextIndex(IndexAfter(events), e)
    ensures Frames(events + [e]) == Frames(events) + Repaint(IndexAfter(events + [e]), |events| % U16Modulus)
  {
    assert (events + [e])[..|events|] == events;
  }

  /** Adding one in `u16` to the count of `n` events gives the count of `n + 1` events. */
  lemma WrappingIncrement(n: nat)
    ensures (n % U16Modulus + 1) % U16Modulus == (n + 1) % U16Modulus
  {
    var q, r := n / U16Modulus, n % U16Modulus;
    assert n == q * U16Modulus + r;
    if r + 1 < U16Modulus {
      assert n + 1 == q * U16Modulus + (r + 1);
    } else {
      assert n + 1 == (q + 1) * U16Modulus;
    }
  }

  /** The operations of one repaint, issued one by one. */
  method Paint(index: nat, counter: nat) returns (ops: seq<TermOp>)
    requires index < |Formats|
    ensures ops == Repaint(index, counter)
  {
    ops := [MoveUp(Height + 2), MoveToColumn(0), ClearLine, WriteLine(Green, Formats[index])];
    for i := 0 to Height
      invariant ops == [MoveUp(Height + 2), MoveToColumn(0), ClearLine, WriteLine(Green, Formats[index])]
        + Content(counter, i)
    {
      ops := ops + [ClearLine, WriteLine(Plain, ContentText(i, counter))];
    }
    ops := ops + [ClearLine, WriteLine(Magenta, Hint)];
  }

  /**
   * `display_loop`: hides the cursor, enters raw mode, then reads events until Ctrl+C or a
   * read error. Every other event may move the format index, is followed by a repaint that
   * shows the counter, and advances the counter. Only the Ctrl+C exit restores the terminal.
   */
  method DisplayLoop(input: seq<ReadResult>) returns (outcome: Outcome, ops: seq<TermOp>)
    ensures outcome == Ending(input)
    ensures ops == Prologue + Frames(Handled(input)) + (if outcome.Stopped? then Epilogue else [])
  {
    var painted: seq<TermOp> := [];
    var index := 0;
    var counter := 0;
    ghost var events: seq<Event> := [];
    var n := 0;
    while n < |input|
      invariant n <= |input| && |events| == n
      invariant events + Handled(input[n..]) == Handled(input)
      invariant Ending(input[n..]) == Ending(input)
      invariant index == IndexAfter(events)
      invariant counter == n % U16Modulus
      invariant painted == Frames(events)
    {
      var r := input[n];
      if r.ReadError? || IsQuit(r.event) {
        HandledStop(input, n);
        assert events + [] == events;
        if r.ReadError? {
          return ReadFailed(r.message), Prologue + painted;
        }
        return Stopped, Prologue + painted + Epilogue;
      }
      var e := r.event;
      HandledStep(input, n, events);
      FramesStep(events, e);
      if e.Key? && e.code == Right && e.kind == Press {
        index := (index + 1) % |Formats|;
      } else if e.Key? && e.code == Left && e.kind == Press {
        index := (index + |Formats| - 1) % |Formats|;
      }
      assert index == NextIndex(IndexAfter(events), e);
      var frame := Paint(index, counter);
      painted := painted + frame;
      WrappingIncrement(n);
      counter := (counter + 1) % U16Modulus;
      events := events + [e];
      n := n + 1;
    }
    assert input[n..] == [];
    assert events + [] == events;
    return AwaitingInput, Prologue + painted;
  }

  // Properties of the format index.

  /** `m` copies of the event `e`. */
  function Presses(e: Event, m: nat): (es: seq<Event>)
    ensures |es| == m && forall k :: 0 <= k < m ==> es[k] == e
  {
    seq(m, k => e)
  }

  /** Each Right press moves one format on, wrapping past the last. */
  lemma {:induction false} RightPresses(events: seq<Event>, e: Event, m: nat)
    requires IsPress(e, Right)
    ensures IndexAfter(events + Presses(e, m)) == (IndexAfter(events) + m) % |Formats|
  {
    if m == 0 {
      assert events + Presses(e, 0) == events;
    } else {
      RightPresses(events, e, m - 1);
      var shorter := events + Presses(e, m - 1);
      PressesSnoc(events, e, m);
      RightPress(shorter, e, IndexAfter(events) + m - 1);
    }
  }

  lemma PressesSnoc(events: seq<Event>, e: Event, m: nat)
    requires m > 0
    ensures events + Presses(e, m) == events + Presses(e, m - 1) + [e]
  {
    assert Presses(e, m) == Presses(e, m - 1) + [e];
  }

  lemma RightPress(events: seq<Event>, e: Event, y: nat)
    requires IsPress(e, Right) && IndexAfter(events) == y % |Formats|
    ensures IndexAfter(events + [e]) == (y + 1) % |Formats|
  {
    IndexStep(events, e);
    ModSuccessor(y);
  }

  /** Adding one modulo the number of formats does not depend on reducing first. */
  lemma ModSuccessor(y: nat)
    ensures (y % |Formats| + 1) % |Formats| == (y + 1) % |Formats|
  {
  }

  /** As many Right presses as there are formats come back to the format shown before. */
  lemma RightPressesCycle(events: seq<Event>, e: Event)
    requires IsPress(e, Right)
    ensures IndexAfter(events + Presses(e, |Formats|)) == IndexAfter(events)
  {
    RightPresses(events, e, |Formats|);
    assert (IndexAfter(events) + |Formats|) % |Formats| == IndexAfter(events) % |Formats|;
  }

  /** Left from the first format wraps to the last one. */
  lemma LeftFromFirst(e: Event)
    requires IsPress(e, Left)
    ensures NextIndex(0, e) == |Formats| - 1
  {
  }

  /** Right then Left, or Left then Right, shows the format shown before. */
  lemma RightLeftInverse(index: nat, right: Event, left: Event)
    requires index < |Formats| && IsPress(right, Right) && IsPress(left, Left)
    ensures NextIndex(NextIndex(index, right), left) == index
    ensures NextIndex(NextIndex(index, left), right) == index
  {
  }

  /** Only a Press of Right or Left moves the index: repeats, releases and other events do not. */
  lemma IndexMovesOnlyOnPress(index: nat, e: Event)
    ensures NextIndex(index, e) != index ==> IsPress(e, Right) || IsPress(e, Left)
  {
  }

  // Properties of the loop and of what it writes.

  /**
   * Ctrl+C ends the loop at once: nothing read after it is handled, it adds no repaint, and
   * the outcome is the normal stop.
   */
  lemma {:induction false} QuitEndsLoop(before: seq<ReadResult>, quit: Event, after: seq<ReadResult>)
    requires forall k :: 0 <= k < |before| ==> !Stops(before[k])
    requires IsQuit(quit)
    ensures Handled(before + [Read(quit)] + after) == Handled(before)
    ensures Ending(before + [Read(quit)] + after) == Stopped
  {
    var input := before + [Read(quit)] + after;
    if before != [] {
      QuitEndsLoop(before[1..], quit, after);
      assert input[1..] == before[1..] + [Read(quit)] + after;
    }
  }

  const FrameSize: nat := 2 * Height + 6

  /** The texts of a sequence of operations split as the operations do. */
  lemma {:induction false} WrittenAppend(a: seq<TermOp>, b: seq<TermOp>)
    ensures Written(a + b) == Written(a) + Written(b)
  {
    if a == [] {
      assert a + b == b;
    } else {
      WrittenAppend(a[1..], b);
      var head := if a[0].WriteLine? then [a[0].text] else [];
      assert (a + b)[0] == a[0] && (a + b)[1..] == a[1..] + b;
      assert Written(a + b) == head + (Written(a[1..]) + Written(b));
    }
  }

  lemma WrittenSkip(ops: seq<TermOp>)
    requires ops != [] && !ops[0].WriteLine?
    ensures Written(ops) == Written(ops[1..])
  {
  }

  lemma WrittenSingle(op: TermOp)
    requires op.WriteLine?
    ensures Written([op]) == [op.text]
  {
    assert [op][1..] == [];
  }

  /** The `Height` content lines of a repaint drawn with `counter`. */
  function ContentLines(counter: nat, m: nat): seq<string>
  {
    seq(m, j requires 0 <= j => ContentText(j, counter))
  }

  lemma {:induction false} WrittenContent(counter: nat, m: nat)
    ensures Written(Content(counter, m)) == ContentLines(counter, m)
  {
    if m > 0 {
      WrittenContent(counter, m - 1);
      var last := [ClearLine, WriteLine(Plain, ContentText(m - 1, counter))];
      WrittenAppend(Content(counter, m - 1), last);
      WrittenSkip(last);
      WrittenSingle(WriteLine(Plain, ContentText(m - 1, counter)));
      assert last[1..] == [WriteLine(Plain, ContentText(m - 1, counter))];
      assert ContentLines(counter, m) == ContentLines(counter, m - 1) + [ContentText(m - 1, counter)];
    }
  }

  /** A cleared line, then a written one, and so on. */
  predicate Alternates(ops: seq<TermOp>)
  {
    forall k :: 0 <= k < |ops| ==> (ops[k].WriteLine? <==> k % 2 == 1) && (k % 2 == 0 ==> ops[k] == ClearLine)
  }

  lemma {:induction false} ContentCleared(counter: nat, m: nat)
    ensures Alternates(Content(counter, m))
  {
    if m > 0 {
      ContentCleared(counter, m - 1);
      var prev := Content(counter, m - 1);
      var ops := Content(counter, m);
      forall k | 0 <= k < |ops|
        ensures (ops[k].WriteLine? <==> k % 2 == 1) && (k % 2 == 0 ==> ops[k] == ClearLine)
      {
        if k < |prev| {
          assert ops[k] == prev[k];
        } else if k == |prev| {
          assert ops[k] == ClearLine && k % 2 == 0;
        } else {
          assert ops[k].WriteLine? && k % 2 == 1;
        }
      }
    }
  }

  /**
   * A repaint moves up over exactly the lines it then writes: the format name, the `Height`
   * lines `Line {i + 1}: {counter + i}`, and the hint, each over a cleared line.
   */
  lemma RepaintLayout(index: nat, counter: nat)
    requires index < |Formats|
    ensures var ops := Repaint(index, counter); var lines := Written(ops);
      && |ops| == FrameSize
      && ops[0] == MoveUp(|lines|) && ops[1] == MoveToColumn(0)
      && lines == [Formats[index]] + ContentLines(counter, Height) + [Hint]
      && forall k :: 0 <= k < |ops| && ops[k].WriteLine? ==> 0 < k && ops[k - 1] == ClearLine
  {
    var head := [MoveUp(Height + 2), MoveToColumn(0), ClearLine, WriteLine(Green, Formats[index])];
    var tail := [ClearLine, WriteLine(Magenta, Hint)];
    var body := Content(counter, Height);
    var ops := Repaint(index, counter);
    WrittenAppend(head + body, tail);
    WrittenAppend(head, body);
    WrittenContent(counter, Height);
    WrittenSkip(head);
    assert head[1..] == [MoveToColumn(0), ClearLine, WriteLine(Green, Formats[index])];
    WrittenSkip(head[1..]);
    assert head[1..][1..] == [ClearLine, WriteLine(Green, Formats[index])];
    WrittenSkip(head[1..][1..]);
    assert head[1..][1..][1..] == [WriteLine(Green, Formats[index])];
    WrittenSingle(WriteLine(Green, Formats[index]));
    WrittenSkip(tail);
    assert tail[1..] == [WriteLine(Magenta, Hint)];
    WrittenSingle(WriteLine(Magenta, Hint));
    ContentCleared(counter, Height);
    forall k | 0 <= k < |ops| && ops[k].WriteLine?
      ensures 0 < k && ops[k - 1] == ClearLine
    {
      if 4 <= k < 4 + |body| {
        assert ops[k] == body[k - 4];
        if k > 4 {
          assert ops[k - 1] == body[k - 5];
        }
      }
    }
  }

  /** The operations a repaint is made of: moves, clears and writes. */
  predicate Drawing(op: TermOp)
  {
    op.MoveUp? || op.MoveToColumn? || op.ClearLine? || op.WriteLine?
  }

  lemma {:induction false} ContentDraws(counter: nat, m: nat)
    ensures forall op :: op in Content(counter, m) ==> Drawing(op)
  {
    if m > 0 {
      ContentDraws(counter, m - 1);
    }
  }

  /** The `k`-th repaint is the `k`-th slice of `FrameSize` operations, drawn with counter `k`. */
  lemma {:induction false} FrameAt(events: seq<Event>, k: nat)
    requires k < |events|
    ensures Frames(events)[k * FrameSize..(k + 1) * FrameSize]
      == Repaint(IndexAfter(events[..k + 1]), k % U16Modulus)
  {
    var n := |events| - 1;
    var prefix := events[..n];
    assert events == prefix + [events[n]];
    if k < n {
      FramesStep(prefix, events[n]);
      Multiples(k, n, FrameSize);
      SliceOfFront(Frames(prefix), Repaint(IndexAfter(events), n % U16Modulus), k * FrameSize, (k + 1) * FrameSize);
      FrameAt(prefix, k);
      assert prefix[..k + 1] == events[..k + 1];
    } else {
      LastFrame(prefix, events[n]);
      assert events[..k + 1] == events;
    }
  }

  /** The last `FrameSize` operations are the repaint after the last event. */
  lemma LastFrame(events: seq<Event>, e: Event)
    ensures Frames(events + [e])[|events| * FrameSize..(|events| + 1) * FrameSize]
      == Repaint(IndexAfter(events + [e]), |events| % U16Modulus)
  {
    FramesStep(events, e);
    Multiples(|events|, |events| + 1, FrameSize);
    SliceOfBack(Frames(events), Repaint(IndexAfter(events + [e]), |events| % U16Modulus));
  }

  /** The bounds of the `k`-th of `n` consecutive slices of `size` elements each. */
  lemma Multiples(k: nat, n: nat, size: nat)
    requires k < n
    ensures 0 <= k * size && (k + 1) * size == k * size + size <= n * size
  {
  }

  lemma SliceOfFront(a: seq<TermOp>, b: seq<TermOp>, lo: int, hi: int)
    requires 0 <= lo <= hi <= |a|
    ensures (a + b)[lo..hi] == a[lo..hi]
  {
  }

  lemma SliceOfBack(a: seq<TermOp>, b: seq<TermOp>)
    ensures (a + b)[|a|..|a| + |b|] == b
  {
  }

  /** Repaints never touch the cursor's visibility or the terminal mode. */
  lemma {:induction false} FramesOnlyDraw(events: seq<Event>)
    ensures forall op :: op in Frames(events) ==> Drawing(op)
  {
    if events != [] {
      FramesOnlyDraw(events[..|events| - 1]);
      ContentDraws((|events| - 1) % U16Modulus, Height);
    }
  }

  /**
   * A read error leaves the terminal hidden-cursor and in raw mode: only the Ctrl+C exit shows
   * the cursor and leaves raw mode, once, at the very end, in that order.
   */
  lemma TerminalRestoredOnlyOnStop(input: seq<ReadResult>)
    ensures var ops := Prologue + Frames(Handled(input)) + (if Ending(input).Stopped? then Epilogue else []);
      && (!Ending(input).Stopped? ==> ShowCursor !in ops && DisableRawMode !in ops)
      && (Ending(input).Stopped? ==> ops[|ops| - 2..] == [ShowCursor, DisableRawMode])
  {
    FramesOnlyDraw(Handled(input));
  }

  /**
   * `run_log`: the view's outcome, with a read error reported under the log prefix. `None`
   * while the loop is still waiting for input.
   */
  method RunLog(input: seq<ReadResult>) returns (result: Option<Result<()>>, ops: seq<TermOp>)
    ensures Ending(input).Stopped? ==> result == Some(Ok(()))
    ensures Ending(input).ReadFailed? ==> result == Some(Err(ErrorPrefix + Ending(input).message))
    ensures Ending(input).AwaitingInput? ==> result == None
    ensures ops == Prologue + Frames(Handled(input)) + (if Ending(input).Stopped? then Epilogue else [])
  {
    var outcome;
    outcome, ops := DisplayLoop(input);
    match outcome
    case Stopped => result := Some(Ok(()));
    case ReadFailed(e) => result := Some(Err(ErrorPrefix + e));
    case AwaitingInput => result := None;
  }
}
