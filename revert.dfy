/**
 * Model of `src/revert.rs`: pick a commit from the log, show the revert message in a box,
 * ask for confirmation, then run `git revert --no-commit <hash>` and `git commit -m
 * <message>`. The log, both prompts and both spawns of `git` are oracles given as
 * parameters; what the command prints and which `git` commands it starts are recorded, in
 * order, as effects.
 */
module Revert {
  import opened Common
  import opened Text

  /** A commit of the log: its hash and its message. */
  datatype LogEntry = LogEntry(hash: string, message: string)

  const TopLeft: char := '┌'
  const TopRight: char := '┐'
  const BottomLeft: char := '└'
  const BottomRight: char := '┘'
  const Horizontal: char := '─'
  const Vertical: char := '│'

  const SelectError: string := "Failed to revert commit: "
  const ConfirmError: string := "Failed to get confirmation: "
  const RevertError: string := "Failed to revert: "
  const CommitError: string := "Failed to commit: "
  const SuccessLine: string := "✅ Revert successful!"
  const CanceledLine: string := "❌ Revert canceled or failed to get user confirmation."

  /** The confirmation prompt's answer when the user just presses Enter. */
  const ConfirmDefault: bool := true

  /** The message of the reverting commit: the quoted subject, then the reverted hash. */
  function RevertMessage(entry: LogEntry): string
  {
    "revert: \"" + entry.message + "\"\nThis reverts commit: " + entry.hash
  }

  /**
   * A single-line message and hash give a two-line commit message: the quoted message, then
   * the hash.
   */
  lemma RevertMessageLines(entry: LogEntry)
    requires '\n' !in entry.message && '\n' !in entry.hash
    ensures Lines(RevertMessage(entry))
      == ["revert: \"" + entry.message + "\"", "This reverts commit: " + entry.hash]
  {
    var first := "revert: \"" + entry.message + "\"";
    var second := "This reverts commit: " + entry.hash;
    assert RevertMessage(entry) == first + "\n" + second;
    assert first[|first| - 1] == '"';
    LinesOfTwo(first, second);
  }

  // The box `print_in_box` draws.

  /** The longest line, in UTF-8 bytes (`line.len()`), or 0 when there is none. */
  function MaxLen(lines: seq<string>): (w: nat)
    ensures forall i :: 0 <= i < |lines| ==> Utf8Len(lines[i]) <= w
    ensures lines == [] ==> w == 0
  {
    if lines == [] then 0
    else
      var rest := MaxLen(lines[1..]);
      if Utf8Len(lines[0]) >= rest then Utf8Len(lines[0]) else rest
  }

  /** The longest length is the length of one of the lines. */
  lemma {:induction false} MaxLenAttained(lines: seq<string>) returns (i: nat)
    requires lines != []
    ensures i < |lines| && Utf8Len(lines[i]) == MaxLen(lines)
  {
    if |lines| == 1 || Utf8Len(lines[0]) >= MaxLen(lines[1..]) {
      i := 0;
    } else {
      var j := MaxLenAttained(lines[1..]);
      i := j + 1;
    }
  }

  function TopBorder(w: nat): (r: string)
    ensures |r| == w + 4 && r[0] == TopLeft && r[w + 3] == TopRight
    ensures forall k :: 0 < k < w + 3 ==> r[k] == Horizontal
  {
    [TopLeft] + Repeat(Horizontal, w + 2) + [TopRight]
  }

  function BottomBorder(w: nat): (r: string)
    ensures |r| == w + 4 && r[0] == BottomLeft && r[w + 3] == BottomRight
    ensures forall k :: 0 < k < w + 3 ==> r[k] == Horizontal
  {
    [BottomLeft] + Repeat(Horizontal, w + 2) + [BottomRight]
  }

  /** `"│ {:width$} │"`: the line padded with spaces to `w` characters, between two bars. */
  function ContentLine(line: string, w: nat): string
  {
    [Vertical, ' '] + PadRight(line, w) + [' ', Vertical]
  }

  /** The content lines of the box, one per line, in order. */
  function Rows(lines: seq<string>, w: nat): (rows: seq<string>)
    ensures |rows| == |lines|
    ensures forall i :: 0 <= i < |lines| ==> rows[i] == ContentLine(lines[i], w)
  {
    if lines == [] then [] else Rows(lines[..|lines| - 1], w) + [ContentLine(lines[|lines| - 1], w)]
  }

  lemma RowsStep(lines: seq<string>, i: nat, w: nat)
    requires i < |lines|
    ensures Rows(lines[..i + 1], w) == Rows(lines[..i], w) + [ContentLine(lines[i], w)]
  {
    assert lines[..i + 1][..i] == lines[..i];
  }

  /** The box around some lines: a border, a content line per line, a border. */
  function Framed(lines: seq<string>): (box: seq<string>)
    ensures |box| == |lines| + 2
  {
    var w := MaxLen(lines);
    [TopBorder(w)] + Rows(lines, w) + [BottomBorder(w)]
  }

  /** The lines of the box around `message`. */
  function BoxLines(message: string): seq<string>
  {
    Framed(Lines(message))
  }

  /** `print_in_box`: the top border, one line per line of the message, the bottom border. */
  method PrintInBox(message: string) returns (out: seq<string>)
    ensures out == BoxLines(message)
  {
    var lines := Lines(message);
    out := PrintFramed(lines);
  }

  /** The drawing loop of `print_in_box`, over the message's lines. */
  method PrintFramed(lines: seq<string>) returns (out: seq<string>)
    ensures out == Framed(lines)
  {
    var maxLen := MaxLen(lines);
    out := [TopBorder(maxLen)];
    for i := 0 to |lines|
      invariant out == [TopBorder(maxLen)] + Rows(lines[..i], maxLen)
    {
      RowsStep(lines, i, maxLen);
      out := out + [ContentLine(lines[i], maxLen)];
    }
    assert lines[..|lines|] == lines;
    out := out + [BottomBorder(maxLen)];
  }

  /** A content line for a line of at most `w` characters is as long as the borders. */
  lemma ContentLineLength(line: string, w: nat)
    requires |line| <= w
    ensures |ContentLine(line, w)| == w + 4 == |TopBorder(w)| == |BottomBorder(w)|
  {
  }

  /**
   * A content line for a line of at most `w` characters is a bar and a space, the line,
   * spaces up to `w`, a space and a bar.
   */
  lemma ContentLineShape(line: string, w: nat)
    requires |line| <= w
    ensures var row := ContentLine(line, w);
      && |row| == w + 4 == |TopBorder(w)| == |BottomBorder(w)|
      && row[..2] == [Vertical, ' ']
      && row[2..2 + |line|] == line
      && (forall k :: 2 + |line| <= k < w + 2 ==> row[k] == ' ')
      && row[w + 2..] == [' ', Vertical]
  {
    var row := ContentLine(line, w);
    var padded := PadRight(line, w);
    assert row == [Vertical, ' '] + padded + [' ', Vertical];
    assert row[2..2 + |line|] == padded[..|line|];
    forall k | 2 + |line| <= k < w + 2
      ensures row[k] == ' '
    {
      assert row[k] == padded[k - 2];
    }
  }

  /**
   * The box has two lines more than there are lines, its first and last lines are the
   * borders and the lines between are the given lines, in order; none is longer than
   * `MaxLen`, so every line of the box has the same number of characters.
   */
  lemma FramedShape(lines: seq<string>)
    ensures |Framed(lines)| == |lines| + 2
    ensures Framed(lines)[0] == TopBorder(MaxLen(lines))
    ensures Framed(lines)[|lines| + 1] == BottomBorder(MaxLen(lines))
    ensures forall i :: 0 <= i < |lines| ==>
      Framed(lines)[i + 1] == ContentLine(lines[i], MaxLen(lines)) && |lines[i]| <= MaxLen(lines)
  {
    var w := MaxLen(lines);
    var box := Framed(lines);
    var rows := Rows(lines, w);
    assert box == [TopBorder(w)] + rows + [BottomBorder(w)];
    forall i | 0 <= i < |lines|
      ensures box[i + 1] == ContentLine(lines[i], w) && |lines[i]| <= w
    {
      assert box[i + 1] == rows[i] == ContentLine(lines[i], w);
      assert |lines[i]| <= Utf8Len(lines[i]) <= w;
    }
  }

  /** Every line of the box, border or content, has `MaxLen + 4` characters. */
  lemma FramedWidth(lines: seq<string>)
    ensures forall i :: 0 <= i < |Framed(lines)| ==> |Framed(lines)[i]| == MaxLen(lines) + 4
  {
    var w := MaxLen(lines);
    var box := Framed(lines);
    FramedShape(lines);
    forall i | 0 <= i < |box|
      ensures |box[i]| == w + 4
    {
      ContentLineLength([], w);
      if 0 < i <= |lines| {
        ContentLineLength(lines[i - 1], w);
      }
    }
  }

  /**
   * For a message of ASCII characters, bytes are characters: the longest line fills its row
   * of the box exactly, with no padding.
   */
  lemma AsciiBoxIsTight(message: string)
    requires forall i :: 0 <= i < |message| ==> message[i] as int < 0x80
    requires Lines(message) != []
    ensures exists i ::
      0 <= i < |Lines(message)| && BoxLines(message)[i + 1] == [Vertical, ' '] + Lines(message)[i] + [' ', Vertical]
  {
    var lines := Lines(message);
    var w := MaxLen(lines);
    var i := MaxLenAttained(lines);
    LinesAscii(message, i);
    FramedShape(lines);
    var padded := PadRight(lines[i], w);
    assert |padded| == |lines[i]|;
    assert padded == lines[i];
    assert BoxLines(message)[i + 1] == ContentLine(lines[i], w);
  }

  /** Every line of an ASCII message is ASCII. */
  lemma LinesAscii(message: string, i: nat)
    requires forall j :: 0 <= j < |message| ==> message[j] as int < 0x80
    requires i < |Lines(message)|
    ensures Utf8Len(Lines(message)[i]) == |Lines(message)[i]|
  {
    var line := Lines(message)[i];
    forall k | 0 <= k < |line|
      ensures line[k] as int < 0x80
    {
      LinesSubset(message, i, line[k]);
    }
    Utf8LenAscii(line);
  }

  /** A character of a line is a character of the text. */
  lemma LinesSubset(message: string, i: nat, c: char)
    requires i < |Lines(message)| && c in Lines(message)[i]
    ensures c in message
  {
    var pieces := Split(message, '\n');
    SplitSubset(message, '\n', i, c);
  }

  // `run_revert`.

  /** The commit-selection prompt: the index of the chosen commit, or why it gave none. */
  datatype Selection = Chosen(index: nat) | SelectFailed(reason: string)

  /** The confirmation prompt: a typed yes or no, a bare Enter, or why it gave no answer. */
  datatype Confirmation = Typed(yes: bool) | AcceptedDefault | ConfirmFailed(reason: string)

  /** Starting `git` and waiting for it: its exit status, or why it could not be started. */
  datatype Spawn = Exited(status: int) | SpawnFailed(reason: string)

  /** What the command does that can be seen: a printed line, or a `git` command it runs. */
  datatype Effect = Print(line: string) | Git(args: seq<string>)

  /** Printing each of the lines, in order. */
  function Prints(lines: seq<string>): (effects: seq<Effect>)
    ensures |effects| == |lines|
  {
    seq(|lines|, i requires 0 <= i < |lines| => Print(lines[i]))
  }

  function RevertArgs(entry: LogEntry): seq<string>
  {
    ["revert", "--no-commit", entry.hash]
  }

  function CommitArgs(message: string): seq<string>
  {
    ["commit", "-m", message]
  }

  /** The answer the confirmation prompt gives, if it gives one. */
  function Answer(confirmation: Confirmation): Option<bool>
  {
    match confirmation
    case Typed(yes) => Some(yes)
    case AcceptedDefault => Some(ConfirmDefault)
    case ConfirmFailed(_) => None
  }

  /** What `run_revert` does once the box is shown, for the chosen commit. */
  function AfterBox(entry: LogEntry, confirmation: Confirmation, revertSpawn: Spawn, commitSpawn: Spawn)
    : (r: (Result<()>, seq<Effect>))
    ensures Git(RevertArgs(entry)) in r.1 <==> Answer(confirmation) == Some(true)
    ensures r.0.Ok? <==> (Answer(confirmation) == Some(false)
      || (Answer(confirmation) == Some(true) && !revertSpawn.SpawnFailed? && !commitSpawn.SpawnFailed?))
  {
    match Answer(confirmation)
    case None => (Err(ConfirmError + confirmation.reason), [])
    case Some(false) => (Ok(()), [Print(CanceledLine)])
    case Some(true) =>
      if revertSpawn.SpawnFailed? then (Err(RevertError + revertSpawn.reason), [Git(RevertArgs(entry))])
      else if commitSpawn.SpawnFailed? then
        (Err(CommitError + commitSpawn.reason), [Git(RevertArgs(entry)), Git(CommitArgs(RevertMessage(entry)))])
      else (Ok(()), [Git(RevertArgs(entry)), Git(CommitArgs(RevertMessage(entry))), Print(SuccessLine)])
  }

  /**
   * What `run_revert` returns and does for the given oracle answers, step by step: each `?`
   * returns its error and stops there.
   */
  function RevertOutcome(log: Result<seq<LogEntry>>, selection: Selection, confirmation: Confirmation,
                         revertSpawn: Spawn, commitSpawn: Spawn): (r: (Result<()>, seq<Effect>))
    requires log.Ok? && selection.Chosen? ==> selection.index < |log.value|
    ensures log.Err? || selection.SelectFailed? ==> r.0.Err? && r.1 == []
    ensures log.Ok? && selection.Chosen? ==> Prints(BoxLines(RevertMessage(log.value[selection.index]))) <= r.1
  {
    if log.Err? then (Err(log.error), [])
    else if selection.SelectFailed? then (Err(SelectError + selection.reason), [])
    else
      var entry := log.value[selection.index];
      var (result, steps) := AfterBox(entry, confirmation, revertSpawn, commitSpawn);
      (result, Prints(BoxLines(RevertMessage(entry))) + steps)
  }

  /** `run_revert`, with the log, the prompts and the `git` processes as oracles. */
  method RunRevert(log: Result<seq<LogEntry>>, selection: Selection, confirmation: Confirmation,
                   revertSpawn: Spawn, commitSpawn: Spawn) returns (result: Result<()>, effects: seq<Effect>)
    requires log.Ok? && selection.Chosen? ==> selection.index < |log.value|
    ensures (result, effects) == RevertOutcome(log, selection, confirmation, revertSpawn, commitSpawn)
  {
    effects := [];
    if log.Err? {
      return Err(log.error), effects;
    }
    var commits := log.value;
    if selection.SelectFailed? {
      return Err(SelectError + selection.reason), effects;
    }
    var selected := commits[selection.index];
    var message := RevertMessage(selected);
    var box := PrintInBox(message);
    effects := effects + Prints(box);
    assert effects == Prints(box);
    var shouldCommit: bool;
    match confirmation {
      case ConfirmFailed(reason) =>
        assert effects == Prints(box) + [];
        return Err(ConfirmError + reason), effects;
      case Typed(yes) =>
        shouldCommit := yes;
      case AcceptedDefault =>
        shouldCommit := ConfirmDefault;
    }
    if shouldCommit {
      effects := effects + [Git(RevertArgs(selected))];
      if revertSpawn.SpawnFailed? {
        return Err(RevertError + revertSpawn.reason), effects;
      }
      effects := effects + [Git(CommitArgs(message))];
      assert effects == Prints(box) + [Git(RevertArgs(selected)), Git(CommitArgs(message))];
      if commitSpawn.SpawnFailed? {
        return Err(CommitError + commitSpawn.reason), effects;
      }
      effects := effects + [Print(SuccessLine)];
      assert effects == Prints(box) + [Git(RevertArgs(selected)), Git(CommitArgs(message)), Print(SuccessLine)];
    } else {
      effects := effects + [Print(CanceledLine)];
    }
    result := Ok(());
  }

  /** The `git` commands among the effects, in order. */
  function GitCalls(effects: seq<Effect>): seq<seq<string>>
  {
    if effects == [] then []
    else (if effects[0].Git? then [effects[0].args] else []) + GitCalls(effects[1..])
  }

  /** Printing runs no `git` command. */
  lemma {:induction false} GitCallsAfterPrints(lines: seq<string>, steps: seq<Effect>)
    ensures GitCalls(Prints(lines) + steps) == GitCalls(steps)
  {
    if lines == [] {
      assert Prints(lines) + steps == steps;
    } else {
      GitCallsAfterPrints(lines[1..], steps);
      var all := Prints(lines) + steps;
      assert all[0] == Print(lines[0]);
      assert all[1..] == Prints(lines[1..]) + steps;
    }
  }

  /** The `git` commands run after the box is shown. */
  lemma {:induction false} GitCallsAfterBox(entry: LogEntry, confirmation: Confirmation, revertSpawn: Spawn,
                                            commitSpawn: Spawn)
    ensures var calls := GitCalls(AfterBox(entry, confirmation, revertSpawn, commitSpawn).1);
      && (Answer(confirmation) != Some(true) ==> calls == [])
      && (Answer(confirmation) == Some(true) && revertSpawn.SpawnFailed? ==> calls == [RevertArgs(entry)])
      && (Answer(confirmation) == Some(true) && revertSpawn.Exited? ==>
            calls == [RevertArgs(entry), CommitArgs(RevertMessage(entry))])
  {
    var revert, commit := Git(RevertArgs(entry)), Git(CommitArgs(RevertMessage(entry)));
    assert GitCalls([Print(CanceledLine)]) == [] by {
      assert [Print(CanceledLine)][1..] == [];
    }
    assert GitCalls([Print(SuccessLine)]) == [] by {
      assert [Print(SuccessLine)][1..] == [];
    }
    assert GitCalls([commit, Print(SuccessLine)]) == [commit.args] by {
      assert [commit, Print(SuccessLine)][1..] == [Print(SuccessLine)];
    }
    assert GitCalls([revert, commit]) == [revert.args, commit.args] by {
      assert [revert, commit][1..] == [commit];
      assert [commit][1..] == [];
    }
    assert GitCalls([revert]) == [revert.args] by {
      assert [revert][1..] == [];
    }
    assert [revert, commit, Print(SuccessLine)][1..] == [commit, Print(SuccessLine)];
  }

  /**
   * The `git` commands run: none unless the user confirmed, and then `git revert --no-commit
   * <hash>` first, followed by `git commit -m <message>` with the boxed message only if the
   * revert could be started.
   */
  lemma GitOrdering(log: Result<seq<LogEntry>>, selection: Selection, confirmation: Confirmation,
                    revertSpawn: Spawn, commitSpawn: Spawn)
    requires log.Ok? && selection.Chosen? ==> selection.index < |log.value|
    ensures var calls := GitCalls(RevertOutcome(log, selection, confirmation, revertSpawn, commitSpawn).1);
      && (calls != [] <==> log.Ok? && selection.Chosen? && Answer(confirmation) == Some(true))
      && (calls != [] ==>
        var entry := log.value[selection.index];
        && calls[0] == RevertArgs(entry)
        && (revertSpawn.SpawnFailed? ==> calls == [RevertArgs(entry)])
        && (revertSpawn.Exited? ==> calls == [RevertArgs(entry), CommitArgs(RevertMessage(entry))]))
  {
    if log.Ok? && selection.Chosen? {
      var entry := log.value[selection.index];
      var steps := AfterBox(entry, confirmation, revertSpawn, commitSpawn).1;
      GitCallsAfterPrints(BoxLines(RevertMessage(entry)), steps);
      GitCallsAfterBox(entry, confirmation, revertSpawn, commitSpawn);
    }
  }

  /**
   * Only a failure to start `git` is an error: the exit statuses are never looked at, so a
   * `git` that ran and failed gives the same result and the same success line as one that
   * succeeded.
   */
  lemma ExitStatusIgnored(log: Result<seq<LogEntry>>, selection: Selection, confirmation: Confirmation,
                          revertStatus: int, commitStatus: int)
    requires log.Ok? && selection.Chosen? ==> selection.index < |log.value|
    ensures RevertOutcome(log, selection, confirmation, Exited(revertStatus), Exited(commitStatus))
      == RevertOutcome(log, selection, confirmation, Exited(0), Exited(0))
  {
  }

  /**
   * The result of a run: the first failing step's error, with its prefix, or success; a
   * declined confirmation is a success that prints the cancel line and nothing after it.
   */
  lemma RevertResult(log: Result<seq<LogEntry>>, selection: Selection, confirmation: Confirmation,
                     revertSpawn: Spawn, commitSpawn: Spawn)
    requires log.Ok? && selection.Chosen? ==> selection.index < |log.value|
    ensures var (result, effects) := RevertOutcome(log, selection, confirmation, revertSpawn, commitSpawn);
      && (log.Err? ==> result == Err(log.error) && effects == [])
      && (log.Ok? && selection.SelectFailed? ==> result == Err(SelectError + selection.reason) && effects == [])
      && (log.Ok? && selection.Chosen? ==>
        var message := RevertMessage(log.value[selection.index]);
        && effects[..|BoxLines(message)|] == Prints(BoxLines(message))
        && (confirmation.ConfirmFailed? ==> result == Err(ConfirmError + confirmation.reason))
        && (confirmation == Typed(false) ==> result == Ok(()) && effects[|effects| - 1] == Print(CanceledLine))
        && (Answer(confirmation) == Some(true) <==> confirmation.AcceptedDefault? || confirmation == Typed(true))
        && (Answer(confirmation) == Some(true) ==>
          && (revertSpawn.SpawnFailed? ==> result == Err(RevertError + revertSpawn.reason))
          && (revertSpawn.Exited? && commitSpawn.SpawnFailed? ==> result == Err(CommitError + commitSpawn.reason))
          && (revertSpawn.Exited? && commitSpawn.Exited? ==>
            result == Ok(()) && effects[|effects| - 1] == Print(SuccessLine))))
  {
  }
}
