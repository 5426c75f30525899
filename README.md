# gitquick core in Dafny

This project models three commands of `gitquick`, a command-line helper around `git`:

- **`config <section>.<field> <value>`** (`src/config.rs`). The settings record has two sections:
  - `commit`, with two flags and a list of types;
  - `branch`, with one flag and a list of types.

  Both have fixed defaults. The command splits the key at its dots and dispatches on the section
  and the field. It then parses the value: a flag accepts `1`/`true`/`0`/`false` in any case; a
  list is the comma-separated pieces, trimmed. Finally it assigns the one addressed field and
  writes the record back. Every refused key or value returns before the write. The loaded record
  and the outcome of the write are inputs of the model (module `Configuration`).
- **`log`** (`src/log.rs`). An interactive view that reads key events:
  - Right and Left presses cycle through two output formats;
  - every handled event repaints a five-line region in place, with a counter that advances once
    per repaint;
  - Ctrl+C stops it.

  The terminal is modelled as the list of operations written to it. The blocking `read()` is
  the sequence of what it returns: events, or a read error (module `Log`).
- **`revert`** (`src/revert.rs`). The user picks a commit, which gives the message `revert:
  "<subject>"` / `This reverts commit: <hash>`. That message is shown in a box drawn with
  box-drawing characters, and the user is asked to confirm. If they confirm, `git revert
  --no-commit <hash>` runs, then `git commit -m <message>`. The commit log, the two prompts and
  the two `git` processes are inputs. The output is the list of printed lines and `git`
  invocations, in order (module `Revert`).

Module `Text` holds the parts of Rust's string library these commands use:
- `split` on one character;
- `trim`;
- ASCII `to_lowercase`;
- `lines`;
- `repeat`;
- `{:width$}` padding;
- `len` in UTF-8 bytes;
- integer `Display`.

Module `Common` holds `Option` and `Result`.

Three behaviours of the code that the model keeps:
- **Terminal restoration.** The log view restores the terminal only on Ctrl+C. A `?` on `read()`
  (`src/log.rs:28`), on the repaint (`:54`) or on `flush` (`:67`) returns with the cursor hidden
  and raw mode on. `Log.TerminalRestoredOnlyOnStop` states this.
- **Box width.** `print_in_box` measures lines in UTF-8 bytes (`line.len()`, `src/revert.rs:47`)
  and pads them in characters (`{:width$}`, `:51`). So every row of the box has the same number
  of characters, `max_len + 4`. A longest line (in bytes) fills its row exactly when it is ASCII;
  a non-ASCII one gets one padding space for each byte beyond its character count
  (`Revert.FramedWidth`, `Revert.AsciiBoxIsTight`).
- **Counter.** `counter` is a `u16`, because `height` is the `u16` passed to `MoveUp(height + 2)`
  (`src/log.rs:54`). A release build wraps `counter += 1` (`:65`) and `counter + i` (`:60`)
  modulo 65536, and the model wraps both.

## Model

| member | source | states |
|---|---|---|
| Text.Split | src/config.rs:85 | `split('.')` gives one piece more than there are separators, and no piece holds the separator |
| Text.JoinSplit | src/config.rs:85 | splitting loses nothing: the pieces joined with the separator give back the key |
| Text.SplitJoin | src/config.rs:85 | splitting the join of separator-free pieces gives back exactly those pieces |
| Text.Trim | src/config.rs:122 | `trim()` keeps a contiguous middle of the string, cuts off only whitespace at either end, and leaves no whitespace at either end |
| Text.TrimUnchanged | src/config.rs:122 | a string with no surrounding whitespace is its own trim |
| Text.TrimIdempotent | src/config.rs:122 | trimming twice is the same as trimming once |
| Text.ToLower | src/config.rs:113 | `to_lowercase()` keeps the length and lowers each character |
| Text.Repeat | src/revert.rs:49 | `"─".repeat(n)` is exactly `n` copies of the character |
| Text.PadRight | src/revert.rs:51 | `{:width$}` keeps the line and pads it with spaces to `width` characters, never cutting it |
| Text.Utf8Len | src/revert.rs:47 | `len()` counts bytes, at least one per character |
| Text.Utf8LenAscii | src/revert.rs:47 | the byte length equals the character count exactly when the line is ASCII |
| Text.Lines | src/revert.rs:46 | no line of `lines()` contains a newline |
| Text.LinesJoin | src/revert.rs:46 | for a message without `\r`, the lines joined by `\n` give back the message, less one final `\n` if it had one: the lines are the pieces between the newlines, in order |
| Text.LinesOfTwo | src/revert.rs:46 | two newline-free lines joined by `\n` read back as exactly those two lines |
| Text.NatToString | src/log.rs:60 | `{}` of an integer is nonempty decimal digits with no leading zero |
| Text.DecimalRoundTrip | src/log.rs:60 | the printed digits denote the number printed |
| Configuration.Get | src/config.rs:14-32 | each of the five settings reads one field of the record; exactly the three flag settings hold booleans |
| Configuration.ConfigExtensionality | src/config.rs:14-32 | two records that agree on all five settings are equal |
| Configuration.Put | src/config.rs:93-101 | assigning a setting makes it read back as the value assigned |
| Configuration.PutFrame | src/config.rs:91-106 | assigning one setting keeps every other setting; assigning the held value changes nothing; a second assignment overrides the first |
| Configuration.DefaultConfig | src/config.rs:34-68 | by default every flag is false, and the lists are the ten commit types and the five branch types, in source order |
| Configuration.DefaultTypesDistinct | src/config.rs:39-65 | neither default list repeats a type |
| Configuration.Lookup | src/config.rs:91-105 | a found setting has the given section and field names; not found means no setting has both names |
| Configuration.Resolve | src/config.rs:91-105 | a section and field that resolve name that setting; otherwise the error is `Unknown commit setting`, `Unknown branch setting` or `Unknown section`, as `ResolveUnknownField` states |
| Configuration.ResolveNames | src/config.rs:91-106 | a section and field resolve to a setting exactly when they are that setting's names |
| Configuration.ResolveUnknownField | src/config.rs:96-105 | unknown names are reported as an unknown field of `commit` or `branch`, or otherwise as an unknown section |
| Configuration.LowerEqualsIgnoringCase | src/config.rs:113 | lowering a value gives a lower-case word exactly when the value equals that word ignoring case |
| Configuration.ParseBool | src/config.rs:113-116 | a value that parses, lowered, is a spelling of the flag it gives; a refused value, lowered, is none of `1`, `true`, `0`, `false` |
| Configuration.ParseBoolSpellings | src/config.rs:112-117 | a value sets `b` exactly when it is a spelling of `b` in any case, and is refused exactly when it is none of `1`, `true`, `0`, `false` in any case |
| Configuration.ParseBoolExamples | src/config.rs:113-115 | `TRUE`, `False`, `1` and `0` are read as their flags |
| Configuration.ParseBoolRefusals | src/config.rs:116 | `maybe`, `yes` and the empty value are refused |
| Configuration.SetBool | src/config.rs:112-119 | `set_bool` succeeds exactly when the value parses and then stores the parsed flag; otherwise it returns `Value must be boolean` and leaves the target as it was |
| Configuration.CommaList | src/config.rs:121-124 | `set_vec` stores one item more than there are commas in the value |
| Configuration.CommaListItems | src/config.rs:122 | no stored item holds a comma, or starts or ends with whitespace |
| Configuration.CommaListOfJoin | src/config.rs:122 | a comma-joined list reads back as its pieces, each trimmed, in order, duplicates kept |
| Configuration.CommaListRoundTrip | src/config.rs:122 | a list of trimmed, comma-free items survives being written as `a,b,c` and read back |
| Configuration.CommaListOfThree | src/config.rs:122 | a value of three comma-free pieces is read as those three pieces, each trimmed |
| Configuration.CommaListExample | src/config.rs:122 | `"a, b ,c"` is read as `["a", "b", "c"]` |
| Configuration.CommaListOfEmpty | src/config.rs:122 | the empty value is read as one empty item, not as an empty list |
| Configuration.Assignment | src/config.rs:85-106 | the meaning of a key and value: on success, the named setting and a value of the kind that setting holds |
| Configuration.AssignmentOf | src/config.rs:91-106 | the same for a key already split into section and field |
| Configuration.KeyShape | src/config.rs:85-88 | a key is refused with the key-format error exactly when it does not hold exactly one dot |
| Configuration.KeyShapeExamples | src/config.rs:85-88 | a key with no dot (`commit`) or two (`commit.types.x`) is refused with the key-format error |
| Configuration.KeyOfNames | src/config.rs:85-89 | `<section>.<field>` splits back into exactly that section and field |
| Configuration.UnknownField | src/config.rs:96-102 | an unknown field of `commit` or `branch` is refused with an error naming the field |
| Configuration.UnknownSection | src/config.rs:105 | any other section is refused with an error naming the section |
| Configuration.UnknownFieldOfOtherSection | src/config.rs:102 | `branch.ticket_suffix` is refused as an unknown branch setting, although `ticket_suffix` is a commit setting |
| Configuration.KeyOfSetting | src/config.rs:91-106 | every setting's own key reaches it: a list setting stores the trimmed comma-separated items; a flag setting stores the parsed flag, or is refused with `Value must be boolean` when the value does not parse |
| Configuration.Dispatch | src/config.rs:91-106 | the match on section and field returns the loaded record with exactly the addressed setting assigned, or the error of the assignment |
| Configuration.DispatchCommit | src/config.rs:92-97 | the `commit` arm: the record with exactly the addressed commit setting assigned, or the error of the assignment |
| Configuration.DispatchBranch | src/config.rs:99-103 | the `branch` arm: the record with exactly the addressed branch setting assigned, or the error of the assignment |
| Configuration.RunConfig | src/config.rs:82-110 | every refused key or value is returned as its error, before the save at `src/config.rs:107` and with nothing printed; otherwise the record written is the loaded one with exactly the named setting assigned, and the command either prints the confirmation or returns `Failed to save config: ...` |
| Log.IndexAfter | src/log.rs:20-21 | the format index after any handled events stays below the number of formats |
| Log.IsQuit | src/log.rs:30-35 | Ctrl+C is a `c` key event whose modifiers are exactly Control, of any kind; `Log.QuitEndsLoop` states what it does |
| Log.NextIndex | src/log.rs:37-51 | a handled event keeps the format index below the number of formats |
| Log.Repaint | src/log.rs:54-63 | every repaint is the same number of operations, `FrameSize` |
| Log.Frames | src/log.rs:26-65 | one repaint of `FrameSize` operations per handled event |
| Log.Content | src/log.rs:58-61 | the first `m` content lines take exactly two terminal operations each |
| Log.FramesStep | src/log.rs:37-65 | handling one more event moves the index by that event and appends one repaint whose counter is the number of events handled before it, modulo 2^16 |
| Log.Paint | src/log.rs:54-63 | a repaint moves up `height + 2` lines to column 0, then writes the header, the content lines and the hint, each over a cleared line |
| Log.DisplayLoop | src/log.rs:17-74 | the loop ends as the first Ctrl+C or read error dictates. Its output is hide-cursor and raw mode, then one repaint per handled event, then the restoring epilogue on Ctrl+C only |
| Log.RightPresses | src/log.rs:42 | `m` Right presses advance the index by `m` modulo the number of formats |
| Log.RightPressesCycle | src/log.rs:42 | as many Right presses as there are formats return to the same format |
| Log.LeftFromFirst | src/log.rs:49 | Left from the first format selects the last |
| Log.RightLeftInverse | src/log.rs:42-49 | a Right press and a Left press undo each other, in either order |
| Log.IndexMovesOnlyOnPress | src/log.rs:37-51 | the index changes only on a Right or Left key event of kind Press; repeats, releases and other events leave it |
| Log.QuitEndsLoop | src/log.rs:30-36 | Ctrl+C stops the loop at once: no later event is handled, and Ctrl+C itself causes no repaint |
| Log.WrittenContent | src/log.rs:58-61 | the content lines written are `Line {i+1}: {counter+i}` for `i` in `0..height`, in order |
| Log.ContentCleared | src/log.rs:58-61 | content operations alternate clear-line and write, starting with a clear |
| Log.RepaintLayout | src/log.rs:54-63 | a repaint moves up exactly as many lines as it writes. It writes the header with the selected format, the content lines and the hint, each right after a clear |
| Log.ContentDraws | src/log.rs:58-61 | content lines only clear and write lines |
| Log.FrameAt | src/log.rs:26-65 | the `k`-th repaint shows the format selected after `k + 1` events and the counter `k` modulo 2^16 |
| Log.FramesOnlyDraw | src/log.rs:54-63 | repaints never show the cursor or leave raw mode |
| Log.TerminalRestoredOnlyOnStop | src/log.rs:69-72 | on Ctrl+C the output ends by showing the cursor and then leaving raw mode; on a read error neither happens |
| Log.RunLog | src/log.rs:12-15 | `run_log` returns `Ok` on Ctrl+C and `An error occurred during log: ...` on a read error, and has not returned while input is still awaited |
| Revert.RevertMessage | src/revert.rs:13-16 | the message for a commit; `Revert.RevertMessageLines` states its lines |
| Revert.RevertMessageLines | src/revert.rs:13-16 | the revert message is exactly two lines: the quoted subject, then `This reverts commit: <hash>` |
| Revert.MaxLen | src/revert.rs:47 | `max_len` bounds the byte length of every line and is 0 when there are no lines |
| Revert.MaxLenAttained | src/revert.rs:47 | some line has byte length exactly `max_len` |
| Revert.Rows | src/revert.rs:50-52 | one row per line, in order, each the line between bars padded to `max_len` |
| Revert.TopBorder | src/revert.rs:49 | `┌`, `max_len + 2` horizontal bars, `┐`: `max_len + 4` characters |
| Revert.BottomBorder | src/revert.rs:53 | `└`, `max_len + 2` horizontal bars, `┘`: `max_len + 4` characters |
| Revert.ContentLine | src/revert.rs:51 | one row of the box; `Revert.ContentLineShape` states its shape |
| Revert.Framed | src/revert.rs:46-53 | the box has one line more than the message at the top and one at the bottom |
| Revert.PrintInBox | src/revert.rs:45-54 | `print_in_box` prints exactly the box around the message's lines; it calls `Revert.PrintFramed`, so the loop is proved once for any list of lines |
| Revert.PrintFramed | src/revert.rs:49-53 | the top border, each row in order, then the bottom border |
| Revert.ContentLineLength | src/revert.rs:49-53 | a row is as long as the borders, `max_len + 4` characters |
| Revert.ContentLineShape | src/revert.rs:51 | a row is `│ `, the line, spaces up to `max_len`, ` │` |
| Revert.FramedShape | src/revert.rs:46-53 | the box has two more lines than the message: the top border, one row per line in order, then the bottom border |
| Revert.FramedWidth | src/revert.rs:49-53 | every line of the box is `max_len + 4` characters long |
| Revert.AsciiBoxIsTight | src/revert.rs:47-51 | for an ASCII message the longest line fills its row with no padding |
| Revert.LinesAscii | src/revert.rs:46-47 | every line of an ASCII message is ASCII, so its byte length is its character count |
| Revert.AfterBox | src/revert.rs:19-42 | `git revert` runs exactly when the user confirmed; the result is `Ok` exactly when the user declined, or confirmed and both `git` processes could be started |
| Revert.RevertOutcome | src/revert.rs:7-43 | a failed log or selection returns its error with nothing printed; otherwise the output starts with the box around the chosen commit's message |
| Revert.RunRevert | src/revert.rs:7-43 | `run_revert` produces the result and the printed lines and `git` invocations the outcome of its steps dictates |
| Revert.GitCallsAfterBox | src/revert.rs:24-40 | after the box there is no `git` call unless the user confirmed; then `revert`, followed by `commit` only if `revert` could be started |
| Revert.GitOrdering | src/revert.rs:24-36 | `git` runs exactly when a commit was chosen and confirmed. `git revert --no-commit <hash>` comes first, and `git commit -m` with the boxed message follows only if the revert could be started |
| Revert.ExitStatusIgnored | src/revert.rs:25-37 | the exit statuses of both `git` processes never change the result or the output |
| Revert.RevertResult | src/revert.rs:7-43 | the result is the first failing step's error with its prefix, or `Ok` with the success line. A declined confirmation is `Ok` with the cancel line, and the box is printed before the question |

## Left out

- `src/rebase.rs` is not part of this model: it only builds a `git rebase` command line and hands the terminal to `git`.
- Configuration.RunConfig: `saved` is only the write at `src/config.rs:107`. `load_config` (`src/config.rs:83`) runs before the key is split, and when the settings file cannot be read it writes `Config::default()` itself (`src/config.rs:73-78`), so a refused key can still leave the default record on disk; the model does not show that write.
- `load_config`, `save_config` and `get_config_path` (`src/config.rs:70-80`, `126-141`): file system, project directories and TOML. The loaded record is a parameter, and the outcome of the write is an `Option` error.
- `git_operations::get_log` is not part of this model: the commit log is an input `Result` of `(hash, message)` entries.
- The `inquire` prompts are inputs. `Select` gives an index into the list or a failure. `Confirm` gives a typed answer, the default (yes), or a failure.
- Text.ToLower: `to_lowercase` is modelled on ASCII letters only. No other character lowercases into a letter of `true` or `false`, so the outcome of `set_bool` is the same.
- Text.Lines: its partner `Text.LinesJoin` covers text without `\r`; that a `\r` right before a `\n` is dropped with it is stated by the body of `Lines` only.
- Log.DisplayLoop: the blocking `read()` is a finite input sequence; input that runs out before Ctrl+C or a read error ends as `AwaitingInput`. The errors of `Hide`, raw mode, `execute!` and `flush` are not modelled: they end the loop like a read error, and the panics of `.unwrap()` on clearing are not modelled at all.
- Log.DisplayLoop: a debug build panics when `counter + i` (`src/log.rs:60`) exceeds `u16::MAX`, which first happens for `counter` 65534 and `i` 2, before `counter += 1` could overflow; the model follows a release build, which wraps.
- Colours, cursor movement and clearing are recorded as operations, not rendered.
