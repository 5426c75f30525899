/**
 * Model of `src/config.rs`: the two-section settings record, its defaults, and the
 * `config <section>.<field> <value>` command, which parses the key, assigns one field of
 * the loaded record, and writes the record back only when the assignment succeeded.
 * Reading and writing the settings file are oracles: the loaded record is a parameter and
 * the outcome of the write is an input.
 */
module Configuration {
  import opened Common
  import opened Text

  datatype Commit = Commit(conventionalCommits: bool, ticketSuffix: bool, types: seq<string>)

  datatype Branch = Branch(conventionalBranches: bool, types: seq<string>)

  datatype Config = Config(commit: Commit, branch: Branch)

  const DefaultCommitTypes: seq<string> :=
    ["build", "ci", "docs", "feat", "fix", "perf", "refactor", "style", "test", "revert"]

  const DefaultBranchTypes: seq<string> := ["feature", "bugfix", "hotfix", "release", "chore"]

  const KeyFormatError: string := "Key format must be <section>.<field>"

  const BooleanError: string := "Value must be boolean"

  const SavedMessage: string := "✅ Config created successfuly!"

  /** The five settings a key can name, and what each holds. */
  datatype Setting =
    | CommitConventionalCommits
    | CommitTicketSuffix
    | CommitTypes
    | BranchConventionalBranches
    | BranchTypes

  datatype Value = Flag(flag: bool) | List(items: seq<string>)

  const AllSettings: seq<Setting> :=
    [CommitConventionalCommits, CommitTicketSuffix, CommitTypes, BranchConventionalBranches, BranchTypes]

  function SectionName(s: Setting): string
  {
    if s.CommitConventionalCommits? || s.CommitTicketSuffix? || s.CommitTypes? then "commit" else "branch"
  }

  function FieldName(s: Setting): string
  {
    match s
    case CommitConventionalCommits => "conventional_commits"
    case CommitTicketSuffix => "ticket_suffix"
    case CommitTypes => "types"
    case BranchConventionalBranches => "conventional_branches"
    case BranchTypes => "types"
  }

  predicate IsFlag(s: Setting)
  {
    !(s.CommitTypes? || s.BranchTypes?)
  }

  /** The value a setting has in a record. */
  function Get(c: Config, s: Setting): (v: Value)
    ensures v.Flag? == IsFlag(s)
  {
    match s
    case CommitConventionalCommits => Flag(c.commit.conventionalCommits)
    case CommitTicketSuffix => Flag(c.commit.ticketSuffix)
    case CommitTypes => List(c.commit.types)
    case BranchConventionalBranches => Flag(c.branch.conventionalBranches)
    case BranchTypes => List(c.branch.types)
  }

  /** Two records are equal exactly when they agree on every setting. */
  lemma ConfigExtensionality(c: Config, d: Config)
    requires forall s :: Get(c, s) == Get(d, s)
    ensures c == d
  {
    assert Get(c, CommitConventionalCommits) == Get(d, CommitConventionalCommits);
    assert Get(c, CommitTicketSuffix) == Get(d, CommitTicketSuffix);
    assert Get(c, CommitTypes) == Get(d, CommitTypes);
    assert Get(c, BranchConventionalBranches) == Get(d, BranchConventionalBranches);
    assert Get(c, BranchTypes) == Get(d, BranchTypes);
  }

  /** The record with one setting assigned: that setting reads back as the value assigned. */
  function Put(c: Config, s: Setting, v: Value): (d: Config)
    requires v.Flag? == IsFlag(s)
    ensures Get(d, s) == v
  {
    match s
    case CommitConventionalCommits => c.(commit := c.commit.(conventionalCommits := v.flag))
    case CommitTicketSuffix => c.(commit := c.commit.(ticketSuffix := v.flag))
    case CommitTypes => c.(commit := c.commit.(types := v.items))
    case BranchConventionalBranches => c.(branch := c.branch.(conventionalBranches := v.flag))
    case BranchTypes => c.(branch := c.branch.(types := v.items))
  }

  /**
   * Assigning one setting keeps every other; assigning a setting the value it already holds
   * leaves the record as it was, and a second assignment to the same setting overrides the first.
   */
  lemma {:induction false} PutFrame(c: Config, s: Setting, v: Value, w: Value)
    requires v.Flag? == IsFlag(s) && w.Flag? == IsFlag(s)
    ensures forall t :: t != s ==> Get(Put(c, s, v), t) == Get(c, t)
    ensures Put(c, s, Get(c, s)) == c
    ensures Put(Put(c, s, v), s, w) == Put(c, s, w)
  {
    var d := Put(c, s, Get(c, s));
    forall t ensures Get(d, t) == Get(c, t) {
    }
    ConfigExtensionality(d, c);
    var e, f := Put(Put(c, s, v), s, w), Put(c, s, w);
    forall t ensures Get(e, t) == Get(f, t) {
    }
    ConfigExtensionality(e, f);
  }

  /** `Commit::default()`: no flag set and the ten conventional commit types. */
  function DefaultCommit(): Commit
  {
    Commit(false, false, DefaultCommitTypes)
  }

  /** `Branch::default()`: the flag off and the five conventional branch types. */
  function DefaultBranch(): Branch
  {
    Branch(false, DefaultBranchTypes)
  }

  /** `Config::default()`, seen through the settings: every flag off, both lists the defaults. */
  function DefaultConfig(): (c: Config)
    ensures forall s :: IsFlag(s) ==> Get(c, s) == Flag(false)
    ensures Get(c, CommitTypes) == List(DefaultCommitTypes) && |DefaultCommitTypes| == 10
    ensures Get(c, BranchTypes) == List(DefaultBranchTypes) && |DefaultBranchTypes| == 5
  {
    Config(DefaultCommit(), DefaultBranch())
  }

  /** No type is listed twice in either default list. */
  lemma DefaultTypesDistinct()
    ensures forall i, j :: 0 <= i < j < |DefaultCommitTypes| ==> DefaultCommitTypes[i] != DefaultCommitTypes[j]
    ensures forall i, j :: 0 <= i < j < |DefaultBranchTypes| ==> DefaultBranchTypes[i] != DefaultBranchTypes[j]
  {
  }

  /** The setting a section and field name, looked up in the table of all settings. */
  function Lookup(section: string, field: string, table: seq<Setting>): (r: Option<Setting>)
    ensures r.Some? ==> r.value in table && SectionName(r.value) == section && FieldName(r.value) == field
    ensures r.None? ==> forall s :: s in table ==> SectionName(s) != section || FieldName(s) != field
  {
    if table == [] then None
    else if SectionName(table[0]) == section && FieldName(table[0]) == field then Some(table[0])
    else Lookup(section, field, table[1..])
  }

  /**
   * What a `<section>.<field>` key names: the setting of the table, or the error that names
   * the unknown field of a known section, or the unknown section.
   */
  function Resolve(section: string, field: string): (r: Result<Setting>)
    ensures r.Ok? ==> SectionName(r.value) == section && FieldName(r.value) == field
  {
    match Lookup(section, field, AllSettings)
    case Some(s) => Ok(s)
    case None =>
      if section == "commit" then Err("Unknown commit setting '" + field + "'")
      else if section == "branch" then Err("Unknown branch setting '" + field + "'")
      else Err("Unknown section '" + section + "'")
  }

  /** Every setting is reached by its own section and field name, and by no other. */
  lemma {:induction false} ResolveNames(section: string, field: string, s: Setting)
    ensures Resolve(section, field) == Ok(s) <==> section == SectionName(s) && field == FieldName(s)
  {
    if section == SectionName(s) && field == FieldName(s) {
      assert s in AllSettings;
      var r := Lookup(section, field, AllSettings);
      assert r.Some?;
      assert r.value.CommitTypes? <==> s.CommitTypes?;
    }
  }

  /** A section that holds no setting of the given field name reports that field. */
  lemma ResolveUnknownField(section: string, field: string)
    requires forall s :: SectionName(s) == section ==> FieldName(s) != field
    ensures section == "commit" ==> Resolve(section, field) == Err("Unknown commit setting '" + field + "'")
    ensures section == "branch" ==> Resolve(section, field) == Err("Unknown branch setting '" + field + "'")
    ensures section != "commit" && section != "branch" ==>
      Resolve(section, field) == Err("Unknown section '" + section + "'")
  {
    assert Lookup(section, field, AllSettings) == None;
  }

  /** `set_bool`'s match on `value.to_lowercase()`. */
  function ParseBool(value: string): (r: Option<bool>)
    ensures r.Some? ==> ToLower(value) in Spellings(r.value)
    ensures r.None? ==> ToLower(value) !in Spellings(true) + Spellings(false)
  {
    var lowered := ToLower(value);
    if lowered == "1" || lowered == "true" then Some(true)
    else if lowered == "0" || lowered == "false" then Some(false)
    else None
  }

  /** `a` and `b` differ at most in the case of their ASCII letters. */
  predicate EqualsIgnoringCase(a: string, b: string)
  {
    |a| == |b| && forall i :: 0 <= i < |a| ==> LowerChar(a[i]) == LowerChar(b[i])
  }

  /** The spellings accepted for each truth value. */
  function Spellings(b: bool): seq<string>
  {
    if b then ["1", "true"] else ["0", "false"]
  }

  lemma LowerEqualsIgnoringCase(value: string, word: string)
    requires ToLower(word) == word
    ensures ToLower(value) == word <==> EqualsIgnoringCase(value, word)
  {
    if EqualsIgnoringCase(value, word) {
      assert forall i :: 0 <= i < |word| ==> LowerChar(word[i]) == word[i] by {
        forall i | 0 <= i < |word| ensures LowerChar(word[i]) == word[i] {
          assert ToLower(word)[i] == LowerChar(word[i]);
        }
      }
    }
  }

  /**
   * A value sets a flag to `b` exactly when it is one of the spellings of `b`, whatever the
   * case of its letters: `"TRUE"` and `"False"` are accepted, anything else is refused.
   */
  lemma ParseBoolSpellings(value: string, b: bool)
    ensures ParseBool(value) == Some(b) <==> exists w :: w in Spellings(b) && EqualsIgnoringCase(value, w)
    ensures ParseBool(value) == None <==>
      forall w :: w in Spellings(true) + Spellings(false) ==> !EqualsIgnoringCase(value, w)
  {
    assert ToLower("1") == "1" && ToLower("0") == "0";
    assert ToLower("true") == "true" && ToLower("false") == "false";
    LowerEqualsIgnoringCase(value, "1");
    LowerEqualsIgnoringCase(value, "true");
    LowerEqualsIgnoringCase(value, "0");
    LowerEqualsIgnoringCase(value, "false");
    assert Spellings(true) + Spellings(false) == ["1", "true", "0", "false"];
  }

  /** Any case of `true` and `false` is accepted, as are `1` and `0`. */
  lemma ParseBoolExamples()
    ensures ParseBool("TRUE") == Some(true) && ParseBool("False") == Some(false)
    ensures ParseBool("1") == Some(true) && ParseBool("0") == Some(false)
  {
    assert ToLower("TRUE") == "true";
    assert ToLower("False") == "false";
  }

  /** Other words, `yes` among them, and the empty value are refused. */
  lemma ParseBoolRefusals()
    ensures ParseBool("maybe") == None && ParseBool("yes") == None && ParseBool("") == None
  {
    assert ToLower("maybe") != "true";
  }

  /**
   * `set_bool`: assigns the parsed flag through `target`, or refuses the value and leaves
   * `target` as it was.
   */
  method SetBool(target: bool, value: string) returns (updated: bool, result: Result<()>)
    ensures result.Ok? <==> ParseBool(value).Some?
    ensures result.Ok? ==> ParseBool(value) == Some(updated)
    ensures result.Err? ==> updated == target && result.error == BooleanError
  {
    match ParseBool(value)
    case Some(b) =>
      updated, result := b, Ok(());
    case None =>
      updated, result := target, Err(BooleanError);
  }

  /**
   * The list `set_vec` stores: the comma-separated pieces of `value`, each trimmed, in order,
   * duplicates kept. There is one item more than there are commas.
   */
  function CommaList(value: string): (items: seq<string>)
    ensures |items| == Count(value, ',') + 1
  {
    var pieces := Split(value, ',');
    seq(|pieces|, i requires 0 <= i < |pieces| => Trim(pieces[i]))
  }

  /** No item holds a comma, and none starts or ends with whitespace. */
  lemma CommaListItems(value: string)
    ensures forall i :: 0 <= i < |CommaList(value)| ==> ',' !in CommaList(value)[i]
    ensures forall i :: 0 <= i < |CommaList(value)| ==>
      var item := CommaList(value)[i];
      item == [] || (!IsWhitespace(item[0]) && !IsWhitespace(item[|item| - 1]))
  {
    var pieces := Split(value, ',');
    var items := CommaList(value);
    forall i, c | 0 <= i < |items| && c in items[i] ensures c != ',' {
      TrimSubset(pieces[i], c);
    }
  }

  /** Reading a comma-joined list trims each piece and keeps them all, in order. */
  lemma CommaListOfJoin(pieces: seq<string>)
    requires |pieces| >= 1
    requires forall i :: 0 <= i < |pieces| ==> ',' !in pieces[i]
    ensures |CommaList(Join(pieces, ','))| == |pieces|
    ensures forall i :: 0 <= i < |pieces| ==> CommaList(Join(pieces, ','))[i] == Trim(pieces[i])
  {
    SplitJoin(pieces, ',');
  }

  /** A list of trimmed items without commas survives being written as `a,b,c` and read back. */
  lemma {:induction false} CommaListRoundTrip(items: seq<string>)
    requires |items| >= 1
    requires forall i :: 0 <= i < |items| ==> ',' !in items[i]
    requires forall i :: 0 <= i < |items| ==>
      items[i] == [] || (!IsWhitespace(items[i][0]) && !IsWhitespace(items[i][|items[i]| - 1]))
    ensures CommaList(Join(items, ',')) == items
  {
    CommaListOfJoin(items);
    var r := CommaList(Join(items, ','));
    forall i | 0 <= i < |items| ensures r[i] == items[i] {
      TrimUnchanged(items[i]);
    }
  }

  /** `["a", " b ", "c"]` joined with commas is `"a, b ,c"`. */
  lemma SpacedJoin()
    ensures Join(["a", " b ", "c"], ',') == "a, b ,c"
  {
    var pieces := ["a", " b ", "c"];
    var rest := pieces[1..];
    assert rest == [" b ", "c"] && rest[1..] == ["c"];
    assert Join(rest[1..], ',') == "c";
    assert Join(rest, ',') == " b " + [','] + "c" == " b ,c";
    assert Join(pieces, ',') == "a" + [','] + " b ,c";
  }

  /** Three comma-free pieces joined with commas are read back as the three pieces, trimmed. */
  lemma CommaListOfThree(a: string, b: string, c: string)
    requires ',' !in a && ',' !in b && ',' !in c
    ensures CommaList(Join([a, b, c], ',')) == [Trim(a), Trim(b), Trim(c)]
  {
    var pieces := [a, b, c];
    CommaListOfJoin(pieces);
    var items := CommaList(Join(pieces, ','));
    assert |items| == 3 && items[0] == Trim(a) && items[1] == Trim(b) && items[2] == Trim(c);
  }

  /** `"a, b ,c"` is read as `["a", "b", "c"]`. */
  lemma CommaListExample()
    ensures CommaList("a, b ,c") == ["a", "b", "c"]
  {
    TrimExample();
    TrimUnchanged("a");
    TrimUnchanged("c");
    var trimmed := [Trim("a"), Trim(" b "), Trim("c")];
    assert trimmed == ["a", "b", "c"];
    CommaListOfThree("a", " b ", "c");
    SpacedJoin();
  }

  /** An empty value is not an empty list: it is read as one empty type. */
  lemma CommaListOfEmpty()
    ensures CommaList("") == [""]
  {
  }

  /**
   * What `config <key> <value>` means, independently of how `run_config` dispatches: the
   * setting the key names and the value it gets, or the first error met (the key shape, then
   * the section and field, then the flag's spelling).
   */
  function Assignment(key: string, value: string): (r: Result<(Setting, Value)>)
    ensures r.Ok? ==> r.value.1.Flag? == IsFlag(r.value.0)
  {
    var parts := Split(key, '.');
    if |parts| != 2 then Err(KeyFormatError) else AssignmentOf(parts[0], parts[1], value)
  }

  /** `Assignment` once the key is split into its section and field. */
  function AssignmentOf(section: string, field: string, value: string): (r: Result<(Setting, Value)>)
    ensures r.Ok? ==> r.value.1.Flag? == IsFlag(r.value.0)
  {
    match Resolve(section, field)
    case Err(e) => Err(e)
    case Ok(s) =>
      if !IsFlag(s) then Ok((s, List(CommaList(value))))
      else match ParseBool(value)
        case None => Err(BooleanError)
        case Some(b) => Ok((s, Flag(b)))
  }

  /** A key is well formed exactly when it holds one dot. */
  lemma KeyShape(key: string, value: string)
    ensures Count(key, '.') != 1 ==> Assignment(key, value) == Err(KeyFormatError)
    ensures Count(key, '.') == 1 ==> Assignment(key, value) != Err(KeyFormatError)
  {
    var parts := Split(key, '.');
    if |parts| == 2 {
      var r := AssignmentOf(parts[0], parts[1], value);
      if r.Err? {
        assert r.error[0] != KeyFormatError[0];
      }
    }
  }

  /**
   * A key with no dot (`commit`), or with two (`commit.types.x`), is refused before its names
   * are looked at.
   */
  lemma {:induction false} KeyShapeExamples(a: string, b: string, c: string, value: string)
    requires '.' !in a && '.' !in b && '.' !in c
    ensures Assignment(a, value) == Err(KeyFormatError)
    ensures Assignment(a + "." + b + "." + c, value) == Err(KeyFormatError)
  {
    SplitJoin([a], '.');
    var parts := [a, b, c];
    assert Join(parts, '.') == a + "." + b + "." + c by {
      assert parts[1..] == [b, c];
      assert parts[1..][1..] == [c];
      assert Join(parts[1..], '.') == b + "." + c;
      assert a + "." + (b + "." + c) == a + "." + b + "." + c;
    }
    SplitJoin(parts, '.');
  }

  /** A key `<section>.<field>` is split back into its section and field. */
  lemma {:induction false} KeyOfNames(section: string, field: string, value: string)
    requires '.' !in section && '.' !in field
    ensures Assignment(section + "." + field, value) == AssignmentOf(section, field, value)
  {
    assert Join([section, field], '.') == section + "." + field;
    SplitJoin([section, field], '.');
  }

  /** A well-shaped key of a known section but no such field is refused, naming the field. */
  lemma {:induction false} UnknownField(section: string, field: string, value: string)
    requires section == "commit" || section == "branch"
    requires '.' !in section && '.' !in field
    requires forall s :: SectionName(s) == section ==> FieldName(s) != field
    ensures section == "commit" ==>
      Assignment(section + "." + field, value) == Err("Unknown commit setting '" + field + "'")
    ensures section == "branch" ==>
      Assignment(section + "." + field, value) == Err("Unknown branch setting '" + field + "'")
  {
    KeyOfNames(section, field, value);
    ResolveUnknownField(section, field);
  }

  /** A well-shaped key of any other section is refused, naming the section. */
  lemma {:induction false} UnknownSection(section: string, field: string, value: string)
    requires section != "commit" && section != "branch"
    requires '.' !in section && '.' !in field
    ensures Assignment(section + "." + field, value) == Err("Unknown section '" + section + "'")
  {
    KeyOfNames(section, field, value);
    ResolveUnknownField(section, field);
  }

  /** A field of the commit section is unknown in the branch section. */
  lemma UnknownFieldOfOtherSection(value: string)
    ensures Assignment("branch.ticket_suffix", value) == Err("Unknown branch setting 'ticket_suffix'")
  {
    var section, field := "branch", "ticket_suffix";
    assert section + "." + field == "branch.ticket_suffix";
    assert "Unknown branch setting '" + field + "'" == "Unknown branch setting 'ticket_suffix'";
    UnknownField(section, field, value);
  }

  /** The key `<section>.<field>` of a setting reaches that setting; a list setting never fails. */
  lemma {:induction false} KeyOfSetting(s: Setting, value: string)
    ensures var key := SectionName(s) + "." + FieldName(s);
      && (!IsFlag(s) ==> Assignment(key, value) == Ok((s, List(CommaList(value)))))
      && (IsFlag(s) && ParseBool(value).Some? ==> Assignment(key, value) == Ok((s, Flag(ParseBool(value).value))))
      && (IsFlag(s) && ParseBool(value).None? ==> Assignment(key, value) == Err(BooleanError))
  {
    var key := SectionName(s) + "." + FieldName(s);
    assert Join([SectionName(s), FieldName(s)], '.') == key;
    SplitJoin([SectionName(s), FieldName(s)], '.');
    ResolveNames(SectionName(s), FieldName(s), s);
  }

  /**
   * `run_config`'s match on section and field: the loaded record with the addressed field
   * assigned, or the error that refuses the names or the flag's value.
   */
  method Dispatch(loaded: Config, section: string, field: string, value: string) returns (result: Result<Config>)
    ensures AssignmentOf(section, field, value).Err? ==>
      result == Err(AssignmentOf(section, field, value).error)
    ensures AssignmentOf(section, field, value).Ok? ==>
      var (s, v) := AssignmentOf(section, field, value).value;
      result == Ok(Put(loaded, s, v))
  {
    match section {
      case "commit" =>
        result := DispatchCommit(loaded, field, value);
      case "branch" =>
        result := DispatchBranch(loaded, field, value);
      case _ =>
        ResolveUnknownField(section, field);
        return Err("Unknown section '" + section + "'");
    }
  }

  /** The `"commit"` arm of `run_config`'s match. */
  method DispatchCommit(loaded: Config, field: string, value: string) returns (result: Result<Config>)
    ensures AssignmentOf("commit", field, value).Err? ==>
      result == Err(AssignmentOf("commit", field, value).error)
    ensures AssignmentOf("commit", field, value).Ok? ==>
      var (s, v) := AssignmentOf("commit", field, value).value;
      result == Ok(Put(loaded, s, v))
  {
    var config := loaded;
    match field {
      case "conventional_commits" =>
        ResolveNames("commit", field, CommitConventionalCommits);
        var b, r := SetBool(config.commit.conventionalCommits, value);
        if r.Err? { return Err(r.error); }
        config := config.(commit := config.commit.(conventionalCommits := b));
      case "ticket_suffix" =>
        ResolveNames("commit", field, CommitTicketSuffix);
        var b, r := SetBool(config.commit.ticketSuffix, value);
        if r.Err? { return Err(r.error); }
        config := config.(commit := config.commit.(ticketSuffix := b));
      case "types" =>
        ResolveNames("commit", field, CommitTypes);
        config := config.(commit := config.commit.(types := CommaList(value)));
      case _ =>
        ResolveUnknownField("commit", field);
        return Err("Unknown commit setting '" + field + "'");
    }
    return Ok(config);
  }

  /** The `"branch"` arm of `run_config`'s match. */
  method DispatchBranch(loaded: Config, field: string, value: string) returns (result: Result<Config>)
    ensures AssignmentOf("branch", field, value).Err? ==>
      result == Err(AssignmentOf("branch", field, value).error)
    ensures AssignmentOf("branch", field, value).Ok? ==>
      var (s, v) := AssignmentOf("branch", field, value).value;
      result == Ok(Put(loaded, s, v))
  {
    var config := loaded;
    match field {
      case "conventional_branches" =>
        ResolveNames("branch", field, BranchConventionalBranches);
        var b, r := SetBool(config.branch.conventionalBranches, value);
        if r.Err? { return Err(r.error); }
        config := config.(branch := config.branch.(conventionalBranches := b));
      case "types" =>
        ResolveNames("branch", field, BranchTypes);
        config := config.(branch := config.branch.(types := CommaList(value)));
      case _ =>
        ResolveUnknownField("branch", field);
        return Err("Unknown branch setting '" + field + "'");
    }
    return Ok(config);
  }

  /**
   * `run_config`: splits the key, dispatches on section and field, assigns the addressed
   * field of the loaded record and then writes the record back. Every refused key or value
   * returns before the write; a write that fails is reported.
   */
  method RunConfig(loaded: Config, key: string, value: string, saveError: Option<string>)
    returns (result: Result<()>, saved: Option<Config>, printed: seq<string>)
    ensures Assignment(key, value).Err? ==>
      result == Err(Assignment(key, value).error) && saved == None && printed == []
    ensures Assignment(key, value).Ok? ==>
      var (s, v) := Assignment(key, value).value;
      && saved == Some(Put(loaded, s, v))
      && (saveError.None? ==> result == Ok(()) && printed == [SavedMessage])
      && (saveError.Some? ==> result == Err("Failed to save config: " + saveError.value) && printed == [])
  {
    var setting := Split(key, '.');
    if |setting| != 2 {
      return Err(KeyFormatError), None, [];
    }
    var dispatched := Dispatch(loaded, setting[0], setting[1], value);
    if dispatched.Err? {
      return Err(dispatched.error), None, [];
    }
    saved := Some(dispatched.value);
    match saveError {
      case Some(e) =>
        result, printed := Err("Failed to save config: " + e), [];
      case None =>
        result, printed := Ok(()), [SavedMessage];
    }
  }
}
