/**
 * `check_dev_files/setup_cfg.py`: checks that `setup.cfg` declares the required options and forces
 * the author data and the long description in its `metadata` section to fixed values.
 */
module SetupCfg {
  import opened Text
  import opened Errors
  import opened Execution

  const SETUP_CFG_PATH := "setup.cfg"

  /** The name `ConfigParser` gives its defaults section. */
  const DEFAULT_SECTION := "DEFAULT"
  const METADATA := "metadata"

  /**
   * The options a `ConfigParser` holds: the defaults, and the named sections. Option names are
   * stored as `optionxform` lowercases them.
   */
  datatype SetupConfig = SetupConfig(defaults: map<string, string>, sections: map<string, map<string, string>>)

  /** `cfg.has_option(section, option)`: the defaults count for every section. */
  predicate HasOption(cfg: SetupConfig, section: string, option: string) {
    if section == "" || section == DEFAULT_SECTION then option in cfg.defaults
    else section in cfg.sections && (option in cfg.sections[section] || option in cfg.defaults)
  }

  /** The options a named section shows: its own, over the defaults. */
  function Merged(cfg: SetupConfig, section: string): map<string, string>
    requires section in cfg.sections
  {
    cfg.defaults + cfg.sections[section]
  }

  /**
   * What `==` on two `ConfigParser`s compares: every section by name, each with its options merged
   * over the defaults, and the defaults section itself.
   */
  function View(cfg: SetupConfig): map<string, map<string, string>> {
    map s | s in cfg.sections.Keys + {DEFAULT_SECTION} ::
      if s in cfg.sections && s != DEFAULT_SECTION then Merged(cfg, s) else cfg.defaults
  }

  function NoSectionError(section: string): string {
    "NoSectionError: No section: '" + section + "'"
  }

  /** `cfg.set(section, option, value)`: the defaults for the empty or default section name, else a named section that must exist. */
  function SetOption(cfg: SetupConfig, section: string, option: string, value: string): (r: Result<SetupConfig>)
    ensures r.Raised? <==> section != "" && section != DEFAULT_SECTION && section !in cfg.sections
    ensures r.Ok? ==> HasOption(r.value, section, option)
    ensures r.Ok? ==> forall s, o :: HasOption(cfg, s, o) ==> HasOption(r.value, s, o)
  {
    if section == "" || section == DEFAULT_SECTION then Ok(cfg.(defaults := cfg.defaults[option := value]))
    else if section !in cfg.sections then Raised(NoSectionError(section))
    else Ok(cfg.(sections := cfg.sections[section := cfg.sections[section][option := value]]))
  }

  /** `cfg.set(section, o, v)` for each option-value pair in turn, stopping at the first exception. */
  function SetAll(cfg: SetupConfig, section: string, pairs: seq<(string, string)>): Result<SetupConfig> {
    if |pairs| == 0 then Ok(cfg)
    else
      match SetAll(cfg, section, pairs[..|pairs| - 1])
      case Raised(e) => Raised(e)
      case Ok(before) => SetOption(before, section, pairs[|pairs| - 1].0, pairs[|pairs| - 1].1)
  }

  /** The options of `m` after assigning each pair in turn: a later pair for the same option wins. */
  function Assign(m: map<string, string>, pairs: seq<(string, string)>): map<string, string> {
    if |pairs| == 0 then m
    else Assign(m, pairs[..|pairs| - 1])[pairs[|pairs| - 1].0 := pairs[|pairs| - 1].1]
  }

  /** The values the pairs leave behind, whatever was there before. */
  function Final(pairs: seq<(string, string)>): map<string, string> {
    Assign(map[], pairs)
  }

  /** Assigning the pairs overrides the old options by their final values and keeps the rest. */
  lemma {:induction false} AssignOverrides(m: map<string, string>, pairs: seq<(string, string)>)
    ensures Assign(m, pairs) == m + Final(pairs)
  {
    if |pairs| > 0 {
      var init := pairs[..|pairs| - 1];
      AssignOverrides(m, init);
      AssignOverrides(map[], init);
    }
  }

  /** Setting options of an existing named section assigns them in that section and touches nothing else. */
  lemma {:induction false} SetAllInSection(cfg: SetupConfig, section: string, pairs: seq<(string, string)>)
    requires section != "" && section != DEFAULT_SECTION && section in cfg.sections
    ensures SetAll(cfg, section, pairs) ==
      Ok(cfg.(sections := cfg.sections[section := Assign(cfg.sections[section], pairs)]))
  {
    if |pairs| > 0 {
      var init := pairs[..|pairs| - 1];
      SetAllInSection(cfg, section, init);
      var before := cfg.(sections := cfg.sections[section := Assign(cfg.sections[section], init)]);
      var (o, v) := pairs[|pairs| - 1];
      assert SetAll(cfg, section, pairs) == SetOption(before, section, o, v);
      assert Assign(cfg.sections[section], pairs) == Assign(cfg.sections[section], init)[o := v];
      assert before.sections[section := before.sections[section][o := v]]
        == cfg.sections[section := Assign(cfg.sections[section], pairs)];
    } else {
      assert cfg.sections[section := cfg.sections[section]] == cfg.sections;
    }
  }

  /** Setting any option of a named section that does not exist raises `NoSectionError` at the first `set`. */
  lemma {:induction false} SetAllNoSection(cfg: SetupConfig, section: string, pairs: seq<(string, string)>)
    requires section != "" && section != DEFAULT_SECTION && section !in cfg.sections
    requires |pairs| > 0
    ensures SetAll(cfg, section, pairs) == Raised(NoSectionError(section))
  {
    if |pairs| > 1 {
      SetAllNoSection(cfg, section, pairs[..|pairs| - 1]);
    }
  }

  /** A `ConfigParser` being edited: a copy of `setup.cfg` that `set` changes in place. */
  class Parser {
    var cfg: SetupConfig

    /** `copy_config`: a deep copy, so that editing it leaves the original as it was. */
    constructor (cfg: SetupConfig)
      ensures this.cfg == cfg
    {
      this.cfg := cfg;
    }

    /** `set`: an exception leaves the parser as it was. */
    method Set(section: string, option: string, value: string) returns (error: Option<string>)
      modifies this
      ensures match SetOption(old(cfg), section, option, value)
              case Ok(c) => cfg == c && error.None?
              case Raised(e) => cfg == old(cfg) && error == Some(e)
    {
      if section == "" || section == DEFAULT_SECTION {
        cfg := cfg.(defaults := cfg.defaults[option := value]);
        return None;
      }
      if section !in cfg.sections {
        return Some(NoSectionError(section));
      }
      cfg := cfg.(sections := cfg.sections[section := cfg.sections[section][option := value]]);
      error := None;
    }
  }

  /*
   * Editing the metadata section
   */

  const AUTHOR := "Common Partial Wave Analysis"
  const AUTHOR_EMAIL := "compwa-admin@ep1.rub.de"
  const AUTHOR_MESSAGE := "Updated author info in ./" + SETUP_CFG_PATH

  /** The assignments `_update_author_data` makes, in order: the email is first set to the author's name. */
  const AUTHOR_PAIRS: seq<(string, string)> := [("author", AUTHOR), ("author_email", AUTHOR), ("author_email", AUTHOR_EMAIL)]

  const LONG_DESCRIPTION_MESSAGE := "Updated long_description in ./" + SETUP_CFG_PATH
  const LONG_DESCRIPTION_PAIRS: seq<(string, string)> :=
    [("long_description", "file: README.md"), ("long_description_content_type", "text/markdown")]

  /**
   * Copying the configuration, setting `pairs` in its metadata section, and writing the copy back
   * with a `PrecommitError` if it compares unequal to the original.
   */
  function Update(cfg: SetupConfig, pairs: seq<(string, string)>, message: string): Checked<SetupConfig> {
    match SetAll(cfg, METADATA, pairs)
    case Raised(e) => Checked(cfg, Crashed(e))
    case Ok(edited) => if View(edited) != View(cfg) then Checked(edited, Failed([message])) else Checked(cfg, Passed)
  }

  /** The metadata section exists and already shows every value of `p`: merging `p` into it changes nothing. */
  predicate Shows(cfg: SetupConfig, p: map<string, string>) {
    METADATA in cfg.sections && Merged(cfg, METADATA) + p == Merged(cfg, METADATA)
  }

  /** The metadata section exists and already shows every value the pairs leave behind. */
  predicate Holds(cfg: SetupConfig, pairs: seq<(string, string)>) {
    Shows(cfg, Final(pairs))
  }

  lemma MetadataIsNamed()
    ensures METADATA != "" && METADATA != DEFAULT_SECTION
  {
    assert METADATA[0] != DEFAULT_SECTION[0];
  }

  /** Merging options into a map leaves it as it was exactly when it already holds them. */
  lemma OverrideUnchanged(m: map<string, string>, p: map<string, string>)
    ensures m + p == m <==> forall o :: o in p ==> o in m && m[o] == p[o]
  {
    if forall o :: o in p ==> o in m && m[o] == p[o] {
      assert m + p == m;
    }
  }

  /** The metadata section of `cfg` with `p` merged into its own options. */
  function MergeInto(cfg: SetupConfig, p: map<string, string>): (r: SetupConfig)
    requires METADATA in cfg.sections
    ensures METADATA in r.sections && Merged(r, METADATA) == Merged(cfg, METADATA) + p
    ensures r.defaults == cfg.defaults && r.sections.Keys == cfg.sections.Keys
  {
    cfg.(sections := cfg.sections[METADATA := cfg.sections[METADATA] + p])
  }

  /** After merging `p` into the metadata section, the section shows `p`. */
  lemma MergeShows(cfg: SetupConfig, p: map<string, string>)
    requires METADATA in cfg.sections
    ensures Shows(MergeInto(cfg, p), p)
  {
    var m := Merged(cfg, METADATA);
    assert (m + p) + p == m + p;
  }

  /** Merging `p` into the metadata section changes what `==` sees exactly when the section does not already show `p`. */
  lemma MergeView(cfg: SetupConfig, p: map<string, string>)
    requires METADATA in cfg.sections
    ensures View(MergeInto(cfg, p)) == View(cfg) <==> Shows(cfg, p)
  {
    MetadataIsNamed();
    var edited := MergeInto(cfg, p);
    assert View(edited)[METADATA] == Merged(edited, METADATA);
    assert View(cfg)[METADATA] == Merged(cfg, METADATA);
    if Shows(cfg, p) {
      assert View(edited) == View(cfg);
    }
  }

  /**
   * What an update does, told by its effect: `NoSectionError` without a metadata section; nothing,
   * when the section already shows the final values of the pairs; otherwise the section gets those
   * values over its old options, nothing else changes, and the copy is written.
   */
  function Edit(cfg: SetupConfig, pairs: seq<(string, string)>, message: string): Checked<SetupConfig> {
    if METADATA !in cfg.sections then Checked(cfg, Crashed(NoSectionError(METADATA)))
    else if Holds(cfg, pairs) then Checked(cfg, Passed)
    else Checked(MergeInto(cfg, Final(pairs)), Failed([message]))
  }

  /** Copying, setting and comparing with `==` does exactly what `Edit` describes. */
  lemma UpdateIsEdit(cfg: SetupConfig, pairs: seq<(string, string)>, message: string)
    requires |pairs| > 0
    ensures Update(cfg, pairs, message) == Edit(cfg, pairs, message)
  {
    MetadataIsNamed();
    if METADATA in cfg.sections {
      SetAllInSection(cfg, METADATA, pairs);
      AssignOverrides(cfg.sections[METADATA], pairs);
      MergeView(cfg, Final(pairs));
    } else {
      SetAllNoSection(cfg, METADATA, pairs);
    }
  }

  /** After an update that raised nothing, the metadata section shows the final values of the pairs. */
  lemma EditHolds(cfg: SetupConfig, pairs: seq<(string, string)>, message: string)
    requires !Edit(cfg, pairs, message).result.Crashed?
    ensures Holds(Edit(cfg, pairs, message).after, pairs)
  {
    if !Holds(cfg, pairs) {
      MergeShows(cfg, Final(pairs));
    }
  }

  /** A second update with the same pairs passes and writes nothing. */
  lemma UpdateIdempotent(cfg: SetupConfig, pairs: seq<(string, string)>, message: string)
    requires |pairs| > 0 && !Update(cfg, pairs, message).result.Crashed?
    ensures Update(Update(cfg, pairs, message).after, pairs, message) == Checked(Update(cfg, pairs, message).after, Passed)
  {
    UpdateIsEdit(cfg, pairs, message);
    EditHolds(cfg, pairs, message);
    UpdateIsEdit(Edit(cfg, pairs, message).after, pairs, message);
  }

  /** `_update_author_data` leaves the author's name and the administrators' address, nothing in between. */
  lemma AuthorPairsFinal()
    ensures Final(AUTHOR_PAIRS) == map["author" := AUTHOR, "author_email" := AUTHOR_EMAIL]
  {
    var one, two := AUTHOR_PAIRS[..1], AUTHOR_PAIRS[..2];
    assert one[..0] == [] && two[..1] == one && one == [("author", AUTHOR)];
    assert Final(one) == Assign(map[], [])["author" := AUTHOR];
    assert Final(two) == map["author" := AUTHOR, "author_email" := AUTHOR];
  }

  /** `_fix_long_description` points the long description at the README, as Markdown. */
  lemma LongDescriptionPairsFinal()
    ensures Final(LONG_DESCRIPTION_PAIRS) ==
      map["long_description" := "file: README.md", "long_description_content_type" := "text/markdown"]
  {
    var one := LONG_DESCRIPTION_PAIRS[..1];
    assert one[..0] == [] && one == [("long_description", "file: README.md")];
    assert Final(one) == Assign(map[], [])["long_description" := "file: README.md"];
  }

  /** The three assignments of `_update_author_data`, one after the other. */
  lemma AssignAuthor(m: map<string, string>)
    ensures Assign(m, AUTHOR_PAIRS) == m["author" := AUTHOR]["author_email" := AUTHOR]["author_email" := AUTHOR_EMAIL]
  {
    var one, two := AUTHOR_PAIRS[..1], AUTHOR_PAIRS[..2];
    assert one[..0] == [] && two[..1] == one && one == [("author", AUTHOR)];
    assert Assign(m, one) == m["author" := AUTHOR];
    assert Assign(m, two) == m["author" := AUTHOR]["author_email" := AUTHOR];
  }

  /** The two assignments of `_fix_long_description`, one after the other. */
  lemma AssignLongDescription(m: map<string, string>)
    ensures Assign(m, LONG_DESCRIPTION_PAIRS) ==
      m["long_description" := "file: README.md"]["long_description_content_type" := "text/markdown"]
  {
    var one := LONG_DESCRIPTION_PAIRS[..1];
    assert one[..0] == [] && one == [("long_description", "file: README.md")];
    assert Assign(m, one) == m["long_description" := "file: README.md"];
  }

  /** `_update_author_data`: the first exception from `set` escapes and nothing is written. */
  method UpdateAuthorData(cfg: SetupConfig) returns (after: SetupConfig, result: StepResult)
    ensures Checked(after, result) == Edit(cfg, AUTHOR_PAIRS, AUTHOR_MESSAGE)
  {
    MetadataIsNamed();
    var parser := new Parser(cfg);
    var error := parser.Set(METADATA, "author", AUTHOR);
    if error.None? {
      error := parser.Set(METADATA, "author_email", AUTHOR);
    }
    if error.None? {
      error := parser.Set(METADATA, "author_email", AUTHOR_EMAIL);
    }
    if error.Some? {
      return cfg, Crashed(error.value);
    }
    assert parser.cfg == MergeInto(cfg, Final(AUTHOR_PAIRS)) by {
      AssignAuthor(cfg.sections[METADATA]);
      AssignOverrides(cfg.sections[METADATA], AUTHOR_PAIRS);
    }
    MergeView(cfg, Final(AUTHOR_PAIRS));
    if View(parser.cfg) != View(cfg) {
      return parser.cfg, Failed([AUTHOR_MESSAGE]);
    }
    return cfg, Passed;
  }

  /** `_fix_long_description`: nothing happens without a `README.md`. */
  function LongDescription(cfg: SetupConfig, readmeExists: bool): Checked<SetupConfig> {
    if readmeExists then Edit(cfg, LONG_DESCRIPTION_PAIRS, LONG_DESCRIPTION_MESSAGE) else Checked(cfg, Passed)
  }

  /** `_fix_long_description`. */
  method FixLongDescription(cfg: SetupConfig, readmeExists: bool) returns (after: SetupConfig, result: StepResult)
    ensures Checked(after, result) == LongDescription(cfg, readmeExists)
  {
    if !readmeExists {
      return cfg, Passed;
    }
    MetadataIsNamed();
    var parser := new Parser(cfg);
    var error := parser.Set(METADATA, "long_description", "file: README.md");
    if error.None? {
      error := parser.Set(METADATA, "long_description_content_type", "text/markdown");
    }
    if error.Some? {
      return cfg, Crashed(error.value);
    }
    assert parser.cfg == MergeInto(cfg, Final(LONG_DESCRIPTION_PAIRS)) by {
      AssignLongDescription(cfg.sections[METADATA]);
      AssignOverrides(cfg.sections[METADATA], LONG_DESCRIPTION_PAIRS);
    }
    MergeView(cfg, Final(LONG_DESCRIPTION_PAIRS));
    if View(parser.cfg) != View(cfg) {
      return parser.cfg, Failed([LONG_DESCRIPTION_MESSAGE]);
    }
    return cfg, Passed;
  }

  /*
   * Required options
   */

  /** The options `_check_required_options` demands, section by section, in order. */
  const REQUIRED_OPTIONS: seq<(string, seq<string>)> :=
    [("metadata", ["name", "description", "license", "classifiers"]), ("options", ["python_requires"])]

  const MISSING_HEADER := "./" + SETUP_CFG_PATH + " is missing the following options:\n"

  /** No section is named twice. */
  predicate DistinctSections(required: seq<(string, seq<string>)>) {
    forall i, j :: 0 <= i < j < |required| ==> required[i].0 != required[j].0
  }

  lemma RequiredSectionsDistinct()
    ensures DistinctSections(REQUIRED_OPTIONS)
  {
    assert REQUIRED_OPTIONS[0].0[0] != REQUIRED_OPTIONS[1].0[0];
  }

  /** The options of `section` that `cfg` lacks, in the order they are listed. */
  function MissingIn(cfg: SetupConfig, section: string, options: seq<string>): seq<string> {
    if |options| == 0 then []
    else
      var o := options[|options| - 1];
      MissingIn(cfg, section, options[..|options| - 1]) + (if HasOption(cfg, section, o) then [] else [o])
  }

  lemma {:induction false} MissingInMember(cfg: SetupConfig, section: string, options: seq<string>, o: string)
    ensures o in MissingIn(cfg, section, options) <==> o in options && !HasOption(cfg, section, o)
  {
    if |options| > 0 {
      var init := options[..|options| - 1];
      MissingInMember(cfg, section, init, o);
      assert options == init + [options[|options| - 1]];
    }
  }

  /** A group of the summary: a section with the options it lacks, left out when it lacks none. */
  function Group(section: string, missing: seq<string>): seq<(string, seq<string>)> {
    if missing == [] then [] else [(section, missing)]
  }

  /** `missing_options`: the sections lacking options, in the order listed, each with what it lacks. */
  function MissingGroups(cfg: SetupConfig, required: seq<(string, seq<string>)>): seq<(string, seq<string>)> {
    if |required| == 0 then []
    else
      var (section, options) := required[|required| - 1];
      MissingGroups(cfg, required[..|required| - 1]) + Group(section, MissingIn(cfg, section, options))
  }

  /** Every group is a listed section with a non-empty list of options it lacks. */
  lemma {:induction false} MissingGroupsShape(cfg: SetupConfig, required: seq<(string, seq<string>)>)
    ensures forall g :: g in MissingGroups(cfg, required) ==>
      g.1 != [] && exists i :: 0 <= i < |required| && g == (required[i].0, MissingIn(cfg, required[i].0, required[i].1))
  {
    if |required| > 0 {
      var init := required[..|required| - 1];
      MissingGroupsShape(cfg, init);
      forall g | g in MissingGroups(cfg, init)
        ensures exists i :: 0 <= i < |required| && g == (required[i].0, MissingIn(cfg, required[i].0, required[i].1))
      {
        var i :| 0 <= i < |init| && g == (init[i].0, MissingIn(cfg, init[i].0, init[i].1));
        assert required[i] == init[i];
      }
    }
  }

  /** There is no group exactly when every listed option is present. */
  lemma {:induction false} MissingGroupsEmpty(cfg: SetupConfig, required: seq<(string, seq<string>)>)
    ensures MissingGroups(cfg, required) == [] <==>
      forall i, o :: 0 <= i < |required| && o in required[i].1 ==> HasOption(cfg, required[i].0, o)
  {
    if |required| > 0 {
      var n := |required| - 1;
      var init := required[..n];
      MissingGroupsEmpty(cfg, init);
      var (section, options) := required[n];
      if MissingIn(cfg, section, options) != [] {
        var o := MissingIn(cfg, section, options)[0];
        MissingInMember(cfg, section, options, o);
      } else {
        forall o | o in options ensures HasOption(cfg, section, o) {
          MissingInMember(cfg, section, options, o);
        }
      }
      assert forall i :: 0 <= i < n ==> init[i] == required[i];
    }
  }

  /** No key in a list of groups equals `key`. */
  predicate Absent(groups: seq<(string, seq<string>)>, key: string) {
    forall i :: 0 <= i < |groups| ==> groups[i].0 != key
  }

  /** The groups only use the sections listed. */
  lemma {:induction false} MissingGroupsAbsent(cfg: SetupConfig, required: seq<(string, seq<string>)>, key: string)
    requires forall i :: 0 <= i < |required| ==> required[i].0 != key
    ensures Absent(MissingGroups(cfg, required), key)
  {
    if |required| > 0 {
      MissingGroupsAbsent(cfg, required[..|required| - 1], key);
    }
  }

  /** `d[key].append(value)` on a `defaultdict(list)` kept as its items in insertion order. */
  function DictAppend(d: seq<(string, seq<string>)>, key: string, value: string): seq<(string, seq<string>)> {
    if |d| == 0 then [(key, [value])]
    else if d[0].0 == key then [(key, d[0].1 + [value])] + d[1..]
    else [d[0]] + DictAppend(d[1..], key, value)
  }

  /** Appending under a new key adds an item at the end. */
  lemma {:induction false} DictAppendNew(d: seq<(string, seq<string>)>, key: string, value: string)
    requires Absent(d, key)
    ensures DictAppend(d, key, value) == d + [(key, [value])]
  {
    if |d| > 0 {
      DictAppendNew(d[1..], key, value);
      assert d == [d[0]] + d[1..];
    }
  }

  /** Appending under the key of the last item, new among the others, extends that item. */
  lemma {:induction false} DictAppendLast(d: seq<(string, seq<string>)>, key: string, values: seq<string>, value: string)
    requires Absent(d, key)
    ensures DictAppend(d + [(key, values)], key, value) == d + [(key, values + [value])]
  {
    if |d| > 0 {
      DictAppendLast(d[1..], key, values, value);
      assert (d + [(key, values)])[1..] == d[1..] + [(key, values)];
      assert d == [d[0]] + d[1..];
    }
  }

  /** The summary lines of one section. */
  function OptionLines(options: seq<string>): string {
    if |options| == 0 then "" else OptionLines(options[..|options| - 1]) + options[|options| - 1] + " = ...\n"
  }

  /** The header of one section in the summary. */
  function Header(section: string): string {
    "[" + section + "]\n...\n"
  }

  /** One section of the summary: its header, the options it lacks, and an ellipsis. */
  function SectionSummary(section: string, options: seq<string>): string {
    Header(section) + OptionLines(options) + "...\n"
  }

  /** The summary of the groups, section by section. */
  function Summary(groups: seq<(string, seq<string>)>): string {
    if |groups| == 0 then ""
    else
      var (section, options) := groups[|groups| - 1];
      Summary(groups[..|groups| - 1]) + SectionSummary(section, options)
  }

  /** What `_check_required_options` ends with. */
  function RequiredOptionsResult(cfg: SetupConfig): StepResult {
    var groups := MissingGroups(cfg, REQUIRED_OPTIONS);
    if groups == [] then Passed else Failed([MISSING_HEADER + Indent("\n" + Summary(groups), "  ")])
  }

  /**
   * The check passes exactly when every required option is present (in its section or among the
   * defaults); otherwise its one message lists the groups.
   */
  lemma RequiredOptionsPass(cfg: SetupConfig)
    ensures RequiredOptionsResult(cfg).Passed? <==>
      forall i, o :: 0 <= i < |REQUIRED_OPTIONS| && o in REQUIRED_OPTIONS[i].1 ==> HasOption(cfg, REQUIRED_OPTIONS[i].0, o)
    ensures !RequiredOptionsResult(cfg).Crashed?
  {
    MissingGroupsEmpty(cfg, REQUIRED_OPTIONS);
  }

  /**
   * The inner loop of `_check_required_options`: appends each option of `section` that `cfg` lacks to
   * `missing[section]`.
   */
  method CollectSection(cfg: SetupConfig, missing: seq<(string, seq<string>)>, section: string, options: seq<string>)
    returns (collected: seq<(string, seq<string>)>)
    requires Absent(missing, section)
    ensures collected == missing + Group(section, MissingIn(cfg, section, options))
  {
    collected := missing;
    var j := 0;
    while j < |options|
      invariant 0 <= j <= |options|
      invariant collected == missing + Group(section, MissingIn(cfg, section, options[..j]))
    {
      assert options[..j + 1][..j] == options[..j];
      var before := MissingIn(cfg, section, options[..j]);
      assert MissingIn(cfg, section, options[..j + 1]) ==
        before + (if HasOption(cfg, section, options[j]) then [] else [options[j]]);
      if !HasOption(cfg, section, options[j]) {
        if before == [] {
          assert collected == missing;
          DictAppendNew(collected, section, options[j]);
          assert DictAppend(collected, section, options[j]) == missing + [(section, [options[j]])];
          assert before + [options[j]] == [options[j]];
        } else {
          assert collected == missing + [(section, before)];
          DictAppendLast(missing, section, before, options[j]);
          assert DictAppend(collected, section, options[j]) == missing + [(section, before + [options[j]])];
        }
        collected := DictAppend(collected, section, options[j]);
        assert collected == missing + [(section, before + [options[j]])];
        assert Group(section, before + [options[j]]) == [(section, before + [options[j]])];
      } else {
        assert MissingIn(cfg, section, options[..j + 1]) == before;
      }
      assert collected == missing + Group(section, MissingIn(cfg, section, options[..j + 1]));
      j := j + 1;
    }
    assert options[..j] == options;
  }

  /** The outer loop of `_check_required_options`: `missing_options` once every section is visited. */
  method CollectMissing(cfg: SetupConfig) returns (missing: seq<(string, seq<string>)>)
    ensures missing == MissingGroups(cfg, REQUIRED_OPTIONS)
  {
    RequiredSectionsDistinct();
    missing := [];
    var i := 0;
    while i < |REQUIRED_OPTIONS|
      invariant 0 <= i <= |REQUIRED_OPTIONS|
      invariant missing == MissingGroups(cfg, REQUIRED_OPTIONS[..i])
    {
      var (section, options) := REQUIRED_OPTIONS[i];
      MissingGroupsAbsent(cfg, REQUIRED_OPTIONS[..i], section);
      missing := CollectSection(cfg, missing, section, options);
      assert REQUIRED_OPTIONS[..i + 1][..i] == REQUIRED_OPTIONS[..i];
      i := i + 1;
    }
    assert REQUIRED_OPTIONS[..i] == REQUIRED_OPTIONS;
  }

  /** The inner summary loop of `_check_required_options`: one section appended to `summary`. */
  method WriteSection(summary: string, section: string, options: seq<string>) returns (r: string)
    ensures r == summary + SectionSummary(section, options)
  {
    r := summary + Header(section);
    var m := 0;
    while m < |options|
      invariant 0 <= m <= |options|
      invariant r == summary + Header(section) + OptionLines(options[..m])
    {
      assert options[..m + 1][..m] == options[..m];
      r := r + options[m] + " = ...\n";
      m := m + 1;
    }
    assert options[..m] == options;
    r := r + "...\n";
  }

  /** The summary loop of `_check_required_options`. */
  method WriteSummary(missing: seq<(string, seq<string>)>) returns (summary: string)
    ensures summary == "\n" + Summary(missing)
  {
    summary := "\n";
    var k := 0;
    while k < |missing|
      invariant 0 <= k <= |missing|
      invariant summary == "\n" + Summary(missing[..k])
    {
      var (section, options) := missing[k];
      summary := WriteSection(summary, section, options);
      assert missing[..k + 1][..k] == missing[..k];
      k := k + 1;
    }
    assert missing[..k] == missing;
  }

  /** `_check_required_options`: reads the configuration and never writes it. */
  method CheckRequiredOptions(cfg: SetupConfig) returns (result: StepResult)
    ensures result == RequiredOptionsResult(cfg)
  {
    var missing := CollectMissing(cfg);
    if missing == [] {
      return Passed;
    }
    var summary := WriteSummary(missing);
    return Failed([MISSING_HEADER + Indent(summary, "  ")]);
  }

  /*
   * The driver
   */

  /** The configuration after a run of the checks, and the outcome of every step the executor ran. */
  datatype Session = Session(after: SetupConfig, trace: seq<StepResult>)

  /** `_update_author_data`, as the function that specifies it. */
  function AuthorData(cfg: SetupConfig): Checked<SetupConfig> {
    Edit(cfg, AUTHOR_PAIRS, AUTHOR_MESSAGE)
  }

  /**
   * The steps `main` runs on an existing `setup.cfg`, given the outcome `required` of the
   * required-options check that runs first: the author update unless `--ignore-author`, and the
   * long-description fix on whatever the author update left, unless the author update raised
   * something other than `PrecommitError`.
   */
  function Steps(cfg: SetupConfig, required: StepResult, ignoreAuthor: bool, readmeExists: bool): Session {
    if ignoreAuthor then
      var fixed := LongDescription(cfg, readmeExists);
      Session(fixed.after, [required, fixed.result])
    else
      var author := AuthorData(cfg);
      if author.result.Crashed? then Session(cfg, [required, author.result])
      else
        var fixed := LongDescription(author.after, readmeExists);
        Session(fixed.after, [required, author.result, fixed.result])
  }

  /** The metadata section shows the values the run was meant to leave there. */
  predicate Conforms(cfg: SetupConfig, ignoreAuthor: bool, readmeExists: bool) {
    (!ignoreAuthor ==> Holds(cfg, AUTHOR_PAIRS)) && (readmeExists ==> Holds(cfg, LONG_DESCRIPTION_PAIRS))
  }

  /** The author options and the long-description options are different options. */
  lemma PairsDisjoint()
    ensures Final(AUTHOR_PAIRS).Keys !! Final(LONG_DESCRIPTION_PAIRS).Keys
  {
    AuthorPairsFinal();
    LongDescriptionPairsFinal();
  }

  /** Rewriting the metadata section with options the required list does not name keeps the check's verdict. */
  lemma {:induction false} MissingInIgnoresMerge(cfg: SetupConfig, p: map<string, string>, section: string, options: seq<string>)
    requires METADATA in cfg.sections
    requires forall o :: o in options ==> o !in p
    ensures MissingIn(MergeInto(cfg, p), section, options) == MissingIn(cfg, section, options)
  {
    if |options| > 0 {
      MissingInIgnoresMerge(cfg, p, section, options[..|options| - 1]);
    }
  }

  lemma {:induction false} MissingGroupsIgnoreMerge(cfg: SetupConfig, p: map<string, string>, required: seq<(string, seq<string>)>)
    requires METADATA in cfg.sections
    requires forall i, o :: 0 <= i < |required| && o in required[i].1 ==> o !in p
    ensures MissingGroups(MergeInto(cfg, p), required) == MissingGroups(cfg, required)
  {
    if |required| > 0 {
      var n := |required| - 1;
      MissingGroupsIgnoreMerge(cfg, p, required[..n]);
      MissingInIgnoresMerge(cfg, p, required[n].0, required[n].1);
    }
  }

  /** The update steps write no option the required-options check asks for. */
  lemma RequiredUntouched(cfg: SetupConfig, pairs: seq<(string, string)>, message: string)
    requires pairs == AUTHOR_PAIRS || pairs == LONG_DESCRIPTION_PAIRS
    ensures RequiredOptionsResult(Edit(cfg, pairs, message).after) == RequiredOptionsResult(cfg)
  {
    if METADATA in cfg.sections && !Holds(cfg, pairs) {
      RequiredNotUpdated(pairs);
      MissingGroupsIgnoreMerge(cfg, Final(pairs), REQUIRED_OPTIONS);
    }
  }

  /** Neither update sets an option of the required list. */
  lemma RequiredNotUpdated(pairs: seq<(string, string)>)
    requires pairs == AUTHOR_PAIRS || pairs == LONG_DESCRIPTION_PAIRS
    ensures forall i, o :: 0 <= i < |REQUIRED_OPTIONS| && o in REQUIRED_OPTIONS[i].1 ==> o !in Final(pairs)
  {
    AuthorPairsFinal();
    LongDescriptionPairsFinal();
  }

  /** An update of other options leaves the values of `p` showing. */
  lemma EditKeepsShowing(cfg: SetupConfig, pairs: seq<(string, string)>, message: string, p: map<string, string>)
    requires Shows(cfg, p) && p.Keys !! Final(pairs).Keys
    ensures Shows(Edit(cfg, pairs, message).after, p)
  {
    var after := Edit(cfg, pairs, message).after;
    if after != cfg {
      var m := Merged(cfg, METADATA);
      assert Merged(after, METADATA) == m + Final(pairs);
      assert forall o :: o in p ==> o in m && m[o] == p[o] by {
        OverrideUnchanged(m, p);
      }
      assert (m + Final(pairs)) + p == m + Final(pairs);
    }
  }

  /** A metadata step on a configuration without a metadata section raises `NoSectionError` and writes nothing. */
  predicate NoSectionCrash(cfg: SetupConfig, run: Session) {
    run.after == cfg && |run.trace| > 0 && run.trace[|run.trace| - 1] == Crashed(NoSectionError(METADATA))
  }

  /** The required-options check reports its findings and never raises. */
  lemma RequiredNeverCrashes(cfg: SetupConfig)
    ensures RequiredOptionsResult(cfg).Passed? <==> MissingGroups(cfg, REQUIRED_OPTIONS) == []
    ensures !RequiredOptionsResult(cfg).Crashed?
  {
  }

  /** Only the last step of a run can raise something other than `PrecommitError`. */
  lemma StepsHalted(cfg: SetupConfig, required: StepResult, ignoreAuthor: bool, readmeExists: bool)
    requires !required.Crashed?
    ensures Halted(Steps(cfg, required, ignoreAuthor, readmeExists).trace)
  {
    var trace := Steps(cfg, required, ignoreAuthor, readmeExists).trace;
    assert |trace| == 3 ==> !trace[1].Crashed?;
  }

  /**
   * A run stops early with the escaping `NoSectionError` exactly when a metadata step runs on a
   * configuration without a metadata section; otherwise every step runs.
   */
  lemma StepsCrash(cfg: SetupConfig, required: StepResult, ignoreAuthor: bool, readmeExists: bool)
    requires !required.Crashed?
    ensures Steps(cfg, required, ignoreAuthor, readmeExists).trace[0] == required
    ensures Clean(Steps(cfg, required, ignoreAuthor, readmeExists).trace) <==>
      METADATA in cfg.sections || (ignoreAuthor && !readmeExists)
    ensures Clean(Steps(cfg, required, ignoreAuthor, readmeExists).trace) ==>
      |Steps(cfg, required, ignoreAuthor, readmeExists).trace| == if ignoreAuthor then 2 else 3
    ensures !Clean(Steps(cfg, required, ignoreAuthor, readmeExists).trace) ==>
      NoSectionCrash(cfg, Steps(cfg, required, ignoreAuthor, readmeExists))
  {
    var trace := Steps(cfg, required, ignoreAuthor, readmeExists).trace;
    if ignoreAuthor {
      assert |trace| == 2 && (Clean(trace) <==> !trace[1].Crashed?);
    } else if METADATA in cfg.sections {
      assert |trace| == 3 && (Clean(trace) <==> !trace[1].Crashed? && !trace[2].Crashed?);
    } else {
      assert |trace| == 2 && trace[1].Crashed?;
    }
  }

  /** After a run in which nothing escaped, the metadata section shows every value the run sets. */
  lemma StepsConform(cfg: SetupConfig, required: StepResult, ignoreAuthor: bool, readmeExists: bool)
    requires !required.Crashed?
    requires Clean(Steps(cfg, required, ignoreAuthor, readmeExists).trace)
    ensures Conforms(Steps(cfg, required, ignoreAuthor, readmeExists).after, ignoreAuthor, readmeExists)
  {
    StepsCrash(cfg, required, ignoreAuthor, readmeExists);
    var mid := if ignoreAuthor then cfg else AuthorData(cfg).after;
    if !ignoreAuthor {
      EditHolds(cfg, AUTHOR_PAIRS, AUTHOR_MESSAGE);
    }
    if readmeExists {
      EditHolds(mid, LONG_DESCRIPTION_PAIRS, LONG_DESCRIPTION_MESSAGE);
      if !ignoreAuthor {
        PairsDisjoint();
        EditKeepsShowing(mid, LONG_DESCRIPTION_PAIRS, LONG_DESCRIPTION_MESSAGE, Final(AUTHOR_PAIRS));
      }
    }
  }

  /** On a configuration that already conforms, every step after the required-options check passes and nothing is written. */
  lemma StepsSettled(cfg: SetupConfig, required: StepResult, ignoreAuthor: bool, readmeExists: bool)
    requires Conforms(cfg, ignoreAuthor, readmeExists)
    ensures Steps(cfg, required, ignoreAuthor, readmeExists).after == cfg
    ensures Steps(cfg, required, ignoreAuthor, readmeExists).trace ==
      if ignoreAuthor then [required, Passed] else [required, Passed, Passed]
  {
  }

  /** The edits of a run leave the outcome of the required-options check as it was. */
  lemma StepsKeepRequired(cfg: SetupConfig, required: StepResult, ignoreAuthor: bool, readmeExists: bool)
    ensures RequiredOptionsResult(Steps(cfg, required, ignoreAuthor, readmeExists).after) == RequiredOptionsResult(cfg)
  {
    var mid := if ignoreAuthor then cfg else AuthorData(cfg).after;
    if !ignoreAuthor {
      RequiredUntouched(cfg, AUTHOR_PAIRS, AUTHOR_MESSAGE);
    }
    if readmeExists && (ignoreAuthor || !AuthorData(cfg).result.Crashed?) {
      RequiredUntouched(mid, LONG_DESCRIPTION_PAIRS, LONG_DESCRIPTION_MESSAGE);
    }
  }

  /**
   * Running the checks again after a run in which nothing escaped writes nothing, and every step
   * but the required-options check passes; that check gives what it gave before (`StepsKeepRequired`).
   */
  lemma StepsIdempotent(cfg: SetupConfig, required: StepResult, ignoreAuthor: bool, readmeExists: bool)
    requires !required.Crashed?
    requires Clean(Steps(cfg, required, ignoreAuthor, readmeExists).trace)
    ensures var after := Steps(cfg, required, ignoreAuthor, readmeExists).after;
      Steps(after, required, ignoreAuthor, readmeExists).after == after &&
      Steps(after, required, ignoreAuthor, readmeExists).trace ==
        if ignoreAuthor then [required, Passed] else [required, Passed, Passed]
  {
    var after := Steps(cfg, required, ignoreAuthor, readmeExists).after;
    StepsConform(cfg, required, ignoreAuthor, readmeExists);
    StepsSettled(after, required, ignoreAuthor, readmeExists);
  }

  /**
   * The metadata steps of `main`, run through `executor` after the required-options check: `author`
   * and `fixed` are the outcomes of the author update and of the long-description fix.
   */
  method RunEdits(executor: Executor, cfg: SetupConfig, ignoreAuthor: bool, readmeExists: bool)
    returns (after: SetupConfig, escaped: Option<string>, ghost ran: seq<StepResult>)
    requires executor.Valid()
    modifies executor
    ensures executor.Valid() && executor.calls == old(executor.calls) + ran
    ensures !ignoreAuthor && AuthorData(cfg).result.Crashed? ==> after == cfg && ran == [AuthorData(cfg).result]
    ensures ignoreAuthor ==>
      ran == [LongDescription(cfg, readmeExists).result] && after == LongDescription(cfg, readmeExists).after
    ensures !ignoreAuthor && !AuthorData(cfg).result.Crashed? ==>
      ran == [AuthorData(cfg).result, LongDescription(AuthorData(cfg).after, readmeExists).result] &&
      after == LongDescription(AuthorData(cfg).after, readmeExists).after
    ensures |ran| > 0 && (escaped.Some? <==> ran[|ran| - 1].Crashed?)
    ensures escaped.Some? ==> ran[|ran| - 1] == Crashed(escaped.value)
  {
    var current := cfg;
    ran := [];
    if !ignoreAuthor {
      var edited, authorResult := UpdateAuthorData(cfg);
      escaped := executor.Call(authorResult);
      ran := [authorResult];
      if escaped.Some? {
        return edited, escaped, ran;
      }
      current := edited;
    }
    var fixResult;
    after, fixResult := FixLongDescription(current, readmeExists);
    escaped := executor.Call(fixResult);
    ran := ran + [fixResult];
  }

  /**
   * `main`: nothing happens without a `setup.cfg`; otherwise the steps run through an executor, and
   * the collected messages are raised together as one `PrecommitError`.
   */
  method CheckSetupCfg(setupCfg: Option<SetupConfig>, ignoreAuthor: bool, readmeExists: bool, merge: seq<string> -> string)
    returns (after: Option<SetupConfig>, ghost trace: seq<StepResult>, result: StepResult)
    ensures setupCfg.None? ==> after.None? && trace == [] && result == Passed
    ensures setupCfg.Some? ==>
      after.Some? &&
      Session(after.value, trace) == Steps(setupCfg.value, RequiredOptionsResult(setupCfg.value), ignoreAuthor, readmeExists)
    ensures Halted(trace) && result == Verdict(trace, merge)
    ensures setupCfg.Some? ==>
      var run := Steps(setupCfg.value, RequiredOptionsResult(setupCfg.value), ignoreAuthor, readmeExists);
      after == Some(run.after) && result == Verdict(run.trace, merge)
  {
    if setupCfg.None? {
      return None, [], Passed;
    }
    var cfg := setupCfg.value;
    var executor := new Executor();
    var required := CheckRequiredOptions(cfg);
    var escaped := executor.Call(required);
    var edited, escapedEdit, ran := RunEdits(executor, cfg, ignoreAuthor, readmeExists);
    trace := executor.calls;
    assert Session(edited, trace) == Steps(cfg, required, ignoreAuthor, readmeExists) by {
      assert trace == [required] + ran;
    }
    assert Halted(trace) by {
      RequiredNeverCrashes(cfg);
      StepsHalted(cfg, required, ignoreAuthor, readmeExists);
    }
    after := Some(edited);
    if escapedEdit.Some? {
      result := Crashed(escapedEdit.value);
    } else if executor.errorMessages != [] {
      result := Failed([merge(executor.errorMessages)]);
    } else {
      result := Passed;
    }
    assert result == Verdict(trace, merge) by {
      assert trace[|trace| - 1] == ran[|ran| - 1];
      assert executor.errorMessages == Messages(trace);
    }
  }
}
