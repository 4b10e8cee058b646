/**
 * The cSpell checks of `check_dev_files/cspell.py`: syncing the spell-checker configuration with
 * the bundled template, sorting its list sections, checking the editor defaults and the ignore file,
 * and the driver that runs them through an executor.
 */
module Cspell {
  import opened Text
  import opened Errors
  import opened Execution
  import opened CspellSections

  /** Paths from `CONFIG_PATH`. */
  const CSPELL_PATH := ".cspell.json"
  const EDITOR_CONFIG_PATH := ".editorconfig"
  const PRETTIER_IGNORE_PATH := ".prettierignore"

  /** The line that excludes the cSpell configuration from formatting. */
  const IGNORE_LINE := CSPELL_PATH + "\n"

  /** Sections that grow with user content: only ever created, never overwritten. */
  const ACCUMULATORS: set<string> := {"words", "ignoreWords"}

  /**
   * A JSON section value. `List` is an array of strings; `MixedList` is an array holding some item that
   * is not a string, `itemType` being the Python class of the first such item. `Null` is JSON `null`,
   * which `dict.get` also returns for a missing key; `Other` is any other value, by class and text.
   */
  datatype Value =
    | Str(text: string)
    | List(items: seq<string>)
    | MixedList(itemType: string, repr: string)
    | Null
    | Other(typeName: string, repr: string)

  /** The Python class name of a section value, as used in error messages. */
  function TypeName(v: Value): string {
    match v
    case Str(_) => "str"
    case List(_) => "list"
    case MixedList(_, _) => "list"
    case Null => "NoneType"
    case Other(t, _) => t
  }

  /** No name occurs twice. */
  predicate Distinct(keys: seq<string>) {
    forall i, j :: 0 <= i < j < |keys| ==> keys[i] != keys[j]
  }

  /** A JSON object as a Python dict: its sections in insertion order, and their values. */
  datatype Config = Config(order: seq<string>, sections: map<string, Value>) {
    /** Every section occurs once in the order, and the order lists exactly the sections. */
    ghost predicate Valid() {
      && Distinct(order)
      && (forall k :: k in sections <==> k in order)
    }

    /** `config.get(k)`. */
    function GetOrNull(k: string): Value {
      if k in sections then sections[k] else Null
    }

    /** `config[k] = v`: an existing key keeps its place, a new key goes last. */
    function Set(k: string, v: Value): (r: Config)
      ensures Valid() ==> r.Valid()
      ensures r.sections == sections[k := v]
      ensures r.order == if k in sections then order else order + [k]
    {
      if k in sections then Config(order, sections[k := v]) else Config(order + [k], sections[k := v])
    }
  }

  /** The empty configuration `{}`. */
  const EMPTY := Config([], map[])

  /**
   * What `__sort_section` raises for an array holding an item that is not a string: its key
   * `s.lower()` is computed for every item, in order, before anything is compared.
   */
  function SortError(v: Value): string
    requires v.MixedList?
  {
    "AttributeError: '" + v.itemType + "' object has no attribute 'lower'"
  }

  /** A list value sorted as `__sort_section` sorts it; any other value as it is. */
  function Canonical(v: Value): Value {
    match v
    case List(xs) => List(SortSection(xs))
    case _ => v
  }

  /** No section is an array that `__sort_section` cannot sort. */
  ghost predicate StringLists(config: Config) {
    forall k :: k in config.sections ==> !config.sections[k].MixedList?
  }

  /** Every list section is sorted. */
  ghost predicate ListsSorted(config: Config) {
    forall k :: k in config.sections && config.sections[k].List? ==> Sorted(config.sections[k].items)
  }

  /** Every section of the template that the merge compares holds a string or a list. */
  ghost predicate Supported(template: Config) {
    forall k :: k in template.sections && k !in ACCUMULATORS ==> template.sections[k].Str? || template.sections[k].List?
  }

  /** The configuration holds every template section, and each one the merge compares has its canonical template value. */
  ghost predicate TemplateApplied(config: Config, template: Config) {
    forall k :: k in template.sections ==>
      k in config.sections && (k !in ACCUMULATORS ==> config.sections[k] == Canonical(template.sections[k]))
  }

  /**
   * `__get_expected_content` with `extend=False`: the value `section` should have. A section the
   * configuration lacks gets the template value as it is; a template string is kept; a template list
   * is sorted, so an array holding a non-string item raises `AttributeError`; any other template value
   * is not supported and raises `NotImplementedError`.
   */
  function ExpectedContent(config: Config, template: Config, section: string): (r: Result<Value>)
    requires section in config.sections || section in template.sections
    ensures section !in config.sections ==> r == Ok(template.sections[section])
    ensures section in config.sections && section !in template.sections ==> r == Ok(config.sections[section])
    ensures section in config.sections && section in template.sections && template.sections[section].Str? ==>
      r == Ok(template.sections[section])
    ensures section in config.sections && section in template.sections && template.sections[section].List? ==>
      r.Ok? && r.value.List? && Sorted(r.value.items)
      && multiset(r.value.items) == multiset(template.sections[section].items)
    ensures section in config.sections && section in template.sections && template.sections[section].MixedList? ==>
      r == Raised(SortError(template.sections[section]))
    ensures r.Raised? <==>
      section in config.sections && section in template.sections
      && !(template.sections[section].Str? || template.sections[section].List?)
  {
    if section !in config.sections then Ok(template.sections[section])
    else if section !in template.sections then Ok(config.sections[section])
    else
      match template.sections[section]
      case Str(s) => Ok(Str(s))
      case List(xs) =>
        SortSectionSorted(xs);
        Ok(List(SortSection(xs)))
      case MixedList(_, _) => Raised(SortError(template.sections[section]))
      case _ =>
        Raised("No implementation for section content of type " + TypeName(config.sections[section])
               + " (section: \"" + section + "\"")
  }

  /** Computing the expected content of template section `s` raises. */
  predicate Crashes(config: Config, template: Config, s: string) {
    s in template.sections && s !in ACCUMULATORS && ExpectedContent(config, template, s).Raised?
  }

  /** `_fix_config_content` rewrites template section `s`. */
  predicate NeedsFix(config: Config, template: Config, s: string) {
    && s in template.sections
    && if s in ACCUMULATORS then s !in config.sections
       else
         var e := ExpectedContent(config, template, s);
         e.Ok? && config.GetOrNull(s) != e.value
  }

  /** The value `_fix_config_content` gives a section it rewrites. */
  function NewValue(config: Config, template: Config, s: string): Value
    requires s in template.sections
  {
    if s in ACCUMULATORS then List([])
    else
      match ExpectedContent(config, template, s)
      case Ok(v) => v
      case Raised(_) => Null
  }

  /** The sections among `keys` that are rewritten, in the order of `keys`. */
  function FixedSections(config: Config, template: Config, keys: seq<string>): seq<string> {
    if |keys| == 0 then []
    else
      var k := keys[|keys| - 1];
      FixedSections(config, template, keys[..|keys| - 1]) + (if NeedsFix(config, template, k) then [k] else [])
  }

  /** The sections among `keys` that are rewritten and were missing, in the order of `keys`. */
  function AddedSections(config: Config, template: Config, keys: seq<string>): seq<string> {
    if |keys| == 0 then []
    else
      var k := keys[|keys| - 1];
      AddedSections(config, template, keys[..|keys| - 1])
      + (if k !in config.sections && NeedsFix(config, template, k) then [k] else [])
  }

  /** The recorded sections are exactly the rewritten ones. */
  lemma {:induction false} FixedSectionsMember(config: Config, template: Config, keys: seq<string>, k: string)
    ensures k in FixedSections(config, template, keys) <==> k in keys && NeedsFix(config, template, k)
  {
    if |keys| > 0 {
      var n := |keys| - 1;
      FixedSectionsMember(config, template, keys[..n], k);
      assert keys == keys[..n] + [keys[n]];
    }
  }

  /** Nothing is recorded when no section needs rewriting. */
  lemma {:induction false} FixedSectionsEmpty(config: Config, template: Config, keys: seq<string>)
    requires forall k :: k in keys ==> !NeedsFix(config, template, k)
    ensures FixedSections(config, template, keys) == []
  {
    if |keys| > 0 {
      var n := |keys| - 1;
      assert keys[n] in keys;
      FixedSectionsEmpty(config, template, keys[..n]);
    }
  }

  /** The sections appended to the order are exactly the rewritten ones that were missing. */
  lemma {:induction false} AddedSectionsMember(config: Config, template: Config, keys: seq<string>, k: string)
    ensures k in AddedSections(config, template, keys) <==> k in keys && k !in config.sections && NeedsFix(config, template, k)
  {
    if |keys| > 0 {
      var n := |keys| - 1;
      AddedSectionsMember(config, template, keys[..n], k);
      assert keys == keys[..n] + [keys[n]];
    }
  }

  /** Section names in double quotes. */
  function Quoted(names: seq<string>): (r: seq<string>)
    ensures |r| == |names|
  {
    if |names| == 0 then [] else Quoted(names[..|names| - 1]) + ["\"" + names[|names| - 1] + "\""]
  }

  lemma QuotedSnoc(names: seq<string>, name: string)
    ensures Quoted(names + [name]) == Quoted(names) + ["\"" + name + "\""]
  {
    assert (names + [name])[..|names|] == names;
  }

  function FixMessage(fixed: seq<string>): string {
    ExpressList(Quoted(fixed)) + " in " + CSPELL_PATH + " has been updated."
  }

  function SortMessage(sorted: seq<string>): string {
    ExpressList(Quoted(sorted)) + " in " + CSPELL_PATH + " has been sorted alphabetically."
  }

  /** The file `_fix_config_content` reads: the configuration, or `{}` which it writes first when the file is missing. */
  function Initial(file: Option<Config>): (r: Config)
    ensures file.Some? ==> r == file.value
    ensures file.None? ==> r.order == [] && r.sections == map[]
  {
    if file.Some? then file.value else EMPTY
  }

  /**
   * The position of the first section among `keys` whose expected content raises, or `|keys|` when
   * none does: `_fix_config_content` stops there.
   */
  function FirstCrash(config: Config, template: Config, keys: seq<string>): (n: nat)
    ensures n <= |keys|
    ensures forall j :: 0 <= j < n ==> !Crashes(config, template, keys[j])
    ensures n < |keys| ==> Crashes(config, template, keys[n])
  {
    if |keys| == 0 then 0
    else if Crashes(config, template, keys[0]) then 0
    else 1 + FirstCrash(config, template, keys[1..])
  }

  /**
   * The configuration `_fix_config_content` has built after going through the template sections
   * `keys` without raising.
   */
  function Merged(config: Config, template: Config, keys: seq<string>): Config {
    if |keys| == 0 then config
    else
      var n := |keys| - 1;
      var k := keys[n];
      var before := Merged(config, template, keys[..n]);
      if NeedsFix(config, template, k) then before.Set(k, NewValue(config, template, k)) else before
  }

  /**
   * Section `k` after the merge: present if it was or if it was rewritten; a rewritten section holds
   * its new value and every other section its old one.
   */
  lemma {:induction false} MergedAt(config: Config, template: Config, keys: seq<string>, k: string)
    ensures var r := Merged(config, template, keys);
      && (k in r.sections <==> k in config.sections || (k in keys && NeedsFix(config, template, k)))
      && (k in r.sections ==>
            r.sections[k] == if k in keys && NeedsFix(config, template, k) then NewValue(config, template, k) else config.sections[k])
  {
    if |keys| > 0 {
      var n := |keys| - 1;
      MergedAt(config, template, keys[..n], k);
      assert keys == keys[..n] + [keys[n]];
    }
  }

  /** The sections the merge adds go after the existing ones, in template order. */
  lemma {:induction false} MergedOrder(config: Config, template: Config, keys: seq<string>)
    requires Distinct(keys)
    ensures Merged(config, template, keys).order == config.order + AddedSections(config, template, keys)
  {
    if |keys| > 0 {
      var n := |keys| - 1;
      var k := keys[n];
      assert k !in keys[..n];
      assert Distinct(keys[..n]);
      MergedOrder(config, template, keys[..n]);
      MergedAt(config, template, keys[..n], k);
    }
  }

  /** The merge keeps a configuration well formed. */
  lemma {:induction false} MergedValid(config: Config, template: Config, keys: seq<string>)
    requires config.Valid()
    ensures Merged(config, template, keys).Valid()
  {
    if |keys| > 0 {
      MergedValid(config, template, keys[..|keys| - 1]);
    }
  }

  /** A section the merge has not reached yet is as it was. */
  lemma MergedNotReached(config: Config, template: Config, done: seq<string>, s: string)
    requires s in template.sections && s !in done
    ensures var current := Merged(config, template, done);
      && ExpectedContent(current, template, s) == ExpectedContent(config, template, s)
      && (s in current.sections <==> s in config.sections)
      && current.GetOrNull(s) == config.GetOrNull(s)
  {
    MergedAt(config, template, done, s);
    ExpectedContentAgrees(Merged(config, template, done), config, template, s);
  }

  /**
   * What `_fix_config_content` decides for a template section it has not reached yet, read off the
   * configuration it has built so far: whether the section raises, is rewritten, and with what value.
   */
  lemma FixDecision(config: Config, template: Config, done: seq<string>, s: string)
    requires s in template.sections && s !in done
    ensures var current := Merged(config, template, done);
      && (s in ACCUMULATORS ==>
            && !Crashes(config, template, s)
            && (NeedsFix(config, template, s) <==> s !in current.sections)
            && NewValue(config, template, s) == List([]))
      && (s !in ACCUMULATORS ==>
            var e := ExpectedContent(current, template, s);
            && e == ExpectedContent(config, template, s)
            && (Crashes(config, template, s) <==> e.Raised?)
            && (e.Ok? ==>
                  && (NeedsFix(config, template, s) <==> current.GetOrNull(s) != e.value)
                  && NewValue(config, template, s) == e.value))
  {
    MergedNotReached(config, template, done, s);
  }

  /** Going through one more section extends `Merged` and `FixedSections` by that section alone. */
  lemma MergedPrefix(config: Config, template: Config, keys: seq<string>, n: nat)
    requires n < |keys|
    ensures var s := keys[n];
      Merged(config, template, keys[..n + 1])
        == (if NeedsFix(config, template, s) then Merged(config, template, keys[..n]).Set(s, NewValue(config, template, s))
            else Merged(config, template, keys[..n]))
    ensures var s := keys[n];
      FixedSections(config, template, keys[..n + 1])
        == FixedSections(config, template, keys[..n]) + (if NeedsFix(config, template, s) then [s] else [])
  {
    assert keys[..n + 1][..n] == keys[..n];
  }

  /** Two configurations that agree on section `s` expect the same content for it. */
  lemma ExpectedContentAgrees(config: Config, other: Config, template: Config, s: string)
    requires s in template.sections
    requires (s in config.sections <==> s in other.sections)
    requires s in config.sections ==> config.sections[s] == other.sections[s]
    ensures ExpectedContent(config, template, s) == ExpectedContent(other, template, s)
    ensures config.GetOrNull(s) == other.GetOrNull(s)
  {
  }

  /**
   * One pass of the loop of `_fix_config_content`, on template section `s`: a missing accumulator
   * becomes `[]`; any other section raises if its expected content does, and is otherwise rewritten
   * with its expected content when it differs from it.
   */
  method FixSection(ghost config0: Config, config: Config, template: Config, ghost done: seq<string>, s: string)
    returns (next: Config, rewritten: bool, crash: Option<string>)
    requires s in template.sections && s !in done
    requires config == Merged(config0, template, done)
    ensures crash.Some? <==> Crashes(config0, template, s)
    ensures crash.Some? ==> crash.value == ExpectedContent(config0, template, s).error
    ensures crash.None? ==>
      && rewritten == NeedsFix(config0, template, s)
      && next == if rewritten then config.Set(s, NewValue(config0, template, s)) else config
  {
    FixDecision(config0, template, done, s);
    if s in ACCUMULATORS {
      if s !in config.sections {
        return config.Set(s, List([])), true, None;
      }
      return config, false, None;
    }
    var expected := ExpectedContent(config, template, s);
    if expected.Raised? {
      return config, false, Some(expected.error);
    }
    if config.GetOrNull(s) != expected.value {
      return config.Set(s, expected.value), true, None;
    }
    return config, false, None;
  }

  /**
   * `_fix_config_content`: the template sections are visited in template order. A missing accumulator
   * section becomes `[]`; any other section is compared with its expected content and rewritten when
   * it differs. The first section whose expected content raises ends the check with that exception,
   * before anything is written. Otherwise the result is `Merged`, and the check raises, naming the
   * rewritten sections in template order, exactly when one was rewritten.
   */
  method FixConfigContent(file: Option<Config>, template: Config) returns (after: Config, result: StepResult)
    requires template.Valid()
    requires file.Some? ==> file.value.Valid()
    ensures var config := Initial(file);
            var n := FirstCrash(config, template, template.order);
            n < |template.order| ==>
              after == config && result == Crashed(ExpectedContent(config, template, template.order[n]).error)
    ensures var config := Initial(file);
            FirstCrash(config, template, template.order) == |template.order| ==>
              && after == Merged(config, template, template.order)
              && var fixed := FixedSections(config, template, template.order);
                 result == if fixed == [] then Passed else Failed([FixMessage(fixed)])
  {
    var config0 := Initial(file);
    ghost var n := FirstCrash(config0, template, template.order);
    var config := config0;
    var fixed: seq<string> := [];
    ghost var names: seq<string> := [];
    var i := 0;
    while i < |template.order|
      invariant 0 <= i <= n
      invariant config == Merged(config0, template, template.order[..i])
      invariant names == FixedSections(config0, template, template.order[..i])
      invariant fixed == Quoted(names)
    {
      var s := template.order[i];
      assert s !in template.order[..i];
      MergedPrefix(config0, template, template.order, i);
      QuotedSnoc(names, s);
      var next, rewritten, crash := FixSection(config0, config, template, template.order[..i], s);
      if crash.Some? {
        assert n == i;
        return config0, Crashed(crash.value);
      }
      if rewritten {
        names := names + [s];
        fixed := fixed + ["\"" + s + "\""];
      }
      config := next;
      i := i + 1;
    }
    assert template.order[..i] == template.order;
    if |fixed| > 0 {
      after, result := config, Failed([FixMessage(FixedSections(config0, template, template.order))]);
    } else {
      after, result := config, Passed;
    }
  }

  /** The accumulator sections: a missing one is created as `[]`, an existing one keeps its value. */
  lemma FixKeepsAccumulators(config: Config, template: Config, k: string)
    requires template.Valid()
    requires k in ACCUMULATORS && k in template.sections
    ensures var after := Merged(config, template, template.order);
            k in after.sections && after.sections[k] == if k in config.sections then config.sections[k] else List([])
  {
    MergedAt(config, template, template.order, k);
  }

  /** Sections outside the template are neither added, removed nor changed, and the existing order is kept. */
  lemma FixLeavesOtherSections(config: Config, template: Config, k: string)
    requires template.Valid()
    requires k !in template.sections
    ensures var after := Merged(config, template, template.order);
            && config.order <= after.order
            && (k in after.sections <==> k in config.sections)
            && (k in config.sections ==> after.sections[k] == config.sections[k])
  {
    MergedAt(config, template, template.order, k);
    MergedOrder(config, template, template.order);
  }

  /** The merge changes the configuration exactly when it records a rewritten section. */
  lemma FixWritesIffRecorded(config: Config, template: Config)
    requires template.Valid()
    ensures Merged(config, template, template.order) == config <==> FixedSections(config, template, template.order) == []
  {
    var after := Merged(config, template, template.order);
    var fixed := FixedSections(config, template, template.order);
    MergedOrder(config, template, template.order);
    if fixed == [] {
      forall k ensures (k in after.sections <==> k in config.sections)
                       && (k in after.sections ==> after.sections[k] == config.sections[k]) {
        FixedSectionsMember(config, template, template.order, k);
        MergedAt(config, template, template.order, k);
      }
      var added := AddedSections(config, template, template.order);
      if added != [] {
        AddedSectionsMember(config, template, template.order, added[0]);
        FixedSectionsMember(config, template, template.order, added[0]);
      }
      assert after.sections == config.sections;
    } else {
      var k := fixed[0];
      FixedSectionsMember(config, template, template.order, k);
      MergedAt(config, template, template.order, k);
      if k in config.sections {
        assert after.sections[k] != config.sections[k];
      }
    }
  }

  /** A configuration that already holds the template's canonical values is left as it is, and the check passes. */
  lemma FixAppliedIsNoOp(config: Config, template: Config)
    requires template.Valid() && Supported(template) && TemplateApplied(config, template)
    ensures FirstCrash(config, template, template.order) == |template.order|
    ensures FixedSections(config, template, template.order) == []
    ensures Merged(config, template, template.order) == config
  {
    forall k | k in template.order
      ensures !Crashes(config, template, k) && !NeedsFix(config, template, k)
    {
    }
    FixedSectionsEmpty(config, template, template.order);
    FixWritesIffRecorded(config, template);
  }

  /**
   * Fixing and then sorting leaves every template section in place with its canonical template value,
   * provided the template holds only supported values and nothing raised.
   */
  lemma FixThenSortApplied(config: Config, template: Config)
    requires template.Valid() && config.Valid() && Supported(template)
    requires FirstCrash(config, template, template.order) == |template.order|
    ensures var fixedConfig := Merged(config, template, template.order);
            TemplateApplied(SortedLists(fixedConfig, fixedConfig.order), template)
  {
    var fixedConfig := Merged(config, template, template.order);
    MergedValid(config, template, template.order);
    var sorted := SortedLists(fixedConfig, fixedConfig.order);
    forall k | k in template.sections
      ensures k in sorted.sections && (k !in ACCUMULATORS ==> sorted.sections[k] == Canonical(template.sections[k]))
    {
      MergedAt(config, template, template.order, k);
      if k !in ACCUMULATORS {
        var t := template.sections[k];
        if t.List? {
          SortSectionIdempotent(t.items);
        }
      }
    }
  }

  /** The list sections among `keys` that `__sort_section` would reorder, in the order of `keys`. */
  function UnsortedSections(config: Config, keys: seq<string>): (r: seq<string>)
    ensures forall k :: k in r <==>
      k in keys && k in config.sections && Canonical(config.sections[k]) != config.sections[k]
  {
    if |keys| == 0 then []
    else
      var k := keys[|keys| - 1];
      UnsortedSections(config, keys[..|keys| - 1])
      + (if k in config.sections && Canonical(config.sections[k]) != config.sections[k] then [k] else [])
  }

  /**
   * The configuration `_sort_config_entries` has built after going through the sections `keys`: each
   * of them that holds a list holds it sorted; the section order and every other value are kept.
   */
  function SortedLists(config: Config, keys: seq<string>): (r: Config)
    ensures r.order == config.order
    ensures r.sections.Keys == config.sections.Keys
    ensures forall k :: k in config.sections ==>
      r.sections[k] == if k in keys then Canonical(config.sections[k]) else config.sections[k]
  {
    if |keys| == 0 then config
    else
      var k := keys[|keys| - 1];
      var before := SortedLists(config, keys[..|keys| - 1]);
      if k in config.sections && Canonical(config.sections[k]) != config.sections[k]
      then before.Set(k, Canonical(config.sections[k]))
      else before
  }

  /** Going through section `i` extends `SortedLists` and `UnsortedSections` by that section alone. */
  lemma SortedListsStep(config0: Config, config: Config, i: nat)
    requires config0.Valid()
    requires i < |config0.order|
    requires config == SortedLists(config0, config0.order[..i])
    ensures var s := config0.order[i];
      var v := config0.sections[s];
      && s in config.sections && config.sections[s] == v
      && SortedLists(config0, config0.order[..i + 1])
         == (if Canonical(v) != v then config.Set(s, Canonical(v)) else config)
      && UnsortedSections(config0, config0.order[..i + 1])
         == UnsortedSections(config0, config0.order[..i]) + (if Canonical(v) != v then [s] else [])
  {
    var s := config0.order[i];
    assert s !in config0.order[..i];
    SortedListsPrefix(config0, config0.order, i);
    UnsortedSectionsPrefix(config0, config0.order, i);
  }

  lemma SortedListsPrefix(config: Config, keys: seq<string>, n: nat)
    requires n < |keys|
    ensures SortedLists(config, keys[..n + 1]) ==
      var before := SortedLists(config, keys[..n]);
      var k := keys[n];
      if k in config.sections && Canonical(config.sections[k]) != config.sections[k]
      then before.Set(k, Canonical(config.sections[k]))
      else before
  {
    assert keys[..n + 1][..n] == keys[..n];
  }

  lemma UnsortedSectionsPrefix(config: Config, keys: seq<string>, n: nat)
    requires n < |keys|
    ensures UnsortedSections(config, keys[..n + 1]) == UnsortedSections(config, keys[..n])
      + (var k := keys[n]; if k in config.sections && Canonical(config.sections[k]) != config.sections[k] then [k] else [])
  {
    assert keys[..n + 1][..n] == keys[..n];
  }

  /** The position of the first section among `keys` that `__sort_section` cannot sort, or `|keys|`. */
  function FirstUnsortable(config: Config, keys: seq<string>): (n: nat)
    ensures n <= |keys|
    ensures forall j :: 0 <= j < n ==> !(keys[j] in config.sections && config.sections[keys[j]].MixedList?)
    ensures n < |keys| ==> keys[n] in config.sections && config.sections[keys[n]].MixedList?
  {
    if |keys| == 0 then 0
    else if keys[0] in config.sections && config.sections[keys[0]].MixedList? then 0
    else 1 + FirstUnsortable(config, keys[1..])
  }

  /** Going through the whole section order meets an unsortable section exactly when there is one. */
  lemma FirstUnsortableIff(config: Config)
    requires config.Valid()
    ensures FirstUnsortable(config, config.order) == |config.order| <==> StringLists(config)
  {
    var n := FirstUnsortable(config, config.order);
    if n == |config.order| {
      forall k | k in config.sections ensures !config.sections[k].MixedList? {
        var j :| 0 <= j < |config.order| && config.order[j] == k;
      }
    }
  }

  /**
   * `_sort_config_entries`: every list section is replaced by its sorted form and nothing else changes.
   * The file is written and the check raises, naming the reordered sections, exactly when some list was
   * not sorted. A section that cannot be sorted raises before anything is written, and so does a
   * missing file.
   */
  method SortConfigEntries(file: Option<Config>) returns (after: Option<Config>, result: StepResult)
    requires file.Some? ==> file.value.Valid()
    ensures file.None? ==> after == None && result == Crashed("FileNotFoundError: " + CSPELL_PATH)
    ensures file.Some? && !StringLists(file.value) ==>
      var n := FirstUnsortable(file.value, file.value.order);
      && n < |file.value.order|
      && after == file && result == Crashed(SortError(file.value.sections[file.value.order[n]]))
    ensures file.Some? && StringLists(file.value) ==>
      && after == Some(SortedLists(file.value, file.value.order))
      && StringLists(after.value)
      && var unsorted := UnsortedSections(file.value, file.value.order);
         result == if unsorted == [] then Passed else Failed([SortMessage(unsorted)])
  {
    if file.None? {
      return None, Crashed("FileNotFoundError: " + CSPELL_PATH);
    }
    var config0 := file.value;
    FirstUnsortableIff(config0);
    ghost var n := FirstUnsortable(config0, config0.order);
    var config := config0;
    var fixed: seq<string> := [];
    ghost var names: seq<string> := [];
    var i := 0;
    while i < |config0.order|
      invariant 0 <= i <= n
      invariant config == SortedLists(config0, config0.order[..i])
      invariant names == UnsortedSections(config0, config0.order[..i])
      invariant fixed == Quoted(names)
    {
      var s := config0.order[i];
      SortedListsStep(config0, config, i);
      var content := config.sections[s];
      if content.MixedList? {
        assert n == i;
        return file, Crashed(SortError(content));
      }
      if content.List? {
        var sortedContent := SortSection(content.items);
        if content.items != sortedContent {
          QuotedSnoc(names, s);
          names := names + [s];
          fixed := fixed + ["\"" + s + "\""];
          config := config.Set(s, List(sortedContent));
        }
      }
      i := i + 1;
    }
    assert config0.order[..i] == config0.order;
    assert StringLists(config);
    if |fixed| > 0 {
      after, result := Some(config), Failed([SortMessage(UnsortedSections(config0, config0.order))]);
    } else {
      SortWritesIffUnsorted(config0);
      after, result := file, Passed;
    }
  }

  /** Sorting changes the configuration exactly when some list section was not sorted. */
  lemma SortWritesIffUnsorted(config: Config)
    requires config.Valid()
    ensures SortedLists(config, config.order) == config <==> UnsortedSections(config, config.order) == []
  {
    var after := SortedLists(config, config.order);
    var unsorted := UnsortedSections(config, config.order);
    if unsorted == [] {
      forall k | k in config.sections ensures after.sections[k] == config.sections[k] {
        assert k !in unsorted;
      }
      assert after.sections == config.sections;
    } else {
      assert unsorted[0] in unsorted;
    }
  }

  /** After sorting, every list section is sorted. */
  lemma SortedListsSorted(config: Config)
    requires config.Valid()
    ensures ListsSorted(SortedLists(config, config.order))
  {
    var after := SortedLists(config, config.order);
    forall k | k in after.sections && after.sections[k].List?
      ensures Sorted(after.sections[k].items)
    {
      if config.sections[k].List? {
        SortSectionSorted(config.sections[k].items);
      }
    }
  }

  /** A configuration whose lists are all sorted is left as it is, and the check passes. */
  lemma SortedListsOfSorted(config: Config)
    requires config.Valid() && ListsSorted(config)
    ensures SortedLists(config, config.order) == config
    ensures UnsortedSections(config, config.order) == []
  {
    var unsorted := UnsortedSections(config, config.order);
    if unsorted != [] {
      var k := unsorted[0];
      assert k in unsorted;
      SortSectionOfSorted(config.sections[k].items);
      assert false;
    }
    SortWritesIffUnsorted(config);
  }

  /** Sorting twice is sorting once: the second run passes and writes nothing. */
  lemma SortConfigEntriesTwice(config: Config)
    requires config.Valid()
    ensures var once := SortedLists(config, config.order);
            SortedLists(once, once.order) == once && UnsortedSections(once, once.order) == []
  {
    SortedListsSorted(config);
    SortedListsOfSorted(SortedLists(config, config.order));
  }

  /** The options of a parsed INI file, per section. */
  type IniSections = map<string, map<string, string>>

  /** The options the editor defaults must hold for the cSpell configuration, and nothing else. */
  const EXPECTED_EDITOR_OPTIONS: map<string, string> := map["indent_size" := "4"]

  const NO_EDITOR_SECTION_MESSAGE := EDITOR_CONFIG_PATH + " has no section \"[" + CSPELL_PATH + "]\""

  const EDITOR_SECTION_MESSAGE :=
    EDITOR_CONFIG_PATH + " should have the following section:\n\n"
    + Indent("[" + CSPELL_PATH + "]\n" + "indent_size" + " = " + "4" + "\n", "  ")

  /**
   * `_check_editor_config`: read-only. Passes when there is no editor defaults file; otherwise raises
   * unless the file has a section for the cSpell configuration whose options are exactly
   * `indent_size = 4`, so a wrong value and an extra option both fail. `parseIni` stands for
   * `ConfigParser` reading the file.
   */
  function CheckEditorConfig(editorConfig: Option<seq<string>>, parseIni: seq<string> -> IniSections): (r: StepResult)
    ensures editorConfig.None? ==> r == Passed
    ensures editorConfig.Some? && CSPELL_PATH !in parseIni(editorConfig.value) ==> r == Failed([NO_EDITOR_SECTION_MESSAGE])
    ensures r.Passed? <==>
      editorConfig.None?
      || (CSPELL_PATH in parseIni(editorConfig.value)
          && parseIni(editorConfig.value)[CSPELL_PATH] == EXPECTED_EDITOR_OPTIONS)
    ensures !r.Crashed? && (r.Failed? ==> r == Failed([NO_EDITOR_SECTION_MESSAGE]) || r == Failed([EDITOR_SECTION_MESSAGE]))
  {
    if editorConfig.None? then Passed
    else
      var sections := parseIni(editorConfig.value);
      if CSPELL_PATH !in sections then Failed([NO_EDITOR_SECTION_MESSAGE])
      else if sections[CSPELL_PATH] != EXPECTED_EDITOR_OPTIONS then Failed([EDITOR_SECTION_MESSAGE])
      else Passed
  }

  const ADDED_IGNORE_MESSAGE := "Added \"" + CSPELL_PATH + "\" to " + PRETTIER_IGNORE_PATH + "\""

  /**
   * `_update_prettier_ignore` as written: with the line missing, an existing file is opened with
   * `"w+"`, which truncates it, so the file ends up holding only that line.
   */
  function UpdatePrettierIgnoreAsWritten(repoPresent: bool, file: Option<seq<string>>): (r: Checked<Option<seq<string>>>)
    ensures !repoPresent || (file.Some? && IGNORE_LINE in file.value) ==> r == Checked(file, Passed)
    ensures repoPresent && !(file.Some? && IGNORE_LINE in file.value) ==>
      r == Checked(Some([IGNORE_LINE]), Failed([ADDED_IGNORE_MESSAGE]))
  {
    if !repoPresent then Checked(file, Passed)
    else if file.None? then Checked(Some([IGNORE_LINE]), Failed([ADDED_IGNORE_MESSAGE]))
    else if IGNORE_LINE in file.value then Checked(file, Passed)
    else Checked(Some([IGNORE_LINE]), Failed([ADDED_IGNORE_MESSAGE]))
  }

  /**
   * `_update_prettier_ignore` as intended: when the cSpell hook is configured, the ignore file ends up
   * listing the cSpell configuration, every line it held is kept in place, and the check raises
   * exactly when the file was written.
   */
  function UpdatePrettierIgnore(repoPresent: bool, file: Option<seq<string>>): (r: Checked<Option<seq<string>>>)
    ensures !repoPresent ==> r == Checked(file, Passed)
    ensures repoPresent ==> r.after.Some? && IGNORE_LINE in r.after.value
    ensures file.Some? ==> r.after.Some? && file.value <= r.after.value
    ensures r.result.Failed? <==> r.after != file
    ensures !r.result.Crashed? && (r.result.Failed? ==> r.result == Failed([ADDED_IGNORE_MESSAGE]))
  {
    if !repoPresent then Checked(file, Passed)
    else if file.None? then Checked(Some([IGNORE_LINE]), Failed([ADDED_IGNORE_MESSAGE]))
    else if IGNORE_LINE in file.value then Checked(file, Passed)
    else Checked(Some(file.value + [IGNORE_LINE]), Failed([ADDED_IGNORE_MESSAGE]))
  }

  /** Updating the ignore file twice: the second update passes and changes nothing. */
  lemma UpdatePrettierIgnoreIdempotent(repoPresent: bool, file: Option<seq<string>>)
    ensures var once := UpdatePrettierIgnore(repoPresent, file).after;
            UpdatePrettierIgnore(repoPresent, once) == Checked(once, Passed)
  {
  }

  /** The truncation: an ignore file listing another path loses it when the cSpell line is added. */
  lemma PrettierIgnoreTruncates()
    ensures UpdatePrettierIgnoreAsWritten(true, Some(["docs/_build\n"])).after == Some([IGNORE_LINE])
    ensures UpdatePrettierIgnore(true, Some(["docs/_build\n"])).after == Some(["docs/_build\n", IGNORE_LINE])
  {
    assert IGNORE_LINE !in ["docs/_build\n"] by {
      assert IGNORE_LINE[0] != "docs/_build\n"[0];
    }
    assert ["docs/_build\n"] + [IGNORE_LINE] == ["docs/_build\n", IGNORE_LINE];
  }

  /** The position of the first occurrence of `line`. */
  function FirstIndex(lines: seq<string>, line: string): (i: nat)
    requires line in lines
    ensures i < |lines| && lines[i] == line && line !in lines[..i]
  {
    if lines[0] == line then 0
    else
      var i := 1 + FirstIndex(lines[1..], line);
      assert lines[..i] == [lines[0]] + lines[1..][..i - 1];
      i
  }

  /** `list.remove(line)`: drops the first occurrence of `line` and keeps the other lines in order. */
  function RemoveFirst(lines: seq<string>, line: string): (r: seq<string>)
    requires line in lines
    ensures exists i :: 0 <= i < |lines| && lines[i] == line && line !in lines[..i] && r == lines[..i] + lines[i + 1..]
    ensures |r| == |lines| - 1
    ensures multiset(r) == multiset(lines) - multiset{line}
  {
    var i := FirstIndex(lines, line);
    assert lines == lines[..i] + [lines[i]] + lines[i + 1..];
    lines[..i] + lines[i + 1..]
  }

  /** Removing the cSpell line undoes adding it to an ignore file that did not list it. */
  lemma RemoveUndoesUpdate(file: seq<string>)
    requires IGNORE_LINE !in file
    ensures var added := UpdatePrettierIgnore(true, Some(file)).after.value;
            IGNORE_LINE in added && RemoveFirst(added, IGNORE_LINE) == file
  {
    var added := file + [IGNORE_LINE];
    assert added[|file|] == IGNORE_LINE;
    assert forall j :: 0 <= j < |file| ==> added[j] == file[j] && file[j] in file;
    assert FirstIndex(added, IGNORE_LINE) == |file|;
    assert added[..|file|] == file;
  }

  /** The files the cSpell driver reads and writes; `None` is a missing file. Text files are lists of lines. */
  datatype Workspace = Workspace(cspell: Option<Config>, editorConfig: Option<seq<string>>, prettierIgnore: Option<seq<string>>)

  const CSPELL_REMOVED_MESSAGE := "\"" + CSPELL_PATH + "\" is no longer required and has been removed"

  const EDITOR_LINE_REMOVED_MESSAGE :=
    "\"" + CSPELL_PATH + "\" in " + EDITOR_CONFIG_PATH + " is no longer required and has been removed"

  const IGNORE_LINE_REMOVED_MESSAGE :=
    "\"" + CSPELL_PATH + "\" in " + PRETTIER_IGNORE_PATH + " is no longer required and has been removed"

  /**
   * The file edits of `_remove_configuration` as written: the cSpell configuration is deleted if it
   * exists; otherwise the cSpell line is removed from the editor defaults file, not from the ignore
   * file. Either edit ends the check with a `PrecommitError`; `None` means nothing was edited and the
   * check goes on to its nested executor.
   */
  function RemoveFilesAsWritten(ws: Workspace): (r: Option<Checked<Workspace>>)
    ensures r.Some? ==> r.value.after.prettierIgnore == ws.prettierIgnore && r.value.after.cspell == None
    ensures ws.cspell.Some? ==> r == Some(Checked(ws.(cspell := None), Failed([CSPELL_REMOVED_MESSAGE])))
    ensures ws.cspell.None? && ws.editorConfig.Some? && IGNORE_LINE in ws.editorConfig.value ==>
      r == Some(Checked(ws.(editorConfig := Some(RemoveFirst(ws.editorConfig.value, IGNORE_LINE))),
                        Failed([EDITOR_LINE_REMOVED_MESSAGE])))
    ensures r.None? <==> ws.cspell.None? && !(ws.editorConfig.Some? && IGNORE_LINE in ws.editorConfig.value)
  {
    if ws.cspell.Some? then Some(Checked(ws.(cspell := None), Failed([CSPELL_REMOVED_MESSAGE])))
    else if ws.editorConfig.Some? && IGNORE_LINE in ws.editorConfig.value then
      Some(Checked(ws.(editorConfig := Some(RemoveFirst(ws.editorConfig.value, IGNORE_LINE))),
                   Failed([EDITOR_LINE_REMOVED_MESSAGE])))
    else None
  }

  /**
   * The file edits of `_remove_configuration` as intended: as written, except that the cSpell line
   * is removed from the ignore file, where `_update_prettier_ignore` puts it.
   */
  function RemoveFiles(ws: Workspace): (r: Option<Checked<Workspace>>)
    ensures r.Some? ==> r.value.after.editorConfig == ws.editorConfig && r.value.after.cspell == None
    ensures ws.cspell.Some? ==> r == Some(Checked(ws.(cspell := None), Failed([CSPELL_REMOVED_MESSAGE])))
    ensures ws.cspell.None? && ws.prettierIgnore.Some? && IGNORE_LINE in ws.prettierIgnore.value ==>
      r == Some(Checked(ws.(prettierIgnore := Some(RemoveFirst(ws.prettierIgnore.value, IGNORE_LINE))),
                        Failed([IGNORE_LINE_REMOVED_MESSAGE])))
    ensures r.None? <==> ws.cspell.None? && !(ws.prettierIgnore.Some? && IGNORE_LINE in ws.prettierIgnore.value)
  {
    if ws.cspell.Some? then Some(Checked(ws.(cspell := None), Failed([CSPELL_REMOVED_MESSAGE])))
    else if ws.prettierIgnore.Some? && IGNORE_LINE in ws.prettierIgnore.value then
      Some(Checked(ws.(prettierIgnore := Some(RemoveFirst(ws.prettierIgnore.value, IGNORE_LINE))),
                   Failed([IGNORE_LINE_REMOVED_MESSAGE])))
    else None
  }

  /**
   * Adding the cSpell line to an ignore file and then removing the configuration: as written, the line
   * stays behind and the check passes over it; as intended, the ignore file is restored.
   */
  lemma UpdateThenRemove(ignore: seq<string>, editorConfig: seq<string>)
    requires IGNORE_LINE !in ignore && IGNORE_LINE !in editorConfig
    ensures var ws := Workspace(None, Some(editorConfig), UpdatePrettierIgnore(true, Some(ignore)).after);
            && RemoveFilesAsWritten(ws) == None
            && IGNORE_LINE in ws.prettierIgnore.value
            && RemoveFiles(ws) == Some(Checked(ws.(prettierIgnore := Some(ignore)), Failed([IGNORE_LINE_REMOVED_MESSAGE])))
  {
    RemoveUndoesUpdate(ignore);
  }

  /** The nested executor of `_remove_configuration`: badge removal, then editor-extension removal. */
  method RunCleanup(removeBadge: StepResult, removeRecommendation: StepResult, merge: seq<string> -> string)
    returns (result: StepResult)
    ensures result == Verdict(Run([removeBadge, removeRecommendation]), merge)
  {
    var executor := new Executor();
    var escaped := executor.Call(removeBadge);
    if escaped.Some? {
      assert Run([removeBadge, removeRecommendation]) == [removeBadge];
      return removeBadge;
    }
    escaped := executor.Call(removeRecommendation);
    assert [removeBadge, removeRecommendation][1..] == [removeRecommendation];
    assert Run([removeBadge, removeRecommendation]) == [removeBadge, removeRecommendation];
    assert executor.calls == [removeBadge, removeRecommendation];
    if escaped.Some? {
      return removeRecommendation;
    }
    if |executor.errorMessages| > 0 {
      result := Failed([merge(executor.errorMessages)]);
    } else {
      result := Passed;
    }
  }

  /** The file edits of `_remove_configuration`: as written, or as intended. */
  function Removal(asWritten: bool, ws: Workspace): Option<Checked<Workspace>> {
    if asWritten then RemoveFilesAsWritten(ws) else RemoveFiles(ws)
  }

  /**
   * `_remove_configuration`: the file edits of `Removal`, and when there were none, the nested
   * executor. As intended the editor defaults are never touched; as written the ignore file is not.
   */
  method RemoveConfiguration(asWritten: bool, ws: Workspace, removeBadge: StepResult, removeRecommendation: StepResult,
                             merge: seq<string> -> string)
    returns (after: Workspace, result: StepResult)
    ensures after.cspell == None
    ensures !asWritten ==> after.editorConfig == ws.editorConfig
    ensures asWritten ==> after.prettierIgnore == ws.prettierIgnore
    ensures Removal(asWritten, ws).Some? ==>
      after == Removal(asWritten, ws).value.after && result == Removal(asWritten, ws).value.result
    ensures Removal(asWritten, ws).None? ==>
      after == ws && result == Verdict(Run([removeBadge, removeRecommendation]), merge)
  {
    var removed := Removal(asWritten, ws);
    if removed.Some? {
      return removed.value.after, removed.value.result;
    }
    after := ws;
    result := RunCleanup(removeBadge, removeRecommendation, merge);
  }

  /** The outcomes of the steps whose code is not part of this model, in the order the driver calls them. */
  datatype OtherSteps = OtherSteps(
    updateRepoUrl: StepResult,
    checkHookOptions: StepResult,
    addBadge: StepResult,
    addRecommendation: StepResult,
    removeBadge: StepResult,
    removeRecommendation: StepResult)

  /** The configuration holds the canonical template values, and every array in it is a sorted list of strings. */
  ghost predicate Settled(config: Config, template: Config) {
    TemplateApplied(config, template) && ListsSorted(config) && StringLists(config)
  }

  /** The cSpell artifacts conform: the configuration is settled, and the ignore file lists it. */
  ghost predicate Conforms(ws: Workspace, template: Config) {
    && ws.cspell.Some? && ws.cspell.value.Valid() && Settled(ws.cspell.value, template)
    && ws.prettierIgnore.Some? && IGNORE_LINE in ws.prettierIgnore.value
  }

  /** With a supported template, fixing raises nothing but `PrecommitError`, and fixing then sorting conforms. */
  lemma FixThenSortConforms(config: Config, template: Config)
    requires config.Valid() && template.Valid() && Supported(template)
    ensures FirstCrash(config, template, template.order) == |template.order|
    ensures var fixedConfig := Merged(config, template, template.order);
            && fixedConfig.Valid()
            && TemplateApplied(SortedLists(fixedConfig, fixedConfig.order), template)
            && ListsSorted(SortedLists(fixedConfig, fixedConfig.order))
  {
    MergedValid(config, template, template.order);
    FixThenSortApplied(config, template);
    SortedListsSorted(Merged(config, template, template.order));
  }

  /** A configuration that already conforms is neither fixed nor sorted. */
  lemma ConformingIsSettled(config: Config, template: Config)
    requires config.Valid() && template.Valid() && Supported(template)
    requires TemplateApplied(config, template) && ListsSorted(config)
    ensures FirstCrash(config, template, template.order) == |template.order|
    ensures FixedSections(config, template, template.order) == []
    ensures Merged(config, template, template.order) == config
    ensures SortedLists(config, config.order) == config && UnsortedSections(config, config.order) == []
  {
    FixAppliedIsNoOp(config, template);
    SortedListsOfSorted(config);
  }

  /** Sorting never makes an array unsortable. */
  lemma SortKeepsStringLists(config: Config)
    requires StringLists(config)
    ensures StringLists(SortedLists(config, config.order))
  {
    var sorted := SortedLists(config, config.order);
    forall k | k in sorted.sections ensures !sorted.sections[k].MixedList? {
      assert k in config.sections;
    }
  }

  /**
   * With a supported template, fixing raises nothing but `PrecommitError`, and a fixed configuration
   * that can be sorted is settled once sorted.
   */
  lemma FixAndSortOutcome(config: Config, template: Config)
    requires template.Valid() && Supported(template) && config.Valid()
    ensures var fixedConfig := Merged(config, template, template.order);
      && FirstCrash(config, template, template.order) == |template.order|
      && fixedConfig.Valid()
      && (StringLists(fixedConfig) ==> Settled(SortedLists(fixedConfig, fixedConfig.order), template))
  {
    FixThenSortConforms(config, template);
    var fixedConfig := Merged(config, template, template.order);
    if StringLists(fixedConfig) {
      SortKeepsStringLists(fixedConfig);
    }
  }

  /**
   * The sorting step of `main` on the configuration the fix wrote: it escapes exactly when some
   * section cannot be sorted, and otherwise passes exactly when every list was already sorted.
   */
  method SortStep(executor: Executor, config: Config)
    returns (after: Option<Config>, escaped: Option<StepResult>, step: StepResult)
    requires executor.Valid() && config.Valid()
    modifies executor
    ensures executor.Valid() && executor.calls == old(executor.calls) + [step]
    ensures escaped.None? <==> !step.Crashed?
    ensures escaped.Some? ==> escaped.value == step
    ensures step.Crashed? <==> !StringLists(config)
    ensures StringLists(config) ==>
      after == Some(SortedLists(config, config.order)) && (step.Passed? <==> UnsortedSections(config, config.order) == [])
  {
    after, step := SortConfigEntries(Some(config));
    var e := executor.Call(step);
    escaped := if e.Some? then Some(step) else None;
  }

  /**
   * The configuration-content and sorting steps of `main`: the fix always writes the file, and the
   * sort runs when nothing escaped from the fix. With a supported template the fix raises nothing but
   * `PrecommitError`, and the sort escapes exactly when the fixed configuration still holds an array it
   * cannot sort. `ran` is what the executor ran.
   */
  method FixAndSort(executor: Executor, file: Option<Config>, template: Config)
    returns (after: Option<Config>, escaped: Option<StepResult>, ghost ran: seq<StepResult>)
    requires executor.Valid()
    requires template.Valid()
    requires file.Some? ==> file.value.Valid()
    modifies executor
    ensures executor.Valid() && executor.calls == old(executor.calls) + ran
    ensures 0 < |ran| <= 2 && Halted(ran)
    ensures escaped.None? <==> Clean(ran)
    ensures escaped.None? ==> |ran| == 2
    ensures escaped.Some? ==> escaped.value == ran[|ran| - 1]
    ensures Supported(template) ==>
      (escaped.None? <==> StringLists(Merged(Initial(file), template, template.order)))
    ensures Supported(template) && escaped.None? ==>
      after.Some? && after.value.Valid() && Settled(after.value, template)
    ensures Supported(template) && file.Some? && Settled(file.value, template) ==>
      after == file && ran == [Passed, Passed]
  {
    var fixedConfig, fixResult := FixConfigContent(file, template);
    MergedValid(Initial(file), template, template.order);
    if Supported(template) {
      FixAndSortOutcome(Initial(file), template);
      if file.Some? && Settled(file.value, template) {
        ConformingIsSettled(file.value, template);
      }
    }
    after := Some(fixedConfig);
    var e := executor.Call(fixResult);
    if e.Some? {
      return after, Some(fixResult), [fixResult];
    }
    var sortResult;
    after, escaped, sortResult := SortStep(executor, fixedConfig);
    ran := [fixResult, sortResult];
    SnocTwo(old(executor.calls), fixResult, sortResult);
  }

  /**
   * The ignore-file step of `main` with the cSpell hook configured, as written or as intended. Both
   * leave the file listing the cSpell configuration, raise nothing but `PrecommitError`, and pass
   * without writing when the file already lists it.
   */
  function IgnoreUpdate(asWritten: bool, file: Option<seq<string>>): (r: Checked<Option<seq<string>>>)
    ensures r.after.Some? && IGNORE_LINE in r.after.value
    ensures !r.result.Crashed?
    ensures file.Some? && IGNORE_LINE in file.value ==> r == Checked(file, Passed)
  {
    if asWritten then UpdatePrettierIgnoreAsWritten(true, file) else UpdatePrettierIgnore(true, file)
  }

  /**
   * The steps of `main` after the sorting: the editor defaults, the ignore file, the badge and the
   * editor extension, up to the first exception that escapes. Either form of the ignore-file step
   * leaves the file listing the cSpell configuration.
   */
  method FinishWithHook(asWritten: bool, executor: Executor, ws: Workspace, other: OtherSteps,
                        parseIni: seq<string> -> IniSections)
    returns (after: Workspace, escaped: Option<StepResult>, ghost ran: seq<StepResult>)
    requires executor.Valid()
    modifies executor
    ensures executor.Valid() && executor.calls == old(executor.calls) + ran
    ensures 0 < |ran| <= 4 && Halted(ran) && ran[0] == CheckEditorConfig(ws.editorConfig, parseIni)
    ensures escaped.None? <==> Clean(ran)
    ensures escaped.None? ==> |ran| == 4
    ensures escaped.Some? ==> escaped.value == ran[|ran| - 1]
    ensures after == ws.(prettierIgnore := IgnoreUpdate(asWritten, ws.prettierIgnore).after)
    ensures after.prettierIgnore.Some? && IGNORE_LINE in after.prettierIgnore.value
    ensures CheckEditorConfig(ws.editorConfig, parseIni).Passed? && ws.prettierIgnore.Some?
            && IGNORE_LINE in ws.prettierIgnore.value && other.addBadge.Passed? && other.addRecommendation.Passed? ==>
      after == ws && |ran| == 4 && AllPassed(ran)
  {
    var editorResult := CheckEditorConfig(ws.editorConfig, parseIni);
    var e := executor.Call(editorResult);
    var ignore := IgnoreUpdate(asWritten, ws.prettierIgnore);
    after := ws.(prettierIgnore := ignore.after);
    e := executor.Call(ignore.result);
    e := executor.Call(other.addBadge);
    if e.Some? {
      ran := [editorResult, ignore.result, other.addBadge];
      assert executor.calls == old(executor.calls) + ran;
      return after, Some(other.addBadge), ran;
    }
    e := executor.Call(other.addRecommendation);
    ran := [editorResult, ignore.result, other.addBadge, other.addRecommendation];
    assert executor.calls == old(executor.calls) + ran;
    escaped := if e.Some? then Some(other.addRecommendation) else None;
  }

  /**
   * The six steps of `main` after the hook options: `FixAndSort`, then `FinishWithHook`, up to the
   * first exception that escapes. When nothing escapes and the template is supported, the workspace
   * conforms; a conforming workspace is left as it is.
   */
  method SyncWithHook(asWritten: bool, executor: Executor, ws: Workspace, template: Config, other: OtherSteps,
                      parseIni: seq<string> -> IniSections)
    returns (after: Workspace, escaped: Option<StepResult>, ghost ran: seq<StepResult>)
    requires executor.Valid()
    requires template.Valid()
    requires ws.cspell.Some? ==> ws.cspell.value.Valid()
    modifies executor
    ensures executor.Valid() && executor.calls == old(executor.calls) + ran
    ensures 0 < |ran| <= 6 && Halted(ran)
    ensures 2 < |ran| ==> ran[2] == CheckEditorConfig(ws.editorConfig, parseIni)
    ensures escaped.None? <==> Clean(ran)
    ensures escaped.Some? ==> escaped.value == ran[|ran| - 1]
    ensures after.editorConfig == ws.editorConfig
    ensures Supported(template) && escaped.None? ==> |ran| == 6 && Conforms(after, template)
    ensures Supported(template) && Conforms(ws, template) && CheckEditorConfig(ws.editorConfig, parseIni).Passed?
            && other.addBadge.Passed? && other.addRecommendation.Passed? ==>
      after == ws && |ran| == 6 && AllPassed(ran)
  {
    var config;
    ghost var ranFix, ranFinish;
    config, escaped, ranFix := FixAndSort(executor, ws.cspell, template);
    after := ws.(cspell := config);
    if escaped.Some? {
      ran := ranFix;
      return;
    }
    after, escaped, ranFinish := FinishWithHook(asWritten, executor, after, other, parseIni);
    CleanAppend(ranFix, ranFinish);
    ran := ranFix + ranFinish;
    if AllPassed(ranFix) && AllPassed(ranFinish) {
      AllPassedAppend(ranFix, ranFinish);
    }
    assert executor.calls == old(executor.calls) + ran;
  }

  /**
   * The checks `main` runs when the cSpell hook is configured: the hook options, then `SyncWithHook`,
   * up to the first exception that escapes. When nothing escapes and the template is supported, the
   * workspace conforms; a conforming workspace is left as it is.
   */
  method CheckWithHook(asWritten: bool, executor: Executor, ws: Workspace, template: Config, other: OtherSteps,
                       parseIni: seq<string> -> IniSections)
    returns (after: Workspace, escaped: Option<StepResult>, ghost ran: seq<StepResult>)
    requires executor.Valid()
    requires template.Valid()
    requires ws.cspell.Some? ==> ws.cspell.value.Valid()
    modifies executor
    ensures executor.Valid() && executor.calls == old(executor.calls) + ran
    ensures 0 < |ran| <= 7 && Halted(ran) && ran[0] == other.checkHookOptions
    ensures 3 < |ran| ==> ran[3] == CheckEditorConfig(ws.editorConfig, parseIni)
    ensures escaped.None? <==> Clean(ran)
    ensures escaped.Some? ==> escaped.value == ran[|ran| - 1]
    ensures after.editorConfig == ws.editorConfig
    ensures Supported(template) && escaped.None? ==> |ran| == 7 && Conforms(after, template)
    ensures Supported(template) && Conforms(ws, template) && CheckEditorConfig(ws.editorConfig, parseIni).Passed?
            && other.checkHookOptions.Passed? && other.addBadge.Passed? && other.addRecommendation.Passed? ==>
      after == ws && |ran| == 7 && AllPassed(ran)
  {
    after := ws;
    var e := executor.Call(other.checkHookOptions);
    if e.Some? {
      return after, Some(other.checkHookOptions), [other.checkHookOptions];
    }
    ghost var ranSync;
    after, escaped, ranSync := SyncWithHook(asWritten, executor, ws, template, other, parseIni);
    CleanAppend([other.checkHookOptions], ranSync);
    ran := [other.checkHookOptions] + ranSync;
    if other.checkHookOptions.Passed? && AllPassed(ranSync) {
      AllPassedAppend([other.checkHookOptions], ranSync);
    }
    assert executor.calls == old(executor.calls) + ran;
  }

  /** The step `main` runs when the cSpell hook is not configured: removing the cSpell configuration. */
  method CheckWithoutHook(asWritten: bool, executor: Executor, ws: Workspace, other: OtherSteps,
                          merge: seq<string> -> string)
    returns (after: Workspace, escaped: Option<StepResult>, ghost ran: seq<StepResult>)
    requires executor.Valid()
    modifies executor
    ensures executor.Valid() && executor.calls == old(executor.calls) + ran
    ensures |ran| == 1 && Halted(ran)
    ensures escaped.None? <==> Clean(ran)
    ensures escaped.Some? ==> escaped.value == ran[0]
    ensures after.cspell == None
    ensures !asWritten ==> after.editorConfig == ws.editorConfig
    ensures asWritten ==> after.prettierIgnore == ws.prettierIgnore
    ensures Removal(asWritten, ws).Some? ==>
      after == Removal(asWritten, ws).value.after && ran[0] == Removal(asWritten, ws).value.result
    ensures Removal(asWritten, ws).None? ==>
      after == ws && ran[0] == Verdict(Run([other.removeBadge, other.removeRecommendation]), merge)
  {
    var removal;
    after, removal := RemoveConfiguration(asWritten, ws, other.removeBadge, other.removeRecommendation, merge);
    var e := executor.Call(removal);
    escaped := if e.Some? then Some(removal) else None;
    ran := [removal];
  }

  /**
   * `main`: every step runs through one executor, which collects `PrecommitError` messages and lets
   * any other exception escape. The repo URL update always runs first; without the cSpell hook the
   * configuration is removed, with it `CheckWithHook` runs. The driver raises one merged message when
   * any step failed. A run in which nothing escapes leaves a conforming workspace, and a conforming
   * workspace passes unchanged. `asWritten` chooses between the ignore-file and removal steps as the
   * source writes them and as they are intended; every property below holds of both, except that only
   * the intended removal leaves the editor defaults alone.
   */
  method Check(asWritten: bool, ws: Workspace, template: Config, repoPresent: bool, other: OtherSteps,
               parseIni: seq<string> -> IniSections, merge: seq<string> -> string)
    returns (after: Workspace, ghost trace: seq<StepResult>, result: StepResult)
    requires template.Valid()
    requires ws.cspell.Some? ==> ws.cspell.value.Valid()
    ensures Halted(trace) && result == Verdict(trace, merge)
    ensures 0 < |trace| && trace[0] == other.updateRepoUrl
    ensures repoPresent || !asWritten ==> after.editorConfig == ws.editorConfig
    ensures !repoPresent && asWritten ==> after.prettierIgnore == ws.prettierIgnore
    ensures !repoPresent && !other.updateRepoUrl.Crashed? ==>
      && |trace| == 2 && after.cspell == None
      && (Removal(asWritten, ws).Some? ==>
            after == Removal(asWritten, ws).value.after && trace[1] == Removal(asWritten, ws).value.result)
      && (Removal(asWritten, ws).None? ==>
            after == ws && trace[1] == Verdict(Run([other.removeBadge, other.removeRecommendation]), merge))
    ensures repoPresent && 1 < |trace| ==> trace[1] == other.checkHookOptions
    ensures repoPresent && 4 < |trace| ==> trace[4] == CheckEditorConfig(ws.editorConfig, parseIni)
    ensures repoPresent && Supported(template) && Clean(trace) ==> |trace| == 8 && Conforms(after, template)
    ensures repoPresent && Supported(template) && Conforms(ws, template)
            && CheckEditorConfig(ws.editorConfig, parseIni).Passed?
            && other.updateRepoUrl.Passed? && other.checkHookOptions.Passed?
            && other.addBadge.Passed? && other.addRecommendation.Passed?
            ==> after == ws && result == Passed
  {
    var executor := new Executor();
    after := ws;
    var escaped := executor.Call(other.updateRepoUrl);
    if escaped.Some? {
      trace := executor.calls;
      result := Conclude(executor, Some(other.updateRepoUrl), merge);
      return;
    }
    var crashed;
    ghost var ran;
    if !repoPresent {
      after, crashed, ran := CheckWithoutHook(asWritten, executor, ws, other, merge);
    } else {
      after, crashed, ran := CheckWithHook(asWritten, executor, ws, template, other, parseIni);
    }
    CleanAppend([other.updateRepoUrl], ran);
    trace := executor.calls;
    result := Conclude(executor, crashed, merge);
    if repoPresent && other.updateRepoUrl.Passed? && AllPassed(ran) {
      AllPassedAppend([other.updateRepoUrl], ran);
      AllPassedVerdict(trace, merge);
    }
  }
}
