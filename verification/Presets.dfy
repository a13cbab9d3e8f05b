// CnfController: applying a configuration preset, reading the current one
// back and comparing presets (src/scalarizr/service.py).
module Presets {
  import opened Wrappers

  type Settings = map<string, string>

  // An option of the manifest; empty strings stand for absent fields.
  datatype OptionSpec = OptionSpec(
    name: string,
    section: string,
    defaultValue: string,
    supportedFrom: seq<nat>,
    inaccurate: bool,
    isBoolean: bool)

  function PathOf(o: OptionSpec): string {
    if o.section == "" then o.name else o.section + "/" + o.name
  }

  // Tuple comparison of version numbers.
  predicate Later(a: seq<nat>, b: seq<nat>) {
    if a == [] then false
    else if b == [] then true
    else if a[0] != b[0] then a[0] > b[0]
    else Later(a[1..], b[1..])
  }

  // Versions are ordered strictly and totally.
  lemma {:induction false} LaterIsTotal(a: seq<nat>, b: seq<nat>)
    ensures !(Later(a, b) && Later(b, a)) && (Later(a, b) || Later(b, a) <==> a != b)
  {
    if a != [] && b != [] {
      LaterIsTotal(a[1..], b[1..]);
      if a[0] == b[0] {
        assert a == [a[0]] + a[1..] && b == [b[0]] + b[1..];
      }
    }
  }

  lemma {:induction false} LaterIsTransitive(a: seq<nat>, b: seq<nat>, c: seq<nat>)
    requires Later(a, b) && Later(b, c)
    ensures Later(a, c)
  {
    if b != [] && c != [] && a[0] == b[0] == c[0] {
      LaterIsTransitive(a[1..], b[1..], c[1..]);
    }
  }

  // After a common beginning the next number decides, or the greater length.
  lemma {:induction false} LaterDecides(common: seq<nat>, a: seq<nat>, b: seq<nat>)
    ensures Later(common + a, common + b) <==> Later(a, b)
    ensures a != [] && b != [] && a[0] != b[0] ==> (Later(a, b) <==> a[0] > b[0])
    ensures b == [] ==> (Later(a, b) <==> a != [])
  {
    if common == [] {
      assert common + a == a && common + b == b;
    } else {
      assert (common + a)[1..] == common[1..] + a && (common + b)[1..] == common[1..] + b;
      LaterDecides(common[1..], a, b);
    }
  }

  function Lookup(m: Settings, k: string): Option<string> {
    if k in m then Some(m[k]) else None
  }

  // The top-level entries of the configuration file.
  function SystemVariables(conf: Settings): Settings {
    map k | k in conf && '/' !in k :: conf[k]
  }

  // What a controller knows besides its configuration file: the manifest, the
  // aliases of values and the installed version (empty when unknown).
  datatype Knowledge = Knowledge(manifest: seq<OptionSpec>, definitions: map<string, string>, version: seq<nat>) {

    predicate Unsupported(o: OptionSpec) {
      version != [] && o.supportedFrom != [] && Later(o.supportedFrom, version)
    }

    function Alias(v: string): string {
      if v in definitions then definitions[v] else v
    }

    // The value written for v: boolean options are written as their alias.
    function Written(o: OptionSpec, v: string): string {
      if o.isBoolean then Alias(v) else v
    }

    // What the configuration holds for one option after the preset has been
    // applied, given what it held before.
    function Target(was: Option<string>, o: OptionSpec, settings: Settings): Option<string> {
      var value := if was.Some? then was.value else "";
      if o.name in settings then
        var v := settings[o.name];
        if Unsupported(o) then was
        else if o.defaultValue != "" && v == o.defaultValue then (if value != "" then None else was)
        else if Written(o, v) == value then was
        else Some(Written(o, v))
      else if value != "" then None
      else was
    }

    function ApplyOption(conf: Settings, o: OptionSpec, settings: Settings): Settings {
      match Target(Lookup(conf, PathOf(o)), o, settings)
      case None => conf - {PathOf(o)}
      case Some(v) => conf[PathOf(o) := v]
    }

    // The first n options of the manifest applied in order.
    function AppliedUpTo(conf: Settings, settings: Settings, n: nat): Settings
      requires n <= |manifest|
    {
      if n == 0 then conf else ApplyOption(AppliedUpTo(conf, settings, n - 1), manifest[n - 1], settings)
    }

    function Applied(conf: Settings, settings: Settings): Settings {
      AppliedUpTo(conf, settings, |manifest|)
    }

    ghost predicate DistinctPaths() {
      forall i, j :: 0 <= i < j < |manifest| ==> PathOf(manifest[i]) != PathOf(manifest[j])
    }

    // What the current preset shows of one option.
    function Shown(conf: Settings, o: OptionSpec): Option<string> {
      var vars := SystemVariables(conf);
      if o.name in vars then (if vars[o.name] != "" then Some(vars[o.name]) else None)
      else if o.defaultValue != "" then Some(o.defaultValue)
      else None
    }

    // Do two presets agree on an option?
    predicate Agree(o: OptionSpec, this': Settings, that: Settings) {
      o.inaccurate ||
      if o.name !in this' && o.name !in that then true
      else if o.name !in this' then o.defaultValue == "" || that[o.name] == o.defaultValue
      else if o.name !in that then o.defaultValue == "" || this'[o.name] == o.defaultValue
      else Alias(that[o.name]) == Alias(this'[o.name])
    }
  }

  // --- What applying a preset promises

  lemma OneOption(k: Knowledge, conf: Settings, o: OptionSpec, settings: Settings, path: string)
    ensures Lookup(k.ApplyOption(conf, o, settings), path)
         == if path == PathOf(o) then k.Target(Lookup(conf, path), o, settings) else Lookup(conf, path)
  {
  }

  // Settings outside the manifest never change.
  lemma {:induction false} OthersUnchanged(k: Knowledge, conf: Settings, settings: Settings, n: nat, path: string)
    requires n <= |k.manifest| && forall i :: 0 <= i < n ==> PathOf(k.manifest[i]) != path
    ensures Lookup(k.AppliedUpTo(conf, settings, n), path) == Lookup(conf, path)
  {
    if n > 0 {
      OthersUnchanged(k, conf, settings, n - 1, path);
      OneOption(k, k.AppliedUpTo(conf, settings, n - 1), k.manifest[n - 1], settings, path);
    }
  }

  lemma {:induction false} EachOptionOnTarget(k: Knowledge, conf: Settings, settings: Settings, n: nat, i: nat)
    requires k.DistinctPaths() && i < n <= |k.manifest|
    ensures Lookup(k.AppliedUpTo(conf, settings, n), PathOf(k.manifest[i]))
         == k.Target(Lookup(conf, PathOf(k.manifest[i])), k.manifest[i], settings)
  {
    var path := PathOf(k.manifest[i]);
    OneOption(k, k.AppliedUpTo(conf, settings, n - 1), k.manifest[n - 1], settings, path);
    if i == n - 1 {
      OthersUnchanged(k, conf, settings, n - 1, path);
    } else {
      EachOptionOnTarget(k, conf, settings, n - 1, i);
    }
  }

  // Every option of the manifest, with a section or not, after a preset has
  // been applied. The preset holds another value than the default: the entry
  // holds the value, or what a boolean value stands for, unless it was absent
  // and that is empty. It holds the default, or nothing: the entry is gone,
  // unless it was blank. It holds a value for an option that is not supported:
  // the entry is what it was.
  lemma WrittenForEachOption(k: Knowledge, conf: Settings, settings: Settings, i: nat)
    requires k.DistinctPaths() && i < |k.manifest|
    ensures var o := k.manifest[i];
            var path := if o.section == "" then o.name else o.section + "/" + o.name;
            var was, now := Lookup(conf, path), Lookup(k.Applied(conf, settings), path);
            var supported := k.version == [] || o.supportedFrom == [] || !Later(o.supportedFrom, k.version);
            if o.name in settings && !supported then now == was
            else if o.name !in settings || (o.defaultValue != "" && settings[o.name] == o.defaultValue) then
              now == if was == Some("") then was else None
            else
              var v := settings[o.name];
              var value := if o.isBoolean && v in k.definitions then k.definitions[v] else v;
              now == if was == None && value == "" then None else Some(value)
  {
    EachOptionOnTarget(k, conf, settings, |k.manifest|, i);
  }

  lemma SameLookups(a: Settings, b: Settings)
    requires forall path: string :: Lookup(a, path) == Lookup(b, path)
    ensures a == b
  {
    forall path: string
      ensures path in a <==> path in b
      ensures path in a ==> a[path] == b[path]
    {
      assert Lookup(a, path) == Lookup(b, path);
    }
  }

  // Applying the same preset a second time changes no setting.
  lemma ApplyTwice(k: Knowledge, conf: Settings, settings: Settings)
    requires k.DistinctPaths()
    ensures k.Applied(k.Applied(conf, settings), settings) == k.Applied(conf, settings)
  {
    var once := k.Applied(conf, settings);
    var twice := k.Applied(once, settings);
    forall path: string
      ensures Lookup(twice, path) == Lookup(once, path)
    {
      if i :| 0 <= i < |k.manifest| && PathOf(k.manifest[i]) == path {
        EachOptionOnTarget(k, conf, settings, |k.manifest|, i);
        EachOptionOnTarget(k, once, settings, |k.manifest|, i);
      } else {
        OthersUnchanged(k, once, settings, |k.manifest|, path);
      }
    }
    SameLookups(twice, once);
  }

  // --- Reading the preset back

  // The current preset as far as the first n options of the manifest go.
  function CurrentUpTo(k: Knowledge, conf: Settings, n: nat): Settings
    requires n <= |k.manifest|
  {
    if n == 0 then map[]
    else
      var rest := CurrentUpTo(k, conf, n - 1);
      var o := k.manifest[n - 1];
      match k.Shown(conf, o)
      case None => rest
      case Some(v) => rest[o.name := v]
  }

  function Current(k: Knowledge, conf: Settings): Settings {
    CurrentUpTo(k, conf, |k.manifest|)
  }

  ghost predicate DistinctNames(k: Knowledge) {
    forall i, j :: 0 <= i < j < |k.manifest| ==> k.manifest[i].name != k.manifest[j].name
  }

  lemma {:induction false} CurrentNames(k: Knowledge, conf: Settings, n: nat, name: string)
    requires n <= |k.manifest| && name in CurrentUpTo(k, conf, n)
    ensures exists i :: 0 <= i < n && k.manifest[i].name == name && k.Shown(conf, k.manifest[i]).Some?
  {
    if k.manifest[n - 1].name != name || k.Shown(conf, k.manifest[n - 1]) == None {
      CurrentNames(k, conf, n - 1, name);
    }
  }

  lemma {:induction false} CurrentShows(k: Knowledge, conf: Settings, n: nat, i: nat)
    requires DistinctNames(k) && i < n <= |k.manifest|
    ensures Lookup(CurrentUpTo(k, conf, n), k.manifest[i].name) == k.Shown(conf, k.manifest[i])
  {
    var name := k.manifest[i].name;
    if i < n - 1 {
      CurrentShows(k, conf, n - 1, i);
    } else if name in CurrentUpTo(k, conf, n - 1) {
      CurrentNames(k, conf, n - 1, name);
    }
  }

  // What is read back of an option: its entry without a section if that is not
  // blank, nothing if it is, and the default if there is no entry.
  lemma CurrentTells(k: Knowledge, conf: Settings, i: nat)
    requires DistinctNames(k) && i < |k.manifest|
    ensures var o := k.manifest[i];
            Lookup(Current(k, conf), o.name) ==
              if '/' !in o.name && o.name in conf then (if conf[o.name] == "" then None else Some(conf[o.name]))
              else if o.defaultValue == "" then None else Some(o.defaultValue)
  {
    CurrentShows(k, conf, |k.manifest|, i);
  }

  ghost predicate EqualPresets(k: Knowledge, this': Settings, that: Settings) {
    && this' != map[] && that != map[]
    && forall i :: 0 <= i < |k.manifest| ==> k.Agree(k.manifest[i], this', that)
  }

  // Two presets equal each other in either order, and a preset with settings
  // equals itself.
  lemma EqualIsSymmetric(k: Knowledge, this': Settings, that: Settings)
    ensures EqualPresets(k, this', that) <==> EqualPresets(k, that, this')
    ensures EqualPresets(k, this', this') <==> this' != map[]
  {
    forall i | 0 <= i < |k.manifest|
      ensures k.Agree(k.manifest[i], this', that) <==> k.Agree(k.manifest[i], that, this')
      ensures k.Agree(k.manifest[i], this', this')
    {
    }
  }

  // Values agree when they stand for the same; a missing one stands for the
  // default, if there is one.
  lemma AgreementTells(k: Knowledge, o: OptionSpec, this': Settings, that: Settings)
    requires !o.inaccurate
    ensures o.name in this' && o.name in that ==>
      (k.Agree(o, this', that) <==> k.Alias(this'[o.name]) == k.Alias(that[o.name]))
    ensures o.name in this' && o.name !in that ==>
      (k.Agree(o, this', that) <==> o.defaultValue in ["", this'[o.name]])
    ensures o.name !in this' && o.name !in that ==> k.Agree(o, this', that)
  {
  }

  // No two options share a name or a path.
  ghost predicate Distinguished(k: Knowledge) {
    DistinctNames(k) && k.DistinctPaths()
  }

  // The preset sets the option to its default, which the file leaves out.
  predicate ToDefault(o: OptionSpec, settings: Settings)
    requires o.name in settings
  {
    o.defaultValue != "" && settings[o.name] == o.defaultValue
  }

  // Is the entry that is read back for the option another one than the preset
  // writes? Reading looks a sectioned option up by its bare name, and an
  // unsupported option is not written.
  predicate Apart(k: Knowledge, o: OptionSpec, settings: Settings) {
    o.section != "" || '/' in o.name || (o.name in settings && k.Unsupported(o))
  }

  // Will the option be listed in the current preset? An entry left blank in
  // the file hides it, and so does a value written as the empty string, unless
  // nothing has to be written for that. An entry that is not written stays.
  predicate Listed(k: Knowledge, o: OptionSpec, conf: Settings, settings: Settings) {
    if Apart(k, o, settings) then k.Shown(conf, o).Some?
    else if o.name !in settings then o.defaultValue != "" && Lookup(conf, o.name) != Some("")
    else if ToDefault(o, settings) then Lookup(conf, o.name) != Some("")
    else k.Written(o, settings[o.name]) != "" || (o.defaultValue != "" && Lookup(conf, o.name) == None)
  }

  // Does the entry found before the preset is applied stand for something else
  // than the preset, or than the default if the preset leaves the option out?
  predicate FoundOther(k: Knowledge, o: OptionSpec, conf: Settings, settings: Settings) {
    match k.Shown(conf, o)
    case None => o.name in settings && o.defaultValue != "" && !ToDefault(o, settings)
    case Some(found) =>
      if o.name in settings then k.Alias(found) != k.Alias(settings[o.name])
      else o.defaultValue != "" && found != o.defaultValue
  }

  // Will the preset disagree with what is read back? A boolean value whose
  // alias is itself an alias of something else does, and a value written as
  // the empty string does unless the default stands for the same or is absent.
  predicate Disagrees(k: Knowledge, o: OptionSpec, conf: Settings, settings: Settings) {
    && !o.inaccurate
    && if Apart(k, o, settings) then FoundOther(k, o, conf, settings)
       else
         && o.name in settings && !ToDefault(o, settings)
         && var v := settings[o.name];
            if k.Written(o, v) != "" then o.isBoolean && k.Alias(k.Alias(v)) != k.Alias(v)
            else o.defaultValue != "" && !(Lookup(conf, o.name) == None && k.Alias(o.defaultValue) == k.Alias(v))
  }

  // The entry read back for such an option stays as it was.
  lemma ApartStays(k: Knowledge, conf: Settings, settings: Settings, i: nat)
    requires Distinguished(k) && i < |k.manifest| && Apart(k, k.manifest[i], settings)
    ensures k.Shown(k.Applied(conf, settings), k.manifest[i]) == k.Shown(conf, k.manifest[i])
  {
    var o := k.manifest[i];
    var conf' := k.Applied(conf, settings);
    if '/' !in o.name {
      if o.section == "" {
        EachOptionOnTarget(k, conf, settings, |k.manifest|, i);
      } else {
        forall j | 0 <= j < |k.manifest|
          ensures PathOf(k.manifest[j]) != o.name
        {
          assert k.manifest[j].section != "" ==> PathOf(k.manifest[j])[|k.manifest[j].section|] == '/';
        }
        OthersUnchanged(k, conf, settings, |k.manifest|, o.name);
      }
      assert Lookup(conf', o.name) == Lookup(conf, o.name);
    }
  }

  ghost predicate ReadBack(k: Knowledge, o: OptionSpec, conf: Settings, settings: Settings, that: Settings) {
    && (o.name in that <==> Listed(k, o, conf, settings))
    && (k.Agree(o, settings, that) <==> !Disagrees(k, o, conf, settings))
  }

  lemma ApartReadBack(k: Knowledge, o: OptionSpec, conf: Settings, settings: Settings, that: Settings)
    requires Apart(k, o, settings) && Lookup(that, o.name) == k.Shown(conf, o)
    ensures ReadBack(k, o, conf, settings, that)
  {
  }

  lemma WrittenReadBack(k: Knowledge, o: OptionSpec, conf: Settings, conf': Settings, settings: Settings,
                        that: Settings)
    requires !Apart(k, o, settings) && Lookup(that, o.name) == k.Shown(conf', o)
    requires Lookup(conf', o.name) == k.Target(Lookup(conf, o.name), o, settings)
    ensures ReadBack(k, o, conf, settings, that)
  {
  }

  lemma OptionReadBack(k: Knowledge, conf: Settings, settings: Settings, i: nat)
    requires Distinguished(k) && i < |k.manifest|
    ensures ReadBack(k, k.manifest[i], conf, settings, Current(k, k.Applied(conf, settings)))
  {
    var conf' := k.Applied(conf, settings);
    CurrentShows(k, conf', |k.manifest|, i);
    if Apart(k, k.manifest[i], settings) {
      ApartStays(k, conf, settings, i);
      ApartReadBack(k, k.manifest[i], conf, settings, Current(k, conf'));
    } else {
      EachOptionOnTarget(k, conf, settings, |k.manifest|, i);
      WrittenReadBack(k, k.manifest[i], conf, conf', settings, Current(k, conf'));
    }
  }

  // After a preset has been applied it compares equal to what is read back
  // exactly when some option is listed at all and none disagrees.
  lemma AppliedPresetReadsBack(k: Knowledge, conf: Settings, settings: Settings)
    requires Distinguished(k)
    ensures EqualPresets(k, settings, Current(k, k.Applied(conf, settings))) <==>
            && settings != map[]
            && (exists i :: 0 <= i < |k.manifest| && Listed(k, k.manifest[i], conf, settings))
            && (forall i :: 0 <= i < |k.manifest| ==> !Disagrees(k, k.manifest[i], conf, settings))
  {
    var conf' := k.Applied(conf, settings);
    var that := Current(k, conf');
    forall i | 0 <= i < |k.manifest|
      ensures k.manifest[i].name in that <==> Listed(k, k.manifest[i], conf, settings)
      ensures k.Agree(k.manifest[i], settings, that) <==> !Disagrees(k, k.manifest[i], conf, settings)
    {
      OptionReadBack(k, conf, settings, i);
    }
    if that != map[] {
      var name :| name in that;
      CurrentNames(k, conf', |k.manifest|, name);
    }
    if i :| 0 <= i < |k.manifest| && Listed(k, k.manifest[i], conf, settings) {
      assert k.manifest[i].name in that;
    }
  }

  // Section-less, supported options with distinct names.
  ghost predicate Regular(k: Knowledge) {
    && DistinctNames(k)
    && forall i :: 0 <= i < |k.manifest| ==>
         var o := k.manifest[i];
         o.section == "" && '/' !in o.name && !k.Unsupported(o)
  }

  // For such options a preset of values that are not empty, neither as given nor as aliased,
  // one of them other than the default of its option, reads back as itself if
  // the aliases do not chain.
  lemma UsualPresetReadsBack(k: Knowledge, conf: Settings, settings: Settings, i: nat)
    requires Regular(k) && i < |k.manifest|
    requires k.manifest[i].name in settings && settings[k.manifest[i].name] != k.manifest[i].defaultValue
    requires forall name :: name in settings ==> settings[name] != ""
    requires forall v :: v in k.definitions ==> k.definitions[v] != "" && k.definitions[v] !in k.definitions
    ensures EqualPresets(k, settings, Current(k, k.Applied(conf, settings)))
  {
    AppliedPresetReadsBack(k, conf, settings);
    assert Listed(k, k.manifest[i], conf, settings);
  }

  // The guards matter.
  lemma ChainedAliasDoesNotReadBack()
    ensures var o := OptionSpec("log", "", "", [], false, true);
            var k := Knowledge([o], map["ON" := "1", "1" := "yes"], []);
            var settings := map["log" := "ON"];
            Distinguished(k) && !EqualPresets(k, settings, Current(k, k.Applied(map[], settings)))
  {
    var o := OptionSpec("log", "", "", [], false, true);
    var k := Knowledge([o], map["ON" := "1", "1" := "yes"], []);
    var settings := map["log" := "ON"];
    assert Disagrees(k, k.manifest[0], map[], settings) by {
      assert "1"[0] != "yes"[0];
    }
    AppliedPresetReadsBack(k, map[], settings);
  }

  lemma BlankEntryDoesNotReadBack()
    ensures var o := OptionSpec("log", "", "off", [], false, false);
            var k := Knowledge([o], map[], []);
            var settings := map["log" := "off"];
            Distinguished(k) && !EqualPresets(k, settings, Current(k, k.Applied(map["log" := ""], settings)))
  {
    var o := OptionSpec("log", "", "off", [], false, false);
    var k := Knowledge([o], map[], []);
    var settings := map["log" := "off"];
    AppliedPresetReadsBack(k, map["log" := ""], settings);
    assert !Listed(k, k.manifest[0], map["log" := ""], settings);
  }

  lemma EmptyAliasDoesNotReadBack()
    ensures var o := OptionSpec("log", "", "on", [], false, true);
            var k := Knowledge([o], map["NONE" := ""], []);
            var settings := map["log" := "NONE"];
            Distinguished(k) && !EqualPresets(k, settings, Current(k, k.Applied(map[], settings)))
  {
    var o := OptionSpec("log", "", "on", [], false, true);
    var k := Knowledge([o], map["NONE" := ""], []);
    var settings := map["log" := "NONE"];
    assert "on"[0] != "NONE"[0];
    assert Disagrees(k, k.manifest[0], map[], settings);
    AppliedPresetReadsBack(k, map[], settings);
  }

  // A sectioned option does not read back unless an entry without a section
  // happens to say the same.
  lemma SectionedOptionDoesNotReadBack()
    ensures var o := OptionSpec("log", "main", "", [], false, false);
            var k := Knowledge([o], map[], []);
            var settings := map["log" := "on"];
            Distinguished(k) && !EqualPresets(k, settings, Current(k, k.Applied(map[], settings)))
  {
    var o := OptionSpec("log", "main", "", [], false, false);
    var k := Knowledge([o], map[], []);
    var settings := map["log" := "on"];
    AppliedPresetReadsBack(k, map[], settings);
    assert !Listed(k, k.manifest[0], map[], settings);
  }

  lemma UnsupportedOptionDoesNotReadBack()
    ensures var o := OptionSpec("log", "", "off", [6], false, false);
            var k := Knowledge([o], map[], [5]);
            var settings := map["log" := "on"];
            Distinguished(k) && !EqualPresets(k, settings, Current(k, k.Applied(map[], settings)))
  {
    var o := OptionSpec("log", "", "off", [6], false, false);
    var k := Knowledge([o], map[], [5]);
    var settings := map["log" := "on"];
    assert "on"[1] != "off"[1];
    assert Disagrees(k, k.manifest[0], map[], settings);
    AppliedPresetReadsBack(k, map[], settings);
  }

  // --- The controller

  class CnfController {
    const knowledge: Knowledge
    var conf: Settings // the configuration file

    constructor (knowledge: Knowledge, conf: Settings)
      ensures this.knowledge == knowledge && this.conf == conf
    {
      this.knowledge, this.conf := knowledge, conf;
    }

    method PresetEquals(this': Settings, that: Settings) returns (equal: bool)
      ensures equal <==> EqualPresets(knowledge, this', that)
    {
      if |this'| == 0 || |that| == 0 {
        return false;
      }
      if this' == that {
        return true;
      }
      for i := 0 to |knowledge.manifest|
        invariant forall j :: 0 <= j < i ==> knowledge.Agree(knowledge.manifest[j], this', that)
      {
        var variable := knowledge.manifest[i];
        if variable.inaccurate {
          continue;
        }
        if variable.name !in this' && variable.name !in that {
          continue;
        } else if variable.name !in this' {
          if variable.defaultValue != "" && that[variable.name] == variable.defaultValue {
            continue;
          } else if variable.defaultValue != "" {
            return false;
          }
        } else if variable.name !in that {
          if variable.defaultValue != "" && this'[variable.name] == variable.defaultValue {
            continue;
          } else if variable.defaultValue != "" {
            return false;
          }
        } else {
          var thatValue, thisValue := that[variable.name], this'[variable.name];
          if thatValue in knowledge.definitions {
            thatValue := knowledge.definitions[thatValue];
          }
          if thisValue in knowledge.definitions {
            thisValue := knowledge.definitions[thisValue];
          }
          if thatValue != thisValue {
            return false;
          }
        }
      }
      return true;
    }

    method CurrentPreset() returns (settings: Settings)
      ensures settings == Current(knowledge, conf)
    {
      settings := map[];
      var vars := SystemVariables(conf);
      for i := 0 to |knowledge.manifest|
        invariant settings == CurrentUpTo(knowledge, conf, i)
      {
        var opt := knowledge.manifest[i];
        if opt.name in vars {
          if vars[opt.name] != "" {
            settings := settings[opt.name := vars[opt.name]];
          }
        } else if opt.defaultValue != "" {
          settings := settings[opt.name := opt.defaultValue];
        }
      }
    }

    method ApplyPreset(settings: Settings)
      modifies this
      ensures conf == knowledge.Applied(old(conf), settings)
    {
      for i := 0 to |knowledge.manifest|
        invariant conf == knowledge.AppliedUpTo(old(conf), settings, i)
      {
        ApplyOption(knowledge.manifest[i], settings);
      }
    }

    method ApplyOption(opt: OptionSpec, settings: Settings)
      modifies this
      ensures conf == knowledge.ApplyOption(old(conf), opt, settings)
    {
      var path := PathOf(opt);
      var value := if path in conf then conf[path] else "";
      assert if path in conf then conf[path := conf[path]] == conf else conf - {path} == conf;
      if opt.name in settings {
        var newValue := settings[opt.name];
        if knowledge.Unsupported(opt) {
          return;
        }
        if opt.defaultValue != "" && newValue == opt.defaultValue {
          if value != "" {
            conf := conf - {path};
          }
          return;
        }
        if opt.isBoolean && newValue in knowledge.definitions {
          newValue := knowledge.definitions[newValue];
        }
        if newValue != value {
          conf := conf[path := newValue];
        }
      } else if value != "" {
        conf := conf - {path};
      }
    }

  }
}
