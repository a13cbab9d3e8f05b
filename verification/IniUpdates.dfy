// Updating an ini file: given options overwrite or extend the sections of the
// file, whose comments and order are kept (src/scalarizr/config.py,
// ScalarizrCnf.__update_ini).
module IniUpdates {
  import opened IniFiles
  import opened Sequences
  import opened Text
  import opened Wrappers

  // The first entry with the key gets the value; a new one goes to the end,
  // with an empty value for None.
  function SetOption(items: seq<Item>, key: string, value: Option<string>): seq<Item> {
    if items == [] then [Entry(key, if value == None then Some("") else value)]
    else if items[0].Entry? && items[0].key == key then [Entry(key, value)] + items[1..]
    else [items[0]] + SetOption(items[1..], key, value)
  }

  type Options = seq<(string, Option<string>)>

  function SetOptions(items: seq<Item>, given: Options): seq<Item> {
    if given == [] then items
    else
      var last := given[|given| - 1];
      SetOption(SetOptions(items, given[..|given| - 1]), last.0, last.1)
  }

  function SetSection(ss: seq<Section>, name: string, given: Options): seq<Section> {
    if ss == [] then [Section(name, SetOptions([], given))]
    else if ss[0].name == name then [ss[0].(items := SetOptions(ss[0].items, given))] + ss[1..]
    else [ss[0]] + SetSection(ss[1..], name, given)
  }

  function Update(ss: seq<Section>, given: seq<(string, Options)>): seq<Section> {
    if given == [] then ss
    else
      var last := given[|given| - 1];
      SetSection(Update(ss, given[..|given| - 1]), last.0, last.1)
  }

  // --- The section names of the parser in memory

  function LowerCase(c: char): char {
    if 'A' <= c <= 'Z' then c - 'A' + 'a' else c
  }

  // The name, in capitals or not, that add_section of ConfigParser refuses.
  predicate IsDefault(name: string) {
    |name| == 7 && forall i :: 0 <= i < 7 ==> LowerCase(name[i]) == "default"[i]
  }

  lemma DefaultNames(name: string)
    ensures IsDefault("DEFAULT") && IsDefault("default") && IsDefault("Default")
    ensures |name| != 7 ==> !IsDefault(name)
  {
  }

  // Some given section is new to the parser and refused.
  ghost predicate Refused(raw: set<string>, given: seq<(string, Options)>) {
    exists i :: 0 <= i < |given| && given[i].0 !in raw && IsDefault(given[i].0)
  }

  // The names after the given ones have been added, up to one that is refused.
  function Registered(raw: set<string>, given: seq<(string, Options)>): (set<string>, bool) {
    if given == [] then (raw, true)
    else
      var name := given[|given| - 1].0;
      var (known, ok) := Registered(raw, given[..|given| - 1]);
      if !ok || name in known then (known, ok)
      else if IsDefault(name) then (known, false)
      else (known + {name}, true)
  }

  lemma {:induction false} RegisteredUnlessRefused(raw: set<string>, given: seq<(string, Options)>)
    ensures Registered(raw, given).1 <==> !Refused(raw, given)
    ensures raw <= Registered(raw, given).0
    ensures !Refused(raw, given) ==> Registered(raw, given).0 == raw + set i | 0 <= i < |given| :: given[i].0
    ensures forall name :: name in Registered(raw, given).0 && name !in raw ==> !IsDefault(name)
  {
    if given != [] {
      var n := |given| - 1;
      RegisteredUnlessRefused(raw, given[..n]);
      assert Refused(raw, given) <==> Refused(raw, given[..n]) || (given[n].0 !in raw && IsDefault(given[n].0)) by {
        if i :| 0 <= i < |given| && given[i].0 !in raw && IsDefault(given[i].0) {
          assert i < n ==> given[..n][i] == given[i];
        }
      }
      assert (set i | 0 <= i < |given| :: given[i].0) == (set i | 0 <= i < n :: given[..n][i].0) + {given[n].0} by {
        assert forall i :: 0 <= i < n ==> given[..n][i] == given[i];
      }
    }
  }

  // --- What options read as

  // The value of an option in the items of a section, if it is there.
  function LookupItem(items: seq<Item>, key: string): Option<Option<string>> {
    if items == [] then None
    else if items[0].Entry? && items[0].key == key then Some(items[0].value)
    else LookupItem(items[1..], key)
  }

  function ItemsOf(ss: seq<Section>, name: string): seq<Item> {
    if ss == [] then [] else if ss[0].name == name then ss[0].items else ItemsOf(ss[1..], name)
  }

  ghost predicate DistinctNames<T>(given: seq<(string, T)>) {
    forall i, j :: 0 <= i < j < |given| ==> given[i].0 != given[j].0
  }

  ghost predicate Mentions<T>(given: seq<(string, T)>, name: string) {
    exists i :: 0 <= i < |given| && given[i].0 == name
  }

  // What an option holds after being set.
  function NewValue(items: seq<Item>, key: string, value: Option<string>): Option<string> {
    if value == None && LookupItem(items, key) == None then Some("") else value
  }

  lemma {:induction false} SetOptionReads(items: seq<Item>, key: string, value: Option<string>, other: string)
    ensures LookupItem(SetOption(items, key, value), other)
         == if other == key then Some(NewValue(items, key, value)) else LookupItem(items, other)
  {
    if items != [] && !(items[0].Entry? && items[0].key == key) {
      SetOptionReads(items[1..], key, value, other);
      assert SetOption(items, key, value)[1..] == SetOption(items[1..], key, value);
    }
  }

  lemma {:induction false} UnmentionedOptionStays(items: seq<Item>, given: Options, key: string)
    requires !Mentions(given, key)
    ensures LookupItem(SetOptions(items, given), key) == LookupItem(items, key)
  {
    if given != [] {
      var n := |given| - 1;
      assert !Mentions(given[..n], key);
      UnmentionedOptionStays(items, given[..n], key);
      SetOptionReads(SetOptions(items, given[..n]), given[n].0, given[n].1, key);
    }
  }

  lemma {:induction false} GivenOptionReads(items: seq<Item>, given: Options, i: nat)
    requires DistinctNames(given) && i < |given|
    ensures LookupItem(SetOptions(items, given), given[i].0) == Some(NewValue(items, given[i].0, given[i].1))
    decreases |given|
  {
    var n := |given| - 1;
    var before := SetOptions(items, given[..n]);
    SetOptionReads(before, given[n].0, given[n].1, given[i].0);
    if i < n {
      GivenOptionReads(items, given[..n], i);
    } else {
      assert !Mentions(given[..n], given[n].0);
      UnmentionedOptionStays(items, given[..n], given[n].0);
    }
  }

  lemma {:induction false} SetSectionItems(ss: seq<Section>, name: string, given: Options, other: string)
    ensures ItemsOf(SetSection(ss, name, given), other)
         == if other == name then SetOptions(ItemsOf(ss, name), given) else ItemsOf(ss, other)
  {
    if ss != [] && ss[0].name != name {
      SetSectionItems(ss[1..], name, given, other);
      assert SetSection(ss, name, given)[1..] == SetSection(ss[1..], name, given);
    }
  }

  lemma {:induction false} UnmentionedSectionStays(ss: seq<Section>, given: seq<(string, Options)>, name: string)
    requires !Mentions(given, name)
    ensures ItemsOf(Update(ss, given), name) == ItemsOf(ss, name)
  {
    if given != [] {
      var n := |given| - 1;
      assert !Mentions(given[..n], name);
      UnmentionedSectionStays(ss, given[..n], name);
      SetSectionItems(Update(ss, given[..n]), given[n].0, given[n].1, name);
    }
  }

  lemma {:induction false} GivenSectionUpdated(ss: seq<Section>, given: seq<(string, Options)>, i: nat)
    requires DistinctNames(given) && i < |given|
    ensures ItemsOf(Update(ss, given), given[i].0) == SetOptions(ItemsOf(ss, given[i].0), given[i].1)
    decreases |given|
  {
    var n := |given| - 1;
    SetSectionItems(Update(ss, given[..n]), given[n].0, given[n].1, given[i].0);
    if i < n {
      GivenSectionUpdated(ss, given[..n], i);
    } else {
      assert !Mentions(given[..n], given[n].0);
      UnmentionedSectionStays(ss, given[..n], given[n].0);
    }
  }

  // --- Places are kept

  // Every old item keeps its place, its text or its key, and its value unless
  // it was given; new entries, all of them given, come last.
  ghost predicate ItemsKept(items: seq<Item>, items': seq<Item>, given: Options) {
    && |items| <= |items'|
    && (forall i :: 0 <= i < |items| ==>
          || items'[i] == items[i]
          || (items[i].Entry? && items'[i].Entry? && items'[i].key == items[i].key && Mentions(given, items[i].key)))
    && (forall i :: |items| <= i < |items'| ==> items'[i].Entry? && Mentions(given, items'[i].key))
  }

  lemma {:induction false} SetOptionKeeps(items: seq<Item>, key: string, value: Option<string>)
    ensures var items' := SetOption(items, key, value);
      && |items| <= |items'|
      && (forall i :: 0 <= i < |items| ==>
            items'[i] == items[i] || (items[i].Entry? && items'[i].Entry? && items'[i].key == items[i].key == key))
      && (forall i :: |items| <= i < |items'| ==> items'[i].Entry? && items'[i].key == key)
  {
    if items != [] && !(items[0].Entry? && items[0].key == key) {
      SetOptionKeeps(items[1..], key, value);
      assert SetOption(items, key, value)[1..] == SetOption(items[1..], key, value);
    }
  }

  lemma {:induction false} OptionsKeep(items: seq<Item>, given: Options)
    ensures ItemsKept(items, SetOptions(items, given), given)
  {
    if given != [] {
      var n := |given| - 1;
      OptionsKeep(items, given[..n]);
      SetOptionKeeps(SetOptions(items, given[..n]), given[n].0, given[n].1);
      assert forall k :: Mentions(given[..n], k) ==> Mentions(given, k);
      assert Mentions(given, given[n].0);
    }
  }

  // The item holds a given option, with the value it gets in the section.
  ghost predicate GivenItem(item: Item, items: seq<Item>, given: Options) {
    exists j :: 0 <= j < |given| && item == Entry(given[j].0, NewValue(items, given[j].0, given[j].1))
  }

  lemma {:induction false} SetOptionAt(items: seq<Item>, key: string, value: Option<string>, p: nat)
    requires p < |SetOption(items, key, value)|
    ensures var item := SetOption(items, key, value)[p];
            (p < |items| && item == items[p]) || item == Entry(key, NewValue(items, key, value))
  {
    if items != [] && !(items[0].Entry? && items[0].key == key) && p > 0 {
      SetOptionAt(items[1..], key, value, p - 1);
    }
  }

  // Whatever stands in the updated section stood there before or is given.
  lemma {:induction false} OptionsAt(items: seq<Item>, given: Options, p: nat)
    requires DistinctNames(given) && p < |SetOptions(items, given)|
    ensures var item := SetOptions(items, given)[p];
            (p < |items| && item == items[p]) || GivenItem(item, items, given)
    decreases |given|
  {
    if given != [] {
      var n := |given| - 1;
      var (key, value) := given[n];
      SetOptionAt(SetOptions(items, given[..n]), key, value, p);
      assert !Mentions(given[..n], key);
      UnmentionedOptionStays(items, given[..n], key);
      var item := SetOptions(items, given)[p];
      if item == Entry(key, NewValue(items, key, value)) {
        assert item == Entry(given[n].0, NewValue(items, given[n].0, given[n].1));
      } else {
        OptionsAt(items, given[..n], p);
        assert GivenItem(item, items, given[..n]) ==> GivenItem(item, items, given);
      }
    }
  }

  lemma {:induction false} LookupFinds(items: seq<Item>, key: string) returns (p: nat)
    requires LookupItem(items, key).Some?
    ensures p < |items| && items[p] == Entry(key, LookupItem(items, key).value)
  {
    if items[0].Entry? && items[0].key == key {
      p := 0;
    } else {
      var q := LookupFinds(items[1..], key);
      p := q + 1;
    }
  }

  lemma {:induction false} SetOptionCount(items: seq<Item>, key: string, value: Option<string>)
    ensures |SetOption(items, key, value)| == |items| + if LookupItem(items, key).Some? then 0 else 1
  {
    if items != [] {
      SetOptionCount(items[1..], key, value);
    }
  }

  lemma {:induction false} OptionsLookup(items: seq<Item>, given: Options, key: string)
    ensures LookupItem(SetOptions(items, given), key).Some? <==> LookupItem(items, key).Some? || Mentions(given, key)
  {
    if given != [] {
      var n := |given| - 1;
      OptionsLookup(items, given[..n], key);
      SetOptionReads(SetOptions(items, given[..n]), given[n].0, given[n].1, key);
      assert given[n].0 == key ==> Mentions(given, key);
      assert Mentions(given[..n], key) ==> Mentions(given, key);
    }
  }

  // Nothing is appended exactly when every given option is there.
  lemma {:induction false} OptionsCount(items: seq<Item>, given: Options)
    ensures |SetOptions(items, given)| >= |items|
    ensures |SetOptions(items, given)| == |items| <==>
              forall j :: 0 <= j < |given| ==> LookupItem(items, given[j].0).Some?
  {
    if given != [] {
      var n := |given| - 1;
      OptionsCount(items, given[..n]);
      SetOptionCount(SetOptions(items, given[..n]), given[n].0, given[n].1);
      OptionsLookup(items, given[..n], given[n].0);
    }
  }

  // --- The same for sections

  predicate HasSection(ss: seq<Section>, name: string) {
    ss != [] && (ss[0].name == name || HasSection(ss[1..], name))
  }

  // Section i is the first with its name, the one that given options go to.
  predicate IsFirst(ss: seq<Section>, i: nat)
    requires i < |ss|
  {
    !HasSection(ss[..i], ss[i].name)
  }

  lemma {:induction false} FirstNamed(ss: seq<Section>, name: string) returns (i: nat)
    requires HasSection(ss, name)
    ensures i < |ss| && ss[i].name == name && IsFirst(ss, i)
  {
    if ss[0].name == name {
      i := 0;
    } else {
      var j := FirstNamed(ss[1..], name);
      i := j + 1;
      assert ss[..i][1..] == ss[1..][..j];
    }
  }

  lemma {:induction false} ItemsOfFirst(ss: seq<Section>, i: nat)
    requires i < |ss| && IsFirst(ss, i)
    ensures ItemsOf(ss, ss[i].name) == ss[i].items && HasSection(ss, ss[i].name)
  {
    if i > 0 {
      assert ss[..i][1..] == ss[1..][..i - 1];
      ItemsOfFirst(ss[1..], i - 1);
    }
  }

  lemma {:induction false} ItemsOfNone(ss: seq<Section>, name: string)
    requires !HasSection(ss, name)
    ensures ItemsOf(ss, name) == []
  {
    if ss != [] {
      ItemsOfNone(ss[1..], name);
    }
  }

  lemma {:induction false} SameNames(a: seq<Section>, b: seq<Section>, name: string)
    requires |a| == |b| && forall i :: 0 <= i < |a| ==> a[i].name == b[i].name
    ensures HasSection(a, name) <==> HasSection(b, name)
  {
    if a != [] {
      SameNames(a[1..], b[1..], name);
    }
  }

  lemma {:induction false} SetSectionEnd(ss: seq<Section>, name: string, given: Options)
    ensures |SetSection(ss, name, given)| == |ss| + if HasSection(ss, name) then 0 else 1
    ensures !HasSection(ss, name) ==> SetSection(ss, name, given)[|ss|] == Section(name, SetOptions([], given))
  {
    if ss != [] && ss[0].name != name {
      SetSectionEnd(ss[1..], name, given);
    }
  }

  lemma {:induction false} SetSectionAt(ss: seq<Section>, name: string, given: Options, i: nat)
    requires i < |ss|
    ensures |SetSection(ss, name, given)| == |ss| + if HasSection(ss, name) then 0 else 1
    ensures SetSection(ss, name, given)[i]
         == if ss[i].name == name && IsFirst(ss, i) then Section(name, SetOptions(ss[i].items, given)) else ss[i]
  {
    if ss[0].name != name {
      if i > 0 {
        SetSectionAt(ss[1..], name, given, i - 1);
        assert ss[..i][1..] == ss[1..][..i - 1];
      } else {
        SetSectionEnd(ss, name, given);
      }
    }
  }

  lemma {:induction false} SetSectionHas(ss: seq<Section>, name: string, given: Options, other: string)
    ensures HasSection(SetSection(ss, name, given), other) <==> HasSection(ss, other) || other == name
  {
    if ss != [] && ss[0].name != name {
      SetSectionHas(ss[1..], name, given, other);
      assert SetSection(ss, name, given)[1..] == SetSection(ss[1..], name, given);
    } else if ss == [] {
      assert SetSection(ss, name, given)[1..] == [];
    } else {
      assert SetSection(ss, name, given)[1..] == ss[1..];
    }
  }

  lemma {:induction false} UpdateHas(ss: seq<Section>, given: seq<(string, Options)>, name: string)
    ensures HasSection(Update(ss, given), name) <==> HasSection(ss, name) || Mentions(given, name)
  {
    if given != [] {
      var n := |given| - 1;
      UpdateHas(ss, given[..n], name);
      SetSectionHas(Update(ss, given[..n]), given[n].0, given[n].1, name);
      assert given[n].0 == name ==> Mentions(given, name);
      assert Mentions(given[..n], name) ==> Mentions(given, name);
    }
  }

  // No section is appended exactly when every given one is there.
  lemma {:induction false} UpdateCount(ss: seq<Section>, given: seq<(string, Options)>)
    ensures |Update(ss, given)| >= |ss|
    ensures |Update(ss, given)| == |ss| <==> forall i :: 0 <= i < |given| ==> HasSection(ss, given[i].0)
  {
    if given != [] {
      var n := |given| - 1;
      UpdateCount(ss, given[..n]);
      SetSectionEnd(Update(ss, given[..n]), given[n].0, given[n].1);
      UpdateHas(ss, given[..n], given[n].0);
    }
  }

  lemma {:induction false} UpdateNames(ss: seq<Section>, given: seq<(string, Options)>, i: nat)
    requires i < |ss|
    ensures i < |Update(ss, given)| && Update(ss, given)[i].name == ss[i].name
  {
    if given != [] {
      var n := |given| - 1;
      UpdateNames(ss, given[..n], i);
      SetSectionAt(Update(ss, given[..n]), given[n].0, given[n].1, i);
    }
  }

  lemma UpdateFirst(ss: seq<Section>, given: seq<(string, Options)>, i: nat)
    requires i < |ss|
    ensures i < |Update(ss, given)| && Update(ss, given)[i].name == ss[i].name
    ensures IsFirst(Update(ss, given), i) <==> IsFirst(ss, i)
  {
    forall k | 0 <= k <= i
      ensures k < |Update(ss, given)| && Update(ss, given)[k].name == ss[k].name
    {
      UpdateNames(ss, given, k);
    }
    UpdateNames(ss, given, i);
    SameNames(Update(ss, given)[..i], ss[..i], ss[i].name);
  }

  // A section is left as it was, unless it is given and the first of its name.
  lemma {:induction false} UpdateLeaves(ss: seq<Section>, given: seq<(string, Options)>, i: nat)
    requires i < |ss| && (!IsFirst(ss, i) || !Mentions(given, ss[i].name))
    ensures i < |Update(ss, given)| && Update(ss, given)[i] == ss[i]
  {
    if given != [] {
      var n := |given| - 1;
      assert Mentions(given[..n], ss[i].name) ==> Mentions(given, ss[i].name);
      UpdateLeaves(ss, given[..n], i);
      UpdateFirst(ss, given[..n], i);
      SetSectionAt(Update(ss, given[..n]), given[n].0, given[n].1, i);
      assert given[n].0 == ss[i].name ==> Mentions(given, ss[i].name);
    }
  }

  lemma UpdateSets(ss: seq<Section>, given: seq<(string, Options)>, i: nat, j: nat)
    requires DistinctNames(given) && i < |ss| && IsFirst(ss, i) && j < |given| && given[j].0 == ss[i].name
    ensures i < |Update(ss, given)| && Update(ss, given)[i] == Section(ss[i].name, SetOptions(ss[i].items, given[j].1))
  {
    UpdateFirst(ss, given, i);
    ItemsOfFirst(ss, i);
    ItemsOfFirst(Update(ss, given), i);
    GivenSectionUpdated(ss, given, j);
  }

  // An appended section holds the options of a given one.
  lemma {:induction false} UpdateAppends(ss: seq<Section>, given: seq<(string, Options)>, i: nat) returns (j: nat)
    requires DistinctNames(given) && |ss| <= i < |Update(ss, given)|
    ensures j < |given| && !HasSection(ss, given[j].0)
    ensures Update(ss, given)[i] == Section(given[j].0, SetOptions([], given[j].1))
    decreases |given|
  {
    var n := |given| - 1;
    var before := Update(ss, given[..n]);
    SetSectionEnd(before, given[n].0, given[n].1);
    UpdateHas(ss, given[..n], given[n].0);
    if i < |before| {
      j := UpdateAppends(ss, given[..n], i);
      SetSectionAt(before, given[n].0, given[n].1, i);
    } else {
      j := n;
    }
  }

  // The section has been given the options of one of the sections given.
  ghost predicate Touched(s: Section, s': Section, given: seq<(string, Options)>) {
    exists j :: 0 <= j < |given| && given[j].0 == s.name == s'.name && s'.items == SetOptions(s.items, given[j].1)
  }

  // Sections keep their places; only a given one that is the first of its name
  // is touched, and new ones, all of them given, come last.
  ghost predicate SectionsKept(ss: seq<Section>, ss': seq<Section>, given: seq<(string, Options)>) {
    && |ss| <= |ss'|
    && (forall i :: 0 <= i < |ss| ==> ss'[i] == ss[i] || (IsFirst(ss, i) && Touched(ss[i], ss'[i], given)))
    && (forall i :: |ss| <= i < |ss'| ==>
          !HasSection(ss, ss'[i].name) && Touched(Section(ss'[i].name, []), ss'[i], given))
  }

  lemma UpdateKeeps(ss: seq<Section>, given: seq<(string, Options)>)
    requires DistinctNames(given)
    ensures SectionsKept(ss, Update(ss, given), given)
  {
    var ss' := Update(ss, given);
    UpdateCount(ss, given);
    forall i | 0 <= i < |ss|
      ensures ss'[i] == ss[i] || (IsFirst(ss, i) && Touched(ss[i], ss'[i], given))
    {
      if IsFirst(ss, i) && Mentions(given, ss[i].name) {
        var j :| 0 <= j < |given| && given[j].0 == ss[i].name;
        UpdateSets(ss, given, i, j);
      } else {
        UpdateLeaves(ss, given, i);
      }
    }
    forall i | |ss| <= i < |ss'|
      ensures !HasSection(ss, ss'[i].name) && Touched(Section(ss'[i].name, []), ss'[i], given)
    {
      var j := UpdateAppends(ss, given, i);
      assert given[j].0 == ss'[i].name;
    }
  }

  // --- What is good after an update

  // A dictionary of dictionaries.
  ghost predicate DictLike(given: seq<(string, Options)>) {
    DistinctNames(given) && forall i :: 0 <= i < |given| ==> DistinctNames(given[i].1)
  }

  function Updated(c: Config, given: seq<(string, Options)>): Config {
    c.(sections := Update(c.sections, given))
  }

  // The text written for the j-th option given for the i-th section.
  function NewText(c: Config, given: seq<(string, Options)>, i: nat, j: nat): string
    requires i < |given| && j < |given[i].1|
  {
    Shown(NewValue(ItemsOf(c.sections, given[i].0), given[i].1[j].0, given[i].1[j].1))
  }

  // The option reads back, and if exact with its very value.
  ghost predicate GoodGivenOption(c: Config, given: seq<(string, Options)>, i: nat, j: nat, exact: bool)
    requires i < |given| && j < |given[i].1|
  {
    GoodOption(given[i].1[j].0, NewText(c, given, i, j)) && (exact ==> Trimmed(NewText(c, given, i, j)))
  }

  ghost predicate GoodGivenSection(c: Config, given: seq<(string, Options)>, i: nat, exact: bool)
    requires i < |given|
  {
    GoodName(given[i].0) && forall j :: 0 <= j < |given[i].1| ==> GoodGivenOption(c, given, i, j, exact)
  }

  ghost predicate GoodGiven(c: Config, given: seq<(string, Options)>, exact: bool) {
    forall i :: 0 <= i < |given| ==> GoodGivenSection(c, given, i, exact)
  }

  ghost predicate NoBlank(c: Config) {
    forall i :: 0 <= i < |c.sections| ==> c.sections[i].name != ""
  }

  lemma ItemsStayGood(items: seq<Item>, given: Options, exact: bool)
    requires GoodItems(items, exact) && DistinctNames(given)
    requires forall j :: 0 <= j < |given| ==>
               GoodItem(Entry(given[j].0, NewValue(items, given[j].0, given[j].1)), exact)
    ensures GoodItems(SetOptions(items, given), exact)
  {
    forall p | 0 <= p < |SetOptions(items, given)|
      ensures GoodItem(SetOptions(items, given)[p], exact)
    {
      OptionsAt(items, given, p);
    }
  }

  lemma ParsedItemsGood(c: Config, i: nat, exact: bool)
    requires Parsed(c) && i < |c.sections|
    ensures GoodItems(c.sections[i].items, exact)
  {
    assert ParsedSection(c.sections[i]);
    forall p | 0 <= p < |c.sections[i].items|
      ensures GoodItem(c.sections[i].items[p], exact)
    {
      assert GoodItem(c.sections[i].items[p], true);
    }
  }

  lemma GivenItemsGood(c: Config, given: seq<(string, Options)>, i: nat, exact: bool)
    requires i < |given| && GoodGivenSection(c, given, i, exact)
    ensures var items := ItemsOf(c.sections, given[i].0);
      forall j :: 0 <= j < |given[i].1| ==>
        GoodItem(Entry(given[i].1[j].0, NewValue(items, given[i].1[j].0, given[i].1[j].1)), exact)
  {
    forall j | 0 <= j < |given[i].1|
      ensures var items := ItemsOf(c.sections, given[i].0);
              GoodItem(Entry(given[i].1[j].0, NewValue(items, given[i].1[j].0, given[i].1[j].1)), exact)
    {
      assert GoodGivenOption(c, given, i, j, exact);
    }
  }

  lemma OldSectionStaysGood(c: Config, given: seq<(string, Options)>, i: nat, exact: bool)
    requires Parsed(c) && NoBlank(c) && DictLike(given) && GoodGiven(c, given, exact) && i < |c.sections|
    ensures i < |Updated(c, given).sections| && GoodSection(Updated(c, given).sections[i], exact)
  {
    var s := c.sections[i];
    assert ParsedSection(s) && s.name != "";
    ParsedItemsGood(c, i, exact);
    if IsFirst(c.sections, i) && Mentions(given, s.name) {
      var j :| 0 <= j < |given| && given[j].0 == s.name;
      UpdateSets(c.sections, given, i, j);
      ItemsOfFirst(c.sections, i);
      assert GoodGivenSection(c, given, j, exact);
      GivenItemsGood(c, given, j, exact);
      ItemsStayGood(s.items, given[j].1, exact);
    } else {
      UpdateLeaves(c.sections, given, i);
    }
  }

  lemma NewSectionIsGood(c: Config, given: seq<(string, Options)>, i: nat, exact: bool)
    requires DictLike(given) && GoodGiven(c, given, exact) && |c.sections| <= i < |Updated(c, given).sections|
    ensures GoodSection(Updated(c, given).sections[i], exact)
  {
    var j := UpdateAppends(c.sections, given, i);
    assert GoodGivenSection(c, given, j, exact);
    ItemsOfNone(c.sections, given[j].0);
    GivenItemsGood(c, given, j, exact);
    ItemsStayGood([], given[j].1, exact);
  }

  // Every given option stands in the first section of its name.
  lemma GivenStands(c: Config, given: seq<(string, Options)>, i: nat) returns (k: nat)
    requires DictLike(given) && i < |given|
    ensures k < |Updated(c, given).sections| && Updated(c, given).sections[k].name == given[i].0
    ensures Updated(c, given).sections[k].items == SetOptions(ItemsOf(c.sections, given[i].0), given[i].1)
  {
    UpdateHas(c.sections, given, given[i].0);
    k := FirstNamed(Updated(c, given).sections, given[i].0);
    ItemsOfFirst(Updated(c, given).sections, k);
    GivenSectionUpdated(c.sections, given, i);
  }

  lemma GivenIsGood(c: Config, given: seq<(string, Options)>, i: nat, exact: bool)
    requires DictLike(given) && i < |given| && GoodConfig(Updated(c, given), exact)
    ensures GoodGivenSection(c, given, i, exact)
  {
    var k := GivenStands(c, given, i);
    var s := Updated(c, given).sections[k];
    assert GoodSection(s, exact);
    forall j | 0 <= j < |given[i].1|
      ensures GoodGivenOption(c, given, i, j, exact)
    {
      GivenOptionReads(ItemsOf(c.sections, given[i].0), given[i].1, j);
      var p := LookupFinds(s.items, given[i].1[j].0);
      assert GoodItem(s.items[p], exact);
    }
  }

  // The updated configuration is good exactly when the file has no blank
  // header and what is given is good.
  lemma UpdatedIsGood(c: Config, given: seq<(string, Options)>, exact: bool)
    requires Parsed(c) && DictLike(given)
    ensures GoodConfig(Updated(c, given), exact) <==> NoBlank(c) && GoodGiven(c, given, exact)
  {
    if NoBlank(c) && GoodGiven(c, given, exact) {
      forall i | 0 <= i < |Updated(c, given).sections|
        ensures GoodSection(Updated(c, given).sections[i], exact)
      {
        if i < |c.sections| {
          OldSectionStaysGood(c, given, i, exact);
        } else {
          NewSectionIsGood(c, given, i, exact);
        }
      }
    }
    if GoodConfig(Updated(c, given), exact) {
      forall i | 0 <= i < |c.sections|
        ensures c.sections[i].name != ""
      {
        UpdateNames(c.sections, given, i);
        assert GoodSection(Updated(c, given).sections[i], exact);
      }
      forall i | 0 <= i < |given|
        ensures GoodGivenSection(c, given, i, exact)
      {
        GivenIsGood(c, given, i, exact);
      }
    }
  }

  // --- The end of the file

  ghost predicate AllThere(items: seq<Item>, given: Options) {
    forall j :: 0 <= j < |given| ==> LookupItem(items, given[j].0).Some?
  }

  // No section and no option is appended after the end of the file.
  ghost predicate NothingAppended(c: Config, given: seq<(string, Options)>) {
    && (forall i :: 0 <= i < |given| ==> HasSection(c.sections, given[i].0))
    && (c.sections != [] ==>
          var n := |c.sections| - 1;
          IsFirst(c.sections, n) ==>
            forall i :: 0 <= i < |given| && given[i].0 == c.sections[n].name ==>
              AllThere(c.sections[n].items, given[i].1))
  }

  // The file ends with a newline or with no comment, or nothing comes after
  // its end.
  ghost predicate SafeEnd(text: string, given: seq<(string, Options)>)
    requires Parse(text).Some?
  {
    !OpenEnd(text) || NothingAppended(Parse(text).value, given)
  }

  ghost predicate ClosedItems(items: seq<Item>) {
    forall i :: 0 <= i < |items| ==> IsLine(PrintItem(items[i]))
  }

  ghost predicate ClosedSections(ss: seq<Section>) {
    forall i :: 0 <= i < |ss| ==> IsLine(PrintHeader(ss[i].name)) && ClosedItems(ss[i].items)
  }

  lemma LinesSnoc(lines: seq<string>, line: string)
    ensures AllLines(lines + [line]) <==> AllLines(lines) && IsLine(line)
  {
    assert (lines + [line])[|lines|] == line;
    assert forall i :: 0 <= i < |lines| ==> (lines + [line])[i] == lines[i];
  }

  lemma ClosedSnoc(items: seq<Item>, item: Item)
    ensures ClosedItems(items + [item]) <==> ClosedItems(items) && IsLine(PrintItem(item))
  {
    assert (items + [item])[|items|] == item;
    assert forall i :: 0 <= i < |items| ==> (items + [item])[i] == items[i];
  }

  lemma {:induction false} ItemLinesClosed(items: seq<Item>)
    ensures AllLines(ItemLines(items)) <==> ClosedItems(items)
    ensures |ItemLines(items)| == |items|
  {
    if items != [] {
      var n := |items| - 1;
      ItemLinesClosed(items[..n]);
      LinesSnoc(ItemLines(items[..n]), PrintItem(items[n]));
      ClosedSnoc(items[..n], items[n]);
      assert items[..n] + [items[n]] == items;
    }
  }

  lemma LinesConcat(a: seq<string>, b: seq<string>)
    ensures AllLines(a + b) <==> AllLines(a) && AllLines(b)
  {
    assert forall i :: 0 <= i < |a| ==> (a + b)[i] == a[i];
    assert forall i :: 0 <= i < |b| ==> (a + b)[|a| + i] == b[i];
  }

  lemma SectionLinesClosed(s: Section)
    ensures AllLines(SectionLines(s)) <==> IsLine(PrintHeader(s.name)) && ClosedItems(s.items)
  {
    ItemLinesClosed(s.items);
    LinesConcat([PrintHeader(s.name)], ItemLines(s.items));
    assert [PrintHeader(s.name)][0] == PrintHeader(s.name);
  }

  lemma {:induction false} AllSectionLinesClosed(ss: seq<Section>)
    ensures AllLines(AllSectionLines(ss)) <==> ClosedSections(ss)
    ensures |AllSectionLines(ss)| >= |ss|
  {
    if ss != [] {
      var n := |ss| - 1;
      AllSectionLinesClosed(ss[..n]);
      SectionLinesClosed(ss[n]);
      LinesConcat(AllSectionLines(ss[..n]), SectionLines(ss[n]));
      assert ClosedSections(ss) <==> ClosedSections(ss[..n]) && ClosedSections([ss[n]]);
      assert [ss[n]][0] == ss[n];
    }
  }

  // A good item is closed unless it is a comment without its newline.
  lemma GoodItemClosed(item: Item)
    requires GoodItem(item, false)
    ensures item.Entry? ==> IsLine(PrintItem(item))
  {
    if item.Entry? {
      OptionReads(item.key, Shown(item.value));
    }
  }

  // What is not an old comment is closed.
  lemma KeptItemsClosed(items: seq<Item>, items': seq<Item>, given: Options, m: nat)
    requires ItemsKept(items, items', given) && m <= |items| && ClosedItems(items[..m]) && GoodItems(items', false)
    ensures ClosedItems(items'[..m]) && ClosedItems(items'[|items|..])
  {
    forall p | 0 <= p < |items'| && (p < m || |items| <= p)
      ensures IsLine(PrintItem(items'[p]))
    {
      GoodItemClosed(items'[p]);
      if p < m && items'[p].Comment? {
        assert items'[p] == items[p] == items[..m][p];
      }
    }
  }

  lemma TouchedItemsKept(s: Section, s': Section, given: seq<(string, Options)>)
    requires s' == s || Touched(s, s', given)
    ensures exists options :: ItemsKept(s.items, s'.items, options)
  {
    if s' == s {
      assert ItemsKept(s.items, s'.items, []);
    } else {
      var j :| 0 <= j < |given| && given[j].0 == s.name == s'.name && s'.items == SetOptions(s.items, given[j].1);
      OptionsKeep(s.items, given[j].1);
    }
  }

  lemma ClosedParts(items: seq<Item>, m: nat)
    requires m <= |items| && ClosedItems(items[..m]) && ClosedItems(items[m..])
    ensures ClosedItems(items)
  {
    forall p | 0 <= p < |items|
      ensures IsLine(PrintItem(items[p]))
    {
      assert items[p] == if p < m then items[..m][p] else items[m..][p - m];
    }
  }

  // Closed sections stay closed, and appended ones are.
  lemma KeptSectionsClosed(ss: seq<Section>, ss': seq<Section>, given: seq<(string, Options)>, m: nat)
    requires SectionsKept(ss, ss', given) && m <= |ss| && ClosedSections(ss[..m])
    requires forall i :: 0 <= i < |ss'| ==> GoodSection(ss'[i], false)
    ensures ClosedSections(ss'[..m]) && ClosedSections(ss'[|ss|..])
  {
    forall i | 0 <= i < |ss'| && (i < m || |ss| <= i)
      ensures IsLine(PrintHeader(ss'[i].name)) && ClosedItems(ss'[i].items)
    {
      assert GoodSection(ss'[i], false);
      HeaderReads(ss'[i].name);
      var s := if i < m then ss[i] else Section(ss'[i].name, []);
      assert ClosedItems(s.items) by {
        assert i < m ==> ss[..m][i] == s;
      }
      TouchedItemsKept(s, ss'[i], given);
      var options :| ItemsKept(s.items, ss'[i].items, options);
      assert s.items[..|s.items|] == s.items;
      KeptItemsClosed(s.items, ss'[i].items, options, |s.items|);
      ClosedParts(ss'[i].items, |s.items|);
    }
  }

  // The lines up to the m-th item of section k, and those after it.
  function LinesBefore(head: seq<string>, ss: seq<Section>, k: nat, m: nat): seq<string>
    requires k < |ss| && m <= |ss[k].items|
  {
    head + AllSectionLines(ss[..k]) + ([PrintHeader(ss[k].name)] + ItemLines(ss[k].items[..m]))
  }

  function LinesAfter(ss: seq<Section>, k: nat, m: nat): seq<string>
    requires k < |ss| && m <= |ss[k].items|
  {
    ItemLines(ss[k].items[m..]) + AllSectionLines(ss[k + 1..])
  }

  lemma ItemLinesOneMore(a: seq<Item>, b: seq<Item>, item: Item)
    requires ItemLines(a + b) == ItemLines(a) + ItemLines(b)
    ensures ItemLines(a + (b + [item])) == ItemLines(a) + ItemLines(b + [item])
  {
    assert (a + (b + [item]))[..|a + b|] == a + b;
    assert (b + [item])[..|b|] == b;
    ConcatAssociative(ItemLines(a), ItemLines(b), [PrintItem(item)]);
  }

  lemma {:induction false} ItemLinesConcat(a: seq<Item>, b: seq<Item>)
    ensures ItemLines(a + b) == ItemLines(a) + ItemLines(b)
  {
    if b == [] {
      assert a + b == a;
    } else {
      var front, last := b[..|b| - 1], b[|b| - 1];
      ItemLinesConcat(a, front);
      ItemLinesOneMore(a, front, last);
      assert b == front + [last];
    }
  }

  lemma SectionLinesOneMore(a: seq<Section>, b: seq<Section>, s: Section)
    requires AllSectionLines(a + b) == AllSectionLines(a) + AllSectionLines(b)
    ensures AllSectionLines(a + (b + [s])) == AllSectionLines(a) + AllSectionLines(b + [s])
  {
    assert (a + (b + [s]))[..|a + b|] == a + b;
    assert (b + [s])[..|b|] == b;
    ConcatAssociative(AllSectionLines(a), AllSectionLines(b), SectionLines(s));
  }

  lemma {:induction false} SectionLinesConcat(a: seq<Section>, b: seq<Section>)
    ensures AllSectionLines(a + b) == AllSectionLines(a) + AllSectionLines(b)
  {
    if b == [] {
      assert a + b == a;
    } else {
      var front, last := b[..|b| - 1], b[|b| - 1];
      SectionLinesConcat(a, front);
      SectionLinesOneMore(a, front, last);
      assert b == front + [last];
    }
  }

  lemma OneSection(s: Section)
    ensures AllSectionLines([s]) == SectionLines(s)
  {
    assert [s][..0] == [];
  }

  lemma Regroup<T>(a: seq<T>, b: seq<T>, c: seq<T>, d: seq<T>, e: seq<T>, f: seq<T>)
    ensures a + (b + (c + (d + e) + f)) == a + b + (c + d) + (e + f)
  {
  }

  lemma LinesSplit(head: seq<string>, ss: seq<Section>, k: nat, m: nat)
    requires k < |ss| && m <= |ss[k].items|
    ensures PrintLines(Config(head, ss)) == LinesBefore(head, ss, k, m) + LinesAfter(ss, k, m)
  {
    var s := ss[k];
    var header, front, rest := [PrintHeader(s.name)], ItemLines(s.items[..m]), ItemLines(s.items[m..]);
    var earlier, later := AllSectionLines(ss[..k]), AllSectionLines(ss[k + 1..]);
    assert s.items[..m] + s.items[m..] == s.items;
    ItemLinesConcat(s.items[..m], s.items[m..]);
    assert ss[..k] + ([s] + ss[k + 1..]) == ss;
    SectionLinesConcat(ss[..k], [s] + ss[k + 1..]);
    SectionLinesConcat([s], ss[k + 1..]);
    OneSection(s);
    Regroup(head, earlier, header, front, rest, later);
  }

  lemma LinesBeforeSnoc(head: seq<string>, ss: seq<Section>, k: nat, m: nat)
    requires k < |ss| && m < |ss[k].items|
    ensures LinesBefore(head, ss, k, m + 1) == LinesBefore(head, ss, k, m) + [PrintItem(ss[k].items[m])]
  {
    var items := ss[k].items;
    assert items[..m + 1][..m] == items[..m];
    var header, line := [PrintHeader(ss[k].name)], [PrintItem(items[m])];
    ConcatAssociative(header, ItemLines(items[..m]), line);
    ConcatAssociative(head + AllSectionLines(ss[..k]), header + ItemLines(items[..m]), line);
  }

  lemma LinesBeforeClosed(head: seq<string>, ss: seq<Section>, k: nat, m: nat)
    requires k < |ss| && m <= |ss[k].items|
    ensures AllLines(LinesBefore(head, ss, k, m)) <==>
      AllLines(head) && ClosedSections(ss[..k]) && IsLine(PrintHeader(ss[k].name)) && ClosedItems(ss[k].items[..m])
  {
    var s := Section(ss[k].name, ss[k].items[..m]);
    SectionLinesClosed(s);
    AllSectionLinesClosed(ss[..k]);
    LinesConcat(head, AllSectionLines(ss[..k]));
    LinesConcat(head + AllSectionLines(ss[..k]), SectionLines(s));
  }

  lemma LinesAfterClosed(ss: seq<Section>, k: nat, m: nat)
    requires k < |ss| && m <= |ss[k].items|
    ensures AllLines(LinesAfter(ss, k, m)) <==> ClosedItems(ss[k].items[m..]) && ClosedSections(ss[k + 1..])
    ensures LinesAfter(ss, k, m) == [] <==> |ss[k].items| == m && |ss| == k + 1
  {
    ItemLinesClosed(ss[k].items[m..]);
    AllSectionLinesClosed(ss[k + 1..]);
    LinesConcat(ItemLines(ss[k].items[m..]), AllSectionLines(ss[k + 1..]));
  }

  // A line without its newline must be the last.
  lemma OpenInTheMiddle(a: seq<string>, line: string, b: seq<string>)
    requires AllLines(a) && IsPiece(line) && !IsLine(line) && AllLines(b)
    ensures WellSplit(a + [line] + b) <==> b == []
  {
    if b == [] {
      OpenLinesWellSplit(a, line);
      assert a + [line] + b == a + [line];
    } else {
      var lines := a + [line] + b;
      assert lines[|a|] == line && |a| < |lines| - 1;
      if WellSplit(lines) {
        WellSplitPieces(lines);
      }
    }
  }

  ghost predicate OpenComment(item: Item) {
    item.Comment? && IsPiece(item.text) && !IsLine(item.text)
  }

  lemma ParsedHeaderIsLine(s: Section)
    requires ParsedSection(s)
    ensures IsLine(PrintHeader(s.name))
  {
    if s.name == "" {
      assert PrintHeader("") == "[]\n";
    } else {
      HeaderReads(s.name);
    }
  }

  lemma HeaderNotOpen(front: seq<string>, header: string, none: seq<string>)
    requires IsLine(header)
    ensures none == [] ==> !OpenLines(front + ([header] + none))
  {
    assert (front + ([header] + none))[|front|] == header;
  }

  lemma FrontOfOpen(front: seq<string>, last: string)
    requires OpenLines(front + [last])
    ensures AllLines(front) && IsPiece(last) && !IsLine(last)
  {
    forall i | 0 <= i < |front|
      ensures IsLine(front[i])
    {
      assert (front + [last])[i] == front[i];
    }
  }

  // The open end is a comment, the last item of the last section.
  lemma OpenItem(c: Config)
    requires Parsed(c) && c.sections != [] && OpenLines(PrintLines(c))
    ensures var k := |c.sections| - 1;
      && c.sections[k].items != []
      && OpenComment(c.sections[k].items[|c.sections[k].items| - 1])
      && AllLines(LinesBefore(c.head, c.sections, k, |c.sections[k].items| - 1))
  {
    var k := |c.sections| - 1;
    var s := c.sections[k];
    var n := |s.items|;
    assert ParsedSection(s);
    LinesSplit(c.head, c.sections, k, n);
    LinesAfterClosed(c.sections, k, n);
    assert PrintLines(c) == LinesBefore(c.head, c.sections, k, n);
    ParsedHeaderIsLine(s);
    HeaderNotOpen(c.head + AllSectionLines(c.sections[..k]), PrintHeader(s.name), ItemLines(s.items[..n]));
    ItemLinesClosed(s.items[..n]);
    if n > 0 {
      LinesBeforeSnoc(c.head, c.sections, k, n - 1);
      FrontOfOpen(LinesBefore(c.head, c.sections, k, n - 1), PrintItem(s.items[n - 1]));
      assert GoodItem(s.items[n - 1], true);
      GoodItemClosed(s.items[n - 1]);
    }
  }

  lemma OpenItemStays(c: Config, ss': seq<Section>, given: seq<(string, Options)>, k: nat, m: nat)
    requires k == |c.sections| - 1 && m == |c.sections[k].items| - 1
    requires OpenComment(c.sections[k].items[m]) && AllLines(LinesBefore(c.head, c.sections, k, m))
    requires SectionsKept(c.sections, ss', given) && forall i :: 0 <= i < |ss'| ==> GoodSection(ss'[i], false)
    ensures m < |ss'[k].items| && ss'[k].items[m] == c.sections[k].items[m]
    ensures AllLines(LinesBefore(c.head, ss', k, m)) && AllLines(LinesAfter(ss', k, m + 1))
  {
    var items, items' := c.sections[k].items, ss'[k].items;
    TouchedItemsKept(c.sections[k], ss'[k], given);
    var options :| ItemsKept(items, items', options);
    assert items'[m] == items[m];
    assert GoodSection(ss'[k], false);
    LinesBeforeClosed(c.head, c.sections, k, m);
    KeptItemsClosed(items, items', options, m);
    KeptSectionsClosed(c.sections, ss', given, k);
    HeaderReads(ss'[k].name);
    LinesBeforeClosed(c.head, ss', k, m);
    LinesAfterClosed(ss', k, m + 1);
  }

  // With an open end the updated lines are whole exactly when nothing follows.
  lemma OpenEndUpdated(c: Config, ss': seq<Section>, given: seq<(string, Options)>)
    requires Parsed(c) && c.sections != [] && OpenLines(PrintLines(c))
    requires SectionsKept(c.sections, ss', given) && forall i :: 0 <= i < |ss'| ==> GoodSection(ss'[i], false)
    ensures var k := |c.sections| - 1;
            WellSplit(PrintLines(Config(c.head, ss'))) <==> |ss'| == k + 1 && |ss'[k].items| == |c.sections[k].items|
  {
    var k := |c.sections| - 1;
    var m := |c.sections[k].items| - 1;
    OpenItem(c);
    OpenItemStays(c, ss', given, k, m);
    LinesAfterClosed(ss', k, m + 1);
    LinesBeforeSnoc(c.head, ss', k, m);
    LinesSplit(c.head, ss', k, m + 1);
    OpenInTheMiddle(LinesBefore(c.head, ss', k, m), ss'[k].items[m].text, LinesAfter(ss', k, m + 1));
  }

  lemma LastSectionGrows(c: Config, given: seq<(string, Options)>)
    requires DistinctNames(given) && c.sections != []
    ensures var k, ss' := |c.sections| - 1, Update(c.sections, given);
            |ss'| >= k + 1 && (|ss'| == k + 1 && |ss'[k].items| == |c.sections[k].items| <==> NothingAppended(c, given))
  {
    var k := |c.sections| - 1;
    var s := c.sections[k];
    UpdateCount(c.sections, given);
    if IsFirst(c.sections, k) && Mentions(given, s.name) {
      var j :| 0 <= j < |given| && given[j].0 == s.name;
      UpdateSets(c.sections, given, k, j);
      OptionsCount(s.items, given[j].1);
      assert AllThere(s.items, given[j].1) <==> |SetOptions(s.items, given[j].1)| == |s.items|;
      forall i | 0 <= i < |given| && given[i].0 == s.name
        ensures i == j
      {
      }
    } else {
      UpdateLeaves(c.sections, given, k);
      if i :| 0 <= i < |given| && given[i].0 == s.name {
        assert Mentions(given, s.name);
      }
    }
  }

  lemma ClosedSectionParts(ss: seq<Section>, n: nat)
    requires n <= |ss| && ClosedSections(ss[..n]) && ClosedSections(ss[n..])
    ensures ClosedSections(ss)
  {
    forall i | 0 <= i < |ss|
      ensures IsLine(PrintHeader(ss[i].name)) && ClosedItems(ss[i].items)
    {
      assert ss[i] == if i < n then ss[..n][i] else ss[n..][i - n];
    }
  }

  lemma ClosedEndUpdated(c: Config, ss': seq<Section>, given: seq<(string, Options)>)
    requires AllLines(PrintLines(c)) && SectionsKept(c.sections, ss', given)
    requires forall i :: 0 <= i < |ss'| ==> GoodSection(ss'[i], false)
    ensures WellSplit(PrintLines(Config(c.head, ss')))
  {
    var n := |c.sections|;
    LinesConcat(c.head, AllSectionLines(c.sections));
    AllSectionLinesClosed(c.sections);
    assert c.sections[..n] == c.sections;
    KeptSectionsClosed(c.sections, ss', given, n);
    ClosedSectionParts(ss', n);
    AllSectionLinesClosed(ss');
    LinesConcat(c.head, AllSectionLines(ss'));
    AllLinesWellSplit(c.head + AllSectionLines(ss'));
  }

  lemma OpenHeadUpdated(c: Config, given: seq<(string, Options)>)
    requires c.sections == [] && OpenLines(PrintLines(c)) && DistinctNames(given)
    requires forall i :: 0 <= i < |Update([], given)| ==> GoodSection(Update([], given)[i], false)
    ensures WellSplit(PrintLines(Updated(c, given))) <==> NothingAppended(c, given)
  {
    var ss' := Update([], given);
    var n := |c.head| - 1;
    assert PrintLines(c) == c.head && c.head[..n] + [c.head[n]] == c.head;
    FrontOfOpen(c.head[..n], c.head[n]);
    UpdateCount([], given);
    UpdateKeeps([], given);
    KeptSectionsClosed([], ss', given, 0);
    assert ss'[0..] == ss';
    AllSectionLinesClosed(ss');
    OpenInTheMiddle(c.head[..n], c.head[n], AllSectionLines(ss'));
  }

  // The updated lines are whole exactly when the file ends safely.
  lemma UpdatedEnd(text: string, given: seq<(string, Options)>)
    requires Parse(text).Some? && DictLike(given) && GoodConfig(Updated(Parse(text).value, given), false)
    ensures WellSplit(PrintLines(Updated(Parse(text).value, given))) <==> SafeEnd(text, given)
  {
    var c := Parse(text).value;
    var ss' := Update(c.sections, given);
    ParsedText(text);
    PrintedEnd(text);
    UpdateKeeps(c.sections, given);
    if !OpenEnd(text) {
      ClosedEndUpdated(c, ss', given);
    } else if c.sections == [] {
      OpenHeadUpdated(c, given);
    } else {
      OpenEndUpdated(c, ss', given);
      LastSectionGrows(c, given);
    }
  }

  // --- What is read back after an update

  // The value an option has in a configuration, as text.
  function Read(c: Config, name: string, key: string): Option<string> {
    match LookupItem(ItemsOf(c.sections, name), key)
    case None => None
    case Some(value) => Some(Shown(value))
  }

  // The value an option has in a file.
  function ReadText(text: string, name: string, key: string): Option<string> {
    match Parse(text)
    case None => None
    case Some(c) => Read(c, name, key)
  }

  // The updated text of a file, or None when the file does not parse.
  function UpdatedText(text: string, given: seq<(string, Options)>): Option<string> {
    match Parse(text)
    case None => None
    case Some(c) => Some(Print(Updated(c, given)))
  }

  // What is written to the file, or None when nothing is: the parser in memory
  // knows the sections raw.
  ghost function Written(raw: set<string>, text: string, given: seq<(string, Options)>): Option<string> {
    if Refused(raw, given) then None else UpdatedText(text, given)
  }

  lemma {:induction false} LookupSnoc(items: seq<Item>, item: Item, key: string)
    ensures LookupItem(items + [item], key) ==
      if LookupItem(items, key).Some? then LookupItem(items, key) else LookupItem([item], key)
  {
    if items != [] {
      assert (items + [item])[1..] == items[1..] + [item];
      LookupSnoc(items[1..], item, key);
    } else {
      assert items + [item] == [item];
    }
  }

  lemma {:induction false} RereadLookup(items: seq<Item>, key: string)
    ensures LookupItem(RereadItems(items), key)
         == match LookupItem(items, key) case None => None case Some(v) => Some(Some(Strip(Shown(v))))
  {
    if items != [] {
      var n := |items| - 1;
      RereadLookup(items[..n], key);
      LookupSnoc(items[..n], items[n], key);
      LookupSnoc(RereadItems(items[..n]), RereadItem(items[n]), key);
      assert items == items[..n] + [items[n]];
    }
  }

  lemma {:induction false} ItemsSnoc(ss: seq<Section>, s: Section, name: string)
    ensures ItemsOf(ss + [s], name) ==
      if HasSection(ss, name) then ItemsOf(ss, name) else if s.name == name then s.items else []
    ensures HasSection(ss + [s], name) <==> HasSection(ss, name) || s.name == name
  {
    if ss != [] {
      assert (ss + [s])[1..] == ss[1..] + [s];
      ItemsSnoc(ss[1..], s, name);
    } else {
      assert ss + [s] == [s];
    }
  }

  lemma {:induction false} RereadNames(ss: seq<Section>, name: string)
    ensures HasSection(RereadSections(ss), name) <==> HasSection(ss, name)
  {
    if ss != [] {
      var n := |ss| - 1;
      RereadNames(ss[..n], name);
      ItemsSnoc(ss[..n], ss[n], name);
      ItemsSnoc(RereadSections(ss[..n]), Section(ss[n].name, RereadItems(ss[n].items)), name);
      assert ss == ss[..n] + [ss[n]];
    }
  }

  lemma {:induction false} RereadItemsOf(ss: seq<Section>, name: string)
    ensures ItemsOf(RereadSections(ss), name) == RereadItems(ItemsOf(ss, name))
  {
    if ss != [] {
      var n := |ss| - 1;
      RereadItemsOf(ss[..n], name);
      RereadNames(ss[..n], name);
      ItemsSnoc(ss[..n], ss[n], name);
      ItemsSnoc(RereadSections(ss[..n]), Section(ss[n].name, RereadItems(ss[n].items)), name);
      assert ss == ss[..n] + [ss[n]];
    }
  }

  lemma RereadReads(c: Config, name: string, key: string)
    ensures Read(Reread(c), name, key) == match Read(c, name, key) case None => None case Some(v) => Some(Strip(v))
  {
    RereadItemsOf(c.sections, name);
    RereadLookup(ItemsOf(c.sections, name), key);
  }

  // The text is written and parses to the same as the configuration.
  ghost predicate ReadsAs(written: Option<string>, c: Config) {
    written.Some? && Parse(written.value).Some? && Same(c, Parse(written.value).value)
  }

  // For any file that parses and any options given: a file is written and
  // parses to exactly the updated configuration if and only if no section is
  // refused, the file has no blank header and ends safely, and the names, keys
  // and values given are good.
  lemma UpdateReadsBack(raw: set<string>, text: string, given: seq<(string, Options)>)
    requires Parse(text).Some? && DictLike(given)
    ensures var c := Parse(text).value;
            ReadsAs(Written(raw, text, given), Updated(c, given)) <==>
              !Refused(raw, given) && NoBlank(c) && GoodGiven(c, given, true) && SafeEnd(text, given)
  {
    var c := Parse(text).value;
    ParsedText(text);
    PrintedReadsBack(Updated(c, given));
    UpdatedIsGood(c, given, true);
    if GoodConfig(Updated(c, given), true) {
      GoodEnough(Updated(c, given));
      UpdatedEnd(text, given);
    }
  }

  // May the options be written to the file? Their values may have spaces at
  // their ends.
  ghost predicate Writable(raw: set<string>, text: string, given: seq<(string, Options)>) {
    && Parse(text).Some? && DictLike(given) && !Refused(raw, given)
    && NoBlank(Parse(text).value) && GoodGiven(Parse(text).value, given, false) && SafeEnd(text, given)
  }

  lemma UpdatedTextParses(raw: set<string>, text: string, given: seq<(string, Options)>)
    requires Writable(raw, text, given)
    ensures Parse(Written(raw, text, given).value) == Some(Reread(Updated(Parse(text).value, given)))
  {
    var c := Parse(text).value;
    ParsedText(text);
    UpdatedIsGood(c, given, false);
    UpdatedEnd(text, given);
    ReadsBack(PrintLines(Updated(c, given)));
    PrintParse(Updated(c, given));
  }

  // From the text of the file to the text written: each given option reads as
  // its value without the spaces around it, None as the empty string when the
  // option is new and as the word None when it existed.
  lemma GivenReadsBack(raw: set<string>, text: string, given: seq<(string, Options)>, i: nat, j: nat)
    requires Writable(raw, text, given) && i < |given| && j < |given[i].1|
    ensures ReadText(Written(raw, text, given).value, given[i].0, given[i].1[j].0)
         == Some(Strip(NewText(Parse(text).value, given, i, j)))
    ensures var (key, value) := given[i].1[j];
            ReadText(Written(raw, text, given).value, given[i].0, key) ==
              match value
              case Some(v) => Some(Strip(v))
              case None => Some(if ReadText(text, given[i].0, key) == None then "" else "None")
  {
    var c := Parse(text).value;
    StripTrimmed("None");
    UpdatedTextParses(raw, text, given);
    RereadReads(Updated(c, given), given[i].0, given[i].1[j].0);
    GivenSectionUpdated(c.sections, given, i);
    GivenOptionReads(ItemsOf(c.sections, given[i].0), given[i].1, j);
  }

  ghost predicate IsGiven(given: seq<(string, Options)>, name: string, key: string) {
    exists i :: 0 <= i < |given| && given[i].0 == name && Mentions(given[i].1, key)
  }

  // Every other option reads in the text written as in the text of the file.
  lemma OthersReadAsBefore(raw: set<string>, text: string, given: seq<(string, Options)>, name: string, key: string)
    requires Writable(raw, text, given) && !IsGiven(given, name, key)
    ensures ReadText(Written(raw, text, given).value, name, key) == ReadText(text, name, key)
  {
    var c := Parse(text).value;
    UpdatedTextParses(raw, text, given);
    RereadReads(Updated(c, given), name, key);
    if i :| 0 <= i < |given| && given[i].0 == name {
      GivenSectionUpdated(c.sections, given, i);
      UnmentionedOptionStays(ItemsOf(c.sections, name), given[i].1, key);
    } else {
      UnmentionedSectionStays(c.sections, given, name);
    }
    ParsedText(text);
    RereadParsedSections(c.sections);
    RereadReads(c, name, key);
  }

  // Whatever the file, an option never reads as a value with spaces at its
  // ends or a newline.
  lemma ReadIsExact(text: string, name: string, key: string)
    requires ReadText(text, name, key).Some?
    ensures Trimmed(ReadText(text, name, key).value) && '\n' !in ReadText(text, name, key).value
  {
    var c := Parse(text).value;
    ParsedText(text);
    var p := LookupFinds(ItemsOf(c.sections, name), key);
    if HasSection(c.sections, name) {
      var i := FirstNamed(c.sections, name);
      ItemsOfFirst(c.sections, i);
      assert ParsedSection(c.sections[i]);
      assert GoodItem(c.sections[i].items[p], true);
    } else {
      ItemsOfNone(c.sections, name);
    }
  }

  // The option's name and section can be written, whatever its value.
  ghost predicate GoodNames(c: Config, given: seq<(string, Options)>) {
    && (forall i :: 0 <= i < |given| ==> GoodName(given[i].0))
    && (forall i, j :: 0 <= i < |given| && 0 <= j < |given[i].1| ==>
          GoodKey(given[i].1[j].0) && !LooksLikeSection(PrintOption(given[i].1[j].0, NewText(c, given, i, j))))
  }

  ghost predicate ReadsItself(text: string, written: string, given: seq<(string, Options)>, i: nat, j: nat)
    requires Parse(text).Some? && i < |given| && j < |given[i].1|
  {
    ReadText(written, given[i].0, given[i].1[j].0) == Some(NewText(Parse(text).value, given, i, j))
  }

  ghost predicate Clean(value: string) {
    Trimmed(value) && '\n' !in value
  }

  lemma CleanIsGood(c: Config, given: seq<(string, Options)>)
    requires GoodNames(c, given)
    requires forall i, j :: 0 <= i < |given| && 0 <= j < |given[i].1| ==> Clean(NewText(c, given, i, j))
    ensures GoodGiven(c, given, false)
  {
    forall i | 0 <= i < |given|
      ensures GoodGivenSection(c, given, i, false)
    {
      forall j | 0 <= j < |given[i].1|
        ensures GoodGivenOption(c, given, i, j, false)
      {
        assert Clean(NewText(c, given, i, j));
      }
    }
  }

  // All given options read back as their very values if and only if no value
  // has spaces at its ends or a newline.
  lemma GivenReadsItself(raw: set<string>, text: string, given: seq<(string, Options)>)
    requires Parse(text).Some? && DictLike(given) && !Refused(raw, given)
    requires NoBlank(Parse(text).value) && GoodNames(Parse(text).value, given) && SafeEnd(text, given)
    ensures var written := Written(raw, text, given).value;
      (forall i, j :: 0 <= i < |given| && 0 <= j < |given[i].1| ==> ReadsItself(text, written, given, i, j)) <==>
      forall i, j :: 0 <= i < |given| && 0 <= j < |given[i].1| ==> Clean(NewText(Parse(text).value, given, i, j))
  {
    var c := Parse(text).value;
    var written := Written(raw, text, given).value;
    if forall i, j :: 0 <= i < |given| && 0 <= j < |given[i].1| ==> ReadsItself(text, written, given, i, j) {
      forall i, j | 0 <= i < |given| && 0 <= j < |given[i].1|
        ensures Clean(NewText(c, given, i, j))
      {
        assert ReadsItself(text, written, given, i, j);
        ReadIsExact(written, given[i].0, given[i].1[j].0);
      }
    }
    if forall i, j :: 0 <= i < |given| && 0 <= j < |given[i].1| ==> Clean(NewText(c, given, i, j)) {
      CleanIsGood(c, given);
      forall i, j | 0 <= i < |given| && 0 <= j < |given[i].1|
        ensures ReadsItself(text, written, given, i, j)
      {
        GivenReadsBack(raw, text, given, i, j);
        StripTrimmed(NewText(c, given, i, j));
      }
    }
  }

  // --- Updating twice

  function KeyOf(item: Item): Option<string> {
    if item.Entry? then Some(item.key) else None
  }

  // Item p is the first entry with its key, the one that is set and read.
  ghost predicate FirstEntry(items: seq<Item>, p: nat)
    requires p < |items|
  {
    items[p].Entry? && LookupItem(items[..p], items[p].key) == None
  }

  lemma {:induction false} LookupFirst(items: seq<Item>, p: nat)
    requires p < |items| && FirstEntry(items, p)
    ensures LookupItem(items, items[p].key) == Some(items[p].value)
  {
    if p > 0 {
      assert items[..p][1..] == items[1..][..p - 1];
      LookupFirst(items[1..], p - 1);
    }
  }

  lemma {:induction false} SameKeys(a: seq<Item>, b: seq<Item>, key: string)
    requires |a| == |b| && forall p :: 0 <= p < |a| ==> KeyOf(a[p]) == KeyOf(b[p])
    ensures LookupItem(a, key).Some? <==> LookupItem(b, key).Some?
  {
    if a != [] {
      assert KeyOf(a[0]) == KeyOf(b[0]);
      SameKeys(a[1..], b[1..], key);
    }
  }

  lemma FirstStays(a: seq<Item>, b: seq<Item>, p: nat)
    requires p < |a| <= |b| && forall q :: 0 <= q < |a| ==> KeyOf(a[q]) == KeyOf(b[q])
    ensures FirstEntry(a, p) <==> FirstEntry(b, p)
  {
    assert KeyOf(a[p]) == KeyOf(b[p]);
    if a[p].Entry? {
      SameKeys(a[..p], b[..p], a[p].key);
    }
  }

  lemma {:induction false} SetOptionPlace(items: seq<Item>, key: string, value: Option<string>, p: nat)
    requires p < |items|
    ensures p < |SetOption(items, key, value)|
    ensures SetOption(items, key, value)[p]
         == if FirstEntry(items, p) && items[p].key == key then Entry(key, value) else items[p]
  {
    if p > 0 {
      assert items[..p][1..] == items[1..][..p - 1];
      if !(items[0].Entry? && items[0].key == key) {
        SetOptionPlace(items[1..], key, value, p - 1);
      }
    }
  }

  lemma KeysStay(items: seq<Item>, given: Options, p: nat)
    requires p < |items|
    ensures p < |SetOptions(items, given)| && KeyOf(SetOptions(items, given)[p]) == KeyOf(items[p])
    ensures FirstEntry(SetOptions(items, given), p) <==> FirstEntry(items, p)
  {
    OptionsKeep(items, given);
    FirstStays(items, SetOptions(items, given), p);
  }

  // Only the first entry with a given key is changed.
  lemma {:induction false} OptionsLeave(items: seq<Item>, given: Options, p: nat)
    requires p < |items| && (FirstEntry(items, p) ==> !Mentions(given, items[p].key))
    ensures p < |SetOptions(items, given)| && SetOptions(items, given)[p] == items[p]
  {
    if given != [] {
      var n := |given| - 1;
      assert items[p].Entry? && Mentions(given[..n], items[p].key) ==> Mentions(given, items[p].key);
      OptionsLeave(items, given[..n], p);
      KeysStay(items, given[..n], p);
      SetOptionPlace(SetOptions(items, given[..n]), given[n].0, given[n].1, p);
    }
  }

  lemma OptionsSet(items: seq<Item>, given: Options, p: nat, j: nat)
    requires DistinctNames(given) && p < |items| && FirstEntry(items, p) && j < |given| && given[j].0 == items[p].key
    ensures p < |SetOptions(items, given)| && SetOptions(items, given)[p] == Entry(given[j].0, given[j].1)
  {
    KeysStay(items, given, p);
    LookupFirst(items, p);
    LookupFirst(SetOptions(items, given), p);
    GivenOptionReads(items, given, j);
  }

  lemma {:induction false} AppendedIsFirst(items: seq<Item>, given: Options, p: nat)
    requires |items| <= p < |SetOptions(items, given)|
    ensures FirstEntry(SetOptions(items, given), p) && Mentions(given, SetOptions(items, given)[p].key)
    decreases |given|
  {
    var n := |given| - 1;
    var before := SetOptions(items, given[..n]);
    OptionsKeep(items, given);
    SetOptionKeeps(before, given[n].0, given[n].1);
    SetOptionCount(before, given[n].0, given[n].1);
    if p < |before| {
      AppendedIsFirst(items, given[..n], p);
      FirstStays(before, SetOptions(items, given), p);
    } else {
      SameKeys(before, SetOptions(items, given)[..p], given[n].0);
    }
  }

  lemma {:induction false} RereadAt(items: seq<Item>, p: nat)
    requires p < |items|
    ensures |RereadItems(items)| == |items| && RereadItems(items)[p] == RereadItem(items[p])
  {
    var n := |items| - 1;
    if p < n {
      RereadAt(items[..n], p);
    } else if n > 0 {
      RereadAt(items[..n], 0);
    }
  }

  // No new option is given None.
  ghost predicate NoneIsOld(items: seq<Item>, given: Options) {
    forall j :: 0 <= j < |given| && given[j].1 == None ==> LookupItem(items, given[j].0).Some?
  }

  lemma RereadFirst(items: seq<Item>, p: nat)
    requires p < |items|
    ensures |RereadItems(items)| == |items| && RereadItems(items)[p] == RereadItem(items[p])
    ensures FirstEntry(RereadItems(items), p) <==> FirstEntry(items, p)
  {
    RereadAt(items, p);
    forall q | 0 <= q < |items|
      ensures KeyOf(RereadItems(items)[q]) == KeyOf(items[q])
    {
      RereadAt(items, q);
    }
    FirstStays(items, RereadItems(items), p);
  }

  // A given option is set to the same again.
  lemma GivenItemTwice(items: seq<Item>, given: Options, p: nat, j: nat)
    requires DistinctNames(given) && NoneIsOld(items, given) && p < |SetOptions(items, given)| && j < |given|
    requires FirstEntry(SetOptions(items, given), p) && given[j].0 == SetOptions(items, given)[p].key
    ensures var once := SetOptions(items, given);
            var twice := SetOptions(RereadItems(once), given);
            p < |twice| && twice[p] == once[p]
  {
    var once := SetOptions(items, given);
    RereadFirst(once, p);
    OptionsSet(RereadItems(once), given, p, j);
    LookupFirst(once, p);
    GivenOptionReads(items, given, j);
  }

  // Any other item is one of the file.
  lemma {:induction false} OtherItemOfFile(items: seq<Item>, given: Options, p: nat)
    requires RereadItems(items) == items && p < |SetOptions(items, given)|
    requires FirstEntry(SetOptions(items, given), p) ==> !Mentions(given, SetOptions(items, given)[p].key)
    ensures RereadItem(SetOptions(items, given)[p]) == SetOptions(items, given)[p]
  {
    if p < |items| {
      RereadAt(items, p);
      KeysStay(items, given, p);
      OptionsLeave(items, given, p);
    } else {
      AppendedIsFirst(items, given, p);
    }
  }

  lemma {:induction false} OtherItemTwice(items: seq<Item>, given: Options, p: nat)
    requires RereadItems(items) == items && p < |SetOptions(items, given)|
    requires FirstEntry(SetOptions(items, given), p) ==> !Mentions(given, SetOptions(items, given)[p].key)
    ensures var once := SetOptions(items, given);
            var twice := SetOptions(RereadItems(once), given);
            p < |twice| && twice[p] == once[p]
  {
    var once := SetOptions(items, given);
    OtherItemOfFile(items, given, p);
    RereadFirst(once, p);
    OptionsLeave(RereadItems(once), given, p);
  }

  lemma ItemsTwice(items: seq<Item>, given: Options)
    requires DistinctNames(given) && NoneIsOld(items, given) && RereadItems(items) == items
    ensures SetOptions(RereadItems(SetOptions(items, given)), given) == SetOptions(items, given)
  {
    var once := SetOptions(items, given);
    var twice := SetOptions(RereadItems(once), given);
    if once != [] {
      RereadAt(once, 0);
    }
    forall j | 0 <= j < |given|
      ensures LookupItem(RereadItems(once), given[j].0).Some?
    {
      GivenOptionReads(items, given, j);
      RereadLookup(once, given[j].0);
    }
    OptionsCount(RereadItems(once), given);
    forall p | 0 <= p < |once|
      ensures p < |twice| && twice[p] == once[p]
    {
      if FirstEntry(once, p) && Mentions(given, once[p].key) {
        var j :| 0 <= j < |given| && given[j].0 == once[p].key;
        GivenItemTwice(items, given, p, j);
      } else {
        OtherItemTwice(items, given, p);
      }
    }
  }

  lemma {:induction false} AppendedSectionIsFirst(ss: seq<Section>, given: seq<(string, Options)>, i: nat)
    requires |ss| <= i < |Update(ss, given)|
    ensures IsFirst(Update(ss, given), i) && Mentions(given, Update(ss, given)[i].name)
    decreases |given|
  {
    var n := |given| - 1;
    var before, after := Update(ss, given[..n]), Update(ss, given);
    SetSectionEnd(before, given[n].0, given[n].1);
    forall k | 0 <= k < |before|
      ensures after[k].name == before[k].name
    {
      SetSectionAt(before, given[n].0, given[n].1, k);
    }
    if i < |before| {
      AppendedSectionIsFirst(ss, given[..n], i);
      SameNames(after[..i], before[..i], before[i].name);
      assert Mentions(given[..n], before[i].name) ==> Mentions(given, before[i].name);
    } else {
      SameNames(after[..i], before, given[n].0);
      assert Mentions(given, given[n].0);
    }
  }

  lemma {:induction false} RereadSectionAt(ss: seq<Section>, i: nat)
    requires i < |ss|
    ensures |RereadSections(ss)| == |ss| && RereadSections(ss)[i] == Section(ss[i].name, RereadItems(ss[i].items))
  {
    var n := |ss| - 1;
    if i < n {
      RereadSectionAt(ss[..n], i);
    } else if n > 0 {
      RereadSectionAt(ss[..n], 0);
    }
  }

  // No option that is new to the file is given None.
  ghost predicate NoneIsOldIn(c: Config, given: seq<(string, Options)>) {
    forall i :: 0 <= i < |given| ==> NoneIsOld(ItemsOf(c.sections, given[i].0), given[i].1)
  }

  lemma RereadFirstSection(ss: seq<Section>, i: nat)
    requires i < |ss|
    ensures |RereadSections(ss)| == |ss| && RereadSections(ss)[i] == Section(ss[i].name, RereadItems(ss[i].items))
    ensures IsFirst(RereadSections(ss), i) <==> IsFirst(ss, i)
  {
    RereadSectionAt(ss, i);
    forall k | 0 <= k < |ss|
      ensures RereadSections(ss)[k].name == ss[k].name
    {
      RereadSectionAt(ss, k);
    }
    SameNames(RereadSections(ss)[..i], ss[..i], ss[i].name);
  }

  lemma GivenSectionTwice(c: Config, given: seq<(string, Options)>, i: nat, j: nat)
    requires Parsed(c) && DictLike(given) && NoneIsOldIn(c, given) && i < |Update(c.sections, given)| && j < |given|
    requires IsFirst(Update(c.sections, given), i) && given[j].0 == Update(c.sections, given)[i].name
    ensures var once := Update(c.sections, given);
            var twice := Update(RereadSections(once), given);
            i < |twice| && twice[i] == once[i]
  {
    var once := Update(c.sections, given);
    RereadFirstSection(once, i);
    UpdateSets(RereadSections(once), given, i, j);
    ItemsOfFirst(once, i);
    GivenSectionUpdated(c.sections, given, j);
    RereadParsedSections(c.sections);
    RereadItemsOf(c.sections, given[j].0);
    ItemsTwice(ItemsOf(c.sections, given[j].0), given[j].1);
  }

  lemma OtherSectionTwice(c: Config, given: seq<(string, Options)>, i: nat)
    requires Parsed(c) && i < |Update(c.sections, given)|
    requires IsFirst(Update(c.sections, given), i) ==> !Mentions(given, Update(c.sections, given)[i].name)
    ensures var once := Update(c.sections, given);
            var twice := Update(RereadSections(once), given);
            i < |twice| && twice[i] == once[i]
  {
    var once := Update(c.sections, given);
    RereadFirstSection(once, i);
    UpdateLeaves(RereadSections(once), given, i);
    if i >= |c.sections| {
      AppendedSectionIsFirst(c.sections, given, i);
    } else {
      UpdateFirst(c.sections, given, i);
      UpdateLeaves(c.sections, given, i);
      RereadParsedSections(c.sections);
      RereadSectionAt(c.sections, i);
    }
  }

  lemma SectionsTwice(c: Config, given: seq<(string, Options)>)
    requires Parsed(c) && DictLike(given) && NoneIsOldIn(c, given)
    ensures Updated(Reread(Updated(c, given)), given) == Updated(c, given)
  {
    var once := Update(c.sections, given);
    var twice := Update(RereadSections(once), given);
    forall i | 0 <= i < |given|
      ensures HasSection(RereadSections(once), given[i].0)
    {
      UpdateHas(c.sections, given, given[i].0);
      RereadNames(once, given[i].0);
    }
    UpdateCount(RereadSections(once), given);
    if once != [] {
      RereadSectionAt(once, 0);
    }
    forall i | 0 <= i < |once|
      ensures i < |twice| && twice[i] == once[i]
    {
      if IsFirst(once, i) && Mentions(given, once[i].name) {
        var j :| 0 <= j < |given| && given[j].0 == once[i].name;
        GivenSectionTwice(c, given, i, j);
      } else {
        OtherSectionTwice(c, given, i);
      }
    }
    assert twice == once;
  }

  // A line is a header only if its front holds the bracket.
  lemma FrontDecides(line: string, line': string, n: nat)
    requires n <= |line| && n <= |line'| && line[..n] == line'[..n]
    requires forall i :: n <= i < |line'| ==> !IsBracket(line'[i])
    ensures LooksLikeSection(line') ==> LooksLikeSection(line)
  {
    if LooksLikeSection(line') {
      var j := Find(line', IsBracket).value;
      assert forall i :: 0 <= i <= j ==> line[i] == line[..n][i] == line'[..n][i] == line'[i];
      FindAt(line, IsBracket, j);
    }
  }

  // The word None makes no header of an option, if the empty value makes none.
  lemma NoneIsGood(key: string)
    requires GoodOption(key, "")
    ensures GoodOption(key, "None")
  {
    var line, line' := PrintOption(key, ""), PrintOption(key, "None");
    var n := |key| + 3;
    assert line == key + " = " + "\n" && line' == key + " = " + "None\n";
    assert line[..n] == line'[..n] == key + " = ";
    assert line'[n..] == "None\n" && forall i :: n <= i < |line'| ==> line'[i] == line'[n..][i - n];
    FrontDecides(line, line', n);
  }

  lemma GivenOptionStays(c: Config, given: seq<(string, Options)>, i: nat, j: nat)
    requires DictLike(given) && i < |given| && j < |given[i].1| && GoodGivenOption(c, given, i, j, false)
    ensures var c' := Reread(Updated(c, given));
            && LookupItem(ItemsOf(c'.sections, given[i].0), given[i].1[j].0).Some?
            && GoodGivenOption(c', given, i, j, false)
  {
    GivenSectionUpdated(c.sections, given, i);
    GivenOptionReads(ItemsOf(c.sections, given[i].0), given[i].1, j);
    RereadItemsOf(Updated(c, given).sections, given[i].0);
    RereadLookup(SetOptions(ItemsOf(c.sections, given[i].0), given[i].1), given[i].1[j].0);
    if NewText(c, given, i, j) == "" {
      NoneIsGood(given[i].1[j].0);
    }
  }

  // Nothing is appended the second time.
  lemma NothingIsNew(c: Config, given: seq<(string, Options)>)
    requires DictLike(given) && GoodGiven(c, given, false)
    ensures var c' := Reread(Updated(c, given)); NothingAppended(c', given) && GoodGiven(c', given, false)
  {
    var c' := Reread(Updated(c, given));
    forall i | 0 <= i < |given|
      ensures HasSection(c'.sections, given[i].0) && GoodGivenSection(c', given, i, false)
      ensures AllThere(ItemsOf(c'.sections, given[i].0), given[i].1)
    {
      UpdateHas(c.sections, given, given[i].0);
      RereadNames(Update(c.sections, given), given[i].0);
      assert GoodGivenSection(c, given, i, false);
      forall j | 0 <= j < |given[i].1|
        ensures LookupItem(ItemsOf(c'.sections, given[i].0), given[i].1[j].0).Some?
        ensures GoodGivenOption(c', given, i, j, false)
      {
        assert GoodGivenOption(c, given, i, j, false);
        GivenOptionStays(c, given, i, j);
      }
    }
    var n := |c'.sections| - 1;
    if c'.sections != [] && IsFirst(c'.sections, n) {
      ItemsOfFirst(c'.sections, n);
    }
  }

  lemma GoodHasNoBlank(c: Config)
    requires GoodConfig(c, false)
    ensures NoBlank(Reread(c))
  {
    forall i | 0 <= i < |Reread(c).sections|
      ensures Reread(c).sections[i].name != ""
    {
      if c.sections != [] {
        RereadSectionAt(c.sections, 0);
        RereadSectionAt(c.sections, i);
        assert GoodSection(c.sections[i], false);
      }
    }
  }

  // The text written may be updated again, with the names then known.
  lemma StaysWritable(raw: set<string>, text: string, given: seq<(string, Options)>)
    requires Writable(raw, text, given)
    ensures Writable(Registered(raw, given).0, Written(raw, text, given).value, given)
  {
    var c := Parse(text).value;
    ParsedText(text);
    UpdatedTextParses(raw, text, given);
    NothingIsNew(c, given);
    UpdatedIsGood(c, given, false);
    GoodHasNoBlank(Updated(c, given));
    assert !Refused(Registered(raw, given).0, given) by {
      RegisteredUnlessRefused(raw, given);
    }
  }

  // A new option given None reads as the empty string first and then as a word.
  lemma NewNoneChanges(raw: set<string>, text: string, given: seq<(string, Options)>, i: nat, j: nat)
    requires Writable(raw, text, given) && i < |given| && j < |given[i].1| && given[i].1[j].1 == None
    requires LookupItem(ItemsOf(Parse(text).value.sections, given[i].0), given[i].1[j].0) == None
    ensures var once := Written(raw, text, given);
            Written(Registered(raw, given).0, once.value, given) != once
  {
    var c := Parse(text).value;
    UpdatedTextParses(raw, text, given);
    StaysWritable(raw, text, given);
    GivenReadsBack(raw, text, given, i, j);
    GivenReadsBack(Registered(raw, given).0, Written(raw, text, given).value, given, i, j);
    assert GoodGivenSection(c, given, i, false);
    assert GoodGivenOption(c, given, i, j, false);
    GivenOptionStays(c, given, i, j);
    StripTrimmed("None");
  }

  // Giving the same options again leaves the text as it was written exactly
  // when no option that was new to the file is given None.
  lemma UpdateTwice(raw: set<string>, text: string, given: seq<(string, Options)>)
    requires Writable(raw, text, given)
    ensures var once := Written(raw, text, given);
            Written(Registered(raw, given).0, once.value, given) == once <==> NoneIsOldIn(Parse(text).value, given)
  {
    var c := Parse(text).value;
    if NoneIsOldIn(c, given) {
      ParsedText(text);
      UpdatedTextParses(raw, text, given);
      StaysWritable(raw, text, given);
      SectionsTwice(c, given);
    } else {
      var i :| 0 <= i < |given| && !NoneIsOld(ItemsOf(c.sections, given[i].0), given[i].1);
      var j :| 0 <= j < |given[i].1| && given[i].1[j].1 == None
            && LookupItem(ItemsOf(c.sections, given[i].0), given[i].1[j].0) == None;
      NewNoneChanges(raw, text, given, i, j);
    }
  }

  // --- Inputs for which an option does not read back

  // A file of one section.
  function Single(name: string, items: seq<Item>): Config {
    Config([], [Section(name, items)])
  }

  function OneGiven(name: string, key: string, value: string): seq<(string, Options)> {
    [(name, [(key, Some(value))])]
  }

  lemma HeaderParses(name: string)
    requires GoodName(name)
    ensures ReadLines(PrintHeader(name)) == [PrintHeader(name)] && Parse(PrintHeader(name)) == Some(Single(name, []))
  {
    HeaderReads(name);
    LastLine(PrintHeader(name));
    OneLineParses(PrintHeader(name));
    assert [] + [Section(name, [])] == [Section(name, [])];
  }

  lemma HeaderAndLine(name: string, line: string)
    requires GoodName(name) && IsPiece(line)
    ensures ReadLines(PrintHeader(name) + line) == [PrintHeader(name)] + [line]
    ensures Parse(PrintHeader(name) + line) == AddLine(Single(name, []), line)
  {
    HeaderParses(name);
    HeaderReads(name);
    FirstLine(PrintHeader(name), line);
    LastLine(line);
    ParseOneMore([PrintHeader(name)], line);
  }

  lemma HeaderAndLines(name: string, first: string, second: string)
    requires GoodName(name) && IsLine(first) && IsLine(second) && AddLine(Single(name, []), first).Some?
    ensures Parse(PrintHeader(name) + (first + second)) == AddLine(AddLine(Single(name, []), first).value, second)
  {
    var header := PrintHeader(name);
    HeaderReads(name);
    HeaderAndLine(name, first);
    FirstLine(header, first + second);
    FirstLine(first, second);
    LastLine(second);
    ConcatAssociative([header], [first], [second]);
    ParseOneMore([header] + [first], second);
  }

  lemma SinglePrints(name: string, items: seq<Item>)
    ensures Print(Single(name, items)) == PrintHeader(name) + Join(ItemLines(items))
  {
    OneSection(Section(name, items));
    assert PrintLines(Single(name, items)) == [PrintHeader(name)] + ItemLines(items);
    assert ([PrintHeader(name)] + ItemLines(items))[1..] == ItemLines(items);
  }

  lemma {:induction false} SetOptionAppends(items: seq<Item>, key: string, value: string)
    requires LookupItem(items, key) == None
    ensures SetOption(items, key, Some(value)) == items + [Entry(key, Some(value))]
  {
    if items != [] {
      SetOptionAppends(items[1..], key, value);
    }
  }

  lemma SingleUpdated(name: string, items: seq<Item>, key: string, value: string)
    requires LookupItem(items, key) == None
    ensures Updated(Single(name, items), OneGiven(name, key, value)) == Single(name, items + [Entry(key, Some(value))])
  {
    var option := (key, Some(value));
    SetOptionAppends(items, key, value);
    assert [option][..0] == [] && SetOptions(items, []) == items;
    assert SetOptions(items, [option]) == SetOption(items, key, Some(value));
    var ss := [Section(name, items)];
    assert OneGiven(name, key, value)[..0] == [] && Update(ss, []) == ss;
    assert ss[1..] == [];
    assert SetSection(ss, name, [option]) == [Section(name, SetOptions(items, [option]))];
  }

  lemma SingleAdds(name: string, items: seq<Item>, item: Item)
    ensures AddItem(Single(name, items), item) == Single(name, items + [item])
  {
    var ss := [Section(name, items)];
    assert ss[0 := Section(name, items + [item])] == [Section(name, items + [item])];
  }

  // The first line of a section.
  lemma HeaderAndItem(name: string, line: string, item: Item)
    requires GoodName(name) && IsPiece(line)
    requires match Classify(line)
      case SectionLine(_) => false
      case OptionLine(key, value) => item == Entry(key, Some(value))
      case OtherLine => item == Comment(line)
    ensures Parse(PrintHeader(name) + line) == Some(Single(name, [item]))
  {
    HeaderAndLine(name, line);
    SingleAdds(name, [], item);
    assert [] + [item] == [item];
  }

  lemma SingleReads(name: string, items: seq<Item>, key: string)
    ensures Read(Single(name, items), name, key)
         == match LookupItem(items, key) case None => None case Some(v) => Some(Shown(v))
  {
  }

  lemma LookupOne(key: string, value: string, other: string)
    ensures LookupItem([Entry(key, Some(value))], other) == if other == key then Some(Some(value)) else None
  {
    assert [Entry(key, Some(value))][1..] == [];
  }

  lemma OneItemPrints(item: Item)
    ensures Join(ItemLines([item])) == PrintItem(item)
  {
    assert [item][..0] == [];
    assert ItemLines([item]) == [PrintItem(item)];
    assert [PrintItem(item)][1..] == [];
  }

  lemma TwoItemsPrint(first: Item, second: Item)
    ensures Join(ItemLines([first] + [second])) == PrintItem(first) + PrintItem(second)
  {
    assert ([first] + [second])[..1] == [first];
    OneItemPrints(first);
    JoinSnoc(ItemLines([first]), PrintItem(second));
  }

  // The option appended after a comment without its newline continues it.
  lemma CommentContinued(name: string, comment: string, key: string, value: string)
    requires GoodName(name) && comment != "" && '\n' !in comment && Classify(comment) == OtherLine
    ensures UpdatedText(PrintHeader(name) + comment, OneGiven(name, key, value))
         == Some(PrintHeader(name) + PrintOption(comment + key, value))
  {
    var item, entry := Comment(comment), Entry(key, Some(value));
    HeaderAndItem(name, comment, item);
    assert [item][1..] == [] && LookupItem([item], key) == None;
    SingleUpdated(name, [item], key, value);
    SinglePrints(name, [item] + [entry]);
    TwoItemsPrint(item, entry);
    assert comment + PrintOption(key, value) == PrintOption(comment + key, value);
  }

  // What a section of one option reads as.
  lemma AppendedReads(name: string, key: string, value: string, other: string)
    requires GoodName(name) && GoodOption(key, value)
    ensures ReadText(PrintHeader(name) + PrintOption(key, value), name, other)
         == if other == key then Some(Strip(value)) else None
  {
    var entry := Entry(key, Some(Strip(value)));
    OptionReads(key, value);
    HeaderAndItem(name, PrintOption(key, value), entry);
    SingleReads(name, [entry], other);
    LookupOne(key, Strip(value), other);
  }

  // Such a comment at the end of the file swallows the option.
  lemma CommentSwallows(name: string, comment: string, key: string, value: string)
    requires GoodName(name) && comment != "" && '\n' !in comment && Classify(comment) == OtherLine
    requires GoodOption(comment + key, value) && Trimmed(value)
    ensures var written := UpdatedText(PrintHeader(name) + comment, OneGiven(name, key, value));
      && written.Some?
      && ReadText(written.value, name, key) == None && ReadText(written.value, name, comment + key) == Some(value)
  {
    CommentContinued(name, comment, key, value);
    assert |comment + key| > |key|;
    AppendedReads(name, comment + key, value, key);
    AppendedReads(name, comment + key, value, comment + key);
    StripTrimmed(value);
  }

  lemma OpenEndSwallowsOption()
    ensures var written := UpdatedText(PrintHeader("a") + "; end", OneGiven("a", "y", "2"));
      && written.Some?
      && ReadText(written.value, "a", "y") == None && ReadText(written.value, "a", "; endy") == Some("2")
  {
    NoSeparator("; end");
    assert "; end" + "y" == "; endy";
    CommentSwallows("a", "; end", "y", "2");
  }

  lemma HeaderUpdated(name: string, key: string, value: string)
    requires GoodName(name)
    ensures UpdatedText(PrintHeader(name), OneGiven(name, key, value))
         == Some(PrintHeader(name) + PrintOption(key, value))
  {
    var entry := Entry(key, Some(value));
    HeaderParses(name);
    SingleUpdated(name, [], key, value);
    assert [] + [entry] == [entry];
    SinglePrints(name, [entry]);
    OneItemPrints(entry);
  }

  // Spaces around a value are lost.
  lemma PaddingIsLost(name: string, key: string, spaces: string, value: string)
    requires GoodName(name) && GoodOption(key, spaces + value) && AllSpaces(spaces) && Trimmed(value)
    ensures var written := UpdatedText(PrintHeader(name), OneGiven(name, key, spaces + value));
            written.Some? && ReadText(written.value, name, key) == Some(value)
  {
    HeaderUpdated(name, key, spaces + value);
    AppendedReads(name, key, spaces + value, key);
    StripAround(value, spaces);
    StripTrimmed(value);
  }

  lemma PaddedValueIsStripped()
    ensures var written := UpdatedText(PrintHeader("a"), OneGiven("a", "y", " 2"));
            written.Some? && ReadText(written.value, "a", "y") == Some("2")
  {
    assert " " + "2" == " 2";
    PaddingIsLost("a", "y", " ", "2");
  }

  // A section of two options.
  lemma TwoOptionsRead(name: string, key: string, value: string, key': string, value': string)
    requires GoodName(name) && GoodOption(key, value) && GoodOption(key', value') && key != key'
    ensures var text := PrintHeader(name) + (PrintOption(key, value) + PrintOption(key', value'));
            ReadText(text, name, key) == Some(Strip(value)) && ReadText(text, name, key') == Some(Strip(value'))
  {
    var e, e' := Entry(key, Some(Strip(value))), Entry(key', Some(Strip(value')));
    OptionReads(key, value);
    OptionReads(key', value');
    HeaderAndLines(name, PrintOption(key, value), PrintOption(key', value'));
    SingleAdds(name, [], e);
    assert [] + [e] == [e];
    SingleAdds(name, [e], e');
    assert ([e] + [e'])[1..] == [e'];
    SingleReads(name, [e] + [e'], key);
    SingleReads(name, [e] + [e'], key');
    LookupOne(key', Strip(value'), key');
  }

  lemma PrintsTwo(key: string, value: string, key': string, value': string)
    ensures PrintOption(key, value + "\n" + (key' + " = " + value'))
         == PrintOption(key, value) + PrintOption(key', value')
  {
    assert key + " = " + (value + "\n") == PrintOption(key, value);
  }

  // What follows a newline in a value becomes an option of its own.
  lemma {:induction false} NewlineAddsOption(name: string, key: string, value: string, key': string, value': string)
    requires GoodName(name) && GoodOption(key, value) && GoodOption(key', value') && key != key'
    ensures var written := UpdatedText(PrintHeader(name), OneGiven(name, key, value + "\n" + (key' + " = " + value')));
      && written.Some?
      && ReadText(written.value, name, key) == Some(Strip(value))
      && ReadText(written.value, name, key') == Some(Strip(value'))
  {
    PrintsTwo(key, value, key', value');
    HeaderUpdated(name, key, value + "\n" + (key' + " = " + value'));
    TwoOptionsRead(name, key, value, key', value');
  }

  lemma NewlineValueAddsOption()
    ensures var written := UpdatedText(PrintHeader("a"), OneGiven("a", "y", "1\nz = 3"));
      && written.Some?
      && ReadText(written.value, "a", "y") == Some("1") && ReadText(written.value, "a", "z") == Some("3")
  {
    assert "1" + "\n" + ("z" + " = " + "3") == "1\nz = 3";
    assert "y"[0] != "z"[0];
    NewlineAddsOption("a", "y", "1", "z", "3");
    StripTrimmed("1");
    StripTrimmed("3");
  }

  // A section of that name is refused, and nothing is written.
  lemma DefaultIsRefused(raw: set<string>, text: string)
    requires "DEFAULT" !in raw
    ensures Written(raw, text, OneGiven("DEFAULT", "y", "2")) == None
  {
    assert IsDefault(OneGiven("DEFAULT", "y", "2")[0].0);
  }

  // --- The updater

  lemma {:induction false} FailurePersists(lines: seq<string>, i: nat)
    requires i <= |lines| && ParseLines(lines[..i]) == None
    ensures ParseLines(lines) == None
    decreases |lines| - i
  {
    if i < |lines| {
      assert lines[..i + 1][..i] == lines[..i];
      FailurePersists(lines, i + 1);
    } else {
      assert lines[..i] == lines;
    }
  }

  lemma {:induction false} SetOptionIs(items: seq<Item>, key: string, value: Option<string>, k: nat)
    requires k <= |items| && forall j :: 0 <= j < k ==> !(items[j].Entry? && items[j].key == key)
    requires k < |items| ==> items[k].Entry? && items[k].key == key
    ensures SetOption(items, key, value) ==
      if k == |items| then items + [Entry(key, if value != None then value else Some(""))]
      else items[k := items[k].(value := value)]
  {
    if k > 0 {
      var first, rest := items[0], items[1..];
      SetOptionIs(rest, key, value, k - 1);
      assert items == [first] + rest;
    }
  }

  lemma {:induction false} SetSectionIs(ss: seq<Section>, name: string, given: Options, k: nat)
    requires k <= |ss| && forall j :: 0 <= j < k ==> ss[j].name != name
    requires k < |ss| ==> ss[k].name == name
    ensures SetSection(ss, name, given) ==
      if k == |ss| then ss + [Section(name, SetOptions([], given))]
      else ss[k := Section(name, SetOptions(ss[k].items, given))]
  {
    if k > 0 {
      SetSectionIs(ss[1..], name, given, k - 1);
    }
  }

  lemma {:induction false} RefusalPersists(raw: set<string>, given: seq<(string, Options)>, i: nat)
    requires i <= |given| && !Registered(raw, given[..i]).1
    ensures Registered(raw, given) == Registered(raw, given[..i])
    decreases |given| - i
  {
    if i < |given| {
      assert given[..i + 1][..i] == given[..i];
      RefusalPersists(raw, given, i + 1);
    } else {
      assert given[..i] == given;
    }
  }

  class IniUpdater {
    var head: seq<string>
    var sections: seq<Section>
    var raw: set<string> // the section names of the parser in memory

    constructor (raw: set<string>)
      ensures head == [] && sections == [] && this.raw == raw
    {
      head, sections, this.raw := [], [], raw;
    }

    ghost function Current(): Config
      reads this
    {
      Config(head, sections)
    }

    // The parse loop; false for an option before the first section.
    method Parse(lines: seq<string>) returns (ok: bool)
      requires Current() == Config([], [])
      modifies this`head, this`sections
      ensures ok <==> ParseLines(lines).Some?
      ensures ok ==> Current() == ParseLines(lines).value
    {
      for i := 0 to |lines|
        invariant ParseLines(lines[..i]) == Some(Current())
      {
        assert lines[..i + 1][..i] == lines[..i];
        ok := ParseLine(lines[i]);
        if !ok {
          FailurePersists(lines, i + 1);
          return;
        }
      }
      assert lines[..|lines|] == lines;
      return true;
    }

    method ParseLine(line: string) returns (ok: bool)
      modifies this`head, this`sections
      ensures ok <==> AddLine(old(Current()), line).Some?
      ensures ok ==> Current() == AddLine(old(Current()), line).value
    {
      match Classify(line) {
        case SectionLine(name) => sections := sections + [Section(name, [])];
        case OptionLine(key, value) =>
          if sections == [] {
            return false;
          }
          AppendItem(Entry(key, Some(value)));
        case OtherLine =>
          if sections == [] {
            head := head + [line];
          } else {
            AppendItem(Comment(line));
          }
      }
      return true;
    }

    method AppendItem(item: Item)
      requires sections != []
      modifies this`sections
      ensures Current() == AddItem(old(Current()), item)
    {
      var n := |sections| - 1;
      sections := sections[n := sections[n].(items := sections[n].items + [item])];
    }

    // The update loop over the given sections and options; false for a section
    // that the parser in memory refuses.
    method UpdateWith(given: seq<(string, Options)>) returns (ok: bool)
      modifies this`sections, this`raw
      ensures (raw, ok) == Registered(old(raw), given)
      ensures ok ==> Current() == Updated(old(Current()), given)
    {
      ok := true;
      for i := 0 to |given|
        invariant sections == Update(old(sections), given[..i]) && (raw, true) == Registered(old(raw), given[..i])
      {
        assert given[..i + 1][..i] == given[..i];
        ok := UpdateSection(given[i].0, given[i].1);
        if !ok {
          RefusalPersists(old(raw), given, i + 1);
          return;
        }
      }
      assert given[..|given|] == given;
      ok := true;
    }

    method UpdateSection(name: string, options: Options) returns (ok: bool)
      modifies this`sections, this`raw
      ensures ok <==> name in old(raw) || !IsDefault(name)
      ensures raw == if ok && name !in old(raw) then old(raw) + {name} else old(raw)
      ensures sections == SetSection(old(sections), name, if ok then options else [])
    {
      var k := 0;
      while k < |sections| && sections[k].name != name
        invariant 0 <= k <= |sections|
        invariant forall j :: 0 <= j < k ==> sections[j].name != name
      {
        k := k + 1;
      }
      SetSectionIs(sections, name, options, k);
      SetSectionIs(sections, name, [], k);
      if k == |sections| {
        sections := sections + [Section(name, [])];
      }
      ok := AddSection(name);
      if !ok {
        return;
      }
      SetAll(k, name, options);
    }

    // has_section and add_section of the parser in memory.
    method AddSection(name: string) returns (ok: bool)
      modifies this`raw
      ensures ok <==> name in old(raw) || !IsDefault(name)
      ensures raw == if ok && name !in old(raw) then old(raw) + {name} else old(raw)
    {
      if name !in raw {
        if IsDefault(name) {
          return false;
        }
        raw := raw + {name};
      }
      return true;
    }

    method SetAll(k: nat, name: string, options: Options)
      requires k < |sections| && sections[k].name == name
      modifies this`sections
      ensures sections == old(sections)[k := Section(name, SetOptions(old(sections)[k].items, options))]
    {
      ghost var before := sections;
      for j := 0 to |options|
        invariant k < |sections| && sections == before[k := Section(name, SetOptions(before[k].items, options[..j]))]
      {
        assert options[..j + 1][..j] == options[..j];
        var items := Set(sections[k].items, options[j].0, options[j].1);
        sections := sections[k := sections[k].(items := items)];
      }
      assert options[..|options|] == options;
    }

    // One option: the first entry with its key is overwritten, or a new one
    // appended.
    method Set(items: seq<Item>, key: string, value: Option<string>) returns (r: seq<Item>)
      ensures r == SetOption(items, key, value)
    {
      var k := 0;
      while k < |items| && !(items[k].Entry? && items[k].key == key)
        invariant 0 <= k <= |items|
        invariant forall j :: 0 <= j < k ==> !(items[j].Entry? && items[j].key == key)
      {
        k := k + 1;
      }
      SetOptionIs(items, key, value, k);
      if k == |items| {
        r := items + [Entry(key, if value != None then value else Some(""))];
      } else {
        r := items[k := items[k].(value := value)];
      }
    }

    // The printers: each item list is accumulated in a string.
    method Print() returns (text: string)
      ensures text == IniFiles.Print(Current())
    {
      JoinConcat(head, AllSectionLines(sections));
      var comments := PrintHead();
      var rest := PrintSections();
      text := comments + rest;
    }

    method PrintHead() returns (text: string)
      ensures text == Join(head)
    {
      text := "";
      for i := 0 to |head|
        invariant text == Join(head[..i])
      {
        JoinSnoc(head[..i], head[i]);
        assert head[..i + 1] == head[..i] + [head[i]];
        text := text + head[i];
      }
      assert head[..|head|] == head;
    }

    method PrintSections() returns (text: string)
      ensures text == Join(AllSectionLines(sections))
    {
      text := "";
      for i := 0 to |sections|
        invariant text == Join(AllSectionLines(sections[..i]))
      {
        assert sections[..i + 1][..i] == sections[..i];
        JoinConcat(AllSectionLines(sections[..i]), SectionLines(sections[i]));
        var s := PrintSection(sections[i]);
        text := text + s;
      }
      assert sections[..|sections|] == sections;
    }

    method PrintSection(s: Section) returns (text: string)
      ensures text == Join(SectionLines(s))
    {
      text := PrintHeader(s.name);
      for i := 0 to |s.items|
        invariant text == Join([PrintHeader(s.name)] + ItemLines(s.items[..i]))
      {
        assert s.items[..i + 1][..i] == s.items[..i];
        var lines := [PrintHeader(s.name)] + ItemLines(s.items[..i]);
        JoinSnoc(lines, PrintItem(s.items[i]));
        ConcatAssociative([PrintHeader(s.name)], ItemLines(s.items[..i]), [PrintItem(s.items[i])]);
        text := text + PrintItem(s.items[i]);
      }
      assert s.items[..|s.items|] == s.items;
    }
  }

  // The file, or an empty text when there is none.
  method UpdateIni(raw: set<string>, file: Option<string>, given: seq<(string, Options)>)
    returns (r: Option<string>, raw': set<string>)
    ensures r == Written(raw, if file.Some? then file.value else "", given)
    ensures var parses := Parse(if file.Some? then file.value else "").Some?;
            raw' == if parses then Registered(raw, given).0 else raw
  {
    var config := new IniUpdater(raw);
    RegisteredUnlessRefused(raw, given);
    if file.Some? {
      var ok := config.Parse(ReadLines(file.value));
      if !ok {
        return None, raw;
      }
    }
    var ok := config.UpdateWith(given);
    if !ok {
      return None, config.raw;
    }
    var text := config.Print();
    return Some(text), config.raw;
  }
}
