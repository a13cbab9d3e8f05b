// Ini files as items that keep comments and order: the line grammar, the
// parser and the printers (src/scalarizr/config.py,
// ScalarizrCnf.__update_ini).
module IniFiles {
  import opened Sequences
  import opened Text
  import opened Wrappers

  // A comment keeps its whole line; the value of an entry is None when the
  // caller gave None for an option that existed.
  datatype Item = Comment(text: string) | Entry(key: string, value: Option<string>)

  datatype Section = Section(name: string, items: seq<Item>)

  // The comments before the first section, and the sections.
  datatype Config = Config(head: seq<string>, sections: seq<Section>)

  // --- The line grammar of RawConfigParser

  datatype Line = SectionLine(name: string) | OptionLine(key: string, value: string) | OtherLine

  predicate IsBracket(c: char) {
    c == ']'
  }

  predicate IsSeparator(c: char) {
    c == '=' || c == ':'
  }

  // [header] at the start of the line, the header not empty.
  predicate LooksLikeSection(line: string) {
    line != "" && line[0] == '[' &&
    var j := Find(line, IsBracket);
    j.Some? && j.value >= 2
  }

  // A first character that is no space, up to the first separator.
  predicate LooksLikeOption(line: string) {
    line != "" && !IsSpace(line[0]) &&
    var d := Find(line, IsSeparator);
    d.Some? && d.value >= 1
  }

  function Classify(line: string): Line {
    if LooksLikeSection(line) then SectionLine(Strip(line[1..Find(line, IsBracket).value]))
    else if LooksLikeOption(line) then
      var d := Find(line, IsSeparator).value;
      OptionLine(Strip(line[..d]), Strip(line[d + 1..]))
    else OtherLine
  }

  // --- Printing

  function Shown(value: Option<string>): string {
    if value.Some? then value.value else "None"
  }

  function PrintOption(key: string, value: string): string {
    key + " = " + value + "\n"
  }

  function PrintItem(item: Item): string {
    match item
    case Comment(text) => text
    case Entry(key, value) => PrintOption(key, Shown(value))
  }

  function PrintHeader(name: string): string {
    "[" + name + "]" + "\n"
  }

  function ItemLines(items: seq<Item>): seq<string> {
    if items == [] then [] else ItemLines(items[..|items| - 1]) + [PrintItem(items[|items| - 1])]
  }

  function SectionLines(s: Section): seq<string> {
    [PrintHeader(s.name)] + ItemLines(s.items)
  }

  function AllSectionLines(ss: seq<Section>): seq<string> {
    if ss == [] then [] else AllSectionLines(ss[..|ss| - 1]) + SectionLines(ss[|ss| - 1])
  }

  function PrintLines(c: Config): seq<string> {
    c.head + AllSectionLines(c.sections)
  }

  // --- Parsing

  function AddItem(c: Config, item: Item): Config
    requires c.sections != []
  {
    var n := |c.sections| - 1;
    c.(sections := c.sections[n := c.sections[n].(items := c.sections[n].items + [item])])
  }

  // An option before the first section is an error.
  function AddLine(c: Config, line: string): Option<Config> {
    match Classify(line)
    case SectionLine(name) => Some(c.(sections := c.sections + [Section(name, [])]))
    case OptionLine(key, value) => if c.sections == [] then None else Some(AddItem(c, Entry(key, Some(value))))
    case OtherLine =>
      if c.sections == [] then Some(c.(head := c.head + [line])) else Some(AddItem(c, Comment(line)))
  }

  function ParseLines(lines: seq<string>): Option<Config> {
    if lines == [] then Some(Config([], []))
    else
      match ParseLines(lines[..|lines| - 1])
      case None => None
      case Some(c) => AddLine(c, lines[|lines| - 1])
  }

  function Parse(text: string): Option<Config> {
    ParseLines(ReadLines(text))
  }

  function Print(c: Config): string {
    Join(PrintLines(c))
  }

  // --- A printed line is read as it was meant

  ghost predicate GoodName(name: string) {
    name != "" && Trimmed(name) && ']' !in name && '\n' !in name
  }

  ghost predicate GoodKey(key: string) {
    key != "" && Trimmed(key) && forall i :: 0 <= i < |key| ==> !IsSeparator(key[i]) && key[i] != '\n'
  }

  // Printed, the option is one line and no section header.
  ghost predicate GoodOption(key: string, value: string) {
    GoodKey(key) && '\n' !in value && !LooksLikeSection(PrintOption(key, value))
  }

  // The item reads back, and if exact with its very value.
  ghost predicate GoodItem(item: Item, exact: bool) {
    match item
    case Comment(text) => Classify(text) == OtherLine
    case Entry(key, value) => GoodOption(key, Shown(value)) && (exact ==> Trimmed(Shown(value)))
  }

  ghost predicate GoodItems(items: seq<Item>, exact: bool) {
    forall i :: 0 <= i < |items| ==> GoodItem(items[i], exact)
  }

  ghost predicate GoodSection(s: Section, exact: bool) {
    GoodName(s.name) && GoodItems(s.items, exact)
  }

  ghost predicate GoodHead(head: seq<string>) {
    forall i :: 0 <= i < |head| ==> Classify(head[i]) == OtherLine
  }

  ghost predicate GoodConfig(c: Config, exact: bool) {
    GoodHead(c.head) && forall i :: 0 <= i < |c.sections| ==> GoodSection(c.sections[i], exact)
  }

  lemma OptionPieces(key: string, value: string)
    ensures var line, d := PrintOption(key, value), |key| + 1;
            && |line| == d + |value| + 3 && line[..d] == key + " " && line[d] == '='
            && line[d + 1..] == " " + (value + "\n")
            && line[|line| - 1] == '\n' && line[..|line| - 1] == key + " = " + value
  {
  }

  lemma PiecesStripped(key: string, value: string)
    requires Trimmed(key)
    ensures Strip(key + " ") == key && Strip(" " + (value + "\n")) == Strip(value)
  {
    StripAround(key, " ");
    StripTrimmed(key);
    StripAround(value + "\n", " ");
    StripAround(value, "\n");
  }

  lemma OptionShapeReads(line: string, key: string, value: string)
    requires GoodKey(key) && !LooksLikeSection(line) && |line| == |key| + |value| + 4
    requires line[..|key| + 1] == key + " " && line[|key| + 1] == '='
    requires line[|key| + 2..] == " " + (value + "\n")
    ensures Classify(line) == OptionLine(key, Strip(value))
  {
    var d := |key| + 1;
    forall i | 0 <= i < d
      ensures !IsSeparator(line[i])
    {
      assert line[i] == (key + " ")[i];
    }
    assert line[0] == (key + " ")[0];
    FindAt(line, IsSeparator, d);
    PiecesStripped(key, value);
  }

  lemma OptionReads(key: string, value: string)
    requires GoodOption(key, value)
    ensures Classify(PrintOption(key, value)) == OptionLine(key, Strip(value))
    ensures IsLine(PrintOption(key, value))
  {
    OptionPieces(key, value);
    OptionShapeReads(PrintOption(key, value), key, value);
  }

  lemma HeaderPieces(name: string)
    ensures var line, j := PrintHeader(name), |name| + 1;
            && |line| == j + 2 && line[0] == '[' && line[1..j] == name && line[j] == ']' && line[j + 1] == '\n'
            && line[..|line| - 1] == "[" + name + "]"
  {
  }

  lemma HeaderShapeReads(line: string, name: string)
    requires GoodName(name) && |line| == |name| + 3
    requires line[0] == '[' && line[1..|name| + 1] == name && line[|name| + 1] == ']'
    ensures Classify(line) == SectionLine(name)
  {
    var j := |name| + 1;
    forall i | 0 <= i < j
      ensures !IsBracket(line[i])
    {
      assert i > 0 ==> line[i] == line[1..j][i - 1];
    }
    FindAt(line, IsBracket, j);
    StripTrimmed(name);
  }

  lemma HeaderReads(name: string)
    requires GoodName(name)
    ensures Classify(PrintHeader(name)) == SectionLine(name) && IsLine(PrintHeader(name))
  {
    HeaderPieces(name);
    HeaderShapeReads(PrintHeader(name), name);
  }

  // An option of a file: the name, spaces if any, the first = or :, and the
  // value, of which the spaces around it are no part.
  lemma FileOptionReads(key: string, spaces: string, separator: char, rest: string)
    requires GoodKey(key) && AllSpaces(spaces) && (separator == '=' || separator == ':')
    requires !LooksLikeSection(key + spaces + [separator] + rest)
    ensures Classify(key + spaces + [separator] + rest) == OptionLine(key, Strip(rest))
  {
    var line, d := key + spaces + [separator] + rest, |key| + |spaces|;
    assert line[..d] == key + spaces && line[d + 1..] == rest && line[0] == key[0];
    forall i | 0 <= i < d
      ensures !IsSeparator(line[i])
    {
      assert line[i] == if i < |key| then key[i] else spaces[i - |key|];
      assert i >= |key| ==> IsSpace(spaces[i - |key|]);
    }
    FindAt(line, IsSeparator, d);
    StripAround(key, spaces);
    StripTrimmed(key);
  }

  // A section of a file: what stands between the brackets, without the spaces
  // around it, whatever follows.
  lemma FileSectionReads(name: string, rest: string)
    requires name != "" && ']' !in name
    ensures Classify("[" + name + "]" + rest) == SectionLine(Strip(name))
  {
    var line, j := "[" + name + "]" + rest, |name| + 1;
    assert line[1..j] == name && line[j] == ']';
    forall i | 0 <= i < j
      ensures !IsBracket(line[i])
    {
      assert i > 0 ==> line[i] == name[i - 1];
    }
    FindAt(line, IsBracket, j);
  }

  // Every other line is a comment: one that is empty or starts with a space,
  // or has no separator after its first character, and is no header.
  lemma FileCommentReads(line: string)
    requires line == "" || line[0] != '['
    requires line == "" || IsSpace(line[0]) || line[0] == '=' || line[0] == ':'
          || ('=' !in line[1..] && ':' !in line[1..])
    ensures Classify(line) == OtherLine
  {
    var d := Find(line, IsSeparator);
    if d.Some? && d.value > 0 {
      assert line[d.value] == line[1..][d.value - 1];
    }
  }

  // The spaces are the blank, the tab and the line breaks.
  lemma SpacesAre(c: char)
    ensures IsSpace(c) <==> c in " \t\n\r" || c as int == 11 || c as int == 12
  {
  }

  // What is written for a comment, a section and an option.
  lemma PrintedLooks(comment: string, name: string, key: string, value: string)
    ensures PrintLines(Config([comment], [Section(name, [Entry(key, Some(value))])]))
         == [comment] + (["[" + name + "]" + "\n"] + [key + " = " + value + "\n"])
  {
    var entry := Entry(key, Some(value));
    var s := Section(name, [entry]);
    assert [entry][..0] == [] && ItemLines([entry]) == [PrintItem(entry)];
    assert [s][..0] == [] && AllSectionLines([s]) == SectionLines(s);
  }

  // --- Printing and parsing again

  // What printing and parsing make of a configuration: spaces around a value
  // are gone, and a value that was None has become a word.
  function RereadItem(item: Item): Item {
    match item
    case Comment(_) => item
    case Entry(key, value) => Entry(key, Some(Strip(Shown(value))))
  }

  function RereadItems(items: seq<Item>): seq<Item> {
    if items == [] then [] else RereadItems(items[..|items| - 1]) + [RereadItem(items[|items| - 1])]
  }

  function RereadSections(ss: seq<Section>): seq<Section> {
    if ss == [] then []
    else RereadSections(ss[..|ss| - 1]) + [Section(ss[|ss| - 1].name, RereadItems(ss[|ss| - 1].items))]
  }

  function Reread(c: Config): Config {
    Config(c.head, RereadSections(c.sections))
  }

  lemma ParseOneMore(lines: seq<string>, line: string)
    requires ParseLines(lines).Some?
    ensures ParseLines(lines + [line]) == AddLine(ParseLines(lines).value, line)
  {
    assert (lines + [line])[..|lines|] == lines;
  }

  lemma {:induction false} HeadReads(head: seq<string>)
    requires forall i :: 0 <= i < |head| ==> Classify(head[i]) == OtherLine
    ensures ParseLines(head) == Some(Config(head, []))
  {
    if head != [] {
      var n := |head| - 1;
      HeadReads(head[..n]);
      ParseOneMore(head[..n], head[n]);
      assert head[..n] + [head[n]] == head;
    }
  }

  lemma ItemReads(c: Config, item: Item)
    requires GoodItem(item, false) && c.sections != []
    ensures AddLine(c, PrintItem(item)) == Some(AddItem(c, RereadItem(item)))
  {
    if item.Entry? {
      OptionReads(item.key, Shown(item.value));
    }
  }

  lemma AddItemToLast(c: Config, name: string, items: seq<Item>, item: Item)
    ensures AddItem(c.(sections := c.sections + [Section(name, items)]), item)
         == c.(sections := c.sections + [Section(name, items + [item])])
  {
  }

  // The configuration with a section more.
  function WithSection(c: Config, name: string, items: seq<Item>): Config {
    c.(sections := c.sections + [Section(name, items)])
  }

  lemma ItemReadsInSection(lines: seq<string>, c: Config, name: string, before: seq<Item>, item: Item)
    requires ParseLines(lines) == Some(WithSection(c, name, before)) && GoodItem(item, false)
    ensures ParseLines(lines + [PrintItem(item)]) == Some(WithSection(c, name, before + [RereadItem(item)]))
  {
    ParseOneMore(lines, PrintItem(item));
    ItemReads(WithSection(c, name, before), item);
    AddItemToLast(c, name, before, RereadItem(item));
  }

  lemma {:induction false} SectionReads(lines: seq<string>, c: Config, name: string, items: seq<Item>)
    requires ParseLines(lines) == Some(c) && GoodName(name) && GoodItems(items, false)
    ensures ParseLines(lines + SectionLines(Section(name, items))) == Some(WithSection(c, name, RereadItems(items)))
    decreases |items|
  {
    if items == [] {
      HeaderReads(name);
      ParseOneMore(lines, PrintHeader(name));
      assert SectionLines(Section(name, items)) == [PrintHeader(name)];
    } else {
      var n := |items| - 1;
      SectionReads(lines, c, name, items[..n]);
      ItemReadsInSection(lines + SectionLines(Section(name, items[..n])), c, name, RereadItems(items[..n]), items[n]);
      ConcatAssociative([PrintHeader(name)], ItemLines(items[..n]), [PrintItem(items[n])]);
      ConcatAssociative(lines, SectionLines(Section(name, items[..n])), [PrintItem(items[n])]);
    }
  }

  lemma {:induction false} SectionsRead(head: seq<string>, ss: seq<Section>)
    requires GoodHead(head) && forall i :: 0 <= i < |ss| ==> GoodSection(ss[i], false)
    ensures ParseLines(head + AllSectionLines(ss)) == Some(Config(head, RereadSections(ss)))
    decreases |ss|
  {
    if ss == [] {
      HeadReads(head);
      assert head + AllSectionLines(ss) == head;
    } else {
      var n := |ss| - 1;
      SectionsRead(head, ss[..n]);
      SectionReads(head + AllSectionLines(ss[..n]), Config(head, RereadSections(ss[..n])), ss[n].name, ss[n].items);
      ConcatAssociative(head, AllSectionLines(ss[..n]), SectionLines(ss[n]));
    }
  }

  // Printing a configuration and parsing the lines gives it back, but for the
  // spaces around values.
  lemma PrintParse(c: Config)
    requires GoodConfig(c, false)
    ensures ParseLines(PrintLines(c)) == Some(Reread(c))
  {
    SectionsRead(c.head, c.sections);
  }

  // --- What parsing yields

  lemma HeaderIsGood(line: string)
    requires IsPiece(line) && LooksLikeSection(line)
    ensures var name := Strip(line[1..Find(line, IsBracket).value]); name != "" ==> GoodName(name)
  {
    var j := Find(line, IsBracket).value;
    var s := line[1..j];
    var a, b := StripSlice(s);
    var name := s[a..b];
    forall k | 0 <= k < |name|
      ensures name[k] != ']' && name[k] != '\n'
    {
      var i := a + k + 1;
      assert name[k] == line[i] && !IsBracket(line[i]);
      assert line[i] == line[..|line| - 1][i];
    }
  }

  lemma KeyIsGood(line: string, d: nat) returns (b: nat)
    requires IsPiece(line) && 0 < d < |line| && !IsSpace(line[0]) && forall i :: 0 <= i < d ==> !IsSeparator(line[i])
    ensures 0 < b <= d && Strip(line[..d]) == line[..b] && Trimmed(line[..b])
    ensures AllSpaces(line[b..d]) && !IsSpace(line[b - 1])
    ensures forall i :: 0 <= i < b ==> !IsSeparator(line[..b][i]) && line[..b][i] != '\n'
  {
    b := StripFromStart(line[..d]);
    assert line[..d][..b] == line[..b] && line[..d][b..] == line[b..d];
    forall i | 0 <= i < b
      ensures line[i] != '\n'
    {
      assert line[i] == line[..|line| - 1][i];
    }
  }

  lemma ValueHasNoNewline(line: string, d: nat)
    requires IsPiece(line) && d < |line|
    ensures Trimmed(Strip(line[d + 1..])) && '\n' !in Strip(line[d + 1..])
    ensures forall c :: c in Strip(line[d + 1..]) ==> c in line
  {
    var rest := line[d + 1..];
    var a, b := StripSlice(rest);
    var value := Strip(rest);
    forall i | 0 <= i < |value|
      ensures value[i] != '\n' && value[i] in line
    {
      var k := d + 1 + a + i;
      assert value[i] == line[k];
      if k < |line| - 1 {
        assert line[k] == line[..|line| - 1][k];
      } else {
        assert value[|value| - 1] == value[i];
      }
    }
  }

  // Everything printed comes from the key or the value, or is no bracket.
  lemma PrintedCharacter(key: string, value: string, i: nat)
    requires i < |PrintOption(key, value)|
    ensures var c := PrintOption(key, value)[i]; c in key || c in value || !IsBracket(c)
  {
    var d := |key| + 1;
    var line := PrintOption(key, value);
    OptionPieces(key, value);
    if i < d {
      assert line[i] == (key + " ")[i];
    } else if i > d {
      assert line[i] == (" " + (value + "\n"))[i - d - 1];
    }
  }

  lemma NoSectionMade(line: string, d: nat, b: nat)
    requires IsPiece(line) && !LooksLikeSection(line) && 0 < b <= d < |line| && IsSeparator(line[d])
    requires AllSpaces(line[b..d]) && !IsSpace(line[b - 1])
    ensures !LooksLikeSection(PrintOption(line[..b], Strip(line[d + 1..])))
  {
    var key, value := line[..b], Strip(line[d + 1..]);
    var printed := PrintOption(key, value);
    var j := Find(line, IsBracket);
    OptionPieces(key, value);
    ValueHasNoNewline(line, d);
    assert printed[0] == (key + " ")[0] == line[0];
    if line[0] == '[' {
      if j == None {
        assert forall c :: c in line ==> !IsBracket(c);
        forall i | 0 <= i < |printed|
          ensures !IsBracket(printed[i])
        {
          PrintedCharacter(key, value, i);
        }
      } else {
        assert j.value == 1;
        assert b != 1 by {
          assert b == 1 && d > 1 ==> IsSpace(line[b..d][0]);
        }
        assert printed[1] == (key + " ")[1] == line[1];
        FindAt(printed, IsBracket, 1);
      }
    }
  }

  lemma OptionIsGood(line: string)
    requires IsPiece(line) && !LooksLikeSection(line) && LooksLikeOption(line)
    ensures var d, value := Find(line, IsSeparator).value, Strip(line[Find(line, IsSeparator).value + 1..]);
            GoodOption(Strip(line[..d]), value) && Trimmed(value)
  {
    var d := Find(line, IsSeparator).value;
    var b := KeyIsGood(line, d);
    ValueHasNoNewline(line, d);
    NoSectionMade(line, d, b);
  }

  // What a line means is printed as a line that means the same, unless it is a
  // section header of spaces only.
  lemma LineMeansItself(line: string)
    requires IsPiece(line)
    ensures match Classify(line)
      case SectionLine(name) => name != "" ==> GoodName(name)
      case OptionLine(key, value) => GoodOption(key, value) && Trimmed(value)
      case OtherLine => true
  {
    if LooksLikeSection(line) {
      HeaderIsGood(line);
    } else if LooksLikeOption(line) {
      OptionIsGood(line);
    }
  }

  ghost predicate ParsedSection(s: Section) {
    (s.name == "" || GoodName(s.name)) && GoodItems(s.items, true) && RereadItems(s.items) == s.items
  }

  // Everything about a parsed configuration is good, except that a header of
  // spaces only leaves a section without a name.
  ghost predicate Parsed(c: Config) {
    GoodHead(c.head) && forall i :: 0 <= i < |c.sections| ==> ParsedSection(c.sections[i])
  }

  lemma AddItemStaysParsed(c: Config, item: Item)
    requires Parsed(c) && c.sections != [] && GoodItem(item, true) && RereadItem(item) == item
    ensures Parsed(AddItem(c, item))
  {
    var s := c.sections[|c.sections| - 1];
    assert (s.items + [item])[..|s.items|] == s.items;
  }

  lemma AddLineStaysParsed(c: Config, line: string)
    requires Parsed(c) && AddLine(c, line).Some?
    requires match Classify(line)
      case SectionLine(name) => name != "" ==> GoodName(name)
      case OptionLine(key, value) => GoodOption(key, value) && Trimmed(value)
      case OtherLine => true
    ensures Parsed(AddLine(c, line).value)
  {
    match Classify(line) {
      case SectionLine(name) => assert ParsedSection(Section(name, []));
      case OptionLine(key, value) =>
        StripTrimmed(value);
        AddItemStaysParsed(c, Entry(key, Some(value)));
      case OtherLine =>
        if c.sections != [] {
          AddItemStaysParsed(c, Comment(line));
        }
    }
  }

  lemma {:induction false} ParsedIsGood(lines: seq<string>)
    requires ParseLines(lines).Some? && forall i :: 0 <= i < |lines| ==> IsPiece(lines[i])
    ensures Parsed(ParseLines(lines).value)
  {
    if lines != [] {
      var n := |lines| - 1;
      ParsedIsGood(lines[..n]);
      LineMeansItself(lines[n]);
      AddLineStaysParsed(ParseLines(lines[..n]).value, lines[n]);
    }
  }

  lemma ParsedText(text: string)
    requires Parse(text).Some?
    ensures Parsed(Parse(text).value)
  {
    ReadLinesWellSplit(text);
    WellSplitPieces(ReadLines(text));
    ParsedIsGood(ReadLines(text));
  }

  // How the printers write what a line meant.
  function Reprinted(line: string): string {
    match Classify(line)
    case SectionLine(name) => PrintHeader(name)
    case OptionLine(key, value) => PrintOption(key, value)
    case OtherLine => line
  }

  function ReprintLines(lines: seq<string>): seq<string> {
    if lines == [] then [] else ReprintLines(lines[..|lines| - 1]) + [Reprinted(lines[|lines| - 1])]
  }

  lemma PrintsSectionMore(c: Config, name: string)
    ensures PrintLines(WithSection(c, name, [])) == PrintLines(c) + [PrintHeader(name)]
  {
    var s := Section(name, []);
    assert SectionLines(s) == [PrintHeader(name)];
    assert (c.sections + [s])[..|c.sections|] == c.sections;
    ConcatAssociative(c.head, AllSectionLines(c.sections), SectionLines(s));
  }

  lemma PrintsItemMore(c: Config, item: Item)
    requires c.sections != []
    ensures PrintLines(AddItem(c, item)) == PrintLines(c) + [PrintItem(item)]
  {
    var n := |c.sections| - 1;
    var before, s := c.sections[..n], c.sections[n];
    var s' := s.(items := s.items + [item]);
    assert s'.items[..|s.items|] == s.items;
    ConcatAssociative([PrintHeader(s.name)], ItemLines(s.items), [PrintItem(item)]);
    assert SectionLines(s') == SectionLines(s) + [PrintItem(item)];
    assert AddItem(c, item).sections[..n] == before;
    ConcatAssociative(AllSectionLines(before), SectionLines(s), [PrintItem(item)]);
    ConcatAssociative(c.head, AllSectionLines(c.sections), [PrintItem(item)]);
  }

  lemma PrintsOneMore(c: Config, line: string)
    requires AddLine(c, line).Some?
    ensures PrintLines(AddLine(c, line).value) == PrintLines(c) + [Reprinted(line)]
  {
    match Classify(line) {
      case SectionLine(name) => PrintsSectionMore(c, name);
      case OptionLine(key, value) => PrintsItemMore(c, Entry(key, Some(value)));
      case OtherLine =>
        if c.sections == [] {
          assert PrintLines(c) == c.head;
          assert PrintLines(AddLine(c, line).value) == c.head + [line];
        } else {
          PrintsItemMore(c, Comment(line));
        }
    }
  }

  // A parsed configuration prints line by line.
  lemma {:induction false} PrintsLineByLine(lines: seq<string>)
    requires ParseLines(lines).Some?
    ensures PrintLines(ParseLines(lines).value) == ReprintLines(lines)
  {
    if lines != [] {
      var n := |lines| - 1;
      PrintsLineByLine(lines[..n]);
      PrintsOneMore(ParseLines(lines[..n]).value, lines[n]);
    }
  }

  lemma ReprintedIsLine(line: string)
    requires IsPiece(line) && (IsLine(line) || Classify(line) != OtherLine)
    ensures IsLine(Reprinted(line))
  {
    LineMeansItself(line);
    match Classify(line) {
      case SectionLine(name) =>
        if name == "" {
          assert PrintHeader("") == "[]\n";
        } else {
          HeaderReads(name);
        }
      case OptionLine(key, value) => OptionReads(key, value);
      case OtherLine =>
    }
  }

  lemma {:induction false} ReprintedAreLines(lines: seq<string>)
    requires forall i :: 0 <= i < |lines| ==> IsPiece(lines[i]) && (IsLine(lines[i]) || Classify(lines[i]) != OtherLine)
    ensures AllLines(ReprintLines(lines))
  {
    if lines != [] {
      ReprintedAreLines(lines[..|lines| - 1]);
      ReprintedIsLine(lines[|lines| - 1]);
    }
  }

  // The text ends with a comment that lacks its newline.
  predicate OpenEnd(text: string) {
    !Terminated(text) && ReadLines(text) != [] && Classify(ReadLines(text)[|ReadLines(text)| - 1]) == OtherLine
  }

  // All lines but the last have their newline.
  ghost predicate OpenLines(lines: seq<string>) {
    && lines != [] && (forall i :: 0 <= i < |lines| - 1 ==> IsLine(lines[i]))
    && !IsLine(lines[|lines| - 1]) && IsPiece(lines[|lines| - 1])
  }

  lemma OpenLinesWellSplit(front: seq<string>, last: string)
    requires AllLines(front) && IsPiece(last)
    ensures WellSplit(front + [last])
    ensures !IsLine(last) ==> OpenLines(front + [last])
  {
    AllLinesWellSplit(front);
    SplitConcat(front, [last]);
  }

  lemma ReprintSnoc(front: seq<string>, last: string)
    ensures ReprintLines(front + [last]) == ReprintLines(front) + [Reprinted(last)]
  {
    assert (front + [last])[..|front|] == front;
  }

  lemma ReprintedClosed(front: seq<string>, last: string)
    requires AllLines(front) && IsPiece(last) && (IsLine(last) || Classify(last) != OtherLine)
    ensures AllLines(ReprintLines(front + [last]))
  {
    ReprintSnoc(front, last);
    ReprintedAreLines(front);
    ReprintedIsLine(last);
  }

  lemma ReprintedOpen(front: seq<string>, last: string)
    requires AllLines(front) && IsPiece(last) && !IsLine(last) && Classify(last) == OtherLine
    ensures OpenLines(ReprintLines(front + [last]))
  {
    ReprintSnoc(front, last);
    ReprintedAreLines(front);
    OpenLinesWellSplit(ReprintLines(front), last);
  }

  lemma ReprintedEnd(text: string, lines: seq<string>)
    requires text != "" && lines == ReadLines(text)
    ensures if OpenEnd(text) then OpenLines(ReprintLines(lines)) else AllLines(ReprintLines(lines))
  {
    LastTells(text);
    ReadLinesWellSplit(text);
    WellSplitFront(lines);
    var front, last := lines[..|lines| - 1], lines[|lines| - 1];
    if OpenEnd(text) {
      ReprintedOpen(front, last);
    } else {
      ReprintedClosed(front, last);
    }
    assert lines == front + [last];
  }

  // All lines printed from a parsed text have their newline, except the last
  // one if the text has an open end.
  lemma PrintedEnd(text: string)
    requires Parse(text).Some?
    ensures var lines := PrintLines(Parse(text).value);
            if OpenEnd(text) then OpenLines(lines) else AllLines(lines)
  {
    PrintsLineByLine(ReadLines(text));
    if text != "" {
      ReprintedEnd(text, ReadLines(text));
    }
  }

  lemma PrintedWellSplit(text: string)
    requires Parse(text).Some?
    ensures WellSplit(PrintLines(Parse(text).value))
  {
    var lines := PrintLines(Parse(text).value);
    PrintedEnd(text);
    if OpenEnd(text) {
      var front, last := lines[..|lines| - 1], lines[|lines| - 1];
      OpenLinesWellSplit(front, last);
      assert lines == front + [last];
    } else {
      AllLinesWellSplit(lines);
    }
  }

  function CountSections(lines: seq<string>): nat {
    if lines == [] then 0
    else CountSections(lines[..|lines| - 1]) + if Classify(lines[|lines| - 1]).SectionLine? then 1 else 0
  }

  lemma {:induction false} ParsedSections(lines: seq<string>)
    requires ParseLines(lines).Some?
    ensures |ParseLines(lines).value.sections| == CountSections(lines)
  {
    if lines != [] {
      ParsedSections(lines[..|lines| - 1]);
    }
  }

  lemma {:induction false} CountConcat(a: seq<string>, b: seq<string>)
    ensures CountSections(a + b) == CountSections(a) + CountSections(b)
  {
    if b == [] {
      assert a + b == a;
    } else {
      var n := |b| - 1;
      CountConcat(a, b[..n]);
      assert (a + b)[..|a| + n] == a + b[..n];
    }
  }

  lemma {:induction false} NoneCounted(lines: seq<string>)
    requires forall i :: 0 <= i < |lines| ==> !Classify(lines[i]).SectionLine?
    ensures CountSections(lines) == 0
  {
    if lines != [] {
      NoneCounted(lines[..|lines| - 1]);
    }
  }

  lemma {:induction false} ItemsHoldNoSection(items: seq<Item>)
    requires GoodItems(items, false)
    ensures CountSections(ItemLines(items)) == 0
  {
    if items != [] {
      var n := |items| - 1;
      ItemsHoldNoSection(items[..n]);
      if items[n].Entry? {
        OptionReads(items[n].key, Shown(items[n].value));
      }
      assert ItemLines(items)[..|ItemLines(items)| - 1] == ItemLines(items[..n]);
    }
  }

  function Named(ss: seq<Section>): nat {
    if ss == [] then 0 else Named(ss[..|ss| - 1]) + if ss[|ss| - 1].name != "" then 1 else 0
  }

  lemma {:induction false} NamedAtMost(ss: seq<Section>)
    ensures Named(ss) <= |ss|
    ensures Named(ss) == |ss| <==> forall i :: 0 <= i < |ss| ==> ss[i].name != ""
  {
    if ss != [] {
      NamedAtMost(ss[..|ss| - 1]);
    }
  }

  lemma OneSectionCounted(s: Section)
    requires (s.name == "" || GoodName(s.name)) && GoodItems(s.items, false)
    ensures CountSections(SectionLines(s)) == if s.name != "" then 1 else 0
  {
    var header := PrintHeader(s.name);
    if s.name != "" {
      HeaderReads(s.name);
    } else {
      assert header[1] == ']' && !IsBracket(header[0]);
      FindAt(header, IsBracket, 1);
    }
    assert CountSections([header]) == if s.name != "" then 1 else 0 by {
      assert [header][..0] == [];
    }
    ItemsHoldNoSection(s.items);
    CountConcat([header], ItemLines(s.items));
  }

  // A section without a name is printed as a line that is no header.
  lemma {:induction false} PrintedSections(head: seq<string>, ss: seq<Section>)
    requires Parsed(Config(head, ss))
    ensures CountSections(AllSectionLines(ss)) == Named(ss)
    decreases |ss|
  {
    if ss != [] {
      var n := |ss| - 1;
      assert Parsed(Config(head, ss[..n]));
      PrintedSections(head, ss[..n]);
      CountConcat(AllSectionLines(ss[..n]), SectionLines(ss[n]));
      OneSectionCounted(ss[n]);
    }
  }

  // A parsed configuration that prints as it parses has no blank header.
  lemma NoBlankHeader(c: Config)
    requires Parsed(c) && ParseLines(PrintLines(c)) == Some(c)
    ensures forall i :: 0 <= i < |c.sections| ==> c.sections[i].name != ""
  {
    ParsedSections(PrintLines(c));
    CountConcat(c.head, AllSectionLines(c.sections));
    NoneCounted(c.head);
    PrintedSections(c.head, c.sections);
    NamedAtMost(c.sections);
  }

  lemma RereadOneMore(ss: seq<Section>, s: Section)
    requires RereadSections(ss) == ss && ParsedSection(s)
    ensures RereadSections(ss + [s]) == ss + [s]
  {
    assert (ss + [s])[..|ss|] == ss;
  }

  lemma {:induction false} RereadParsedSections(ss: seq<Section>)
    requires forall i :: 0 <= i < |ss| ==> ParsedSection(ss[i])
    ensures RereadSections(ss) == ss
  {
    if ss != [] {
      var n := |ss| - 1;
      RereadParsedSections(ss[..n]);
      RereadOneMore(ss[..n], ss[n]);
      assert ss[..n] + [ss[n]] == ss;
    }
  }

  // --- What is printed reads back exactly

  // The item with its value as a word, as it is meant to read.
  function Worded(item: Item): Item {
    match item
    case Comment(_) => item
    case Entry(key, value) => Entry(key, Some(Shown(value)))
  }

  ghost predicate SameItems(items: seq<Item>, items': seq<Item>) {
    |items'| == |items| && forall i :: 0 <= i < |items| ==> items'[i] == Worded(items[i])
  }

  ghost predicate SameSection(s: Section, s': Section) {
    s'.name == s.name && SameItems(s.items, s'.items)
  }

  ghost predicate SameSections(ss: seq<Section>, ss': seq<Section>) {
    |ss'| == |ss| && forall i :: 0 <= i < |ss| ==> SameSection(ss[i], ss'[i])
  }

  // The same comments, sections and options in the same order.
  ghost predicate Same(c: Config, c': Config) {
    c'.head == c.head && SameSections(c.sections, c'.sections)
  }

  lemma {:induction false} SameItemsPrint(items: seq<Item>, items': seq<Item>)
    requires SameItems(items, items')
    ensures ItemLines(items') == ItemLines(items)
  {
    if items != [] {
      var n := |items| - 1;
      SameItemsPrint(items[..n], items'[..n]);
    }
  }

  lemma {:induction false} SameSectionsPrint(ss: seq<Section>, ss': seq<Section>)
    requires SameSections(ss, ss')
    ensures AllSectionLines(ss') == AllSectionLines(ss)
  {
    if ss != [] {
      var n := |ss| - 1;
      SameSectionsPrint(ss[..n], ss'[..n]);
      SameItemsPrint(ss[n].items, ss'[n].items);
    }
  }

  lemma {:induction false} RereadItemsSame(items: seq<Item>)
    requires GoodItems(items, true)
    ensures SameItems(items, RereadItems(items))
  {
    if items != [] {
      var n := |items| - 1;
      RereadItemsSame(items[..n]);
      if items[n].Entry? {
        StripTrimmed(Shown(items[n].value));
      }
      assert items[..n] + [items[n]] == items;
    }
  }

  lemma {:induction false} RereadSectionsSame(ss: seq<Section>)
    requires forall i :: 0 <= i < |ss| ==> GoodSection(ss[i], true)
    ensures SameSections(ss, RereadSections(ss))
  {
    if ss != [] {
      var n := |ss| - 1;
      var s := ss[n];
      RereadSectionsSame(ss[..n]);
      RereadItemsSame(s.items);
      assert ss[..n] + [s] == ss;
    }
  }

  lemma GoodOfSame(c: Config, c': Config)
    requires Same(c, c') && Parsed(c') && forall i :: 0 <= i < |c'.sections| ==> c'.sections[i].name != ""
    ensures GoodConfig(c, true)
  {
    forall i | 0 <= i < |c.sections|
      ensures GoodSection(c.sections[i], true)
    {
      assert SameSection(c.sections[i], c'.sections[i]) && ParsedSection(c'.sections[i]);
      forall j | 0 <= j < |c.sections[i].items|
        ensures GoodItem(c.sections[i].items[j], true)
      {
        assert GoodItem(c'.sections[i].items[j], true);
      }
    }
  }

  lemma GoodEnough(c: Config)
    requires GoodConfig(c, true)
    ensures GoodConfig(c, false)
  {
    forall i | 0 <= i < |c.sections|
      ensures GoodSection(c.sections[i], false)
    {
      assert GoodSection(c.sections[i], true);
    }
  }

  // Any configuration, written to a file, reads back as it is exactly when its
  // parts are good and its lines are whole.
  lemma PrintedReadsBack(c: Config)
    ensures Parse(Print(c)).Some? && Same(c, Parse(Print(c)).value)
       <==> GoodConfig(c, true) && WellSplit(PrintLines(c))
  {
    var lines := PrintLines(c);
    ReadsBack(lines);
    if GoodConfig(c, true) && WellSplit(lines) {
      GoodEnough(c);
      PrintParse(c);
      RereadSectionsSame(c.sections);
    }
    if Parse(Print(c)).Some? && Same(c, Parse(Print(c)).value) {
      var c' := Parse(Print(c)).value;
      ParsedText(Print(c));
      PrintedWellSplit(Print(c));
      SameSectionsPrint(c.sections, c'.sections);
      assert PrintLines(c') == lines;
      NoBlankHeader(c');
      GoodOfSame(c, c');
    }
  }

  // Whatever the file, printing what was parsed and parsing again gives the
  // same configuration exactly when no section header is blank.
  lemma FileRoundTrip(text: string)
    requires Parse(text).Some?
    ensures var c := Parse(text).value;
            Parse(Print(c)) == Some(c) <==> forall i :: 0 <= i < |c.sections| ==> c.sections[i].name != ""
  {
    var c := Parse(text).value;
    ParsedText(text);
    PrintedWellSplit(text);
    ReadsBack(PrintLines(c));
    if forall i :: 0 <= i < |c.sections| ==> c.sections[i].name != "" {
      forall i | 0 <= i < |c.sections|
        ensures GoodSection(c.sections[i], true)
      {
        assert ParsedSection(c.sections[i]);
      }
      GoodEnough(c);
      PrintParse(c);
      RereadParsedSections(c.sections);
    }
    if Parse(Print(c)) == Some(c) {
      NoBlankHeader(c);
    }
  }

  lemma HeaderLine(line: string, j: nat)
    requires 2 <= j < |line| && line[0] == '[' && IsBracket(line[j]) && forall i :: 0 <= i < j ==> !IsBracket(line[i])
    ensures Classify(line) == SectionLine(Strip(line[1..j]))
  {
    FindAt(line, IsBracket, j);
  }

  lemma OneLineParses(line: string)
    requires IsLine(line)
    ensures Parse(line) == AddLine(Config([], []), line)
  {
    LastLine(line);
    assert ReadLines(line) == [line] && [line][..0] == [];
    assert ParseLines([line][..0]) == Some(Config([], []));
  }

  lemma BlankHeader(line: string)
    requires |line| == 4 && line[0] == '[' && line[1] == ' ' && line[2] == ']' && line[3] == '\n'
    ensures Parse(line) == Some(Config([], [Section("", [])]))
  {
    HeaderLine(line, 2);
    assert line[1..2] == " " && " "[1..] == "";
    OneLineParses(line);
    assert [] + [Section("", [])] == [Section("", [])];
  }

  lemma BlankHeaderPrints()
    ensures Print(Config([], [Section("", [])])) == "[]\n"
  {
    var s := Section("", []);
    assert PrintHeader("") == "[]\n";
    assert SectionLines(s) == ["[]\n"];
    assert [s][..0] == [] && AllSectionLines([]) == [];
    assert AllSectionLines([s]) == AllSectionLines([s][..0]) + SectionLines(s) == ["[]\n"];
    assert PrintLines(Config([], [s])) == [] + ["[]\n"] == ["[]\n"];
    JoinSnoc([], "[]\n");
    assert [] + ["[]\n"] == ["[]\n"] && "" + "[]\n" == "[]\n";
  }

  lemma NoSeparator(line: string)
    requires forall i :: 0 <= i < |line| ==> !IsSeparator(line[i])
    ensures !LooksLikeOption(line)
  {
    var d := Find(line, IsSeparator);
  }

  lemma NoHeader(line: string)
    requires |line| == 3 && line[0] == '[' && line[1] == ']' && line[2] == '\n'
    ensures Parse(line) == Some(Config([line], []))
  {
    FindAt(line, IsBracket, 1);
    NoSeparator(line);
    OneLineParses(line);
    assert [] + [line] == [line];
  }

  // A header of spaces does not survive.
  lemma BlankHeaderIsLost()
    ensures Parse("[ ]\n") == Some(Config([], [Section("", [])]))
    ensures Print(Config([], [Section("", [])])) == "[]\n" && Parse("[]\n") == Some(Config(["[]\n"], []))
  {
    BlankHeader("[ ]\n");
    BlankHeaderPrints();
    NoHeader("[]\n");
  }
}
