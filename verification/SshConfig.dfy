// Rewriting sshd_config so that required options hold, and squeezing the
// blank lines of an authorized_keys file
// (src/scalarizr/handlers/ssh_auth_keys.py).
module SshConfig {
  import opened Sequences
  import opened Text

  // A required option; its value is also used as a pattern, in which a dot
  // stands for any character of the line.
  datatype Required = Required(key: string, value: string)

  function RequiredOptions(amazon: bool): seq<Required> {
    [Required("RSAAuthentication", "yes"),
     Required("PubkeyAuthentication", "yes"),
     Required("AuthorizedKeysFile", "%h/.ssh/authorized_keys")]
    + if amazon then [Required("PermitRootLogin", "without-password")] else []
  }

  predicate Matches(s: string, pattern: string) {
    pattern != "" ==>
      && s != ""
      && (if pattern[0] == '.' then s[0] != '\n' else s[0] == pattern[0])
      && Matches(s[1..], pattern[1..])
  }

  predicate SpacesThen(s: string, pattern: string) {
    s != "" && IsSpace(s[0]) && (Matches(s[1..], pattern) || SpacesThen(s[1..], pattern))
  }

  // The pattern matches the beginning of the text, a dot any character but a
  // newline.
  lemma {:induction false} MatchesMeans(s: string, pattern: string)
    ensures Matches(s, pattern) <==>
      && |pattern| <= |s|
      && forall i :: 0 <= i < |pattern| ==> if pattern[i] == '.' then s[i] != '\n' else s[i] == pattern[i]
  {
    if pattern != "" && s != "" {
      MatchesMeans(s[1..], pattern[1..]);
      forall i | 0 < i < |pattern| && i < |s|
        ensures s[i] == s[1..][i - 1] && pattern[i] == pattern[1..][i - 1]
      {
      }
    }
  }

  lemma SpaceInFront(s: string, n: nat)
    requires n < |s| && IsSpace(s[0]) && AllSpaces(s[1..][..n])
    ensures AllSpaces(s[..n + 1])
  {
    forall i | 0 <= i < n + 1
      ensures IsSpace(s[i])
    {
      assert i > 0 ==> s[i] == s[1..][..n][i - 1];
    }
  }

  lemma SpaceBehind(s: string, n: nat)
    requires 0 < n <= |s| && AllSpaces(s[..n])
    ensures AllSpaces(s[1..][..n - 1])
  {
    forall i | 0 <= i < n - 1
      ensures IsSpace(s[1..][i])
    {
      assert s[1..][i] == s[..n][i + 1];
    }
  }

  // It does after one space or more.
  lemma {:induction false} SpacesThenMeans(s: string, pattern: string)
    ensures SpacesThen(s, pattern) <==> exists n :: 0 < n <= |s| && AllSpaces(s[..n]) && Matches(s[n..], pattern)
  {
    if s != "" {
      SpacesThenMeans(s[1..], pattern);
      if IsSpace(s[0]) && Matches(s[1..], pattern) {
        assert AllSpaces(s[..1]);
      }
      if n :| IsSpace(s[0]) && 0 < n <= |s[1..]| && AllSpaces(s[1..][..n]) && Matches(s[1..][n..], pattern) {
        assert s[n + 1..] == s[1..][n..];
        SpaceInFront(s, n);
      }
      if n :| 0 < n <= |s| && AllSpaces(s[..n]) && Matches(s[n..], pattern) {
        assert s[0] == s[..n][0];
        if n > 1 {
          assert s[1..][n - 1..] == s[n..];
          SpaceBehind(s, n);
        }
      }
    }
  }

  // The line names the option.
  predicate Names(line: string, o: Required) {
    o.key <= line
  }

  // The test of the code: after the name and spaces comes the value, and
  // whatever else follows it.
  predicate Carries(line: string, o: Required) {
    Names(line, o) && SpacesThen(line[|o.key|..], o.value)
  }

  // The line sets this very option, not one whose name begins with its name.
  predicate Sets(line: string, o: Required) {
    Names(line, o) && (|line| > |o.key| ==> IsSpace(line[|o.key|]))
  }

  // The line gives the option the required value and nothing more.
  predicate Gives(line: string, o: Required) {
    Carries(line, o) && Strip(line[|o.key|..]) == Strip(o.value)
  }

  function Canonical(o: Required): string {
    o.key + " " + o.value + "\n"
  }

  // No option's name begins another's, so a line names at most one.
  ghost predicate Independent(os: seq<Required>) {
    forall i, j :: 0 <= i < |os| && 0 <= j < |os| && i != j ==> !(os[i].key <= os[j].key)
  }

  lemma RequiredOptionsIndependent(amazon: bool)
    ensures Independent(RequiredOptions(amazon))
  {
    var os := RequiredOptions(amazon);
    assert os[0].key[0] == 'R' && os[1].key[0] == 'P' && os[1].key[1] == 'u' && os[2].key[0] == 'A';
    assert amazon ==> os[3].key[0] == 'P' && os[3].key[1] == 'e';
    forall i, j | 0 <= i < |os| && 0 <= j < |os| && i != j
      ensures !(os[i].key <= os[j].key)
    {
    }
  }

  lemma NamesAtMostOne(line: string, a: Required, b: Required)
    requires Names(line, a) && Names(line, b)
    ensures a.key <= b.key || b.key <= a.key
  {
    if |a.key| <= |b.key| {
      assert a.key == line[..|a.key|] == b.key[..|a.key|];
    } else {
      assert b.key == line[..|b.key|] == a.key[..|b.key|];
    }
  }

  lemma {:induction false} MatchesItself(pattern: string, rest: string)
    ensures Matches(pattern + rest, pattern)
  {
    if pattern != "" {
      assert (pattern + rest)[1..] == pattern[1..] + rest;
      MatchesItself(pattern[1..], rest);
    }
  }

  // A line with the value and more after it passes the test.
  lemma ValueAndMore(o: Required, more: string)
    ensures var line := o.key + " " + o.value + more;
            Carries(line, o) && line[|o.key|..] == " " + (o.value + more)
  {
    var line := o.key + " " + o.value + more;
    assert line[..|o.key|] == o.key;
    assert line[|o.key|..] == " " + (o.value + more);
    assert line[|o.key|..][1..] == o.value + more;
    MatchesItself(o.value, more);
  }

  lemma StripFramed(value: string)
    ensures Strip(" " + (value + "\n")) == Strip(value)
  {
    StripAround(value, "\n");
    StripAround(value + "\n", " ");
  }

  lemma CanonicalGives(o: Required)
    ensures Gives(Canonical(o), o)
  {
    ValueAndMore(o, "\n");
    StripFramed(o.value);
  }

  // --- What the rewriting means

  function RewriteLine(os: seq<Required>, line: string, missing: set<string>): string {
    if os == [] then line
    else if Names(line, os[0]) then (if os[0].key in missing && !Carries(line, os[0]) then Canonical(os[0]) else line)
    else RewriteLine(os[1..], line, missing)
  }

  function StillMissing(os: seq<Required>, line: string, missing: set<string>): set<string> {
    if os == [] then missing
    else if Names(line, os[0]) then missing - {os[0].key}
    else StillMissing(os[1..], line, missing)
  }

  // The lines of the file, and the options none of them named.
  function RewriteLines(os: seq<Required>, lines: seq<string>, missing: set<string>): (seq<string>, set<string>)
    decreases |lines|
  {
    if lines == [] then ([], missing)
    else
      var (rest, left) := RewriteLines(os, lines[1..], StillMissing(os, lines[0], missing));
      ([RewriteLine(os, lines[0], missing)] + rest, left)
  }

  function AppendMissing(os: seq<Required>, missing: set<string>): seq<string> {
    if os == [] then []
    else (if os[0].key in missing then [Canonical(os[0])] else []) + AppendMissing(os[1..], missing)
  }

  ghost function Keys(os: seq<Required>): set<string> {
    set i | 0 <= i < |os| :: os[i].key
  }

  ghost function Rewrite(os: seq<Required>, lines: seq<string>): seq<string> {
    var (kept, left) := RewriteLines(os, lines, Keys(os));
    kept + AppendMissing(os, left)
  }

  // The first line naming the option passes the test.
  predicate FirstCarries(lines: seq<string>, o: Required) {
    lines != [] && if Names(lines[0], o) then Carries(lines[0], o) else FirstCarries(lines[1..], o)
  }

  // The first line setting the option gives it its value.
  predicate FirstGives(lines: seq<string>, o: Required) {
    lines != [] && if Sets(lines[0], o) then Gives(lines[0], o) else FirstGives(lines[1..], o)
  }

  // The first line naming the option, if there is one and it passes the test,
  // gives the value.
  predicate NotMisled(lines: seq<string>, o: Required) {
    lines != [] ==> if Names(lines[0], o) then Carries(lines[0], o) ==> Gives(lines[0], o) else NotMisled(lines[1..], o)
  }

  predicate NamesNone(os: seq<Required>, line: string) {
    forall i :: 0 <= i < |os| ==> !Names(line, os[i])
  }

  // The lines that name no required option.
  function Others(os: seq<Required>, lines: seq<string>): seq<string> {
    if lines == [] then []
    else (if NamesNone(os, lines[0]) then [lines[0]] else []) + Others(os, lines[1..])
  }

  predicate SetsNone(os: seq<Required>, line: string) {
    forall i :: 0 <= i < |os| ==> !Sets(line, os[i])
  }

  // The lines that set no required option, though the name of one may begin
  // theirs.
  function Foreign(os: seq<Required>, lines: seq<string>): seq<string> {
    if lines == [] then []
    else (if SetsNone(os, lines[0]) then [lines[0]] else []) + Foreign(os, lines[1..])
  }

  // The first line naming the option, if there is one, sets it.
  predicate FirstIsSet(lines: seq<string>, o: Required) {
    lines != [] ==> if Names(lines[0], o) then Sets(lines[0], o) else FirstIsSet(lines[1..], o)
  }

  // --- What it promises

  lemma IndependentTail(os: seq<Required>)
    requires Independent(os) && os != []
    ensures Independent(os[1..])
  {
  }

  // How a line is treated depends on the one option it names.
  lemma {:induction false} LineOf(os: seq<Required>, line: string, missing: set<string>, k: nat)
    requires Independent(os) && k < |os| && Names(line, os[k])
    ensures RewriteLine(os, line, missing)
         == if os[k].key in missing && !Carries(line, os[k]) then Canonical(os[k]) else line
    ensures StillMissing(os, line, missing) == missing - {os[k].key}
    decreases |os|
  {
    if k > 0 {
      if Names(line, os[0]) {
        NamesAtMostOne(line, os[0], os[k]);
      }
      IndependentTail(os);
      LineOf(os[1..], line, missing, k - 1);
    }
  }

  lemma {:induction false} LineOfNone(os: seq<Required>, line: string, missing: set<string>)
    requires NamesNone(os, line)
    ensures RewriteLine(os, line, missing) == line && StillMissing(os, line, missing) == missing
  {
    if os != [] {
      LineOfNone(os[1..], line, missing);
    }
  }

  // A line still names the option it named, and only that.
  lemma RewrittenNames(os: seq<Required>, line: string, missing: set<string>, k: nat)
    requires Independent(os) && k < |os|
    ensures Names(RewriteLine(os, line, missing), os[k]) <==> Names(line, os[k])
  {
    if j :| 0 <= j < |os| && Names(line, os[j]) {
      LineOf(os, line, missing, j);
      var line' := RewriteLine(os, line, missing);
      assert Names(line', os[j]) by {
        assert Canonical(os[j])[..|os[j].key|] == os[j].key;
      }
      if j != k {
        if Names(line', os[k]) {
          NamesAtMostOne(line', os[j], os[k]);
        }
        if Names(line, os[k]) {
          NamesAtMostOne(line, os[j], os[k]);
        }
      }
    } else {
      LineOfNone(os, line, missing);
    }
  }

  lemma {:induction false} AppendedGives(os: seq<Required>, missing: set<string>, k: nat)
    requires Independent(os) && k < |os| && os[k].key in missing
    ensures FirstGives(AppendMissing(os, missing), os[k]) && FirstCarries(AppendMissing(os, missing), os[k])
    decreases |os|
  {
    if k == 0 {
      CanonicalGives(os[0]);
    } else {
      IndependentTail(os);
      AppendedGives(os[1..], missing, k - 1);
      var line := Canonical(os[0]);
      assert Names(line, os[0]) by {
        assert line[..|os[0].key|] == os[0].key;
      }
      if Names(line, os[k]) {
        NamesAtMostOne(line, os[0], os[k]);
      }
      assert AppendMissing(os, missing)[if os[0].key in missing then 1 else 0..] == AppendMissing(os[1..], missing);
    }
  }

  lemma MissingAfter(os: seq<Required>, line: string, missing: set<string>, k: nat)
    requires Independent(os) && k < |os|
    ensures os[k].key in StillMissing(os, line, missing) <==> os[k].key in missing && !Names(line, os[k])
  {
    if j :| 0 <= j < |os| && Names(line, os[j]) {
      LineOf(os, line, missing, j);
      if j != k && Names(line, os[k]) {
        NamesAtMostOne(line, os[j], os[k]);
      }
    } else {
      LineOfNone(os, line, missing);
    }
  }

  // After one rewriting the first line naming a required option passes the
  // test. It gives the value exactly when the test was not misled before.
  lemma {:induction false} EveryOptionCarried(os: seq<Required>, lines: seq<string>, missing: set<string>, k: nat)
    requires Independent(os) && k < |os| && os[k].key in missing
    ensures var (kept, left) := RewriteLines(os, lines, missing);
            var result := kept + AppendMissing(os, left);
            FirstCarries(result, os[k]) && (FirstGives(result, os[k]) <==> NotMisled(lines, os[k]))
    decreases |lines|
  {
    var (kept, left) := RewriteLines(os, lines, missing);
    var result := kept + AppendMissing(os, left);
    if lines == [] {
      assert result == AppendMissing(os, left);
      AppendedGives(os, missing, k);
    } else {
      assert result[1..] == kept[1..] + AppendMissing(os, left);
      RewrittenNames(os, lines[0], missing, k);
      if Names(lines[0], os[k]) {
        LineOf(os, lines[0], missing, k);
        CanonicalGives(os[k]);
      } else {
        MissingAfter(os, lines[0], missing, k);
        EveryOptionCarried(os, lines[1..], StillMissing(os, lines[0], missing), k);
      }
    }
  }

  // No line is added to the lines that set no required option.
  lemma {:induction false} ForeignAtMost(os: seq<Required>, lines: seq<string>, missing: set<string>)
    requires Independent(os)
    ensures |Foreign(os, RewriteLines(os, lines, missing).0)| <= |Foreign(os, lines)|
    decreases |lines|
  {
    if lines != [] {
      var missing' := StillMissing(os, lines[0], missing);
      ForeignAtMost(os, lines[1..], missing');
      var kept := RewriteLines(os, lines, missing).0;
      assert kept[1..] == RewriteLines(os, lines[1..], missing').0;
      if k :| 0 <= k < |os| && Names(lines[0], os[k]) {
        LineOf(os, lines[0], missing, k);
        CanonicalGives(os[k]);
      } else {
        LineOfNone(os, lines[0], missing);
      }
    }
  }

  lemma ForeignFirst(os: seq<Required>, line: string, line': string, rest: seq<string>, rest': seq<string>)
    requires SetsNone(os, line) ==> line' == line
    requires !SetsNone(os, line) ==> !SetsNone(os, line')
    ensures Foreign(os, [line'] + rest') == Foreign(os, [line] + rest) <==> Foreign(os, rest') == Foreign(os, rest)
  {
    assert ([line] + rest)[1..] == rest && ([line'] + rest')[1..] == rest';
    if SetsNone(os, line) {
      assert Foreign(os, [line] + rest)[1..] == Foreign(os, rest);
      assert Foreign(os, [line] + rest')[1..] == Foreign(os, rest');
    } else {
      assert Foreign(os, [line] + rest) == Foreign(os, rest);
      assert Foreign(os, [line'] + rest') == Foreign(os, rest');
    }
  }

  ghost predicate FirstsAreSet(os: seq<Required>, lines: seq<string>, missing: set<string>) {
    forall k :: 0 <= k < |os| && os[k].key in missing ==> FirstIsSet(lines, os[k])
  }

  // Whatever missing option the line names, it sets.
  ghost predicate IsHonest(os: seq<Required>, line: string, missing: set<string>) {
    forall k :: 0 <= k < |os| && os[k].key in missing && Names(line, os[k]) ==> Sets(line, os[k])
  }

  // The options missing after the line are first named where they were.
  lemma FirstsAreSetAfter(os: seq<Required>, lines: seq<string>, missing: set<string>)
    requires Independent(os) && lines != [] && IsHonest(os, lines[0], missing)
    ensures FirstsAreSet(os, lines, missing) <==> FirstsAreSet(os, lines[1..], StillMissing(os, lines[0], missing))
  {
    var missing' := StillMissing(os, lines[0], missing);
    forall k | 0 <= k < |os|
      ensures os[k].key in missing ==>
                if os[k].key in missing' then !Names(lines[0], os[k]) else FirstIsSet(lines, os[k])
      ensures os[k].key in missing' ==> os[k].key in missing
    {
      MissingAfter(os, lines[0], missing, k);
    }
  }

  // A line that only begins with the name of a missing option is overwritten.
  lemma ForeignLost(os: seq<Required>, lines: seq<string>, missing: set<string>, k: nat)
    requires Independent(os) && k < |os| && lines != [] && os[k].key in missing
    requires Names(lines[0], os[k]) && !Sets(lines[0], os[k])
    ensures Foreign(os, RewriteLines(os, lines, missing).0) != Foreign(os, lines) && !FirstIsSet(lines, os[k])
  {
    var rest := RewriteLines(os, lines[1..], StillMissing(os, lines[0], missing)).0;
    LineOf(os, lines[0], missing, k);
    CanonicalGives(os[k]);
    assert ([Canonical(os[k])] + rest)[1..] == rest;
    ForeignAtMost(os, lines[1..], StillMissing(os, lines[0], missing));
    forall j | 0 <= j < |os|
      ensures !Sets(lines[0], os[j])
    {
      if Names(lines[0], os[j]) {
        NamesAtMostOne(lines[0], os[j], os[k]);
      }
    }
  }

  // An honest line that sets an option still does; others are kept.
  lemma SettersStay(os: seq<Required>, line: string, missing: set<string>)
    requires Independent(os) && IsHonest(os, line, missing)
    ensures if SetsNone(os, line) then RewriteLine(os, line, missing) == line
            else !SetsNone(os, RewriteLine(os, line, missing))
  {
    if k :| 0 <= k < |os| && Names(line, os[k]) {
      LineOf(os, line, missing, k);
      CanonicalGives(os[k]);
    } else {
      LineOfNone(os, line, missing);
    }
  }

  lemma ForeignStep(os: seq<Required>, lines: seq<string>, missing: set<string>)
    requires Independent(os) && lines != [] && IsHonest(os, lines[0], missing)
    ensures Foreign(os, RewriteLines(os, lines, missing).0) == Foreign(os, lines) <==>
            Foreign(os, RewriteLines(os, lines[1..], StillMissing(os, lines[0], missing)).0) == Foreign(os, lines[1..])
  {
    var rest := RewriteLines(os, lines[1..], StillMissing(os, lines[0], missing)).0;
    SettersStay(os, lines[0], missing);
    assert lines == [lines[0]] + lines[1..];
    ForeignFirst(os, lines[0], RewriteLine(os, lines[0], missing), lines[1..], rest);
  }

  // The lines that set no required option are kept in order exactly when no
  // option is first named by such a line.
  lemma {:induction false} ForeignKept(os: seq<Required>, lines: seq<string>, missing: set<string>)
    requires Independent(os)
    ensures Foreign(os, RewriteLines(os, lines, missing).0) == Foreign(os, lines) <==> FirstsAreSet(os, lines, missing)
    decreases |lines|
  {
    if lines == [] {
    } else if IsHonest(os, lines[0], missing) {
      ForeignKept(os, lines[1..], StillMissing(os, lines[0], missing));
      FirstsAreSetAfter(os, lines, missing);
      ForeignStep(os, lines, missing);
    } else {
      var k :| 0 <= k < |os| && os[k].key in missing && Names(lines[0], os[k]) && !Sets(lines[0], os[k]);
      ForeignLost(os, lines, missing, k);
    }
  }

  lemma {:induction false} AppendedAreNamed(os: seq<Required>, some: seq<Required>, missing: set<string>)
    requires forall i :: 0 <= i < |some| ==> some[i] in os
    ensures Others(os, AppendMissing(some, missing)) == [] && Foreign(os, AppendMissing(some, missing)) == []
    decreases |some|
  {
    if some != [] {
      AppendedAreNamed(os, some[1..], missing);
      var line := Canonical(some[0]);
      CanonicalGives(some[0]);
      assert some[0] in os;
      var k :| 0 <= k < |os| && os[k] == some[0];
      assert Sets(line, os[k]);
      var rest := AppendMissing(some[1..], missing);
      if some[0].key in missing {
        assert AppendMissing(some, missing) == [line] + rest;
        assert ([line] + rest)[0] == line && ([line] + rest)[1..] == rest;
      } else {
        assert AppendMissing(some, missing) == rest;
      }
    }
  }

  // Lines naming no required option are kept, in order, and none is added.
  lemma {:induction false} OthersKept(os: seq<Required>, lines: seq<string>, missing: set<string>)
    requires Independent(os)
    ensures var (kept, left) := RewriteLines(os, lines, missing);
            Others(os, kept + AppendMissing(os, left)) == Others(os, lines)
    decreases |lines|
  {
    var (kept, left) := RewriteLines(os, lines, missing);
    if lines == [] {
      assert kept + AppendMissing(os, left) == AppendMissing(os, left);
      AppendedAreNamed(os, os, left);
    } else {
      assert (kept + AppendMissing(os, left))[1..] == kept[1..] + AppendMissing(os, left);
      OthersKept(os, lines[1..], StillMissing(os, lines[0], missing));
      if NamesNone(os, lines[0]) {
        LineOfNone(os, lines[0], missing);
      } else {
        var k :| 0 <= k < |os| && Names(lines[0], os[k]);
        RewrittenNames(os, lines[0], missing, k);
      }
    }
  }

  lemma {:induction false} ForeignConcat(os: seq<Required>, a: seq<string>, b: seq<string>)
    requires Foreign(os, b) == []
    ensures Foreign(os, a + b) == Foreign(os, a)
  {
    if a == [] {
      assert a + b == b;
    } else {
      assert (a + b)[1..] == a[1..] + b;
      ForeignConcat(os, a[1..], b);
    }
  }

  // Once every missing option is carried first, rewriting changes nothing.
  lemma {:induction false} NothingToRewrite(os: seq<Required>, lines: seq<string>, missing: set<string>)
    requires Independent(os) && missing <= Keys(os)
    requires forall k :: 0 <= k < |os| && os[k].key in missing ==> FirstCarries(lines, os[k])
    ensures RewriteLines(os, lines, missing) == (lines, {})
    decreases |lines|
  {
    if lines == [] {
      assert forall k :: 0 <= k < |os| ==> !FirstCarries(lines, os[k]);
      assert missing == {};
      assert lines == [];
    } else {
      var missing' := StillMissing(os, lines[0], missing);
      if j :| 0 <= j < |os| && Names(lines[0], os[j]) {
        LineOf(os, lines[0], missing, j);
        forall k | 0 <= k < |os| && os[k].key in missing'
          ensures FirstCarries(lines[1..], os[k])
        {
          if Names(lines[0], os[k]) {
            NamesAtMostOne(lines[0], os[j], os[k]);
          }
        }
      } else {
        LineOfNone(os, lines[0], missing);
      }
      NothingToRewrite(os, lines[1..], missing');
      assert RewriteLine(os, lines[0], missing) == lines[0];
      assert [lines[0]] + lines[1..] == lines;
    }
  }

  lemma {:induction false} NothingMissing(os: seq<Required>)
    ensures AppendMissing(os, {}) == []
  {
    if os != [] {
      NothingMissing(os[1..]);
    }
  }

  // A second rewriting changes nothing.
  lemma RewriteTwice(os: seq<Required>, lines: seq<string>)
    requires Independent(os)
    ensures Rewrite(os, Rewrite(os, lines)) == Rewrite(os, lines)
  {
    var once := Rewrite(os, lines);
    forall k | 0 <= k < |os|
      ensures FirstCarries(once, os[k])
    {
      assert os[k].key in Keys(os);
      EveryOptionCarried(os, lines, Keys(os), k);
    }
    NothingToRewrite(os, once, Keys(os));
    NothingMissing(os);
  }

  // --- The file

  // No name holds a space, no value a newline.
  ghost predicate Plain(os: seq<Required>) {
    forall i :: 0 <= i < |os| ==> (forall c :: c in os[i].key ==> !IsSpace(c)) && '\n' !in os[i].value
  }

  lemma AuthenticationNamesPlain()
    ensures forall c :: c in "RSAAuthentication" ==> !IsSpace(c)
    ensures forall c :: c in "PubkeyAuthentication" ==> !IsSpace(c)
    ensures '\n' !in "yes"
  {
  }

  lemma AuthorizedKeysPlain()
    ensures (forall c :: c in "AuthorizedKeysFile" ==> !IsSpace(c)) && '\n' !in "%h/.ssh/authorized_keys"
  {
  }

  lemma PermitRootLoginPlain()
    ensures (forall c :: c in "PermitRootLogin" ==> !IsSpace(c)) && '\n' !in "without-password"
  {
  }

  lemma RequiredOptionsPlain(amazon: bool)
    ensures Plain(RequiredOptions(amazon))
  {
    AuthenticationNamesPlain();
    AuthorizedKeysPlain();
    PermitRootLoginPlain();
  }

  ghost function RewriteFile(os: seq<Required>, content: string): string {
    Join(Rewrite(os, ReadLines(content)))
  }

  lemma CanonicalIsLine(o: Required)
    requires '\n' !in o.key && '\n' !in o.value
    ensures IsLine(Canonical(o))
  {
    var line := Canonical(o);
    assert line[..|line| - 1] == o.key + " " + o.value;
  }

  lemma {:induction false} LineStaysLine(os: seq<Required>, line: string, missing: set<string>)
    requires Plain(os) && IsLine(line)
    ensures IsLine(RewriteLine(os, line, missing))
  {
    if os != [] {
      CanonicalIsLine(os[0]);
      LineStaysLine(os[1..], line, missing);
    }
  }

  lemma {:induction false} LinesStayLines(os: seq<Required>, lines: seq<string>, missing: set<string>)
    requires Plain(os) && AllLines(lines)
    ensures AllLines(RewriteLines(os, lines, missing).0)
    decreases |lines|
  {
    if lines != [] {
      LineStaysLine(os, lines[0], missing);
      LinesStayLines(os, lines[1..], StillMissing(os, lines[0], missing));
    }
  }

  lemma {:induction false} AppendedAreLines(os: seq<Required>, missing: set<string>)
    requires Plain(os)
    ensures AllLines(AppendMissing(os, missing))
  {
    if os != [] {
      CanonicalIsLine(os[0]);
      AppendedAreLines(os[1..], missing);
    }
  }

  // Does some line name the option?
  ghost predicate Named(lines: seq<string>, o: Required) {
    exists i :: 0 <= i < |lines| && Names(lines[i], o)
  }

  // The last line is the first to name its option and does not carry it.
  ghost predicate LastRewritten(os: seq<Required>, lines: seq<string>) {
    lines != [] &&
    var n := |lines| - 1;
    exists k :: 0 <= k < |os| && Names(lines[n], os[k]) && !Named(lines[..n], os[k]) && !Carries(lines[n], os[k])
  }

  // The file ends with a newline, or has an option for every line to be
  // appended, or its last line gets a newline by being rewritten.
  ghost predicate AppendsSafely(os: seq<Required>, content: string) {
    || Terminated(content)
    || (forall k :: 0 <= k < |os| ==> Named(ReadLines(content), os[k]))
    || LastRewritten(os, ReadLines(content))
  }

  // What is promised: every option gets its value from the first line setting
  // it, and the lines that set none are kept in order.
  ghost predicate Satisfied(os: seq<Required>, lines: seq<string>, result: seq<string>) {
    && (forall k :: 0 <= k < |os| ==> FirstGives(result, os[k]))
    && Foreign(os, result) == Foreign(os, lines)
  }

  // The first line naming an option is no line of an option with a longer
  // name, and gives no longer value.
  ghost predicate NoneMistaken(os: seq<Required>, lines: seq<string>) {
    forall k :: 0 <= k < |os| ==> FirstIsSet(lines, os[k]) && NotMisled(lines, os[k])
  }

  lemma RewriteSatisfies(os: seq<Required>, lines: seq<string>)
    requires Independent(os)
    ensures Satisfied(os, lines, Rewrite(os, lines)) <==> NoneMistaken(os, lines)
  {
    var (kept, left) := RewriteLines(os, lines, Keys(os));
    forall k | 0 <= k < |os|
      ensures os[k].key in Keys(os) && (FirstGives(Rewrite(os, lines), os[k]) <==> NotMisled(lines, os[k]))
    {
      assert os[k].key in Keys(os);
      EveryOptionCarried(os, lines, Keys(os), k);
    }
    AppendedAreNamed(os, os, left);
    ForeignConcat(os, kept, AppendMissing(os, left));
    ForeignKept(os, lines, Keys(os));
  }

  lemma {:induction false} PieceStaysPiece(os: seq<Required>, line: string, missing: set<string>)
    requires Plain(os) && WellSplit([line])
    ensures WellSplit([RewriteLine(os, line, missing)])
  {
    if os != [] {
      CanonicalIsLine(os[0]);
      PieceStaysPiece(os[1..], line, missing);
    }
  }

  lemma {:induction false} KeptWellSplit(os: seq<Required>, lines: seq<string>, missing: set<string>)
    requires Plain(os) && WellSplit(lines)
    ensures WellSplit(RewriteLines(os, lines, missing).0)
    decreases |lines|
  {
    if lines != [] {
      KeptWellSplit(os, lines[1..], StillMissing(os, lines[0], missing));
      PieceStaysPiece(os, lines[0], missing);
      if |lines| > 1 {
        LineStaysLine(os, lines[0], missing);
      }
      var kept := RewriteLines(os, lines, missing).0;
      assert kept[1..] == RewriteLines(os, lines[1..], StillMissing(os, lines[0], missing)).0;
    }
  }

  lemma {:induction false} NothingAppended(os: seq<Required>, missing: set<string>)
    ensures AppendMissing(os, missing) == [] <==> forall k :: 0 <= k < |os| ==> os[k].key !in missing
  {
    if os != [] {
      NothingAppended(os[1..], missing);
      if k :| 0 <= k < |os[1..]| && os[1..][k].key in missing {
        assert os[k + 1].key in missing;
      }
    }
  }

  lemma NamedByFirst(lines: seq<string>, o: Required)
    requires lines != []
    ensures Named(lines, o) <==> Names(lines[0], o) || Named(lines[1..], o)
  {
    if i :| 0 <= i < |lines[1..]| && Names(lines[1..][i], o) {
      assert Names(lines[i + 1], o);
    }
    if i :| 0 < i < |lines| && Names(lines[i], o) {
      assert Names(lines[1..][i - 1], o);
    }
  }

  // The options left over are those that no line names.
  lemma {:induction false} LeftOver(os: seq<Required>, lines: seq<string>, missing: set<string>, k: nat)
    requires Independent(os) && k < |os|
    ensures os[k].key in RewriteLines(os, lines, missing).1 <==> os[k].key in missing && !Named(lines, os[k])
    decreases |lines|
  {
    if lines != [] {
      MissingAfter(os, lines[0], missing, k);
      LeftOver(os, lines[1..], StillMissing(os, lines[0], missing), k);
      NamedByFirst(lines, os[k]);
    }
  }

  lemma AppendedUnlessNamed(os: seq<Required>, lines: seq<string>)
    requires Independent(os)
    ensures AppendMissing(os, RewriteLines(os, lines, Keys(os)).1) == []
       <==> forall k :: 0 <= k < |os| ==> Named(lines, os[k])
  {
    NothingAppended(os, RewriteLines(os, lines, Keys(os)).1);
    forall k | 0 <= k < |os|
      ensures os[k].key in RewriteLines(os, lines, Keys(os)).1 <==> !Named(lines, os[k])
    {
      assert os[k].key in Keys(os);
      LeftOver(os, lines, Keys(os), k);
    }
  }

  lemma {:induction false} RewriteSnoc(os: seq<Required>, lines: seq<string>, line: string, missing: set<string>)
    ensures var (kept, left) := RewriteLines(os, lines, missing);
      && RewriteLines(os, lines + [line], missing).0 == kept + [RewriteLine(os, line, left)]
      && RewriteLines(os, lines + [line], missing).1 == StillMissing(os, line, left)
    decreases |lines|
  {
    if lines == [] {
      assert lines + [line] == [line] && [line][1..] == [];
    } else {
      var missing' := StillMissing(os, lines[0], missing);
      var (kept, left) := RewriteLines(os, lines[1..], missing');
      assert (lines + [line])[1..] == lines[1..] + [line];
      RewriteSnoc(os, lines[1..], line, missing');
      ConcatAssociative([RewriteLine(os, lines[0], missing)], kept, [RewriteLine(os, line, left)]);
    }
  }

  lemma {:induction false} KeptCount(os: seq<Required>, lines: seq<string>, missing: set<string>)
    ensures |RewriteLines(os, lines, missing).0| == |lines|
    decreases |lines|
  {
    if lines != [] {
      KeptCount(os, lines[1..], StillMissing(os, lines[0], missing));
    }
  }

  // An unfinished last line is finished exactly when it is rewritten.
  lemma LastFinished(os: seq<Required>, line: string, left: set<string>)
    requires Independent(os) && Plain(os) && !IsLine(line)
    ensures IsLine(RewriteLine(os, line, left))
       <==> exists k :: 0 <= k < |os| && Names(line, os[k]) && os[k].key in left && !Carries(line, os[k])
    ensures !IsLine(RewriteLine(os, line, left)) ==> RewriteLine(os, line, left) == line
  {
    if j :| 0 <= j < |os| && Names(line, os[j]) {
      LineOf(os, line, left, j);
      CanonicalIsLine(os[j]);
      forall k | 0 <= k < |os| && Names(line, os[k])
        ensures k == j
      {
        NamesAtMostOne(line, os[j], os[k]);
      }
    } else {
      LineOfNone(os, line, left);
    }
  }

  lemma KeptLast(os: seq<Required>, lines: seq<string>)
    requires Independent(os) && Plain(os) && lines != [] && !IsLine(lines[|lines| - 1])
    ensures var n, kept := |lines| - 1, RewriteLines(os, lines, Keys(os)).0;
      && |kept| == n + 1 && kept[..n] == RewriteLines(os, lines[..n], Keys(os)).0
      && (IsLine(kept[n]) <==> LastRewritten(os, lines)) && (!IsLine(kept[n]) ==> kept[n] == lines[n])
  {
    var n := |lines| - 1;
    var (front, left) := RewriteLines(os, lines[..n], Keys(os));
    assert lines == lines[..n] + [lines[n]];
    RewriteSnoc(os, lines[..n], lines[n], Keys(os));
    KeptCount(os, lines[..n], Keys(os));
    LastFinished(os, lines[n], left);
    forall k | 0 <= k < |os|
      ensures os[k].key in left <==> !Named(lines[..n], os[k])
    {
      assert os[k].key in Keys(os);
      LeftOver(os, lines[..n], Keys(os), k);
    }
  }

  lemma KeptEnd(os: seq<Required>, content: string)
    requires Independent(os) && Plain(os)
    ensures var kept := RewriteLines(os, ReadLines(content), Keys(os)).0;
            kept == [] || IsLine(kept[|kept| - 1]) <==> Terminated(content) || LastRewritten(os, ReadLines(content))
  {
    var lines := ReadLines(content);
    if Terminated(content) {
      ReadLinesOfTerminated(content);
      LinesStayLines(os, lines, Keys(os));
    } else {
      LastTells(content);
      KeptLast(os, lines);
    }
  }

  // The file holds exactly the rewritten lines when it is safe to append to.
  lemma FileHoldsLines(os: seq<Required>, content: string)
    requires Independent(os) && Plain(os)
    ensures ReadLines(RewriteFile(os, content)) == Rewrite(os, ReadLines(content)) <==> AppendsSafely(os, content)
  {
    var lines := ReadLines(content);
    var (kept, left) := RewriteLines(os, lines, Keys(os));
    var appended := AppendMissing(os, left);
    ReadLinesWellSplit(content);
    KeptWellSplit(os, lines, Keys(os));
    AppendedAreLines(os, left);
    AllLinesWellSplit(appended);
    SplitConcat(kept, appended);
    ReadsBack(kept + appended);
    AppendedUnlessNamed(os, lines);
    KeptEnd(os, content);
  }

  lemma {:induction false} FirstAppended(os: seq<Required>, missing: set<string>) returns (k: nat)
    requires AppendMissing(os, missing) != []
    ensures k < |os| && os[k].key in missing
    ensures AppendMissing(os, missing) == [Canonical(os[k])] + AppendMissing(os[k + 1..], missing)
  {
    if os[0].key in missing {
      k := 0;
    } else {
      var j := FirstAppended(os[1..], missing);
      k := j + 1;
      assert os[1..][j + 1..] == os[k + 1..];
    }
  }

  // No line carries the option.
  ghost predicate NoneCarries(lines: seq<string>, o: Required) {
    forall i :: 0 <= i < |lines| ==> !Carries(lines[i], o)
  }

  lemma {:induction false} KeptNames(os: seq<Required>, lines: seq<string>, missing: set<string>, k: nat)
    requires Independent(os) && k < |os| && forall i :: 0 <= i < |lines| ==> !Names(lines[i], os[k])
    ensures NoneCarries(RewriteLines(os, lines, missing).0, os[k])
    decreases |lines|
  {
    if lines != [] {
      RewrittenNames(os, lines[0], missing, k);
      KeptNames(os, lines[1..], StillMissing(os, lines[0], missing), k);
    }
  }

  lemma FrontKept(os: seq<Required>, lines: seq<string>, k: nat)
    requires Independent(os) && Plain(os) && k < |os| && lines != [] && !Named(lines, os[k])
    requires AllLines(lines[..|lines| - 1])
    ensures var front := RewriteLines(os, lines[..|lines| - 1], Keys(os)).0;
            AllLines(front) && NoneCarries(front, os[k])
    ensures !Names(lines[|lines| - 1], os[k])
  {
    var n := |lines| - 1;
    LinesStayLines(os, lines[..n], Keys(os));
    forall i | 0 <= i < n
      ensures !Names(lines[..n][i], os[k])
    {
      assert lines[..n][i] == lines[i];
    }
    KeptNames(os, lines[..n], Keys(os), k);
  }

  lemma JoinMerged(front: seq<string>, last: string, line: string, rest: seq<string>)
    ensures Join(front + [last] + ([line] + rest)) == Join(front + [last + line] + rest)
  {
    JoinConcat(front + [last], [line] + rest);
    JoinSnoc(front, last);
    JoinConcat([line], rest);
    JoinConcat(front + [last + line], rest);
    JoinSnoc(front, last + line);
    assert Join([line]) == line;
    ConcatAssociative(Join(front) + last, line, Join(rest));
    ConcatAssociative(Join(front), last, line);
  }

  // The lines found in the file when the first appended one runs into the last.
  lemma MergedLine(front: seq<string>, last: string, o: Required, rest: seq<string>)
    requires '\n' !in o.key && '\n' !in o.value && AllLines(front) && '\n' !in last && AllLines(rest)
    ensures ReadLines(Join(front + [last] + ([Canonical(o)] + rest))) == front + [last + Canonical(o)] + rest
  {
    var line := Canonical(o);
    CanonicalIsLine(o);
    assert (last + line)[..|last + line| - 1] == last + line[..|line| - 1];
    AllLinesWellSplit(front + [last + line] + rest);
    ReadsBack(front + [last + line] + rest);
    JoinMerged(front, last, line, rest);
  }

  lemma NamesStart(line: string, rest: string, o: Required)
    requires |line| >= |o.key|
    ensures Names(line + rest, o) <==> Names(line, o)
  {
    assert (line + rest)[..|o.key|] == line[..|o.key|];
  }

  // After the option's name comes a character of the name itself, no space.
  lemma MergedDoesNotCarry(last: string, o: Required)
    requires last != "" && !Names(last, o) && forall c :: c in o.key ==> !IsSpace(c)
    ensures !Carries(last + Canonical(o), o)
  {
    var n := |o.key|;
    if |last| >= n {
      NamesStart(last, Canonical(o), o);
    } else {
      var merged := last + Canonical(o);
      assert merged[n..][0] == merged[n] == Canonical(o)[n - |last|] == o.key[n - |last|];
    }
  }

  lemma {:induction false} AppendedNamesOthers(os: seq<Required>, missing: set<string>, o: Required)
    requires forall i :: 0 <= i < |os| ==> !(o.key <= os[i].key) && !(os[i].key <= o.key)
    ensures NoneCarries(AppendMissing(os, missing), o)
  {
    if os != [] {
      AppendedNamesOthers(os[1..], missing, o);
      var line := Canonical(os[0]);
      assert Names(line, os[0]) by {
        assert line[..|os[0].key|] == os[0].key;
      }
      if Names(line, o) {
        NamesAtMostOne(line, os[0], o);
      }
    }
  }

  lemma {:induction false} NotFirstCarried(lines: seq<string>, o: Required)
    requires NoneCarries(lines, o)
    ensures !FirstCarries(lines, o) && !FirstGives(lines, o)
  {
    if lines != [] {
      NotFirstCarried(lines[1..], o);
    }
  }

  lemma OptionLost(os: seq<Required>, front: seq<string>, last: string, left: set<string>, k: nat)
    requires Independent(os) && Plain(os) && k < |os|
    requires AllLines(front) && NoneCarries(front, os[k]) && last != "" && '\n' !in last && !Names(last, os[k])
    ensures var appended := [Canonical(os[k])] + AppendMissing(os[k + 1..], left);
            NoneCarries(ReadLines(Join(front + [last] + appended)), os[k])
  {
    var rest := AppendMissing(os[k + 1..], left);
    AppendedAreLines(os[k + 1..], left);
    MergedLine(front, last, os[k], rest);
    MergedDoesNotCarry(last, os[k]);
    AppendedNamesOthers(os[k + 1..], left, os[k]);
  }

  // The first appended option runs into the last line and is lost.
  lemma LosesOption(os: seq<Required>, content: string) returns (k: nat)
    requires Independent(os) && Plain(os) && !AppendsSafely(os, content)
    ensures k < |os| && NoneCarries(ReadLines(RewriteFile(os, content)), os[k])
  {
    var lines := ReadLines(content);
    var n := |lines| - 1;
    ReadLinesWellSplit(content);
    LastTells(content);
    WellSplitFront(lines);
    KeptLast(os, lines);
    AppendedUnlessNamed(os, lines);
    var (kept, left) := RewriteLines(os, lines, Keys(os));
    k := FirstAppended(os, left);
    LeftOver(os, lines, Keys(os), k);
    assert kept == kept[..n] + [lines[n]];
    FrontKept(os, lines, k);
    OptionLost(os, kept[..n], lines[n], left, k);
  }

  // What is appended ends the file with a newline.
  lemma AppendedEnds(os: seq<Required>, content: string)
    requires Independent(os) && Plain(os) && !AppendsSafely(os, content)
    ensures Terminated(RewriteFile(os, content))
  {
    var (kept, left) := RewriteLines(os, ReadLines(content), Keys(os));
    var appended := AppendMissing(os, left);
    AppendedUnlessNamed(os, ReadLines(content));
    AppendedAreLines(os, left);
    AllLinesWellSplit(appended);
    JoinConcat(kept, appended);
    assert Join(appended) == appended[0] + Join(appended[1..]);
  }

  // For any file the promise is kept exactly when the file is safe to append
  // to and no line is mistaken. Rewriting the file again changes nothing
  // exactly when it is safe to append to.
  lemma RewriteFilePromise(os: seq<Required>, content: string)
    requires Independent(os) && Plain(os)
    ensures Satisfied(os, ReadLines(content), ReadLines(RewriteFile(os, content)))
       <==> AppendsSafely(os, content) && NoneMistaken(os, ReadLines(content))
    ensures RewriteFile(os, RewriteFile(os, content)) == RewriteFile(os, content) <==> AppendsSafely(os, content)
  {
    FileHoldsLines(os, content);
    if AppendsSafely(os, content) {
      RewriteSatisfies(os, ReadLines(content));
      RewriteTwice(os, ReadLines(content));
    } else {
      var k := LosesOption(os, content);
      var lines' := ReadLines(RewriteFile(os, content));
      NotFirstCarried(lines', os[k]);
      AppendedEnds(os, content);
      FileHoldsLines(os, RewriteFile(os, content));
      assert os[k].key in Keys(os);
      EveryOptionCarried(os, lines', Keys(os), k);
    }
  }

  lemma OneLineIsUnsafe(o: Required, line: string)
    requires line != "" && '\n' !in line && !Names(line, o)
    ensures !AppendsSafely([o], line)
  {
    LastLine(line);
    assert !Named([line], [o][0]);
  }

  // Without its final newline a file may lose an option.
  lemma UnterminatedFileLosesOption()
    ensures var os := [Required("A", "b")];
            !Satisfied(os, ReadLines("x"), ReadLines(RewriteFile(os, "x")))
  {
    var o := Required("A", "b");
    assert !Names("x", o) by {
      assert o.key[0] != "x"[0];
    }
    assert Plain([o]);
    OneLineIsUnsafe(o, "x");
    RewriteFilePromise([o], "x");
  }

  // A value that only begins with the required one passes the test.
  lemma LongerValuePasses(o: Required, more: string)
    requires '\n' !in o.key && '\n' !in o.value && '\n' !in more && Strip(o.value + more) != Strip(o.value)
    ensures var line := o.key + " " + o.value + (more + "\n");
            IsLine(line) && Carries(line, o) && !Gives(line, o)
  {
    var line := o.key + " " + o.value + (more + "\n");
    ValueAndMore(o, more + "\n");
    assert o.value + (more + "\n") == o.value + more + "\n";
    StripFramed(o.value + more);
    assert line[..|line| - 1] == o.key + " " + o.value + more;
  }

  // A file of one such line keeps it.
  lemma MisledFile(os: seq<Required>, k: nat, line: string)
    requires Independent(os) && Plain(os) && k < |os| && IsLine(line) && Carries(line, os[k]) && !Gives(line, os[k])
    ensures RewriteLines(os, ReadLines(line), Keys(os)).0 == [line]
    ensures !Satisfied(os, ReadLines(line), ReadLines(RewriteFile(os, line)))
  {
    LastLine(line);
    LineOf(os, line, Keys(os), k);
    assert [line][0] == line && [line][1..] == [];
    assert !NotMisled([line], os[k]);
    RewriteFilePromise(os, line);
  }

  lemma LongerValueIsKept(os: seq<Required>, k: nat, more: string)
    requires Independent(os) && Plain(os) && k < |os| && '\n' !in more
    requires more != "" && os[k].value != "" && Trimmed(os[k].value) && Trimmed(os[k].value + more)
    ensures var line := os[k].key + " " + os[k].value + (more + "\n");
            && RewriteLines(os, ReadLines(line), Keys(os)).0 == [line]
            && !Satisfied(os, ReadLines(line), ReadLines(RewriteFile(os, line)))
  {
    var o := os[k];
    assert '\n' !in o.key by {
      assert IsSpace('\n');
    }
    StripTrimmed(o.value);
    StripTrimmed(o.value + more);
    assert |o.value + more| > |o.value|;
    LongerValuePasses(o, more);
    MisledFile(os, k, o.key + " " + o.value + (more + "\n"));
  }

  lemma KeysFileLine(o: Required)
    requires o == Required("AuthorizedKeysFile", "%h/.ssh/authorized_keys")
    ensures o.key + " " + o.value + ("2" + "\n") == "AuthorizedKeysFile %h/.ssh/authorized_keys2\n"
    ensures o.value != "" && Trimmed(o.value) && Trimmed(o.value + "2")
  {
  }

  // sshd is left to read another file than the one the agent writes.
  lemma OtherKeysFileIsKept(amazon: bool)
    ensures var os, line := RequiredOptions(amazon), "AuthorizedKeysFile %h/.ssh/authorized_keys2\n";
            && RewriteLines(os, ReadLines(line), Keys(os)).0 == [line]
            && !Satisfied(os, ReadLines(line), ReadLines(RewriteFile(os, line)))
  {
    var os := RequiredOptions(amazon);
    RequiredOptionsIndependent(amazon);
    RequiredOptionsPlain(amazon);
    KeysFileLine(os[2]);
    LongerValueIsKept(os, 2, "2");
  }

  lemma SecondKeysFileLine(o: Required)
    requires o == Required("AuthorizedKeysFile", "%h/.ssh/authorized_keys")
    ensures var line := "AuthorizedKeysFile2 keys\n"; IsLine(line) && Names(line, o) && !Sets(line, o)
  {
    var line := "AuthorizedKeysFile2 keys\n";
    assert line == o.key + "2 keys\n" && line[..|line| - 1] == "AuthorizedKeysFile2 keys";
  }

  // A line of an option with a longer name is overwritten.
  lemma LongerNameIsLost(os: seq<Required>, k: nat, line: string)
    requires Independent(os) && Plain(os) && k < |os| && IsLine(line) && Names(line, os[k]) && !Sets(line, os[k])
    ensures RewriteLines(os, ReadLines(line), Keys(os)).0 == [Canonical(os[k])]
    ensures !Satisfied(os, ReadLines(line), ReadLines(RewriteFile(os, line)))
  {
    LastLine(line);
    LineOf(os, line, Keys(os), k);
    assert os[k].key in Keys(os) && [line][0] == line && [line][1..] == [];
    assert !FirstIsSet([line], os[k]);
    RewriteFilePromise(os, line);
  }

  lemma SecondKeysFileIsLost(amazon: bool)
    ensures var os, line := RequiredOptions(amazon), "AuthorizedKeysFile2 keys\n";
            && RewriteLines(os, ReadLines(line), Keys(os)).0 == [Canonical(os[2])]
            && !Satisfied(os, ReadLines(line), ReadLines(RewriteFile(os, line)))
  {
    var os, line := RequiredOptions(amazon), "AuthorizedKeysFile2 keys\n";
    RequiredOptionsIndependent(amazon);
    RequiredOptionsPlain(amazon);
    SecondKeysFileLine(os[2]);
    LongerNameIsLost(os, 2, line);
  }

  // --- Squeezing blank lines

  // content.replace('\n\n', '\n'): occurrences are found from the left and do
  // not overlap.
  function ReplaceDouble(s: string): string {
    if |s| < 2 then s
    else if s[0] == '\n' && s[1] == '\n' then "\n" + ReplaceDouble(s[2..])
    else [s[0]] + ReplaceDouble(s[1..])
  }

  predicate HasDouble(s: string) {
    |s| >= 2 && ((s[0] == '\n' && s[1] == '\n') || HasDouble(s[1..]))
  }

  // Every run of newlines shrunk to one.
  function Squeeze(s: string): string {
    if |s| < 2 then s
    else if s[0] == '\n' && s[1] == '\n' then Squeeze(s[1..])
    else [s[0]] + Squeeze(s[1..])
  }

  lemma {:induction false} NothingToSqueeze(s: string)
    requires !HasDouble(s)
    ensures Squeeze(s) == s
  {
    if |s| >= 2 {
      NothingToSqueeze(s[1..]);
    }
  }

  lemma {:induction false} ReplacingShrinks(s: string)
    ensures |ReplaceDouble(s)| <= |s| && (HasDouble(s) ==> |ReplaceDouble(s)| < |s|)
  {
    if |s| >= 2 {
      ReplacingShrinks(s[1..]);
      ReplacingShrinks(s[2..]);
    }
  }

  lemma {:induction false} ReplacingSqueezesAlike(s: string)
    ensures Squeeze(ReplaceDouble(s)) == Squeeze(s)
    ensures s != "" ==> ReplaceDouble(s) != "" && ReplaceDouble(s)[0] == s[0]
  {
    if |s| >= 2 {
      ReplacingSqueezesAlike(s[1..]);
      ReplacingSqueezesAlike(s[2..]);
      var r := ReplaceDouble(s);
      if s[0] == '\n' && s[1] == '\n' {
        assert r[1..] == ReplaceDouble(s[2..]);
        if |s| > 2 {
          assert s[1..][1..] == s[2..];
        }
      } else {
        assert r[1..] == ReplaceDouble(s[1..]);
      }
    }
  }

  lemma {:induction false} SqueezedHasNoDouble(s: string)
    ensures !HasDouble(Squeeze(s))
    ensures s != "" ==> Squeeze(s) != "" && Squeeze(s)[0] == s[0]
  {
    if |s| >= 2 {
      SqueezedHasNoDouble(s[1..]);
    }
  }

  // The lines that are not blank.
  function FilledLines(s: string): seq<string>
    decreases |s|
  {
    match Find(s, IsNewline)
    case None => if s == "" then [] else [s]
    case Some(i) => (if i > 0 then [s[..i]] else []) + FilledLines(s[i + 1..])
  }

  lemma FilledPiece(piece: string, rest: string)
    requires piece != "" && '\n' !in piece
    ensures FilledLines(piece) == [piece] && FilledLines(piece + ("\n" + rest)) == [piece] + FilledLines(rest)
  {
    var s := piece + ("\n" + rest);
    forall k | 0 <= k < |piece|
      ensures !IsNewline(piece[k]) && !IsNewline(s[k])
    {
    }
    FindAt(s, IsNewline, |piece|);
    assert s[..|piece|] == piece && s[|piece| + 1..] == rest;
  }

  lemma FilledBlank(rest: string)
    ensures FilledLines("\n" + rest) == FilledLines(rest)
  {
    var s := "\n" + rest;
    FindAt(s, IsNewline, 0);
    assert s[1..] == rest;
  }

  // A character before a line joins it, or makes a line before a newline.
  lemma FilledInFront(c: char, s: string)
    requires c != '\n'
    ensures s == "" || s[0] == '\n' ==> FilledLines([c] + s) == [[c]] + FilledLines(s)
    ensures s != "" && s[0] != '\n' ==>
      FilledLines(s) != [] && FilledLines([c] + s) == [[c] + FilledLines(s)[0]] + FilledLines(s)[1..]
  {
    var i := Find(s, IsNewline);
    if i.Some? {
      var piece, rest := s[..i.value], s[i.value + 1..];
      assert s == piece + ("\n" + rest) && [c] + s == [c] + piece + ("\n" + rest);
      FilledPiece([c] + piece, rest);
      if i.value > 0 {
        FilledPiece(piece, rest);
      } else {
        FilledBlank(rest);
        assert [c] + piece == [c] && s == "\n" + rest;
      }
    } else if s != "" {
      FilledPiece(s, "");
      FilledPiece([c] + s, "");
    } else {
      FilledPiece([c], "");
      assert [c] + s == [c];
    }
  }

  // Squeezing keeps every line that is not blank, in order.
  lemma {:induction false} SqueezeKeepsLines(s: string)
    ensures FilledLines(Squeeze(s)) == FilledLines(s)
  {
    if |s| >= 2 {
      SqueezeKeepsLines(s[1..]);
      assert s == [s[0]] + s[1..];
      if s[0] == '\n' {
        FilledBlank(s[1..]);
        FilledBlank(Squeeze(s[1..]));
      } else {
        SqueezedHasNoDouble(s[1..]);
        FilledInFront(s[0], s[1..]);
        FilledInFront(s[0], Squeeze(s[1..]));
      }
    }
  }

  method Check(content: string) returns (r: string)
    ensures r == Squeeze(content) + if content != "" && Terminated(Squeeze(content)) then "" else "\n"
  {
    r := content;
    while HasDouble(r)
      invariant Squeeze(r) == Squeeze(content)
      decreases |r|
    {
      ReplacingSqueezesAlike(r);
      ReplacingShrinks(r);
      r := ReplaceDouble(r);
    }
    NothingToSqueeze(r);
    SqueezedHasNoDouble(content);
    if r == "" || r[|r| - 1] != '\n' {
      r := r + "\n";
    }
  }

  // --- The loops

  // The first n lines have been rewritten.
  ghost predicate Rewriting(os: seq<Required>, lines: seq<string>, missing: set<string>, n: nat,
                            newLines: seq<string>, variables: set<string>) {
    && n <= |lines|
    && RewriteLines(os, lines, missing).0 == newLines + RewriteLines(os, lines[n..], variables).0
    && RewriteLines(os, lines, missing).1 == RewriteLines(os, lines[n..], variables).1
  }

  lemma RewriteNext(os: seq<Required>, lines: seq<string>, missing: set<string>, n: nat,
                    newLines: seq<string>, variables: set<string>)
    requires n < |lines| && Rewriting(os, lines, missing, n, newLines, variables)
    ensures Rewriting(os, lines, missing, n + 1,
                      newLines + [RewriteLine(os, lines[n], variables)], StillMissing(os, lines[n], variables))
  {
    var line, left := RewriteLine(os, lines[n], variables), StillMissing(os, lines[n], variables);
    assert lines[n..][0] == lines[n] && lines[n..][1..] == lines[n + 1..];
    ConcatAssociative(newLines, [line], RewriteLines(os, lines[n + 1..], left).0);
  }

  // The position of the option that the line names, or the end.
  lemma NamedOption(os: seq<Required>, line: string) returns (k: nat)
    ensures if k < |os| then Names(line, os[k]) else k == |os| && NamesNone(os, line)
    ensures NamesNone(os, line) ==> forall missing ::
      RewriteLine(os, line, missing) == line && StillMissing(os, line, missing) == missing
  {
    if j :| 0 <= j < |os| && Names(line, os[j]) {
      k := j;
    } else {
      k := |os|;
      forall missing
        ensures RewriteLine(os, line, missing) == line && StillMissing(os, line, missing) == missing
      {
        LineOfNone(os, line, missing);
      }
    }
  }

  // Neither the line nor its rewriting names any other option.
  lemma OnlyNamed(os: seq<Required>, line: string, missing: set<string>, k: nat, i: nat)
    requires Independent(os) && i < |os|
    requires if k < |os| then Names(line, os[k]) else NamesNone(os, line)
    ensures Names(line, os[i]) <==> i == k
    ensures Names(RewriteLine(os, line, missing), os[i]) <==> i == k
    ensures i == k ==>
      && RewriteLine(os, line, missing)
           == (if os[i].key in missing && !Carries(line, os[i]) then Canonical(os[i]) else line)
      && StillMissing(os, line, missing) == missing - {os[i].key}
  {
    RewrittenNames(os, line, missing, i);
    if k < |os| {
      LineOf(os, line, missing, k);
      if i != k && Names(line, os[i]) {
        NamesAtMostOne(line, os[i], os[k]);
      }
    }
  }

  // The inner loop tries every option on the line, also on one it has just
  // rewritten.
  method RewriteOne(line0: string, os: seq<Required>, missing: set<string>)
    returns (line: string, variables: set<string>)
    requires Independent(os)
    ensures line == RewriteLine(os, line0, missing) && variables == StillMissing(os, line0, missing)
  {
    line, variables := line0, missing;
    ghost var k := NamedOption(os, line0);
    for i := 0 to |os|
      invariant if k < i then line == RewriteLine(os, line0, missing) && variables == StillMissing(os, line0, missing)
                else line == line0 && variables == missing
    {
      OnlyNamed(os, line0, missing, k, i);
      if Carries(line, os[i]) {
        variables := variables - {os[i].key};
      } else if Names(line, os[i]) && os[i].key in variables {
        line := Canonical(os[i]);
        variables := variables - {os[i].key};
      }
    }
  }

  method RewriteAll(lines: seq<string>, os: seq<Required>, missing: set<string>)
    returns (newLines: seq<string>, variables: set<string>)
    requires Independent(os)
    ensures newLines == RewriteLines(os, lines, missing).0 && variables == RewriteLines(os, lines, missing).1
  {
    newLines, variables := [], missing;
    assert lines[0..] == lines;
    for n := 0 to |lines|
      invariant Rewriting(os, lines, missing, n, newLines, variables)
    {
      RewriteNext(os, lines, missing, n, newLines, variables);
      var line;
      line, variables := RewriteOne(lines[n], os, variables);
      newLines := newLines + [line];
    }
    assert lines[|lines|..] == [] && newLines + [] == newLines;
  }

  lemma {:induction false} AppendOneMore(os: seq<Required>, o: Required, missing: set<string>)
    ensures AppendMissing(os + [o], missing)
         == if o.key in missing then AppendMissing(os, missing) + [Canonical(o)] else AppendMissing(os, missing)
  {
    if os == [] {
      assert os + [o] == [o];
    } else {
      assert (os + [o])[1..] == os[1..] + [o];
      AppendOneMore(os[1..], o, missing);
      var first := if os[0].key in missing then [Canonical(os[0])] else [];
      ConcatAssociative(first, AppendMissing(os[1..], missing), [Canonical(o)]);
    }
  }

  // The options that no line named, in order.
  method AppendRest(os: seq<Required>, missing: set<string>) returns (appended: seq<string>)
    ensures appended == AppendMissing(os, missing)
  {
    appended := [];
    for i := 0 to |os|
      invariant appended == AppendMissing(os[..i], missing)
    {
      AppendOneMore(os[..i], os[i], missing);
      assert os[..i] + [os[i]] == os[..i + 1];
      if os[i].key in missing {
        appended := appended + [Canonical(os[i])];
      }
    }
    assert os[..|os|] == os;
  }

  method SetupSshdConfig(lines: seq<string>, os: seq<Required>) returns (newLines: seq<string>)
    requires Independent(os)
    ensures newLines == Rewrite(os, lines)
  {
    var variables := set i | 0 <= i < |os| :: os[i].key;
    newLines, variables := RewriteAll(lines, os, variables);
    var appended := AppendRest(os, variables);
    newLines := newLines + appended;
  }

  // The file is written only when a line has changed.
  method SetupFile(content: string, amazon: bool) returns (r: string)
    ensures r == RewriteFile(RequiredOptions(amazon), content)
  {
    var os := RequiredOptions(amazon);
    var lines := ReadLines(content);
    RequiredOptionsIndependent(amazon);
    var newLines := SetupSshdConfig(lines, os);
    if newLines != lines {
      r := Join(newLines);
    } else {
      JoinReadLines(content);
      r := content;
    }
  }

  // What the handler promises of any sshd_config: exactly when it is safe to
  // append to and no line in it is mistaken, every required option gets its
  // value and the lines of other options are kept.
  lemma SetupFilePromise(content: string, amazon: bool)
    ensures var os := RequiredOptions(amazon);
            var r := RewriteFile(os, content);
            var promised := AppendsSafely(os, content) && NoneMistaken(os, ReadLines(content));
            && (Satisfied(os, ReadLines(content), ReadLines(r)) <==> promised)
            && (RewriteFile(os, r) == r <==> AppendsSafely(os, content))
  {
    RequiredOptionsIndependent(amazon);
    RequiredOptionsPlain(amazon);
    RewriteFilePromise(RequiredOptions(amazon), content);
  }
}
