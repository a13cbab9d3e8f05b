// The few string operations of Python that the modelled code relies on.
module Text {
  import opened Wrappers

  predicate IsSpace(c: char) {
    c == ' ' || c == '\t' || c == '\n' || c == '\r' || c == (11 as char) || c == (12 as char)
  }

  function StripLeft(s: string): string {
    if s != "" && IsSpace(s[0]) then StripLeft(s[1..]) else s
  }

  function StripRight(s: string): string {
    if s != "" && IsSpace(s[|s| - 1]) then StripRight(s[..|s| - 1]) else s
  }

  // s.strip()
  function Strip(s: string): string {
    StripRight(StripLeft(s))
  }

  // The position of the first character satisfying p.
  function Find(s: string, p: char -> bool): (r: Option<nat>)
    ensures r.Some? ==> r.value < |s| && p(s[r.value]) && forall i :: 0 <= i < r.value ==> !p(s[i])
    ensures r == None ==> forall i :: 0 <= i < |s| ==> !p(s[i])
  {
    if s == "" then None
    else if p(s[0]) then Some(0)
    else
      match Find(s[1..], p)
      case None => None
      case Some(i) => Some(i + 1)
  }

  lemma {:induction false} FindAt(s: string, p: char -> bool, i: nat)
    requires i < |s| && p(s[i]) && forall k :: 0 <= k < i ==> !p(s[k])
    ensures Find(s, p) == Some(i)
  {
    var r := Find(s, p);
  }

  // No space at either end.
  ghost predicate Trimmed(s: string) {
    s != "" ==> !IsSpace(s[0]) && !IsSpace(s[|s| - 1])
  }

  ghost predicate AllSpaces(s: string) {
    forall i :: 0 <= i < |s| ==> IsSpace(s[i])
  }

  lemma {:induction false} StripLeftSlice(s: string) returns (a: nat)
    ensures a <= |s| && StripLeft(s) == s[a..] && AllSpaces(s[..a])
    ensures a < |s| ==> !IsSpace(s[a])
  {
    a := 0;
    if s != "" && IsSpace(s[0]) {
      var n := StripLeftSlice(s[1..]);
      a := n + 1;
      forall i | 0 <= i < a
        ensures IsSpace(s[i])
      {
        assert i > 0 ==> s[i] == s[1..][..n][i - 1];
      }
    }
  }

  lemma {:induction false} StripRightSlice(s: string) returns (b: nat)
    ensures b <= |s| && StripRight(s) == s[..b] && AllSpaces(s[b..])
    ensures 0 < b ==> !IsSpace(s[b - 1])
  {
    b := |s|;
    if s != "" && IsSpace(s[|s| - 1]) {
      var n := |s| - 1;
      b := StripRightSlice(s[..n]);
      forall i | b <= i < |s|
        ensures IsSpace(s[i])
      {
        assert i < n ==> s[i] == s[..n][b..][i - b];
      }
    }
  }

  // Stripping cuts spaces off both ends.
  lemma {:induction false} StripSlice(s: string) returns (a: nat, b: nat)
    ensures a <= b <= |s| && Strip(s) == s[a..b] && Trimmed(Strip(s))
    ensures AllSpaces(s[..a]) && AllSpaces(s[b..])
  {
    a := StripLeftSlice(s);
    b := StripRightSlice(s[a..]);
    assert s[a..][..b] == s[a..a + b];
    forall i | a + b <= i < |s|
      ensures IsSpace(s[i])
    {
      assert s[i] == s[a..][b..][i - a - b];
    }
    b := a + b;
  }

  // A text that starts with no space loses spaces at its end only.
  lemma StripFromStart(s: string) returns (b: nat)
    requires s != "" && !IsSpace(s[0])
    ensures 0 < b <= |s| && Strip(s) == s[..b] && AllSpaces(s[b..]) && !IsSpace(s[b - 1])
  {
    b := StripRightSlice(s);
    assert s[0..] == s;
  }

  lemma StripTrimmed(s: string)
    requires Trimmed(s)
    ensures Strip(s) == s
  {
  }

  lemma {:induction false} StripLeftSnoc(s: string, c: char)
    requires IsSpace(c)
    ensures StripLeft(s + [c]) == if StripLeft(s) == "" then "" else StripLeft(s) + [c]
  {
    if s == "" {
      assert s + [c] == [c] && [c][1..] == "";
    } else if IsSpace(s[0]) {
      assert (s + [c])[1..] == s[1..] + [c];
      StripLeftSnoc(s[1..], c);
    }
  }

  lemma StripSnoc(s: string, c: char)
    requires IsSpace(c)
    ensures Strip(s + [c]) == Strip(s)
  {
    StripLeftSnoc(s, c);
    var left := StripLeft(s);
    assert (left + [c])[..|left|] == left;
  }

  // Spaces around a text do not change what is left of it.
  lemma {:induction false} StripAround(s: string, t: string)
    requires AllSpaces(t)
    ensures Strip(t + s) == Strip(s) && Strip(s + t) == Strip(s)
    decreases |t|
  {
    if t == "" {
      assert s + t == s && t + s == s;
    } else {
      var n := |t| - 1;
      StripAround(s, t[1..]);
      assert (t + s)[1..] == t[1..] + s;
      StripAround(s, t[..n]);
      StripSnoc(s + t[..n], t[n]);
      assert s + t == s + t[..n] + [t[n]];
    }
  }

  // --- Lines

  // A line with its newline.
  predicate IsLine(l: string) {
    l != "" && l[|l| - 1] == '\n' && '\n' !in l[..|l| - 1]
  }

  // A line that may lack its newline.
  predicate IsPiece(l: string) {
    l != "" && '\n' !in l[..|l| - 1]
  }

  predicate AllLines(ls: seq<string>) {
    forall i :: 0 <= i < |ls| ==> IsLine(ls[i])
  }

  // Is the text empty or does it end with a newline?
  predicate Terminated(s: string) {
    s != "" ==> s[|s| - 1] == '\n'
  }

  predicate IsNewline(c: char) {
    c == '\n'
  }

  // The lines of a text, each with its newline if it has one.
  function ReadLines(s: string): seq<string>
    decreases |s|
  {
    match Find(s, IsNewline)
    case None => if s == "" then [] else [s]
    case Some(i) => [s[..i + 1]] + ReadLines(s[i + 1..])
  }

  function Join(ls: seq<string>): string {
    if ls == [] then "" else ls[0] + Join(ls[1..])
  }

  lemma {:induction false} JoinConcat(a: seq<string>, b: seq<string>)
    ensures Join(a + b) == Join(a) + Join(b)
  {
    if a == [] {
      assert a + b == b;
    } else {
      assert (a + b)[1..] == a[1..] + b;
      JoinConcat(a[1..], b);
    }
  }

  lemma JoinSnoc(a: seq<string>, l: string)
    ensures Join(a + [l]) == Join(a) + l
  {
    JoinConcat(a, [l]);
    assert Join([l]) == l;
  }

  lemma {:induction false} JoinReadLines(s: string)
    ensures Join(ReadLines(s)) == s
    decreases |s|
  {
    var i := Find(s, IsNewline);
    if i.Some? {
      JoinReadLines(s[i.value + 1..]);
      assert ReadLines(s)[1..] == ReadLines(s[i.value + 1..]);
      assert s == s[..i.value + 1] + s[i.value + 1..];
    }
  }

  lemma {:induction false} ReadLinesOfTerminated(s: string)
    requires Terminated(s)
    ensures AllLines(ReadLines(s))
    decreases |s|
  {
    match Find(s, IsNewline) {
      case None => assert s != "" ==> IsNewline(s[|s| - 1]);
      case Some(n) =>
        ReadLinesOfTerminated(s[n + 1..]);
        assert s[..n + 1][..n] == s[..n];
    }
  }

  // All lines but the last have their newline.
  predicate WellSplit(ls: seq<string>) {
    ls != [] ==>
      if |ls| == 1 then IsPiece(ls[0])
      else IsLine(ls[0]) && WellSplit(ls[1..])
  }

  lemma {:induction false} AllLinesWellSplit(ls: seq<string>)
    requires AllLines(ls)
    ensures WellSplit(ls) && Terminated(Join(ls))
  {
    if ls != [] {
      AllLinesWellSplit(ls[1..]);
    }
  }

  lemma FirstLine(l: string, rest: string)
    requires IsLine(l)
    ensures Find(l + rest, IsNewline) == Some(|l| - 1)
    ensures ReadLines(l + rest) == [l] + ReadLines(rest)
  {
    var s, n := l + rest, |l| - 1;
    forall k | 0 <= k < n
      ensures !IsNewline(s[k])
    {
      assert s[k] == l[..n][k];
    }
    assert IsNewline(s[n]);
    assert s[..n + 1] == l && s[n + 1..] == rest;
  }

  lemma {:induction false} ReadLinesWellSplit(s: string)
    ensures WellSplit(ReadLines(s))
    decreases |s|
  {
    var i := Find(s, IsNewline);
    if i.Some? {
      ReadLinesWellSplit(s[i.value + 1..]);
      assert IsLine(s[..i.value + 1]);
      assert ReadLines(s)[1..] == ReadLines(s[i.value + 1..]);
    }
  }

  lemma {:induction false} SplitConcat(a: seq<string>, b: seq<string>)
    requires WellSplit(a) && WellSplit(b)
    ensures WellSplit(a + b) <==> (b == [] || a == [] || IsLine(a[|a| - 1]))
  {
    if a == [] {
      assert a + b == b;
    } else if b == [] {
      assert a + b == a;
    } else {
      assert (a + b)[1..] == a[1..] + b;
      SplitConcat(a[1..], b);
    }
  }

  // All lines but the last have their newline, and the last has no other.
  lemma {:induction false} WellSplitFront(ls: seq<string>)
    requires WellSplit(ls) && ls != []
    ensures AllLines(ls[..|ls| - 1]) && IsPiece(ls[|ls| - 1])
    ensures !IsLine(ls[|ls| - 1]) ==> '\n' !in ls[|ls| - 1]
  {
    var n := |ls| - 1;
    if n > 0 {
      WellSplitFront(ls[1..]);
      assert ls[1..][..n - 1] == ls[..n][1..];
    } else {
      assert ls[0][..|ls[0]| - 1] + [ls[0][|ls[0]| - 1]] == ls[0];
    }
  }

  lemma {:induction false} WellSplitPieces(ls: seq<string>)
    requires WellSplit(ls)
    ensures forall i :: 0 <= i < |ls| ==> IsPiece(ls[i])
    ensures forall i :: 0 <= i < |ls| - 1 ==> IsLine(ls[i])
  {
    if |ls| > 1 {
      WellSplitPieces(ls[1..]);
      forall i | 0 < i < |ls|
        ensures IsPiece(ls[i]) && (i < |ls| - 1 ==> IsLine(ls[i]))
      {
        assert ls[i] == ls[1..][i - 1];
      }
    }
  }

  // The last line has its newline exactly when the text ends with one.
  lemma LastTells(s: string)
    requires s != ""
    ensures ReadLines(s) != [] && (IsLine(ReadLines(s)[|ReadLines(s)| - 1]) <==> Terminated(s))
  {
    var ls := ReadLines(s);
    ReadLinesWellSplit(s);
    JoinReadLines(s);
    WellSplitFront(ls);
    if Terminated(s) {
      ReadLinesOfTerminated(s);
    } else if IsLine(ls[|ls| - 1]) {
      AllLinesWellSplit(ls);
    }
  }

  lemma LastLine(l: string)
    requires IsPiece(l)
    ensures ReadLines(l) == [l]
  {
    if l[|l| - 1] == '\n' {
      FirstLine(l, "");
      assert l + "" == l;
    } else {
      forall k | 0 <= k < |l|
        ensures !IsNewline(l[k])
      {
        assert k < |l| - 1 ==> l[k] == l[..|l| - 1][k];
      }
    }
  }

  // What is written reads back the same exactly when it was well split.
  lemma {:induction false} ReadsBack(ls: seq<string>)
    ensures ReadLines(Join(ls)) == ls <==> WellSplit(ls)
  {
    ReadLinesWellSplit(Join(ls));
    if WellSplit(ls) && ls != [] {
      if |ls| > 1 {
        ReadsBack(ls[1..]);
        FirstLine(ls[0], Join(ls[1..]));
      } else {
        assert Join(ls) == ls[0];
        LastLine(ls[0]);
      }
    }
  }
}
