/** The incremental file reader of `honeypots/external/log_bridge.py`. */
module LogBridge {
  import opened Wrappers
  import opened TextLines

  /** ASCII whitespace, as `str.strip` removes it. */
  predicate IsSpace(c: char) { c == ' ' || '\t' <= c <= '\r' || '\U{1C}' <= c <= '\U{1F}' }

  function StripLeft(s: string): string {
    if s != "" && IsSpace(s[0]) then StripLeft(s[1..]) else s
  }

  function StripRight(s: string): string {
    if s != "" && IsSpace(s[|s| - 1]) then StripRight(s[..|s| - 1]) else s
  }

  function Strip(s: string): string { StripLeft(StripRight(s)) }

  function NonBlank(ls: seq<string>): seq<string> {
    if ls == [] then [] else (if Strip(ls[0]) != "" then [ls[0]] else []) + NonBlank(ls[1..])
  }

  /** These are the blank characters of ASCII, the four separators included. */
  lemma BlankCharacters(c: char)
    requires c <= '\U{7F}'
    ensures IsSpace(c) <==>
      c in [' ', '\t', '\n', '\U{0B}', '\U{0C}', '\r', '\U{1C}', '\U{1D}', '\U{1E}', '\U{1F}']
  {}

  ghost predicate AllSpace(s: string) { forall i :: 0 <= i < |s| ==> IsSpace(s[i]) }

  lemma SpaceFirst(s: string, i: nat)
    requires s != "" && i <= |s| - 1 && IsSpace(s[0]) && AllSpace(s[1..][..i])
    ensures AllSpace(s[..i + 1]) && s[1..][i..] == s[i + 1..]
  {
    hide IsSpace;
    forall k | 0 < k < i + 1 ensures IsSpace(s[k]) {
      assert s[k] == s[1..][..i][k - 1];
    }
  }

  lemma SpaceLast(s: string, j: nat)
    requires s != "" && j <= |s| - 1 && IsSpace(s[|s| - 1]) && AllSpace(s[..|s| - 1][j..])
    ensures AllSpace(s[j..]) && s[..|s| - 1][..j] == s[..j]
  {
    hide IsSpace;
    forall k | j <= k < |s| - 1 ensures IsSpace(s[k]) {
      assert s[k] == s[..|s| - 1][j..][k - j];
    }
  }

  lemma {:induction false} StripLeftMeaning(s: string)
    ensures exists i :: 0 <= i <= |s| && StripLeft(s) == s[i..] && AllSpace(s[..i])
    ensures StripLeft(s) != "" ==> !IsSpace(StripLeft(s)[0])
  {
    hide IsSpace;
    if s != "" && IsSpace(s[0]) {
      StripLeftMeaning(s[1..]);
      var i :| 0 <= i <= |s[1..]| && StripLeft(s[1..]) == s[1..][i..] && AllSpace(s[1..][..i]);
      SpaceFirst(s, i);
    } else {
      assert s == s[0..] && AllSpace(s[..0]);
    }
  }

  lemma {:induction false} StripRightMeaning(s: string)
    ensures exists j :: 0 <= j <= |s| && StripRight(s) == s[..j] && AllSpace(s[j..])
    ensures StripRight(s) != "" ==> !IsSpace(StripRight(s)[|StripRight(s)| - 1])
  {
    hide IsSpace;
    if s != "" && IsSpace(s[|s| - 1]) {
      var init := s[..|s| - 1];
      StripRightMeaning(init);
      var j :| 0 <= j <= |init| && StripRight(init) == init[..j] && AllSpace(init[j..]);
      SpaceLast(s, j);
    } else {
      assert s == s[..|s|] && AllSpace(s[|s|..]);
    }
  }

  /** Stripping leaves nothing exactly of a blank line. */
  lemma StripBlank(s: string)
    ensures Strip(s) == "" <==> AllSpace(s)
  {
    hide StripLeft, StripRight, IsSpace;
    var t := StripRight(s);
    StripRightMeaning(s);
    StripLeftMeaning(t);
    var j :| 0 <= j <= |s| && t == s[..j] && AllSpace(s[j..]);
    var i :| 0 <= i <= |t| && StripLeft(t) == t[i..] && AllSpace(t[..i]);
    if Strip(s) == "" {
      assert t[..i] == t && s == t + s[j..];
    }
    if Strip(s) != "" {
      assert s[i] == Strip(s)[0];
    }
  }

  /** What stripping and splitting keeps: the lines with a character that is not blank, in order, and no other. */
  lemma {:induction false} NonBlankMeaning(ls: seq<string>, l: string)
    ensures NonBlank(ls + [l]) == NonBlank(ls) + if AllSpace(l) then [] else [l]
    ensures forall x :: x in NonBlank(ls) <==> x in ls && !AllSpace(x)
  {
    hide Strip, AllSpace;
    if ls == [] {
      StripBlank(l);
      assert [] + [l] == [l] && [l][1..] == [];
    } else {
      StripBlank(ls[0]);
      NonBlankMeaning(ls[1..], l);
      assert (ls + [l])[1..] == ls[1..] + [l];
      assert ls == [ls[0]] + ls[1..];
    }
  }

  /** The lines in a stretch of the log. */
  function ParseLines(data: string): seq<string> { NonBlank(Split(Strip(data))) }

  lemma StripEdges(s: string)
    requires Strip(s) != ""
    ensures !IsSpace(Strip(s)[0]) && !IsSpace(Strip(s)[|Strip(s)| - 1])
  {
    hide StripLeft, StripRight, IsSpace;
    var t := StripRight(s);
    StripRightMeaning(s);
    StripLeftMeaning(t);
    var i :| 0 <= i <= |t| && StripLeft(t) == t[i..] && AllSpace(t[..i]);
    assert t[i..][|t[i..]| - 1] == t[|t| - 1];
  }

  /** However ragged the stretch, its lines begin with a character that is not blank, and end with one. */
  lemma ParsedEdges(data: string)
    requires ParseLines(data) != []
    ensures var lines := ParseLines(data);
      var first, last := lines[0], lines[|lines| - 1];
      first != "" && !IsSpace(first[0]) && last != "" && !IsSpace(last[|last| - 1])
  {
    hide Strip, IsSpace, Split;
    var text := Strip(data);
    if text == "" {
      OneBlankLine();
      assert false;
    }
    NoBreakAt(text[0]);
    NoBreakAt(text[|text| - 1]);
    StripEdges(data);
    SplitEdges(text);
    var ls := Split(text);
    EdgeLines(ls);
  }

  lemma OneBlankLine()
    ensures NonBlank(Split("")) == []
  {
    assert Strip("") == "";
  }

  lemma NoBreakAt(c: char)
    ensures !IsSpace(c) ==> c != '\n'
  {}

  /** Lines that are not blank at either end of a list are kept there. */
  lemma EdgeLines(ls: seq<string>)
    requires ls != [] && ls[0] != "" && !IsSpace(ls[0][0])
    requires var last := ls[|ls| - 1]; last != "" && !IsSpace(last[|last| - 1])
    ensures NonBlank(ls) != [] && NonBlank(ls)[0] == ls[0] && NonBlank(ls)[|NonBlank(ls)| - 1] == ls[|ls| - 1]
  {
    hide Strip, IsSpace;
    StripBlank(ls[0]);
    assert Strip(ls[0]) != "";
    var init, last := ls[..|ls| - 1], ls[|ls| - 1];
    NonBlankMeaning(init, last);
    assert ls == init + [last] && !AllSpace(last);
  }

  /** One poll of a file at a saved position: the new lines and the new position. */
  function Poll(text: string, saved: nat): (seq<string>, nat) {
    var from := if |text| < saved then 0 else saved;
    if |text| == from then ([], saved) else (ParseLines(text[from..]), |text|)
  }

  /** A log line as the honeypots write it: not blank, without line breaks or surrounding whitespace. */
  ghost predicate Clean(l: string) {
    l != "" && OneLine(l) && '\r' !in l && !IsSpace(l[0]) && !IsSpace(l[|l| - 1])
  }

  ghost predicate AllClean(ls: seq<string>) { forall i :: 0 <= i < |ls| ==> Clean(ls[i]) }

  lemma {:induction false} CleanJoin(ls: seq<string>)
    requires ls != [] && AllClean(ls)
    ensures Join(ls) != "" && !IsSpace(Join(ls)[0]) && !IsSpace(Join(ls)[|Join(ls)| - 1])
  {
    assert Clean(ls[0]);
    if |ls| > 1 {
      CleanJoin(ls[1..]);
      var rest := Join(ls[1..]);
      assert Join(ls) == ls[0] + "\n" + rest;
      assert Join(ls)[|Join(ls)| - 1] == rest[|rest| - 1];
    }
  }

  lemma {:induction false} CleanNonBlank(ls: seq<string>)
    requires AllClean(ls)
    ensures NonBlank(ls) == ls
  {
    if ls != [] {
      assert Clean(ls[0]);
      assert Strip(ls[0]) == ls[0];
      CleanNonBlank(ls[1..]);
    }
  }

  /** Reading back what was appended gives exactly the appended lines. */
  lemma ParseUnlines(ls: seq<string>)
    requires AllClean(ls)
    ensures ParseLines(Unlines(ls)) == ls
  {
    if ls == [] {
      assert Strip("") == "" && NonBlank([""]) == [];
    } else {
      var text := Join(ls);
      JoinUnlines(ls);
      CleanJoin(ls);
      assert (text + "\n")[..|text|] == text;
      assert StripRight(text + "\n") == StripRight(text) == text && StripLeft(text) == text;
      assert AllOneLine(ls);
      SplitJoin(ls);
      CleanNonBlank(ls);
    }
  }

  lemma {:induction false} StripShorter(s: string)
    ensures |StripRight(s)| <= |s| && |StripLeft(s)| <= |s|
    decreases |s|
  {
    if s != "" {
      StripShorter(s[1..]);
      StripShorter(s[..|s| - 1]);
    }
  }

  lemma {:induction false} SplitSize(s: string)
    ensures |Unlines(Split(s))| == |s| + 1
  {
    if s != "" {
      var rest := Split(s[1..]);
      SplitSize(s[1..]);
      assert rest == [rest[0]] + rest[1..];
      if s[0] == '\n' {
        assert ([""] + rest)[1..] == rest;
      } else {
        assert ([[s[0]] + rest[0]] + rest[1..])[1..] == rest[1..];
      }
    }
  }

  lemma {:induction false} NonBlankSize(ls: seq<string>)
    ensures |Unlines(NonBlank(ls))| <= |Unlines(ls)|
  {
    if ls != [] {
      NonBlankSize(ls[1..]);
      if Strip(ls[0]) != "" {
        assert NonBlank(ls)[1..] == NonBlank(ls[1..]);
      } else {
        assert NonBlank(ls) == NonBlank(ls[1..]);
      }
    }
  }

  /** Parsing never finds more text than there is. */
  lemma ParseShorter(data: string)
    requires data != "" && data[|data| - 1] == '\n'
    ensures |Unlines(ParseLines(data))| <= |data|
  {
    var inner := StripRight(data);
    assert inner == StripRight(data[..|data| - 1]);
    StripShorter(data[..|data| - 1]);
    StripShorter(inner);
    SplitSize(Strip(data));
    NonBlankSize(Split(Strip(data)));
  }

  lemma {:induction false} UnlinesEnd(ls: seq<string>)
    requires ls != []
    ensures Unlines(ls) != "" && Unlines(ls)[|Unlines(ls)| - 1] == '\n'
  {
    JoinUnlines(ls);
  }

  /** The first poll of a rewritten file reads its lines from the start exactly when the file is smaller than
      the saved position (or nothing had been read). */
  lemma TruncationDetected(ls: seq<string>, saved: nat)
    requires ls != [] && AllClean(ls)
    ensures Poll(Unlines(ls), saved).0 == ls <==> |Unlines(ls)| < saved || saved == 0
  {
    var text := Unlines(ls);
    ParseUnlines(ls);
    UnlinesEnd(ls);
    assert text[0..] == text;
    if 0 < saved < |text| {
      SuffixShorter(text, saved);
    }
  }

  /** What happens to a tailed file: lines are appended, it is replaced by a new one, or it is polled. */
  datatype Event = Append(lines: seq<string>) | Rewrite(lines: seq<string>) | Polled

  /** A file whose first `base` characters were there at the start, the lines since, and the saved position.
      `unread` are the lines not yet delivered; `stale` says that the position belongs to an older file. */
  datatype Tail = Tail(base: string, lines: seq<string>, saved: nat, unread: seq<string>, stale: bool)

  function Text(t: Tail): string { t.base + Unlines(t.lines) }

  function Step(t: Tail, e: Event): Tail {
    match e
    case Append(ls) => t.(lines := t.lines + ls, unread := t.unread + ls)
    case Rewrite(ls) => Tail("", ls, t.saved, ls, true)
    case Polled =>
      var saved := Poll(Text(t), t.saved).1;
      if t.unread == [] then t.(saved := saved) else t.(saved := saved, unread := [], stale := false)
  }

  function Delivered(t: Tail, e: Event): seq<string> { if e.Polled? then Poll(Text(t), t.saved).0 else [] }

  /** The lines delivered over a run. */
  function Observed(t: Tail, run: seq<Event>): seq<string>
    decreases |run|
  {
    if run == [] then [] else Delivered(t, run[0]) + Observed(Step(t, run[0]), run[1..])
  }

  /** The lines that ought to be delivered: at each poll, what was added since the last one, or the whole of a
      new file. */
  function Expected(unread: seq<string>, run: seq<Event>): seq<string>
    decreases |run|
  {
    if run == [] then []
    else match run[0]
      case Append(ls) => Expected(unread + ls, run[1..])
      case Rewrite(ls) => Expected(ls, run[1..])
      case Polled => unread + Expected([], run[1..])
  }

  /** Only clean lines are written to the file. */
  ghost predicate CleanRun(run: seq<Event>) {
    forall i :: 0 <= i < |run| && !run[i].Polled? ==> AllClean(run[i].lines)
  }

  lemma CleanTail(run: seq<Event>)
    requires run != [] && CleanRun(run)
    ensures (!run[0].Polled? ==> AllClean(run[0].lines)) && CleanRun(run[1..])
  {
    assert forall i :: 0 <= i < |run[1..]| ==> run[1..][i] == run[i + 1];
  }

  /** A poll reads the unread lines, unless they are in a new file that is not smaller than the saved position. */
  predicate Notices(t: Tail) { t.stale && t.unread != [] ==> |Text(t)| < t.saved || t.saved == 0 }

  /** The first poll that finds a new file nonempty finds it smaller than the saved position. Polls that find it
      empty change nothing. */
  predicate Noticed(t: Tail, run: seq<Event>)
    decreases |run|
  {
    run == [] || ((run[0].Polled? ==> Notices(t)) && Noticed(Step(t, run[0]), run[1..]))
  }

  /** The saved position stands right before the unread lines, or the file is a new one of which nothing is read. */
  ghost predicate InPlace(t: Tail) {
    && AllClean(t.unread) && |t.unread| <= |t.lines|
    && t.lines[|t.lines| - |t.unread|..] == t.unread
    && (if t.stale then t.base == "" && t.unread == t.lines
        else t.saved == |t.base| + |Unlines(t.lines[..|t.lines| - |t.unread|])|)
  }

  lemma AppendInPlace(t: Tail, ls: seq<string>)
    requires InPlace(t) && AllClean(ls)
    ensures InPlace(Step(t, Append(ls)))
  {
    var n := |t.lines| - |t.unread|;
    assert (t.lines + ls)[..n] == t.lines[..n] && (t.lines + ls)[n..] == t.unread + ls;
  }

  lemma TextSplit(t: Tail)
    requires InPlace(t) && !t.stale
    ensures t.saved <= |Text(t)| && Text(t)[t.saved..] == Unlines(t.unread)
  {
    var n := |t.lines| - |t.unread|;
    assert t.lines == t.lines[..n] + t.unread;
    UnlinesConcat(t.lines[..n], t.unread);
    assert Text(t) == (t.base + Unlines(t.lines[..n])) + Unlines(t.unread);
  }

  /** A poll delivers the unread lines and saves the end of the file. */
  lemma PollInPlace(t: Tail)
    requires InPlace(t) && Notices(t)
    ensures Delivered(t, Polled) == t.unread && InPlace(Step(t, Polled))
    ensures Step(t, Polled).unread == []
  {
    hide Unlines, ParseLines, Clean;
    UnlinesOfNone();
    ParseUnlines(t.unread);
    if t.unread != [] {
      UnlinesEnd(t.unread);
    }
    if t.stale {
      assert Text(t) == Unlines(t.unread) && Text(t)[0..] == Text(t);
    } else {
      TextSplit(t);
    }
    assert t.lines[..|t.lines|] == t.lines;
  }

  /** Over any run each poll delivers exactly the lines not delivered yet, in order: those appended since the last
      one, or those of a new file, provided the new file is noticed. */
  lemma {:induction false} TailsExactlyOnce(t: Tail, run: seq<Event>)
    requires InPlace(t) && CleanRun(run) && Noticed(t, run)
    ensures Observed(t, run) == Expected(t.unread, run)
    decreases |run|
  {
    if run != [] {
      CleanTail(run);
      match run[0]
      case Append(ls) =>
        AppendInPlace(t, ls);
        TailsExactlyOnce(Step(t, run[0]), run[1..]);
      case Rewrite(ls) =>
        assert ls[0..] == ls;
        TailsExactlyOnce(Step(t, run[0]), run[1..]);
      case Polled =>
        PollInPlace(t);
        TailsExactlyOnce(Step(t, run[0]), run[1..]);
    }
  }

  /** The watcher starts at the current end of the file, whatever is in it. */
  lemma StartInPlace(text: string)
    ensures InPlace(Started(text))
  {
    hide Unlines, Clean;
    UnlinesOfNone();
  }

  /** All lines put into the file over a run: appended, or in a file that replaced it. */
  function Recorded(run: seq<Event>): seq<string> {
    if run == [] then []
    else (match run[0] case Append(ls) => ls case Rewrite(ls) => ls case Polled => []) + Recorded(run[1..])
  }

  /** How many lines were still unread when their file was replaced. */
  function Dropped(unread: seq<string>, run: seq<Event>): nat
    decreases |run|
  {
    if run == [] then 0
    else match run[0]
      case Append(ls) => Dropped(unread + ls, run[1..])
      case Rewrite(ls) => |unread| + Dropped(ls, run[1..])
      case Polled => Dropped([], run[1..])
  }

  lemma {:induction false} ExpectedRecorded(unread: seq<string>, run: seq<Event>)
    ensures |Expected(unread, run + [Polled])| + Dropped(unread, run) == |unread| + |Recorded(run)|
    ensures Dropped(unread, run) == 0 ==> Expected(unread, run + [Polled]) == unread + Recorded(run)
    decreases |run|
  {
    if run == [] {
      assert [Polled][1..] == [];
    } else {
      assert (run + [Polled])[1..] == run[1..] + [Polled];
      match run[0]
      case Append(ls) => ExpectedRecorded(unread + ls, run[1..]);
      case Rewrite(ls) => ExpectedRecorded(ls, run[1..]);
      case Polled => ExpectedRecorded([], run[1..]);
    }
  }

  /** A file as the watcher finds it. */
  function Started(text: string): Tail { Tail(text, [], |text|, [], false) }

  /** A poll that does not notice a new file reads less than it holds, and never reads the rest. */
  lemma UnnoticedPoll(t: Tail)
    requires InPlace(t) && !Notices(t)
    ensures |Unlines(Delivered(t, Polled))| < |Unlines(t.unread)|
    ensures InPlace(Step(t, Polled)) && Step(t, Polled).unread == []
  {
    hide Unlines, ParseLines, Clean;
    UnlinesEnd(t.lines);
    UnlinesOfNone();
    assert Text(t) == Unlines(t.lines) && t.lines[..|t.lines|] == t.lines;
    if t.saved < |Unlines(t.lines)| {
      SuffixShorter(Unlines(t.lines), t.saved);
    }
  }

  lemma SuffixShorter(text: string, from: nat)
    requires 0 < from < |text| && text[|text| - 1] == '\n'
    ensures |Unlines(ParseLines(text[from..]))| < |text|
  {
    hide Unlines, ParseLines;
    var data := text[from..];
    assert data[|data| - 1] == text[|text| - 1];
    ParseShorter(data);
  }

  /** No run delivers more text than was unread or recorded, and a run with an unnoticed file delivers less. */
  lemma {:induction false} UnnoticedLosesText(t: Tail, run: seq<Event>)
    requires InPlace(t) && CleanRun(run)
    ensures |Unlines(Observed(t, run))| <= |Unlines(t.unread)| + |Unlines(Recorded(run))|
    ensures !Noticed(t, run) ==> |Unlines(Observed(t, run))| < |Unlines(t.unread)| + |Unlines(Recorded(run))|
    decreases |run|
  {
    hide Unlines, InPlace, Notices, Poll;
    if run == [] {
      UnlinesOfNone();
    } else {
      var t', rest := Step(t, run[0]), Observed(Step(t, run[0]), run[1..]);
      CleanTail(run);
      StepInPlace(t, run[0]);
      UnnoticedLosesText(t', run[1..]);
      UnlinesOfNone();
      UnlinesConcat(Delivered(t, run[0]), rest);
      match run[0]
      case Append(ls) =>
        UnlinesConcat(t.unread, ls);
        UnlinesConcat(ls, Recorded(run[1..]));
      case Rewrite(ls) =>
        UnlinesConcat(ls, Recorded(run[1..]));
      case Polled =>
        UnlinesConcat([], Recorded(run[1..]));
        if Notices(t) {
          PollInPlace(t);
        } else {
          UnnoticedPoll(t);
        }
    }
  }

  lemma StepInPlace(t: Tail, e: Event)
    requires InPlace(t) && (!e.Polled? ==> AllClean(e.lines))
    ensures InPlace(Step(t, e))
    ensures e.Polled? ==> Step(t, e).unread == []
  {
    match e
    case Append(ls) => AppendInPlace(t, ls);
    case Rewrite(ls) => assert ls[0..] == ls;
    case Polled =>
      if Notices(t) {
        PollInPlace(t);
      } else {
        UnnoticedPoll(t);
      }
  }

  lemma {:induction false} RecordedAndPoll(run: seq<Event>)
    ensures Recorded(run + [Polled]) == Recorded(run)
  {
    if run == [] {
      assert [Polled][1..] == [];
    } else {
      assert (run + [Polled])[1..] == run[1..] + [Polled];
      RecordedAndPoll(run[1..]);
    }
  }

  /** For every run of clean lines, from the start of the watcher and with a poll at the end: the lines delivered
      are exactly all lines recorded since, each once and in order, if and only if every new file is noticed and
      no file was replaced while it had unread lines. */
  lemma EachLineOnce(text: string, run: seq<Event>)
    requires CleanRun(run)
    ensures Observed(Started(text), run + [Polled]) == Recorded(run)
       <==> Noticed(Started(text), run + [Polled]) && Dropped([], run) == 0
  {
    hide Noticed, Observed, Expected, Dropped, Recorded, InPlace, Unlines, AllClean;
    StartInPlace(text);
    assert CleanRun(run + [Polled]);
    if Noticed(Started(text), run + [Polled]) {
      TailsExactlyOnce(Started(text), run + [Polled]);
      ExpectedRecorded([], run);
    } else {
      UnlinesOfNone();
      UnnoticedLosesText(Started(text), run + [Polled]);
      RecordedAndPoll(run);
    }
  }

  /** A new file that is not smaller than the saved position is not noticed: after `ab` was in the file at the start,
      the line `abc` of the file that replaces it is never delivered. */
  lemma UnnoticedRewrite()
    ensures var run := [Rewrite(["abc"])];
      && CleanRun(run) && Dropped([], run) == 0 && !Noticed(Started("ab\n"), run + [Polled])
      && Observed(Started("ab\n"), run + [Polled]) != Recorded(run)
  {
    var t, run := Started("ab\n"), [Rewrite(["abc"])];
    var t' := Step(t, run[0]);
    assert Unlines(["abc"]) == "abc\n";
    assert run[1..] == [] && Dropped(["abc"], []) == 0;
    assert (run + [Polled])[1..] == [Polled] && !Notices(t');
    EachLineOnce("ab\n", run);
  }

  /** Without rewrites there is nothing to notice. */
  lemma {:induction false} AppendsNoticed(t: Tail, run: seq<Event>)
    requires !t.stale && forall i :: 0 <= i < |run| ==> !run[i].Rewrite?
    ensures Noticed(t, run) && Dropped(t.unread, run) == 0
    decreases |run|
  {
    hide Poll;
    if run != [] {
      AppendsNoticed(Step(t, run[0]), run[1..]);
    }
  }

  lemma {:induction false} DroppedPrefix(unread: seq<string>, run: seq<Event>)
    ensures Dropped(unread, run + [Polled]) == Dropped(unread, run)
    decreases |run|
  {
    if run == [] {
      assert [Polled][1..] == [];
    } else {
      assert (run + [Polled])[1..] == run[1..] + [Polled];
      match run[0]
      case Append(ls) => DroppedPrefix(unread + ls, run[1..]);
      case Rewrite(ls) => DroppedPrefix(ls, run[1..]);
      case Polled => DroppedPrefix([], run[1..]);
    }
  }

  /** So a log that is only appended to is delivered completely: exactly the lines appended since the start. */
  lemma AppendsDelivered(text: string, run: seq<Event>)
    requires CleanRun(run) && forall i :: 0 <= i < |run| ==> !run[i].Rewrite?
    ensures Observed(Started(text), run + [Polled]) == Recorded(run)
  {
    hide Noticed, Observed, Dropped, Recorded;
    AppendsNoticed(Started(text), run + [Polled]);
    DroppedPrefix([], run);
    EachLineOnce(text, run);
  }

  function Paths(sources: seq<(string, string)>): set<string> { set source | source in sources :: source.1 }

  /** The current end of every source; a missing file has size 0. */
  function Ends(files: map<string, string>, paths: set<string>): map<string, nat> {
    map path | path in paths :: |GetOr(files, path, "")|
  }

  lemma EndsAppend(files: map<string, string>, sources: seq<(string, string)>, i: nat)
    requires i < |sources|
    ensures Ends(files, Paths(sources[..i + 1]))
      == Ends(files, Paths(sources[..i]))[sources[i].1 := |GetOr(files, sources[i].1, "")|]
  {
    assert sources[..i + 1] == sources[..i] + [sources[i]];
    assert Paths(sources[..i + 1]) == Paths(sources[..i]) + {sources[i].1};
  }

  lemma EndsAt(files: map<string, string>, sources: seq<(string, string)>, source: (string, string))
    requires source in sources
    ensures var ends := Ends(files, Paths(sources));
      source.1 in ends && ends[source.1] == |GetOr(files, source.1, "")|
  {}

  lemma EndsOfNone(files: map<string, string>)
    ensures Ends(files, Paths([])) == map[]
  {}

  class LogBridge {
    var logPaths: seq<(string, string)>
    var filePositions: map<string, nat>

    constructor ()
      ensures logPaths == [] && filePositions == map[]
    {
      logPaths, filePositions := [], map[];
    }

    method AddLogSource(name: string, path: string)
      modifies this
      ensures logPaths == old(logPaths) + [(name, path)] && filePositions == old(filePositions)[path := 0]
    {
      logPaths := logPaths + [(name, path)];
      filePositions := filePositions[path := 0];
    }

    /** Starts every source at the current end of its file; a missing file has size 0. */
    method Start(files: map<string, string>)
      modifies this
      ensures logPaths == old(logPaths)
      ensures filePositions == old(filePositions) + Ends(files, Paths(logPaths))
      ensures forall source :: source in logPaths ==>
        source.1 in filePositions && filePositions[source.1] == |GetOr(files, source.1, "")|
    {
      hide Ends, Paths;
      EndsOfNone(files);
      var i := 0;
      assert logPaths[..0] == [] && old(filePositions) + map[] == old(filePositions);
      while i < |logPaths|
        invariant 0 <= i <= |logPaths|
        invariant filePositions == old(filePositions) + Ends(files, Paths(logPaths[..i]))
        modifies this`filePositions
      {
        EndsAppend(files, logPaths, i);
        filePositions := filePositions[logPaths[i].1 := |GetOr(files, logPaths[i].1, "")|];
        i := i + 1;
      }
      assert logPaths[..|logPaths|] == logPaths;
      forall source | source in logPaths
        ensures source.1 in filePositions && filePositions[source.1] == |GetOr(files, source.1, "")| {
        EndsAt(files, logPaths, source);
      }
    }

    /** Polls one file; a missing file is left alone. */
    method ReadNewLines(path: string, file: Option<string>) returns (lines: seq<string>)
      modifies this
      ensures logPaths == old(logPaths)
      ensures file.None? ==> lines == [] && filePositions == old(filePositions)
      ensures file.Some? ==>
        var (polled, saved) := Poll(file.value, GetOr(old(filePositions), path, 0));
        lines == polled && GetOr(filePositions, path, 0) == saved
      ensures forall other :: other != path ==> Lookup(filePositions, other) == Lookup(old(filePositions), other)
    {
      hide ParseLines;
      if file.None? {
        return [];
      }
      var currentSize := |file.value|;
      var lastPos := GetOr(filePositions, path, 0);
      if currentSize < lastPos {
        lastPos := 0;
      }
      if currentSize == lastPos {
        return [];
      }
      var data := file.value[lastPos..];
      filePositions := filePositions[path := currentSize];
      lines := LinesOf(data);
    }

    /** Strips and splits a stretch of the log and drops blank lines. */
    method LinesOf(data: string) returns (lines: seq<string>)
      ensures lines == ParseLines(data)
    {
      hide Split, Strip;
      lines := [];
      var pieces := Split(Strip(data));
      var i := 0;
      while i < |pieces|
        invariant 0 <= i <= |pieces| && lines + NonBlank(pieces[i..]) == NonBlank(pieces)
      {
        assert pieces[i..][0] == pieces[i] && pieces[i..][1..] == pieces[i + 1..];
        if Strip(pieces[i]) != "" {
          lines := lines + [pieces[i]];
        }
        i := i + 1;
      }
    }
  }
}
