/** Lists of lines as text: Python's `"\n".join`, `split("\n")` and newline-terminated files. */
module TextLines {

  ghost predicate OneLine(l: string) { forall i :: 0 <= i < |l| ==> l[i] != '\n' }

  ghost predicate AllOneLine(ls: seq<string>) { forall i :: 0 <= i < |ls| ==> OneLine(ls[i]) }

  function Join(ls: seq<string>): string {
    if ls == [] then "" else if |ls| == 1 then ls[0] else ls[0] + "\n" + Join(ls[1..])
  }

  /** A file of these lines, each ended by a newline. */
  function Unlines(ls: seq<string>): string {
    if ls == [] then "" else ls[0] + "\n" + Unlines(ls[1..])
  }

  lemma UnlinesOfNone()
    ensures Unlines([]) == ""
  {}

  function Split(text: string): (ls: seq<string>)
    ensures ls != []
  {
    if text == "" then [""]
    else
      var rest := Split(text[1..]);
      if text[0] == '\n' then [""] + rest else [[text[0]] + rest[0]] + rest[1..]
  }

  lemma {:induction false} JoinUnlines(ls: seq<string>)
    requires ls != []
    ensures Join(ls) + "\n" == Unlines(ls)
  {
    if |ls| > 1 {
      JoinUnlines(ls[1..]);
      assert ls[0] + "\n" + Join(ls[1..]) + "\n" == ls[0] + "\n" + (Join(ls[1..]) + "\n");
    }
  }

  lemma {:induction false} UnlinesConcat(a: seq<string>, b: seq<string>)
    ensures Unlines(a + b) == Unlines(a) + Unlines(b)
  {
    if a == [] {
      assert a + b == b;
    } else {
      assert (a + b)[1..] == a[1..] + b;
      UnlinesConcat(a[1..], b);
    }
  }

  lemma {:induction false} SplitLine(l: string, text: string)
    requires OneLine(l)
    ensures Split(l + "\n" + text) == [l] + Split(text)
    ensures Split(l) == [l]
  {
    if l == "" {
      assert ("" + "\n" + text)[1..] == text;
    } else {
      SplitLine(l[1..], text);
      assert (l + "\n" + text)[1..] == l[1..] + "\n" + text;
      assert [l[0]] + l[1..] == l;
    }
  }

  /** The first line begins, and the last one ends, where the text does. */
  lemma {:induction false} SplitEdges(text: string)
    requires text != ""
    ensures text[0] != '\n' ==> Split(text)[0] != "" && Split(text)[0][0] == text[0]
    ensures text[|text| - 1] != '\n' ==>
      var last := Split(text)[|Split(text)| - 1]; last != "" && last[|last| - 1] == text[|text| - 1]
  {
    if |text| > 1 {
      SplitEdges(text[1..]);
      var rest := Split(text[1..]);
      assert text[1..][|text| - 2] == text[|text| - 1];
    }
  }

  /** Splitting undoes joining. */
  lemma {:induction false} SplitJoin(ls: seq<string>)
    requires ls != [] && AllOneLine(ls)
    ensures Split(Join(ls)) == ls
  {
    SplitLine(ls[0], "");
    if |ls| > 1 {
      SplitLine(ls[0], Join(ls[1..]));
      SplitJoin(ls[1..]);
    }
  }

  /** A file of one-line records reads back as these records, and nothing after the last newline. */
  lemma {:induction false} SplitUnlines(ls: seq<string>)
    requires AllOneLine(ls)
    ensures Split(Unlines(ls)) == ls + [""]
  {
    if ls != [] {
      SplitLine(ls[0], Unlines(ls[1..]));
      SplitUnlines(ls[1..]);
    }
  }
}
