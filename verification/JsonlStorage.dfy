/** The buffered, date-split event log of `aggregator/storage.py`. */
module JsonlStorage {
  import opened Wrappers
  import opened TextLines

  /** A calendar date, as a day number. */
  type Day = nat

  /** The storage with each file as the list of lines appended to it. */
  datatype Journal = Journal(buffer: seq<string>, lastFlush: real, files: map<Day, seq<string>>)

  /** One flush on `day`, finished at `stamp`; it may fail to open the file. */
  function Flushed(j: Journal, day: Day, stamp: real, opens: bool): Journal {
    if j.buffer == [] || !opens then j
    else Journal([], stamp, j.files[day := GetOr(j.files, day, []) + j.buffer])
  }

  function Buffered(j: Journal, line: string): Journal { j.(buffer := j.buffer + [line]) }

  /** One write: the line is buffered first, and a flush follows when it is due. */
  function Written(j: Journal, line: string, now: real, interval: int, day: Day, stamp: real, opens: bool): Journal {
    var j' := Buffered(j, line);
    if now - j.lastFlush >= interval as real then Flushed(j', day, stamp, opens) else j'
  }

  /** A due write whose file opens leaves nothing in the buffer; everything written is then on disk. */
  lemma DueWriteReachesDisk(
    j: Journal, written: seq<string>, today: Day, line: string, now: real, interval: int, day: Day, stamp: real
  )
    requires Accounts(j, written, today) && today <= day && now - j.lastFlush >= interval as real
    ensures var j' := Written(j, line, now, interval, day, stamp, true);
      && j'.buffer == [] && j'.lastFlush == stamp && OnDisk(j'.files, day + 1) == written + [line]
      && (forall d :: d != day ==> GetOr(j'.files, d, []) == GetOr(j.files, d, []))
      && GetOr(j'.files, day, []) == GetOr(j.files, day, []) + j.buffer + [line]
  {
    hide Accounts, OnDisk;
    WriteAccounts(j, written, today, line, now, interval, day, stamp, true);
    var j' := Written(j, line, now, interval, day, stamp, true);
    OnDiskAccounts(j', written + [line], day);
    assert GetOr(j.files, day, []) + (j.buffer + [line]) == GetOr(j.files, day, []) + j.buffer + [line];
  }

  lemma OnDiskAccounts(j: Journal, written: seq<string>, today: Day)
    requires Accounts(j, written, today) && j.buffer == []
    ensures OnDisk(j.files, today + 1) == written
  {}

  /** The files of the days before `n`, one after the other. */
  function OnDisk(files: map<Day, seq<string>>, n: Day): seq<string> {
    if n == 0 then [] else OnDisk(files, n - 1) + GetOr(files, n - 1, [])
  }

  /** Everything ever written is on disk in date order, or in the buffer behind it. */
  ghost predicate Accounts(j: Journal, written: seq<string>, today: Day) {
    && (forall d :: d in j.files ==> d <= today)
    && OnDisk(j.files, today + 1) + j.buffer == written
  }

  lemma {:induction false} OnDiskBelow(files: map<Day, seq<string>>, day: Day, lines: seq<string>, n: Day)
    requires n <= day
    ensures OnDisk(files[day := lines], n) == OnDisk(files, n)
  {
    if n > 0 {
      OnDiskBelow(files, day, lines, n - 1);
    }
  }

  lemma {:induction false} OnDiskBeyond(files: map<Day, seq<string>>, today: Day, n: Day)
    requires (forall d :: d in files ==> d <= today) && today < n
    ensures OnDisk(files, n) == OnDisk(files, today + 1)
  {
    if n > today + 1 {
      OnDiskBeyond(files, today, n - 1);
    }
  }

  /** A day change, or none, keeps the accounts. */
  lemma DayPasses(j: Journal, written: seq<string>, today: Day, day: Day)
    requires Accounts(j, written, today) && today <= day
    ensures Accounts(j, written, day)
  {
    OnDiskBeyond(j.files, today, day + 1);
  }

  /** A flush, successful or not, keeps the accounts. */
  lemma FlushAccounts(j: Journal, written: seq<string>, today: Day, day: Day, stamp: real, opens: bool)
    requires Accounts(j, written, today) && today <= day
    ensures Accounts(Flushed(j, day, stamp, opens), written, day)
    ensures opens ==> Flushed(j, day, stamp, opens).buffer == []
  {
    DayPasses(j, written, today, day);
    if j.buffer != [] && opens {
      OnDiskBelow(j.files, day, GetOr(j.files, day, []) + j.buffer, day);
      assert OnDisk(j.files, day) + (GetOr(j.files, day, []) + j.buffer) == OnDisk(j.files, day + 1) + j.buffer;
    }
  }

  /** A write keeps the accounts, with the new line last, even when its flush fails. */
  lemma WriteAccounts(
    j: Journal, written: seq<string>, today: Day, line: string, now: real, interval: int, day: Day, stamp: real,
    opens: bool
  )
    requires Accounts(j, written, today) && today <= day
    ensures Accounts(Written(j, line, now, interval, day, stamp, opens), written + [line], day)
  {
    var j' := Buffered(j, line);
    assert OnDisk(j.files, today + 1) + (j.buffer + [line]) == OnDisk(j.files, today + 1) + j.buffer + [line];
    FlushAccounts(j', written + [line], today, day, stamp, opens);
    DayPasses(j', written + [line], today, day);
  }

  /** What the files say: each holds what it held at first, and then the lines appended to it. */
  ghost predicate Renders(texts: map<Day, string>, initial: map<Day, string>, files: map<Day, seq<string>>) {
    forall d: Day :: GetOr(texts, d, "") == GetOr(initial, d, "") + Unlines(GetOr(files, d, []))
  }

  /** The texts of the files of the days before `n`, one after the other. */
  function DiskText(texts: map<Day, string>, n: Day): string {
    if n == 0 then "" else DiskText(texts, n - 1) + GetOr(texts, n - 1, "")
  }

  /** In a new directory the files, one after the other, are the text of the lines on disk. */
  lemma {:induction false} DiskTextIsUnlines(texts: map<Day, string>, files: map<Day, seq<string>>, n: Day)
    requires Renders(texts, map[], files)
    ensures DiskText(texts, n) == Unlines(OnDisk(files, n))
  {
    hide Unlines, Renders;
    if n > 0 {
      DiskTextIsUnlines(texts, files, n - 1);
      UnlinesConcat(OnDisk(files, n - 1), GetOr(files, n - 1, []));
      RendersDay(texts, files, n - 1);
    } else {
      UnlinesOfNone();
    }
  }

  lemma RendersDay(texts: map<Day, string>, files: map<Day, seq<string>>, d: Day)
    requires Renders(texts, map[], files)
    ensures GetOr(texts, d, "") == Unlines(GetOr(files, d, []))
  {
    assert GetOr(map[], d, "") + Unlines(GetOr(files, d, [])) == Unlines(GetOr(files, d, []));
  }

  lemma AppendText(text: string, start: string, earlier: seq<string>, lines: seq<string>)
    requires text == start + Unlines(earlier) && lines != []
    ensures text + (Join(lines) + "\n") == start + Unlines(earlier + lines)
  {
    JoinUnlines(lines);
    UnlinesConcat(earlier, lines);
  }

  lemma AppendRenders(
    texts: map<Day, string>, initial: map<Day, string>, files: map<Day, seq<string>>, day: Day, lines: seq<string>
  )
    requires Renders(texts, initial, files) && lines != []
    ensures Renders(texts[day := GetOr(texts, day, "") + (Join(lines) + "\n")], initial,
      files[day := GetOr(files, day, []) + lines])
  {
    hide Join, Unlines;
    AppendText(GetOr(texts, day, ""), GetOr(initial, day, ""), GetOr(files, day, []), lines);
  }

  class JsonlStorage {
    const flushInterval: int
    var buffer: seq<string>
    var lastFlush: real
    var texts: map<Day, string>

    ghost const initial: map<Day, string>
    ghost var files: map<Day, seq<string>>
    ghost var written: seq<string>
    ghost var today: Day

    ghost function View(): Journal
      reads this
    {
      Journal(buffer, lastFlush, files)
    }

    ghost predicate Valid()
      reads this
    {
      Accounts(View(), written, today) && Renders(texts, initial, files)
    }

    constructor (flushInterval: int, now: real, directory: map<Day, string>)
      ensures Valid() && written == [] && files == map[] && today == 0 && texts == directory == initial
      ensures this.flushInterval == flushInterval
    {
      this.flushInterval := flushInterval;
      buffer, lastFlush, texts := [], now, directory;
      initial, files, written, today := directory, map[], [], 0;
    }

    /** The file of the day has gained these lines at its end, and no other file has changed. */
    ghost predicate Gains(files0: map<Day, seq<string>>, texts0: map<Day, string>, day: Day, lines: seq<string>)
      reads this
    {
      && files == files0[day := GetOr(files0, day, []) + lines]
      && texts == texts0[day := GetOr(texts0, day, "") + Unlines(lines)]
    }

    /** Appends an encoded event; raises only when a due flush cannot open its file, and loses nothing then. */
    method Write(line: string, now: real, day: Day, stamp: real, opens: bool) returns (raised: bool)
      requires Valid() && today <= day
      modifies this
      ensures Valid() && today == day && written == old(written) + [line]
      ensures View() == Written(old(View()), line, now, flushInterval, day, stamp, opens)
      ensures raised <==> now - old(lastFlush) >= flushInterval as real && !opens
      ensures if now - old(lastFlush) >= flushInterval as real && opens
        then buffer == [] && lastFlush == stamp && Gains(old(files), old(texts), day, old(buffer) + [line])
        else buffer == old(buffer) + [line] && lastFlush == old(lastFlush) && files == old(files) && texts == old(texts)
    {
      hide Accounts, Renders;
      WriteAccounts(View(), written, today, line, now, flushInterval, day, stamp, opens);
      buffer := buffer + [line];
      raised := false;
      if now - lastFlush >= flushInterval as real {
        raised := DoFlush(day, stamp, opens);
      }
      written, today := written + [line], day;
    }

    method Flush(day: Day, stamp: real, opens: bool) returns (raised: bool)
      requires Valid() && today <= day
      modifies this
      ensures Valid() && today == day && written == old(written)
      ensures View() == Flushed(old(View()), day, stamp, opens)
      ensures raised <==> old(buffer) != [] && !opens
      ensures if old(buffer) != [] && opens
        then buffer == [] && lastFlush == stamp && Gains(old(files), old(texts), day, old(buffer))
        else buffer == old(buffer) && lastFlush == old(lastFlush) && files == old(files) && texts == old(texts)
    {
      hide Accounts, Renders;
      FlushAccounts(View(), written, today, day, stamp, opens);
      raised := DoFlush(day, stamp, opens);
      today := day;
    }

    /** Appends the whole buffer to the file of the day; the buffer is cleared only after that. */
    method DoFlush(day: Day, stamp: real, opens: bool) returns (raised: bool)
      requires Renders(texts, initial, files)
      modifies this`buffer, this`lastFlush, this`texts, this`files
      ensures Renders(texts, initial, files)
      ensures View() == Flushed(old(View()), day, stamp, opens)
      ensures raised <==> old(buffer) != [] && !opens
      ensures if old(buffer) != [] && opens
        then buffer == [] && lastFlush == stamp && Gains(old(files), old(texts), day, old(buffer))
        else buffer == old(buffer) && lastFlush == old(lastFlush) && files == old(files) && texts == old(texts)
    {
      if buffer == [] {
        return false;
      }
      if !opens {
        return true;
      }
      AppendRenders(texts, initial, files, day, buffer);
      JoinUnlines(buffer);
      hide Renders, Join, Unlines;
      var lines := Join(buffer) + "\n";
      texts := texts[day := GetOr(texts, day, "") + lines];
      files := files[day := GetOr(files, day, []) + buffer];
      buffer := [];
      lastFlush := stamp;
      raised := false;
    }

    /** A file that did not exist before reads back as the lines written to it. */
    lemma ReadBack(day: Day)
      requires Valid() && day !in initial && day in files && AllOneLine(files[day])
      ensures Split(GetOr(texts, day, "")) == files[day] + [""]
    {
      hide Unlines, Split;
      SplitUnlines(files[day]);
      assert GetOr(texts, day, "") == GetOr(initial, day, "") + Unlines(GetOr(files, day, []));
      assert GetOr(texts, day, "") == Unlines(files[day]);
    }
  }
}
