/** Which file a record goes to, and when a new one is begun. */
module MetricFiles {
  import opened Seqs
  import opened MetricItem
  import opened FileNames
  import opened MetricLog

  /** The day of a second, counted from the base. */
  function Day(c: Config, second: int): int {
    (second - c.dayBase) / 86400
  }

  /** The date changes with the days counted from the base, as it does in a time zone whose offset never changes. */
  ghost predicate HasFixedDays(c: Config) {
    forall s, t :: c.date(s) == c.date(t) <==> Day(c, s) == Day(c, t)
  }

  /** At least it never changes in between, from the first second a writer can be made in. */
  ghost predicate DaysAgree(c: Config) {
    forall s, t :: 1 <= s <= t && c.dayBase <= s && t * 1000 <= INT64_MAX && Day(c, s) == Day(c, t) ==>
      c.date(s) == c.date(t)
  }

  /** Every record in a file of its own day. */
  ghost predicate InOwnDay(c: Config, f: TokFile) {
    forall i :: 0 <= i < |f.toks| && f.toks[i].Rec? ==> f.entry.date == c.date(Second(f.toks[i].item.timestamp))
  }

  ghost predicate AllInOwnDay(c: Config, files: seq<TokFile>) {
    forall i :: 0 <= i < |files| ==> InOwnDay(c, files[i])
  }

  function Size(c: Config, f: TokFile): nat {
    |Lines(LineOf(c), Recs(f.toks))|
  }

  /** Why a file is followed by the next: it is full, or the next is of another day, or it was begun in vain. */
  ghost predicate IsDone(c: Config, f: TokFile, next: TokFile) {
    Size(c, f) >= c.singleFileSize || f.entry.date != next.entry.date || Recs(f.toks) == []
  }

  /** Told only where the date shows a new day. */
  ghost predicate AllDone(c: Config, files: seq<TokFile>) {
    HasFixedDays(c) ==> forall i :: 0 <= i < |files| - 1 ==> IsDone(c, files[i], files[i + 1])
  }

  /** Between calls: the file in use is of the current day, and not full. */
  ghost predicate InUse(c: Config, log: Log) {
    log.files != [] ==>
      Last(log.files).entry.date == c.date(log.lastSecond)
      && (c.singleFileSize > 0 ==> Size(c, Last(log.files)) < c.singleFileSize)
  }

  ghost predicate Kept(c: Config, log: Log) {
    AllInOwnDay(c, log.files) && AllDone(c, log.files) && InUse(c, log) && log.lastSecond >= 1
    && log.lastSecond >= c.dayBase
  }

  // ---------------------------------------------------------------- each step

  lemma NewFileIsLast(c: Config, log: Log, time: int)
    requires c.totalFileCount >= 1
    ensures var n, k := NewFile(c, log, time), Surplus(c, |log.files|);
      && k <= |log.files| && |n.files| == |log.files| - k + 1
      && (forall i :: 0 <= i < |n.files| - 1 ==> n.files[i] == log.files[k + i])
      && Last(n.files).toks == [] && Last(n.files).entry.date == c.date(time / 1000)
  {
  }

  /** A new file after a last one that is done. */
  lemma NewFileKeepsFiles(c: Config, log: Log, time: int)
    requires c.totalFileCount >= 1 && AllInOwnDay(c, log.files) && AllDone(c, log.files)
    requires HasFixedDays(c) && log.files != [] ==>
      var f := Last(log.files);
      Size(c, f) >= c.singleFileSize || f.entry.date != c.date(time / 1000) || Recs(f.toks) == []
    ensures var n := NewFile(c, log, time); AllInOwnDay(c, n.files) && AllDone(c, n.files)
    ensures Size(c, Last(NewFile(c, log, time).files)) == 0
  {
    var n, k := NewFile(c, log, time), Surplus(c, |log.files|);
    NewFileIsLast(c, log, time);
    forall i | HasFixedDays(c) && 0 <= i < |n.files| - 1 ensures IsDone(c, n.files[i], n.files[i + 1]) {
      if i + 1 < |n.files| - 1 {
        assert IsDone(c, log.files[k + i], log.files[k + i + 1]);
      } else {
        assert n.files[i] == Last(log.files);
      }
    }
  }

  lemma {:induction false} RecordsAt(items: seq<Item>, i: nat)
    requires i < |Records(items)|
    ensures |Records(items)| == |items| && Records(items)[i] == Rec(items[i])
  {
    if i > 0 {
      RecordsAt(items[1..], i - 1);
    } else if |items| > 1 {
      RecordsAt(items[1..], 0);
    }
  }

  lemma {:induction false} StampedAt(items: seq<Item>, time: Int64, i: nat)
    requires i < |Stamp(items, time)|
    ensures Stamp(items, time)[i].timestamp == time
  {
    if i > 0 {
      StampedAt(items[1..], time, i - 1);
    }
  }

  lemma PutInLast(log: Log, toks: seq<Tok>)
    requires log.files != []
    ensures var n := Put(log, toks);
      && |n.files| == |log.files| && Last(n.files) == Last(log.files).(toks := Last(log.files).toks + toks)
      && (forall i :: 0 <= i < |log.files| - 1 ==> n.files[i] == log.files[i])
      && n.lastSecond == log.lastSecond
  {
  }

  lemma PutKeepsFiles(c: Config, log: Log, toks: seq<Tok>)
    requires log.files != [] && AllInOwnDay(c, log.files) && AllDone(c, log.files)
    requires InOwnDay(c, TokFile(Last(log.files).entry, toks))
    ensures AllInOwnDay(c, Put(log, toks).files) && AllDone(c, Put(log, toks).files)
  {
    var n := Put(log, toks);
    PutInLast(log, toks);
    forall i | 0 <= i < |n.files| ensures InOwnDay(c, n.files[i]) {
      if i == |n.files| - 1 {
        assert InOwnDay(c, Last(log.files));
      }
    }
    forall i | HasFixedDays(c) && 0 <= i < |n.files| - 1 ensures IsDone(c, n.files[i], n.files[i + 1]) {
      assert IsDone(c, log.files[i], log.files[i + 1]);
    }
  }

  lemma MarkKeepsFiles(c: Config, log: Log, second: int)
    requires log.files != [] && AllInOwnDay(c, log.files) && AllDone(c, log.files)
    ensures var n := Put(log, [Mark(second)]);
      && AllInOwnDay(c, n.files) && AllDone(c, n.files)
      && Last(n.files).entry == Last(log.files).entry && Size(c, Last(n.files)) == Size(c, Last(log.files))
      && Recs(Last(n.files).toks) == Recs(Last(log.files).toks)
  {
    PutInLast(log, [Mark(second)]);
    PutKeepsFiles(c, log, [Mark(second)]);
    RecsAppend(Last(log.files).toks, [Mark(second)]);
    assert Recs([Mark(second)]) == [] && Recs(Last(log.files).toks) + [] == Recs(Last(log.files).toks);
  }

  /** Records of the file's day, and a new file exactly when that makes it full. */
  lemma DoWriteKeepsFiles(c: Config, log: Log, time: int, items: seq<Item>)
    requires c.totalFileCount >= 1 && log.files != [] && AllInOwnDay(c, log.files) && AllDone(c, log.files)
    requires Last(log.files).entry.date == c.date(time / 1000)
    requires InOwnDay(c, TokFile(Last(log.files).entry, Records(items)))
    ensures var n := DoWrite(c, log, time, items);
      && AllInOwnDay(c, n.files) && AllDone(c, n.files) && Last(n.files).entry.date == c.date(time / 1000)
      && (c.singleFileSize > 0 ==> Size(c, Last(n.files)) < c.singleFileSize)
  {
    var l := Put(log, Records(items));
    PutInLast(log, Records(items));
    PutKeepsFiles(c, log, Records(items));
    if Size(c, Last(l.files)) >= c.singleFileSize {
      NewFileKeepsFiles(c, l, time);
      NewFileIsLast(c, l, time);
    }
  }

  lemma StampedInOwnDay(c: Config, entry: Entry, items: seq<Item>, time: Int64)
    requires entry.date == c.date(Second(time))
    ensures InOwnDay(c, TokFile(entry, Records(Stamp(items, time))))
  {
    var toks := Records(Stamp(items, time));
    forall i | 0 <= i < |toks| && toks[i].Rec? ensures entry.date == c.date(Second(toks[i].item.timestamp)) {
      RecordsAt(Stamp(items, time), i);
      StampedAt(items, time, i);
    }
  }

  /** A log whose file in use is of the day of its last second, full or not. */
  ghost predicate Ready(c: Config, log: Log, date: string) {
    log.files != [] && AllInOwnDay(c, log.files) && AllDone(c, log.files) && Last(log.files).entry.date == date
  }

  lemma SameSecondKeepsFiles(c: Config, log: Log, time: Int64, items: seq<Item>)
    requires c.totalFileCount >= 1 && Ready(c, log, c.date(Second(time))) && Second(time) >= 1
    ensures var n := SameSecond(c, log, time, Stamp(items, time));
      && Ready(c, n, c.date(Second(time)))
      && (c.singleFileSize > 0 ==> Size(c, Last(n.files)) < c.singleFileSize)
  {
    var l := log.(firstWrite := false);
    SecondIsFloor(time);
    if log.firstWrite {
      MarkKeepsFiles(c, l, Second(time));
      l := Put(l, [Mark(Second(time))]);
    } else {
      l := log;
    }
    StampedInOwnDay(c, Last(l.files).entry, items, time);
    DoWriteKeepsFiles(c, l, time, Stamp(items, time));
  }

  lemma NewDayIff(c: Config, before: int, second: int)
    requires c.dayBase <= before <= second
    ensures IsNewDay(c, before, second) <==> Day(c, before) != Day(c, second)
  {
    if Day(c, before) > Day(c, second) {
      assert false;
    }
  }

  /** The file in use is of the day of the last second, unless it has just been opened for this call. */
  lemma NextSecondKeepsFiles(c: Config, log: Log, time: Int64, items: seq<Item>)
    requires c.totalFileCount >= 1 && DaysAgree(c) && 1 <= log.lastSecond < Second(time) && c.dayBase <= log.lastSecond
    requires Ready(c, log, c.date(log.lastSecond))
             || (Ready(c, log, c.date(Second(time))) && Recs(Last(log.files).toks) == [])
    ensures var n := NextSecond(c, log, time, Stamp(items, time));
      && Ready(c, n, c.date(Second(time)))
      && (c.singleFileSize > 0 ==> Size(c, Last(n.files)) < c.singleFileSize)
  {
    var l := Put(log, [Mark(Second(time))]);
    SecondIsFloor(time);
    MarkKeepsFiles(c, log, Second(time));
    NewDayIff(c, log.lastSecond, Second(time));
    var m := if IsNewDay(c, log.lastSecond, Second(time)) then NewFile(c, l, time) else l;
    if IsNewDay(c, log.lastSecond, Second(time)) {
      NewFileKeepsFiles(c, l, time);
      NewFileIsLast(c, l, time);
    }
    StampedInOwnDay(c, Last(m.files).entry, items, time);
    DoWriteKeepsFiles(c, m, time, Stamp(items, time));
  }

  lemma OpenedIsReady(c: Config, log: Log, time: int)
    requires c.totalFileCount >= 1 && Kept(c, log)
    ensures var l := Opened(c, log, time);
      && l.lastSecond == log.lastSecond
      && (log.files != [] ==> l == log && Ready(c, l, c.date(log.lastSecond)))
      && (log.files == [] ==> Ready(c, l, c.date(time / 1000)) && Last(l.files).toks == [])
  {
    if log.files == [] {
      NewFileKeepsFiles(c, log, time);
      NewFileIsLast(c, log, time);
    }
  }

  /** The file that a first call opens is of the right day. */
  ghost predicate OpensRight(c: Config, log: Log, call: Call) {
    log.files == [] && Second(call.time) <= log.lastSecond ==> c.date(call.time / 1000) == c.date(log.lastSecond)
  }

  lemma WriteKeepsFiles(c: Config, log: Log, call: Call)
    requires c.totalFileCount >= 1 && DaysAgree(c) && Kept(c, log) && OpensRight(c, log, call)
    ensures Kept(c, Write(c, log, call)) && Write(c, log, call).files != []
  {
    var time, second, l := call.time, Second(call.time), Opened(c, log, call.time);
    SecondIsFloor(time);
    OpenedIsReady(c, log, time);
    if second < l.lastSecond {
      assert log.files == [] ==> Size(c, Last(l.files)) == 0;
    } else if second == l.lastSecond {
      SameSecondKeepsFiles(c, l, time, call.items);
    } else {
      NextSecondKeepsFiles(c, l, time, call.items);
    }
  }

  lemma {:induction false} RunKeepsFiles(c: Config, log: Log, calls: seq<Call>)
    requires c.totalFileCount >= 1 && DaysAgree(c) && Kept(c, log)
    requires calls != [] ==> OpensRight(c, log, calls[0])
    ensures Kept(c, Run(c, log, calls))
    decreases |calls|
  {
    if calls != [] {
      WriteKeepsFiles(c, log, calls[0]);
      RunKeepsFiles(c, Write(c, log, calls[0]), calls[1..]);
    }
  }

  lemma FixedDaysOpenRight(c: Config, start: int, call: Call)
    requires HasFixedDays(c) && start >= 1 && Day(c, call.time / 1000) >= Day(c, start)
    ensures OpensRight(c, Init(start), call)
  {
    SecondIsFloor(call.time);
    if Second(call.time) <= start {
      DayOrder(c, call.time / 1000, start);
    }
  }

  lemma DayOrder(c: Config, s: int, t: int)
    requires s <= t
    ensures Day(c, s) <= Day(c, t)
  {
  }

  // ---------------------------------------------------------------- whole runs

  /** A file is begun for a new day or because the one before is full, and for no other reason. */
  lemma NewFileOnlyWhenDone(c: Config, start: int, calls: seq<Call>)
    requires c.totalFileCount >= 1 && HasFixedDays(c) && start >= 1 && start >= c.dayBase
    requires calls != [] ==> Day(c, calls[0].time / 1000) >= Day(c, start)
    ensures var files := Run(c, Init(start), calls).files;
      && AllDone(c, files)
      && (files != [] && c.singleFileSize > 0 ==> Size(c, Last(files)) < c.singleFileSize)
  {
    if calls != [] {
      FixedDaysOpenRight(c, start, calls[0]);
    }
    RunKeepsFiles(c, Init(start), calls);
  }

  lemma RunTwo(c: Config, log: Log, a: Call, b: Call)
    requires c.totalFileCount >= 1
    ensures Run(c, log, [a, b]) == Write(c, Write(c, log, a), b)
  {
    var after := Write(c, log, a);
    assert [a, b][1..] == [b] && [b][1..] == [];
    assert Run(c, after, [b]) == Run(c, Write(c, after, b), []);
  }

  lemma OneRecord(item: Item, time: Int64)
    ensures Records(Stamp([item], time)) == [Rec(item.(timestamp := time))]
  {
    assert [item][1..] == [];
    var stamped := [item.(timestamp := time)];
    assert Stamp([item], time) == stamped + Stamp([], time) == stamped && stamped[1..] == [];
    assert Records(stamped) == [Rec(stamped[0])] + Records([]);
  }

  /** The first records of the second the writer was made in go to whatever file has been opened before. */
  lemma FirstRecordsGo(c: Config, log: Log, item: Item, time: Int64)
    requires c.totalFileCount >= 1 && time != -1 && log.lastSecond == Second(time) && log.firstWrite
    requires |log.files| == 1 && log.files[0].toks == []
    ensures var f := Write(c, log, Call(time, [item])).files[0];
      f.entry == log.files[0].entry && f.toks == [Mark(Second(time)), Rec(item.(timestamp := time))]
  {
    OneRecord(item, time);
    var l := Put(log.(firstWrite := false), [Mark(Second(time))]);
    var m := Put(l, Records(Stamp([item], time)));
    PutInLast(log.(firstWrite := false), [Mark(Second(time))]);
    PutInLast(l, Records(Stamp([item], time)));
    assert Write(c, log, Call(time, [item])) == DoWrite(c, l, time, Stamp([item], time));
    NewFileIsLast(c, m, time);
  }

  lemma WrittenLate(c: Config, start: int, first: Call, item: Item)
    requires c.totalFileCount >= 1 && HasFixedDays(c) && start >= 1 && start >= c.dayBase && start * 1000 <= INT64_MAX
    requires Day(c, first.time / 1000) < Day(c, start)
    ensures !AllInOwnDay(c, Run(c, Init(start), [first, Call(start * 1000, [item])]).files)
  {
    var late, opened_ := Call(start * 1000, [item]), Opened(c, Init(start), first.time);
    SecondIsFloor(first.time);
    assert Second(start * 1000) == start;
    NewFileIsLast(c, Init(start), first.time);
    RunTwo(c, Init(start), first, late);
    assert Write(c, Init(start), first) == opened_;
    FirstRecordsGo(c, opened_, item, start * 1000);
    var f := Write(c, opened_, late).files[0];
    assert f.toks[1].Rec? && Second(f.toks[1].item.timestamp) == start;
    assert f.entry.date == c.date(first.time / 1000) != c.date(start);
    assert !InOwnDay(c, f);
  }

  /** In a time zone with a fixed offset every record goes to a file of its own day, in all runs that begin with
      `first`, if and only if that call is not of a day before the writer was made. */
  lemma OwnDayIff(c: Config, start: int, first: Call, some: Item)
    requires c.totalFileCount >= 1 && HasFixedDays(c) && start >= 1 && start >= c.dayBase && start * 1000 <= INT64_MAX
    ensures (forall rest :: AllInOwnDay(c, Run(c, Init(start), [first] + rest).files))
       <==> Day(c, first.time / 1000) >= Day(c, start)
  {
    if Day(c, first.time / 1000) >= Day(c, start) {
      forall rest ensures AllInOwnDay(c, Run(c, Init(start), [first] + rest).files) {
        FixedDaysOpenRight(c, start, first);
        RunKeepsFiles(c, Init(start), [first] + rest);
      }
    } else {
      var rest := [Call(start * 1000, [some])];
      WrittenLate(c, start, first, some);
      assert [first] + rest == [first, rest[0]];
      assert !AllInOwnDay(c, Run(c, Init(start), [first] + rest).files);
    }
  }

  // ---------------------------------------------------------------- time zones

  /** Runs of writers made at the base or later whose clock has not gone back before the first call. */
  ghost predicate IsPlainRun(c: Config, start: int, calls: seq<Call>) {
    start >= 1 && start >= c.dayBase && (calls != [] ==> Second(calls[0].time) >= start)
  }

  ghost predicate AlwaysInOwnDay(c: Config)
    requires c.totalFileCount >= 1
  {
    forall start, calls :: IsPlainRun(c, start, calls) ==> AllInOwnDay(c, Run(c, Init(start), calls).files)
  }

  /** With a last file of another date and no new day by the count, a record goes to the wrong file. */
  lemma GoesToWrongFile(c: Config, log: Log, item: Item, time: Int64)
    requires c.totalFileCount >= 1 && time != -1 && log.files != [] && Second(time) > log.lastSecond
    requires !IsNewDay(c, log.lastSecond, Second(time)) && Last(log.files).entry.date != c.date(Second(time))
    ensures !AllInOwnDay(c, Write(c, log, Call(time, [item])).files)
  {
    OneRecord(item, time);
    var l := Put(log, [Mark(Second(time))]);
    var m := Put(l, Records(Stamp([item], time)));
    PutInLast(log, [Mark(Second(time))]);
    PutInLast(l, Records(Stamp([item], time)));
    var n := DoWrite(c, l, time, Stamp([item], time));
    assert Write(c, log, Call(time, [item])).files == n.files;
    var f := Last(m.files);
    assert Last(f.toks) == Rec(item.(timestamp := time));
    assert !InOwnDay(c, f);
    NewFileIsLast(c, m, time);
    var at := if n == m then |n.files| - 1 else |n.files| - 2;
    assert n.files[at] == f;
  }

  /** Two seconds of one day by the count but of two dates: records of the second go to a file of the first. */
  lemma DatesMixed(c: Config, s: int, t: int, item: Item)
    requires c.totalFileCount >= 1 && 1 <= s < t && c.dayBase <= s && t * 1000 <= INT64_MAX
    requires Day(c, s) == Day(c, t) && c.date(s) != c.date(t)
    ensures !AllInOwnDay(c, Run(c, Init(s), [Call(s * 1000, []), Call(t * 1000, [item])]).files)
  {
    var first, l := Call(s * 1000, []), Opened(c, Init(s), s * 1000);
    assert Second(s * 1000) == s && Second(t * 1000) == t;
    OpenedIsReady(c, Init(s), s * 1000);
    SameSecondKeepsFiles(c, l, s * 1000, []);
    RunTwo(c, Init(s), first, Call(t * 1000, [item]));
    NewDayIff(c, s, t);
    GoesToWrongFile(c, Write(c, Init(s), first), item, t * 1000);
  }

  /** Exactly in the time zones in which the date never changes within a day counted from the base, and so not where an
      offset changes with the season, does every record of every run go to a file of its own day. */
  lemma ZoneIff(c: Config, some: Item)
    requires c.totalFileCount >= 1
    ensures AlwaysInOwnDay(c) <==> DaysAgree(c)
  {
    if DaysAgree(c) {
      forall start, calls: seq<Call> | IsPlainRun(c, start, calls)
        ensures AllInOwnDay(c, Run(c, Init(start), calls).files)
      {
        if calls != [] {
          SecondIsFloor(calls[0].time);
        }
        RunKeepsFiles(c, Init(start), calls);
      }
    } else {
      var s, t :| 1 <= s <= t && c.dayBase <= s && t * 1000 <= INT64_MAX && Day(c, s) == Day(c, t)
                  && c.date(s) != c.date(t);
      DatesMixed(c, s, t, some);
      assert Second(s * 1000) == s;
      assert IsPlainRun(c, s, [Call(s * 1000, []), Call(t * 1000, [some])]);
    }
  }
}
