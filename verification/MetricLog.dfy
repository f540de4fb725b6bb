/** The metric log as its writer produces it: records and index entries in the order they are written. */
module MetricLog {
  import opened Text
  import opened Seqs
  import opened MetricItem
  import opened FileNames
  import opened FileListing

  /** Integer division as the code has it, truncating toward zero. */
  function Quotient(a: int, b: nat): int
    requires b > 0
  {
    if a >= 0 then a / b else -((-a) / b)
  }

  function Second(ms: int): int {
    Quotient(ms, 1000)
  }

  /** `date` and `time` are the local date and the local date and time of a second. */
  datatype Config = Config(
    singleFileSize: int,
    totalFileCount: int,
    dayBase: int,
    date: int -> string,
    time: int -> string)

  ghost predicate IsConfig(c: Config) {
    && c.totalFileCount >= 1
    && (forall s :: IsDate(c.date(s)))
    && (forall s, t :: s <= t ==> !Less(c.date(t), c.date(s)))
    && (forall s :: Clean(c.time(s)))
  }

  /** A record of the metric file, or an entry of the index pointing at the end of what is written so far. */
  datatype Tok = Rec(item: Item) | Mark(second: int)

  datatype TokFile = TokFile(entry: Entry, toks: seq<Tok>)

  /** `removed` is what the files deleted so far held. */
  datatype Log = Log(removed: seq<Tok>, files: seq<TokFile>, lastSecond: int, firstWrite: bool)

  datatype Call = Call(time: Int64, items: seq<Item>)

  function Recs(toks: seq<Tok>): seq<Item> {
    if toks == [] then []
    else (if toks[0].Rec? then [toks[0].item] else []) + Recs(toks[1..])
  }

  function All(files: seq<TokFile>): seq<Tok> {
    if files == [] then [] else files[0].toks + All(files[1..])
  }

  function Whole(log: Log): seq<Tok> {
    log.removed + All(log.files)
  }

  function Entries(files: seq<TokFile>): (r: seq<Entry>)
    ensures |r| == |files| && forall i :: 0 <= i < |files| ==> r[i] == files[i].entry
  {
    seq(|files|, i requires 0 <= i < |files| => files[i].entry)
  }

  function Line(c: Config, m: Item): string {
    ToFatString(m, c.time(Second(m.timestamp))) + "\n"
  }

  function LineOf(c: Config): Item -> string {
    m => Line(c, m)
  }

  /** The text of a file, for the line of each item. */
  function Lines(line: Item -> string, items: seq<Item>): string {
    if items == [] then "" else line(items[0]) + Lines(line, items[1..])
  }

  function Records(items: seq<Item>): seq<Tok> {
    if items == [] then [] else [Rec(items[0])] + Records(items[1..])
  }

  function Stamp(items: seq<Item>, time: Int64): seq<Item> {
    if items == [] then [] else [items[0].(timestamp := time)] + Stamp(items[1..], time)
  }

  // ---------------------------------------------------------------- the writer

  function Init(second: int): Log {
    Log([], [], second, true)
  }

  function Put(log: Log, toks: seq<Tok>): Log
    requires log.files != []
  {
    var n := |log.files| - 1;
    log.(files := log.files[n := log.files[n].(toks := log.files[n].toks + toks)])
  }

  /** How many of the oldest files are deleted before a new one is created. */
  function Surplus(c: Config, count: nat): (r: nat)
    ensures r <= count || c.totalFileCount < 0
  {
    if count > c.totalFileCount then count - c.totalFileCount else 0
  }

  function NewFile(c: Config, log: Log, time: int): (r: Log)
    requires c.totalFileCount >= 1
    ensures r.files != [] && r.lastSecond == log.lastSecond
  {
    var k := Surplus(c, |log.files|);
    log.(removed := log.removed + All(log.files[..k]),
         files := log.files[k..] + [TokFile(NextEntry(Entries(log.files), c.date(time / 1000)), [])])
  }

  function IsNewDay(c: Config, lastSecond: int, second: int): bool {
    Quotient(second - c.dayBase, 86400) > Quotient(lastSecond - c.dayBase, 86400)
  }

  function DoWrite(c: Config, log: Log, time: int, items: seq<Item>): (r: Log)
    requires c.totalFileCount >= 1 && log.files != []
    ensures r.files != [] && r.lastSecond == log.lastSecond
  {
    var l := Put(log, Records(items));
    if |Lines(LineOf(c), Recs(Last(l.files).toks))| >= c.singleFileSize then NewFile(c, l, time) else l
  }

  function Opened(c: Config, log: Log, time: int): (r: Log)
    requires c.totalFileCount >= 1
    ensures r.files != [] && r.lastSecond == log.lastSecond
  {
    if log.files == [] then NewFile(c, log, time) else log
  }

  function SameSecond(c: Config, log: Log, time: int, items: seq<Item>): (r: Log)
    requires c.totalFileCount >= 1 && log.files != []
    ensures r.lastSecond == log.lastSecond
  {
    DoWrite(c, if log.firstWrite then Put(log.(firstWrite := false), [Mark(Second(time))]) else log, time, items)
  }

  /** The index entry goes into the file in use, even when a new day starts a new file. */
  function NextSecond(c: Config, log: Log, time: int, items: seq<Item>): (r: Log)
    requires c.totalFileCount >= 1 && log.files != []
    ensures r.lastSecond == Second(time)
  {
    var l := Put(log, [Mark(Second(time))]);
    DoWrite(c, if IsNewDay(c, log.lastSecond, Second(time)) then NewFile(c, l, time) else l, time, items)
      .(lastSecond := Second(time))
  }

  function Write(c: Config, log: Log, call: Call): Log
    requires c.totalFileCount >= 1
  {
    var time, second := call.time, Second(call.time);
    var items := if time == -1 then call.items else Stamp(call.items, time);
    var l := Opened(c, log, time);
    if second < l.lastSecond then l
    else if second == l.lastSecond then SameSecond(c, l, time, items)
    else NextSecond(c, l, time, items)
  }

  function Run(c: Config, log: Log, calls: seq<Call>): Log
    requires c.totalFileCount >= 1
    decreases |calls|
  {
    if calls == [] then log else Run(c, Write(c, log, calls[0]), calls[1..])
  }

  /** What a run writes: the items of every call that is not behind the clock of an earlier one. */
  function Written(calls: seq<Call>, lastSecond: int): seq<Item> {
    if calls == [] then []
    else
      var second := Second(calls[0].time);
      if second < lastSecond then Written(calls[1..], lastSecond)
      else Stamp(calls[0].items, calls[0].time) + Written(calls[1..], second)
  }

  // ---------------------------------------------------------------- order of the tokens

  /** Index entries never go back in time, and records carry the second of the last index entry. */
  predicate Ordered(toks: seq<Tok>, second: int) {
    if toks == [] then true
    else match toks[0]
      case Rec(m) => Second(m.timestamp) == second && Ordered(toks[1..], second)
      case Mark(s) => s >= second && Ordered(toks[1..], s)
  }

  /** The second in force after the tokens. */
  function End(toks: seq<Tok>, second: int): int {
    if toks == [] then second
    else match toks[0]
      case Rec(_) => End(toks[1..], second)
      case Mark(s) => End(toks[1..], s)
  }

  lemma {:induction false} OrderedAppend(a: seq<Tok>, b: seq<Tok>, second: int)
    ensures Ordered(a + b, second) <==> Ordered(a, second) && Ordered(b, End(a, second))
    ensures End(a + b, second) == End(b, End(a, second))
  {
    if a == [] {
      assert a + b == b;
    } else {
      assert (a + b)[0] == a[0] && (a + b)[1..] == a[1..] + b;
      OrderedAppend(a[1..], b, if a[0].Rec? then second else a[0].second);
    }
  }

  lemma {:induction false} RecsAppend(a: seq<Tok>, b: seq<Tok>)
    ensures Recs(a + b) == Recs(a) + Recs(b)
  {
    if a == [] {
      assert a + b == b;
    } else {
      assert (a + b)[0] == a[0] && (a + b)[1..] == a[1..] + b;
      RecsAppend(a[1..], b);
    }
  }

  lemma {:induction false} AllAppend(a: seq<TokFile>, b: seq<TokFile>)
    ensures All(a + b) == All(a) + All(b)
  {
    if a == [] {
      assert a + b == b;
    } else {
      assert (a + b)[0] == a[0] && (a + b)[1..] == a[1..] + b;
      AllAppend(a[1..], b);
    }
  }

  lemma {:induction false} RecordsAreRecs(items: seq<Item>)
    ensures Recs(Records(items)) == items
  {
    if items != [] {
      RecordsAreRecs(items[1..]);
    }
  }

  lemma {:induction false} StampedInOrder(items: seq<Item>, time: Int64)
    ensures Ordered(Records(Stamp(items, time)), Second(time))
    ensures End(Records(Stamp(items, time)), Second(time)) == Second(time)
  {
    if items != [] {
      StampedInOrder(items[1..], time);
    }
  }

  // ---------------------------------------------------------------- what every call keeps

  lemma PutAppends(log: Log, toks: seq<Tok>)
    requires log.files != []
    ensures Whole(Put(log, toks)) == Whole(log) + toks
    ensures Entries(Put(log, toks).files) == Entries(log.files)
  {
    var n, l := |log.files| - 1, Put(log, toks);
    var before, last := log.files[..n], log.files[n];
    assert log.files == before + [last];
    assert l.files == before + [last.(toks := last.toks + toks)];
    AllAppend(before, [last]);
    AllAppend(before, [last.(toks := last.toks + toks)]);
    assert All([last]) == last.toks && All([last.(toks := last.toks + toks)]) == last.toks + toks;
    assert Whole(l) == Whole(log) + toks;
  }

  lemma AllWithEmpty(files: seq<TokFile>, entry: Entry)
    ensures All(files + [TokFile(entry, [])]) == All(files)
  {
    var last := [TokFile(entry, [])];
    AllAppend(files, last);
    assert last[1..] == [] && All(last) == [] + All([]);
  }

  lemma AllSplit(files: seq<TokFile>, k: nat)
    requires k <= |files|
    ensures All(files[..k]) + All(files[k..]) == All(files)
  {
    AllAppend(files[..k], files[k..]);
    assert files[..k] + files[k..] == files;
  }

  /** Deleting the oldest files and starting a new one moves tokens but keeps the log as a whole. */
  lemma NewFileKeeps(c: Config, log: Log, time: int)
    requires c.totalFileCount >= 1
    ensures Whole(NewFile(c, log, time)) == Whole(log)
    ensures |NewFile(c, log, time).files|
         == (if |log.files| <= c.totalFileCount then |log.files| else c.totalFileCount) + 1
    ensures |log.files| <= c.totalFileCount ==> NewFile(c, log, time).removed == log.removed
  {
    var k, l := Surplus(c, |log.files|), NewFile(c, log, time);
    AllSplit(log.files, k);
    AllWithEmpty(log.files[k..], Last(l.files).entry);
    Associate(log.removed, All(log.files[..k]), All(l.files));
  }

  ghost predicate NotAfter(entries: seq<Entry>, date: string) {
    forall e :: e in entries ==> !Less(date, e.date)
  }

  lemma LaterDate(c: Config, entries: seq<Entry>, s: int, t: int)
    requires IsConfig(c) && NotAfter(entries, c.date(s)) && s <= t
    ensures NotAfter(entries, c.date(t))
  {
    forall e | e in entries ensures !Less(c.date(t), e.date) {
      LessTotal(c.date(s), e.date);
      LessTotal(c.date(t), c.date(s));
      if Less(c.date(t), e.date) && c.date(t) != c.date(s) {
        LessTransitive(c.date(s), c.date(t), e.date);
      }
    }
  }

  /** The files are in the order of their days and numbers, none of a later day than `now`, and not too many. */
  ghost predicate FilesInOrder(c: Config, log: Log, now: int) {
    && InOrder(Entries(log.files))
    && NotAfter(Entries(log.files), c.date(now))
    && |log.files| <= c.totalFileCount + 1
  }

  lemma NextInOrder(es: seq<Entry>, k: nat, date: string)
    requires k <= |es| && InOrder(es) && NotAfter(es, date) && IsDate(date)
    ensures InOrder(es[k..] + [NextEntry(es, date)]) && NotAfter(es[k..] + [NextEntry(es, date)], date)
  {
    NextIsLast(es, date);
    LessIrreflexive(date);
    assert forall i :: k <= i < |es| ==> es[i] in es;
  }

  lemma NewFileInOrder(c: Config, log: Log, time: int, now: int)
    requires IsConfig(c) && time / 1000 <= now
    requires InOrder(Entries(log.files)) && NotAfter(Entries(log.files), c.date(time / 1000))
    ensures FilesInOrder(c, NewFile(c, log, time), now)
  {
    var date, k, es := c.date(time / 1000), Surplus(c, |log.files|), Entries(log.files);
    NextInOrder(es, k, date);
    var entries := Entries(NewFile(c, log, time).files);
    assert entries == es[k..] + [NextEntry(es, date)];
    LaterDate(c, entries, time / 1000, now);
  }

  lemma OpenedKeeps(c: Config, log: Log, time: int, now: int)
    requires IsConfig(c) && FilesInOrder(c, log, log.lastSecond) && log.lastSecond <= now && time / 1000 <= now
    ensures Whole(Opened(c, log, time)) == Whole(log)
    ensures FilesInOrder(c, Opened(c, log, time), now)
  {
    if log.files == [] {
      NewFileKeeps(c, log, time);
      NewFileInOrder(c, log, time, now);
    } else {
      LaterDate(c, Entries(log.files), log.lastSecond, now);
    }
  }

  lemma DoWriteKeeps(c: Config, log: Log, time: int, items: seq<Item>)
    requires IsConfig(c) && log.files != [] && FilesInOrder(c, log, time / 1000)
    ensures Whole(DoWrite(c, log, time, items)) == Whole(log) + Records(items)
    ensures FilesInOrder(c, DoWrite(c, log, time, items), time / 1000)
  {
    PutAppends(log, Records(items));
    var l := Put(log, Records(items));
    NewFileKeeps(c, l, time);
    NewFileInOrder(c, l, time, time / 1000);
  }

  /** What holds between calls; `start` is the second the writer was constructed in. */
  ghost predicate Good(c: Config, log: Log, start: int) {
    && 1 <= start <= log.lastSecond
    && Ordered(Whole(log), start)
    && End(Whole(log), start) == log.lastSecond
    && (Whole(log) != [] ==> Whole(log)[0].Mark?)
    && (Whole(log) == [] ==> log.firstWrite)
    && FilesInOrder(c, log, log.lastSecond)
  }

  /** The tokens one call adds. */
  function Added(log: Log, call: Call): seq<Tok> {
    var second := Second(call.time);
    if second < log.lastSecond then []
    else
      (if second > log.lastSecond || log.firstWrite then [Mark(second)] else [])
      + Records(Stamp(call.items, call.time))
  }

  lemma SameSecondAdds(c: Config, log: Log, time: int, items: seq<Item>)
    requires IsConfig(c) && log.files != [] && FilesInOrder(c, log, time / 1000) && Second(time) == log.lastSecond
    ensures Whole(SameSecond(c, log, time, items))
         == Whole(log) + ((if log.firstWrite then [Mark(Second(time))] else []) + Records(items))
    ensures FilesInOrder(c, SameSecond(c, log, time, items), time / 1000)
  {
    if log.firstWrite {
      var l := log.(firstWrite := false);
      PutAppends(l, [Mark(Second(time))]);
      DoWriteKeeps(c, Put(l, [Mark(Second(time))]), time, items);
      Associate(Whole(log), [Mark(Second(time))], Records(items));
    } else {
      DoWriteKeeps(c, log, time, items);
      assert [] + Records(items) == Records(items);
    }
  }

  lemma Associate<T>(a: seq<T>, b: seq<T>, d: seq<T>)
    ensures (a + b) + d == a + (b + d)
  {
  }

  lemma NextSecondAdds(c: Config, log: Log, time: int, items: seq<Item>)
    requires IsConfig(c) && log.files != [] && FilesInOrder(c, log, time / 1000)
    ensures Whole(NextSecond(c, log, time, items)) == Whole(log) + ([Mark(Second(time))] + Records(items))
    ensures FilesInOrder(c, NextSecond(c, log, time, items), time / 1000)
  {
    var l := Put(log, [Mark(Second(time))]);
    PutAppends(log, [Mark(Second(time))]);
    NewFileKeeps(c, l, time);
    NewFileInOrder(c, l, time, time / 1000);
    var n := if IsNewDay(c, log.lastSecond, Second(time)) then NewFile(c, l, time) else l;
    DoWriteKeeps(c, n, time, items);
    Associate(Whole(log), [Mark(Second(time))], Records(items));
  }

  lemma SecondIsFloor(time: int)
    ensures time / 1000 <= Second(time)
    ensures Second(time) >= 1 ==> time / 1000 == Second(time) && time > 0
  {
  }

  lemma WriteAdds(c: Config, log: Log, call: Call)
    requires IsConfig(c) && FilesInOrder(c, log, log.lastSecond) && log.lastSecond >= 1
    ensures Whole(Write(c, log, call)) == Whole(log) + Added(log, call)
    ensures Write(c, log, call).lastSecond
         == if Second(call.time) < log.lastSecond then log.lastSecond else Second(call.time)
    ensures FilesInOrder(c, Write(c, log, call), Write(c, log, call).lastSecond)
  {
    var time, second := call.time, Second(call.time);
    var now := if second > log.lastSecond then second else log.lastSecond;
    SecondIsFloor(time);
    OpenedKeeps(c, log, time, now);
    var l := Opened(c, log, time);
    if second == l.lastSecond {
      SameSecondAdds(c, l, time, Stamp(call.items, time));
    } else if second > l.lastSecond {
      NextSecondAdds(c, l, time, Stamp(call.items, time));
    }
  }

  lemma AddedInOrder(log: Log, call: Call)
    ensures Ordered(Added(log, call), log.lastSecond)
    ensures End(Added(log, call), log.lastSecond)
         == if Second(call.time) < log.lastSecond then log.lastSecond else Second(call.time)
  {
    var second := Second(call.time);
    var items := Stamp(call.items, call.time);
    StampedInOrder(call.items, call.time);
    OrderedAppend([Mark(second)], Records(items), log.lastSecond);
    assert [Mark(second)][1..] == [];
    assert [] + Records(items) == Records(items);
  }

  lemma AddedRecs(log: Log, call: Call)
    ensures Recs(Added(log, call)) == if Second(call.time) < log.lastSecond then [] else Stamp(call.items, call.time)
  {
    var items := Stamp(call.items, call.time);
    RecordsAreRecs(items);
    RecsAppend([Mark(Second(call.time))], Records(items));
    assert [Mark(Second(call.time))][1..] == [];
    assert [] + Records(items) == Records(items);
  }

  /** One call: nothing is lost, the index stays ahead of the records, and the files stay in order and few. */
  lemma WriteKeeps(c: Config, log: Log, call: Call, start: int)
    requires IsConfig(c) && Good(c, log, start)
    ensures Good(c, Write(c, log, call), start)
    ensures Recs(Whole(Write(c, log, call))) == Recs(Whole(log)) + Recs(Added(log, call))
    ensures Write(c, log, call).lastSecond
         == if Second(call.time) < log.lastSecond then log.lastSecond else Second(call.time)
  {
    WriteAdds(c, log, call);
    AddedInOrder(log, call);
    OrderedAppend(Whole(log), Added(log, call), start);
    RecsAppend(Whole(log), Added(log, call));
  }

  lemma InitIsGood(c: Config, start: int)
    requires IsConfig(c) && start >= 1
    ensures Good(c, Init(start), start)
  {
  }

  /** Over a whole run, the files together with those deleted hold exactly what was written, in order. */
  lemma {:induction false} RunWrites(c: Config, log: Log, calls: seq<Call>, start: int)
    requires IsConfig(c) && Good(c, log, start)
    ensures Good(c, Run(c, log, calls), start)
    ensures Recs(Whole(Run(c, log, calls))) == Recs(Whole(log)) + Written(calls, log.lastSecond)
    decreases |calls|
  {
    if calls != [] {
      var next := Write(c, log, calls[0]);
      WriteKeeps(c, log, calls[0], start);
      AddedRecs(log, calls[0]);
      RunWrites(c, next, calls[1..], start);
      Associate(Recs(Whole(log)), Recs(Added(log, calls[0])), Written(calls[1..], next.lastSecond));
      assert [] + Written(calls[1..], next.lastSecond) == Written(calls[1..], next.lastSecond);
    }
  }
}
