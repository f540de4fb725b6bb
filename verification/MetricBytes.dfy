/** The bytes of metric files and their indexes: the writer that produces them and the reader that scans them. */
module MetricBytes {
  import opened MetricItem
  import opened FileNames
  import opened FileListing
  import opened MetricLog

  /** One line of an index file. */
  datatype IndexEntry = IndexEntry(second: int, offset: nat)

  datatype LogFile = LogFile(entry: Entry, data: string, index: seq<IndexEntry>)

  /** The length of the lines of some tokens. */
  function Width(line: Item -> string, toks: seq<Tok>): nat {
    if toks == [] then 0
    else (if toks[0].Rec? then |line(toks[0].item)| else 0) + Width(line, toks[1..])
  }

  /** The index of a file with these tokens, its data already `offset` long. */
  function Index(line: Item -> string, toks: seq<Tok>, offset: nat): seq<IndexEntry> {
    if toks == [] then []
    else match toks[0]
      case Rec(m) => Index(line, toks[1..], offset + |line(m)|)
      case Mark(s) => [IndexEntry(s, offset)] + Index(line, toks[1..], offset)
  }

  ghost predicate Holds(c: Config, f: LogFile, t: TokFile) {
    f.entry == t.entry && f.data == Lines(LineOf(c), Recs(t.toks)) && f.index == Index(LineOf(c), t.toks, 0)
  }

  ghost predicate HoldAll(c: Config, files: seq<LogFile>, toks: seq<TokFile>) {
    |files| == |toks| && forall i :: 0 <= i < |files| ==> Holds(c, files[i], toks[i])
  }

  lemma {:induction false} LinesAppend(line: Item -> string, a: seq<Item>, b: seq<Item>)
    ensures Lines(line, a + b) == Lines(line, a) + Lines(line, b)
  {
    if a == [] {
      assert a + b == b;
    } else {
      assert (a + b)[0] == a[0] && (a + b)[1..] == a[1..] + b;
      LinesAppend(line, a[1..], b);
      Associate(line(a[0]), Lines(line, a[1..]), Lines(line, b));
    }
  }

  lemma {:induction false} WidthIsLength(line: Item -> string, toks: seq<Tok>)
    ensures Width(line, toks) == |Lines(line, Recs(toks))|
  {
    if toks != [] {
      var rest := Recs(toks[1..]);
      WidthIsLength(line, toks[1..]);
      if toks[0].Mark? {
        assert [] + rest == rest;
      } else {
        assert ([toks[0].item] + rest)[1..] == rest;
      }
    }
  }

  lemma {:induction false} IndexAppend(line: Item -> string, a: seq<Tok>, b: seq<Tok>, offset: nat)
    ensures Index(line, a + b, offset) == Index(line, a, offset) + Index(line, b, offset + Width(line, a))
  {
    if a == [] {
      assert a + b == b;
    } else {
      assert (a + b)[0] == a[0] && (a + b)[1..] == a[1..] + b;
      match a[0]
      case Rec(m) => IndexAppend(line, a[1..], b, offset + |line(m)|);
      case Mark(s) =>
        IndexAppend(line, a[1..], b, offset);
        Associate([IndexEntry(s, offset)], Index(line, a[1..], offset), Index(line, b, offset + Width(line, a)));
    }
  }

  /** One more token at the end. */
  lemma IndexLast(line: Item -> string, toks: seq<Tok>, t: Tok)
    ensures Index(line, toks + [t], 0)
         == Index(line, toks, 0) + if t.Mark? then [IndexEntry(t.second, Width(line, toks))] else []
  {
    IndexAppend(line, toks, [t], 0);
    assert [t][1..] == [];
    assert t.Mark? ==> Index(line, [t], Width(line, toks)) == [IndexEntry(t.second, Width(line, toks))] + [];
  }

  lemma RecsLast(toks: seq<Tok>, t: Tok)
    ensures Recs(toks + [t]) == if t.Rec? then Recs(toks) + [t.item] else Recs(toks)
  {
    assert [t][1..] == [];
    assert Recs([t]) == (if t.Rec? then [t.item] else []) + [];
    RecsAppend(toks, [t]);
  }

  /** An index entry points at the end of the data and leaves the data alone. */
  lemma HoldsMark(c: Config, f: LogFile, t: TokFile, second: int)
    requires Holds(c, f, t)
    ensures Holds(c, f.(index := f.index + [IndexEntry(second, |f.data|)]), t.(toks := t.toks + [Mark(second)]))
  {
    RecsLast(t.toks, Mark(second));
    IndexLast(LineOf(c), t.toks, Mark(second));
    WidthIsLength(LineOf(c), t.toks);
  }

  lemma HoldsRecord(c: Config, f: LogFile, t: TokFile, m: Item)
    requires Holds(c, f, t)
    ensures Holds(c, f.(data := f.data + Line(c, m)), t.(toks := t.toks + [Rec(m)]))
  {
    RecsLast(t.toks, Rec(m));
    LinesAppend(LineOf(c), Recs(t.toks), [m]);
    OneLine(LineOf(c), m);
    IndexLast(LineOf(c), t.toks, Rec(m));
  }

  lemma OneLine(line: Item -> string, m: Item)
    ensures Lines(line, [m]) == line(m)
  {
    assert [m][1..] == [];
    assert line(m) + "" == line(m);
  }

  lemma PutTwice(log: Log, a: seq<Tok>, b: seq<Tok>)
    requires log.files != []
    ensures Put(Put(log, a), b) == Put(log, a + b)
  {
    var last := log.files[|log.files| - 1];
    Associate(last.toks, a, b);
  }

  lemma PutNothing(log: Log)
    requires log.files != []
    ensures Put(log, []) == log
  {
    var n := |log.files| - 1;
    assert log.files[n].toks + [] == log.files[n].toks;
    assert log.files[n := log.files[n]] == log.files;
  }

  lemma {:induction false} RecordsLast(items: seq<Item>, m: Item)
    ensures Records(items + [m]) == Records(items) + [Rec(m)]
  {
    if items == [] {
      assert [] + [m] == [m] && [m][1..] == [];
    } else {
      assert (items + [m])[0] == items[0] && (items + [m])[1..] == items[1..] + [m];
      RecordsLast(items[1..], m);
    }
  }

  lemma {:induction false} StampLast(items: seq<Item>, m: Item, time: Int64)
    ensures Stamp(items + [m], time) == Stamp(items, time) + [m.(timestamp := time)]
  {
    if items == [] {
      assert [] + [m] == [m] && [m][1..] == [];
    } else {
      assert (items + [m])[0] == items[0] && (items + [m])[1..] == items[1..] + [m];
      StampLast(items[1..], m, time);
    }
  }

  class MetricWriter {
    const config: Config
    /** The metric files in the directory, oldest first; the open one is the last. */
    var files: seq<LogFile>
    var lastSecond: int
    var firstWrite: bool
    /** What has been written, as the specification has it. */
    ghost var log: Log

    ghost predicate Valid()
      reads this
    {
      && IsConfig(config)
      && HoldAll(config, files, log.files)
      && lastSecond == log.lastSecond
      && firstWrite == log.firstWrite
    }

    constructor (config: Config, nowMs: int)
      requires IsConfig(config)
      ensures Valid() && this.config == config && log == Init(Second(nowMs))
    {
      this.config := config;
      files := [];
      lastSecond := Second(nowMs);
      firstWrite := true;
      log := Init(Second(nowMs));
    }

    method WriteIndex(second: int)
      requires Valid() && files != []
      modifies this`files, this`log
      ensures Valid() && log == Put(old(log), [Mark(second)])
    {
      var last := files[|files| - 1];
      HoldsMark(config, last, log.files[|files| - 1], second);
      files := files[|files| - 1 := last.(index := last.index + [IndexEntry(second, |last.data|)])];
      log := Put(log, [Mark(second)]);
    }

    method WriteRecord(m: Item)
      requires Valid() && files != []
      modifies this`files, this`log
      ensures Valid() && log == Put(old(log), [Rec(m)])
    {
      var last := files[|files| - 1];
      HoldsRecord(config, last, log.files[|files| - 1], m);
      files := files[|files| - 1 := last.(data := last.data + Line(config, m))];
      log := Put(log, [Rec(m)]);
    }

    method RemoveMoreFiles()
      requires Valid()
      modifies this`files, this`log
      ensures Valid()
      ensures var k := Surplus(config, |old(log).files|);
        log == old(log).(removed := old(log).removed + All(old(log).files[..k]), files := old(log).files[k..])
    {
      var list := files;
      ghost var before := log;
      assert before.removed + All(before.files[..0]) == before.removed;
      if |list| > config.totalFileCount {
        var diff := |list| - config.totalFileCount;
        var i := 0;
        while i < diff
          invariant 0 <= i <= diff
          invariant files == list[i..]
          invariant log == before.(removed := before.removed + All(before.files[..i]), files := before.files[i..])
        {
          files := files[1..];
          RemoveOldest(before, i);
          log := before.(removed := before.removed + All(before.files[..i + 1]), files := before.files[i + 1..]);
          i := i + 1;
        }
      }
    }

    method CloseAndNewFile(entry: Entry)
      requires Valid()
      modifies this`files, this`log
      ensures Valid()
      ensures var k := Surplus(config, |old(log).files|);
        log == old(log).(removed := old(log).removed + All(old(log).files[..k]),
                         files := old(log).files[k..] + [TokFile(entry, [])])
    {
      RemoveMoreFiles();
      files := files + [LogFile(entry, "", [])];
      log := log.(files := log.files + [TokFile(entry, [])]);
    }

    /** The name NextFileNameOfDay chooses, as an entry. */
    method NewFileOfDay(time: int)
      requires Valid()
      modifies this`files, this`log
      ensures Valid() && log == NewFile(config, old(log), time)
    {
      var entries := seq(|files|, i requires 0 <= i < |files| reads this => files[i].entry);
      assert entries == Entries(log.files);
      CloseAndNewFile(NextEntry(entries, config.date(time / 1000)));
    }

    method WriteRecords(nodes: seq<Item>)
      requires Valid() && files != []
      modifies this`files, this`log
      ensures Valid() && log == Put(old(log), Records(nodes))
    {
      var i := 0;
      PutNothing(log);
      while i < |nodes|
        invariant 0 <= i <= |nodes|
        invariant Valid() && files != []
        invariant log == Put(old(log), Records(nodes[..i]))
      {
        WriteRecord(nodes[i]);
        PutTwice(old(log), Records(nodes[..i]), [Rec(nodes[i])]);
        RecordsLast(nodes[..i], nodes[i]);
        assert nodes[..i + 1] == nodes[..i] + [nodes[i]];
        i := i + 1;
      }
      assert nodes[..i] == nodes;
    }

    method DoWrite(time: int, nodes: seq<Item>)
      requires Valid() && files != []
      modifies this`files, this`log
      ensures Valid() && log == MetricLog.DoWrite(config, old(log), time, nodes)
    {
      WriteRecords(nodes);
      if |files[|files| - 1].data| >= config.singleFileSize {
        NewFileOfDay(time);
      }
    }

    method WriteSameSecond(time: int, items: seq<Item>)
      requires Valid() && files != []
      modifies this
      ensures Valid() && log == SameSecond(config, old(log), time, items)
    {
      if firstWrite {
        firstWrite := false;
        log := log.(firstWrite := false);
        WriteIndex(Second(time));
      }
      DoWrite(time, items);
    }

    method WriteNextSecond(time: int, items: seq<Item>)
      requires Valid() && files != []
      modifies this
      ensures Valid() && log == NextSecond(config, old(log), time, items)
    {
      WriteIndex(Second(time));
      if IsNewDay(config, lastSecond, Second(time)) {
        NewFileOfDay(time);
        DoWrite(time, items);
      } else {
        DoWrite(time, items);
      }
      lastSecond := Second(time);
      log := log.(lastSecond := Second(time));
    }

    method Write(time: Int64, nodes: seq<Item>)
      requires Valid()
      modifies this
      ensures Valid() && log == MetricLog.Write(config, old(log), Call(time, nodes))
    {
      var items := nodes;
      if time != -1 {
        items := SetTimestamps(nodes, time);
      }
      if files == [] {
        NewFileOfDay(time);
      }
      if Second(time) < lastSecond {
      } else if Second(time) == lastSecond {
        WriteSameSecond(time, items);
      } else {
        WriteNextSecond(time, items);
      }
    }
  }

  method SetTimestamps(nodes: seq<Item>, time: Int64) returns (items: seq<Item>)
    ensures items == Stamp(nodes, time)
  {
    items := [];
    var i := 0;
    while i < |nodes|
      invariant 0 <= i <= |nodes| && items == Stamp(nodes[..i], time)
    {
      StampLast(nodes[..i], nodes[i], time);
      assert nodes[..i + 1] == nodes[..i] + [nodes[i]];
      items := items + [nodes[i].(timestamp := time)];
      i := i + 1;
    }
    assert nodes[..i] == nodes;
  }

  lemma RemoveOldest(before: Log, i: nat)
    requires i < |before.files|
    ensures before.files[i..][1..] == before.files[i + 1..]
  {
  }
}
