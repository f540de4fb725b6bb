/** The searcher and the reader at work on the bytes of the files. */
module MetricReader {
  import opened Seqs
  import opened MetricItem
  import opened FileNames
  import opened FileListing
  import opened MetricLog
  import opened MetricSearch
  import opened MetricBytes

  /** Resource names without line breaks. */
  ghost predicate CleanItems(items: seq<Item>) {
    forall i :: 0 <= i < |items| ==> '\n' !in items[i].resource
  }

  /** std::getline from position p: the line, and where the next one starts. */
  method GetLine(data: string, p: nat) returns (line: string, next: nat)
    requires p < |data|
    ensures p < next <= |data|
    ensures '\n' !in line && p + |line| <= |data| && line == data[p..p + |line|]
    ensures if p + |line| == |data| then next == |data| else data[p + |line|] == '\n' && next == p + |line| + 1
  {
    var end := p;
    while end < |data| && data[end] != '\n'
      invariant p <= end <= |data| && '\n' !in data[p..end]
    {
      end := end + 1;
    }
    line := data[p..end];
    next := if end < |data| then end + 1 else end;
  }

  /** The first line of written data is its first record. */
  lemma FirstLine(data: string, p: nat, first: string, rest: string, line: string)
    requires p + |line| <= |data| && line == data[p..p + |line|] && '\n' !in line
    requires p + |line| == |data| || data[p + |line|] == '\n'
    requires '\n' !in first && data[p..] == (first + "\n") + rest
    ensures line == first && p + |line| < |data| && data[p + |line| + 1..] == rest
  {
    var tail, l := data[p..], |first|;
    assert tail[l] == '\n' && forall i :: 0 <= i < l ==> tail[i] == first[i] != '\n';
    assert forall i :: 0 <= i < |line| ==> tail[i] == line[i] != '\n';
    assert |line| < |tail| ==> tail[|line|] == '\n';
    assert |line| == l;
    assert tail[l + 1..] == rest;
  }

  /** What one round of a reading loop gets, when the unread data holds these records. */
  method ReadItem(c: Config, data: string, p: nat, ghost recs: seq<Item>) returns (m: Item, next: nat)
    requires IsConfig(c) && p < |data| && data[p..] == Lines(LineOf(c), recs) && CleanItems(recs)
    ensures recs != [] && m == Stored(recs[0])
    ensures p < next <= |data| && data[next..] == Lines(LineOf(c), recs[1..])
  {
    assert recs != [];
    var line;
    line, next := GetLine(data, p);
    ghost var time := c.time(Second(recs[0].timestamp));
    assert Clean(time);
    FatStringHasNoNewline(recs[0], time);
    FirstLine(data, p, ToFatString(recs[0], time), Lines(LineOf(c), recs[1..]), line);
    FatRoundTrip(recs[0], time);
    m := FromFatString(line).value;
  }

  lemma CleanRest(recs: seq<Item>)
    requires recs != [] && CleanItems(recs)
    ensures CleanItems(recs[1..])
  {
  }

  method ReadMetricsInOneFileByEndTime(c: Config, metricVec: seq<Item>, data: string, offset: nat, begin: int, end: int,
                                       identity: string, ghost recs: seq<Item>) returns (r: seq<Item>, more: bool)
    requires IsConfig(c) && offset <= |data| && data[offset..] == Lines(LineOf(c), recs) && CleanItems(recs)
    ensures Scan(r, more) == ReadRange(metricVec, recs, begin, end, identity)
  {
    var p := offset;
    r := metricVec;
    ghost var left := recs;
    while p < |data|
      invariant p <= |data| && data[p..] == Lines(LineOf(c), left) && CleanItems(left)
      invariant ReadRange(metricVec, recs, begin, end, identity) == ReadRange(r, left, begin, end, identity)
      decreases |data| - p
    {
      var node;
      node, p := ReadItem(c, data, p, left);
      CleanRest(left);
      var second := Second(node.timestamp);
      if second < begin {
        return r, false;
      }
      if second <= end {
        if identity == "" {
          r := r + [node];
        } else if node.resource == identity {
          r := r + [node];
        }
      } else {
        return r, false;
      }
      if |r| >= MAX_LINES {
        return r, false;
      }
      left := left[1..];
    }
    RecordsNeedData(c, left);
    more := true;
  }

  lemma RecordsNeedData(c: Config, recs: seq<Item>)
    ensures recs != [] ==> |Lines(LineOf(c), recs)| > 0
  {
    if recs != [] {
      var line := LineOf(c)(recs[0]);
      assert line[|line| - 1] == '\n';
      assert Lines(LineOf(c), recs) == line + Lines(LineOf(c), recs[1..]);
    }
  }

  /** `limit` is the recommended number of lines, as the size_t it is compared as. */
  method ReadMetricsInOneFile(c: Config, metricVec: seq<Item>, data: string, offset: nat, limit: nat,
                              ghost recs: seq<Item>) returns (r: seq<Item>)
    requires IsConfig(c) && offset <= |data| && data[offset..] == Lines(LineOf(c), recs) && CleanItems(recs)
    ensures r == ReadLines(metricVec, recs, limit)
  {
    var p := offset;
    r := metricVec;
    var lastSecond := if |r| > 0 then Second(r[|r| - 1].timestamp) else -1;
    ghost var left := recs;
    while p < |data|
      invariant p <= |data| && data[p..] == Lines(LineOf(c), left) && CleanItems(left)
      invariant lastSecond == LastSecond(r)
      invariant ReadLines(metricVec, recs, limit) == ReadLines(r, left, limit)
      decreases |data| - p
    {
      var node;
      node, p := ReadItem(c, data, p, left);
      CleanRest(left);
      var second := Second(node.timestamp);
      if |r| < limit {
        r := r + [node];
      } else if second == lastSecond {
        r := r + [node];
      } else {
        break;
      }
      left := left[1..];
      lastSecond := second;
    }
    RecordsNeedData(c, left);
  }

  // ---------------------------------------------------------------- the index

  /** The offset of the first index entry of a second not before `begin`, or -1. */
  function OffsetOf(index: seq<IndexEntry>, begin: int): int {
    if index == [] then -1
    else if index[0].second >= begin then index[0].offset
    else OffsetOf(index[1..], begin)
  }

  /** `second` is not initialised, and the loop runs once more after the last entry, with the values it had. */
  method FindOffset(index: seq<IndexEntry>, beginMs: int, uninitialised: int) returns (offset: int)
    ensures offset == OffsetOf(index, Second(beginMs))
  {
    var begin := Second(beginMs);
    var second, tmpOffset: int, failed, i := uninitialised, -1, false, 0;
    offset := -1;
    while !failed
      invariant 0 <= i <= |index| && offset == -1
      invariant i > 0 ==> second < begin
      invariant i == 0 ==> tmpOffset == -1
      invariant OffsetOf(index, begin) == OffsetOf(index[i..], begin)
      invariant failed ==> i == |index|
      decreases !failed, |index| - i
    {
      if i < |index| {
        second, tmpOffset := index[i].second, index[i].offset;
        i := i + 1;
      } else {
        failed := true;
      }
      if second < begin {
      } else {
        offset := tmpOffset;
        break;
      }
    }
  }

  /** Position `o` of a file is where `rest` begins, for data that starts at position `base`. */
  predicate Points(data: string, base: nat, o: int, rest: string) {
    base <= o <= base + |data| && data[o - base..] == rest
  }

  lemma PointsFurther(line: string, data: string, base: nat, o: int, rest: string)
    requires Points(data, base + |line|, o, rest)
    ensures Points(line + data, base, o, rest)
  {
    assert (line + data)[|line|..] == data;
    assert (line + data)[o - base..] == data[o - base - |line|..];
  }

  /** The offset found in the index of a file is where the records behind that index entry begin. */
  lemma {:induction false} OffsetIsAfter(line: Item -> string, toks: seq<Tok>, base: nat, begin: int)
    ensures var o := OffsetOf(Index(line, toks, base), begin);
      if HasMark(toks, begin) then Points(Lines(line, Recs(toks)), base, o, Lines(line, After(toks, begin)))
      else o == -1
  {
    if toks != [] {
      var rest := toks[1..];
      match toks[0]
      case Rec(m) =>
        var o := OffsetOf(Index(line, toks, base), begin);
        OffsetIsAfter(line, rest, base + |line(m)|, begin);
        if HasMark(toks, begin) {
          assert ([m] + Recs(rest))[1..] == Recs(rest);
          PointsFurther(line(m), Lines(line, Recs(rest)), base, o, Lines(line, After(toks, begin)));
        }
      case Mark(s) =>
        var tail := Index(line, rest, base);
        assert Recs(toks) == Recs(rest);
        assert ([IndexEntry(s, base)] + tail)[1..] == tail;
        if s < begin {
          OffsetIsAfter(line, rest, base, begin);
        }
    }
  }

  // ---------------------------------------------------------------- searching

  ghost predicate CleanFiles(toks: seq<TokFile>) {
    forall i :: 0 <= i < |toks| ==> CleanItems(Recs(toks[i].toks))
  }

  /** What a reader that has found `got` before file `next` ends up with. */
  ghost function RangeFrom(got: seq<Item>, more: bool, toks: seq<TokFile>, next: nat, begin: int, end: int, id: string)
    : seq<Item>
    requires next <= |toks|
  {
    if more && next < |toks| then ReadRangeOn(got, Recs(toks[next].toks), toks[next + 1..], begin, end, id) else got
  }

  lemma RangeFromNext(got: seq<Item>, recs: seq<Item>, toks: seq<TokFile>, next: nat, begin: int, end: int, id: string)
    requires next <= |toks|
    ensures var r := ReadRange(got, recs, begin, end, id);
      ReadRangeOn(got, recs, toks[next..], begin, end, id) == RangeFrom(r.items, r.more, toks, next, begin, end, id)
  {
    if next < |toks| {
      assert toks[next..][0] == toks[next] && toks[next..][1..] == toks[next + 1..];
    }
  }

  method ReadMetricsByEndTime(c: Config, files: seq<LogFile>, pos: nat, offset: nat, begin: int, end: int,
                              identity: string, ghost toks: seq<TokFile>, ghost recs: seq<Item>)
      returns (r: seq<Item>)
    requires IsConfig(c) && HoldAll(c, files, toks) && CleanFiles(toks) && pos < |files|
    requires offset <= |files[pos].data| && files[pos].data[offset..] == Lines(LineOf(c), recs) && CleanItems(recs)
    ensures r == ReadRangeOn([], recs, toks[pos + 1..], begin, end, identity)
  {
    var more;
    r, more := ReadMetricsInOneFileByEndTime(c, [], files[pos].data, offset, begin, end, identity, recs);
    RangeFromNext([], recs, toks, pos + 1, begin, end, identity);
    if !more {
      return;
    }
    var next := pos + 1;
    while next < |files| && more
      invariant pos < next <= |files|
      invariant RangeFrom(r, more, toks, next, begin, end, identity)
             == ReadRangeOn([], recs, toks[pos + 1..], begin, end, identity)
    {
      RangeFromNext(r, Recs(toks[next].toks), toks, next + 1, begin, end, identity);
      assert files[next].data[0..] == files[next].data;
      r, more := ReadMetricsInOneFileByEndTime(c, r, files[next].data, 0, begin, end, identity, Recs(toks[next].toks));
      next := next + 1;
    }
  }

  ghost function LinesFrom(got: seq<Item>, toks: seq<TokFile>, next: nat, limit: nat): seq<Item>
    requires next <= |toks|
  {
    if next < |toks| && |got| < limit then ReadLinesOn(got, Recs(toks[next].toks), toks[next + 1..], limit) else got
  }

  lemma LinesFromNext(got: seq<Item>, recs: seq<Item>, toks: seq<TokFile>, next: nat, limit: nat)
    requires next <= |toks|
    ensures ReadLinesOn(got, recs, toks[next..], limit) == LinesFrom(ReadLines(got, recs, limit), toks, next, limit)
  {
    if next < |toks| {
      assert toks[next..][0] == toks[next] && toks[next..][1..] == toks[next + 1..];
    }
  }

  method ReadMetrics(c: Config, files: seq<LogFile>, pos: nat, offset: nat, limit: nat,
                     ghost toks: seq<TokFile>, ghost recs: seq<Item>) returns (r: seq<Item>)
    requires IsConfig(c) && HoldAll(c, files, toks) && CleanFiles(toks) && pos < |files|
    requires offset <= |files[pos].data| && files[pos].data[offset..] == Lines(LineOf(c), recs) && CleanItems(recs)
    ensures r == ReadLinesOn([], recs, toks[pos + 1..], limit)
  {
    r := ReadMetricsInOneFile(c, [], files[pos].data, offset, limit, recs);
    ghost var all := ReadLinesOn([], recs, toks[pos + 1..], limit);
    LinesFromNext([], recs, toks, pos + 1, limit);
    var next := pos + 1;
    while next < |files| && |r| < limit
      invariant pos < next <= |files|
      invariant LinesFrom(r, toks, next, limit) == all
      decreases |files| - next
    {
      LinesFromNext(r, Recs(toks[next].toks), toks, next + 1, limit);
      assert files[next].data[0..] == files[next].data;
      r := ReadMetricsInOneFile(c, r, files[next].data, 0, limit, Recs(toks[next].toks));
      next := next + 1;
    }
  }

  /** A search of the file starts at `offset`. */
  ghost predicate StartsAt(c: Config, f: LogFile, t: TokFile, begin: int, offset: int) {
    HasMark(t.toks, begin) && Points(f.data, 0, offset, Lines(LineOf(c), After(t.toks, begin)))
  }

  lemma FileOffset(c: Config, f: LogFile, t: TokFile, begin: int)
    requires Holds(c, f, t)
    ensures var o := OffsetOf(f.index, begin);
      if HasMark(t.toks, begin) then o != -1 && StartsAt(c, f, t, begin, o) else o == -1
  {
    OffsetIsAfter(LineOf(c), t.toks, 0, begin);
  }

  /** The search loop over the files: the first one with an index entry of a second not before the begin time. */
  method FindFile(c: Config, files: seq<LogFile>, beginMs: int, uninitialised: int, ghost toks: seq<TokFile>,
                  ghost begin: int) returns (it: nat, offset: int)
    requires IsConfig(c) && HoldAll(c, files, toks) && begin == Second(beginMs)
    ensures it <= |files| && forall i :: 0 <= i < it ==> !HasMark(toks[i].toks, begin)
    ensures it < |files| ==> StartsAt(c, files[it], toks[it], begin, offset)
  {
    it, offset := 0, -1;
    while it < |files|
      invariant it <= |files|
      invariant forall i :: 0 <= i < it ==> !HasMark(toks[i].toks, begin)
    {
      offset := FindOffset(files[it].index, beginMs, uninitialised);
      FileOffset(c, files[it], toks[it], begin);
      if offset != -1 {
        return;
      }
      it := it + 1;
    }
  }

  lemma {:induction false} AfterIsClean(toks: seq<Tok>, begin: int)
    requires CleanItems(Recs(toks))
    ensures CleanItems(After(toks, begin))
  {
    if toks != [] {
      if toks[0].Rec? {
        assert Recs(toks)[1..] == Recs(toks[1..]);
        CleanRest(Recs(toks));
      } else {
        assert [] + Recs(toks[1..]) == Recs(toks[1..]);
      }
      AfterIsClean(toks[1..], begin);
    }
  }

  lemma {:induction false} RangeAtFile(toks: seq<TokFile>, it: nat, beginMs: int, endMs: int, id: string)
    requires it <= |toks| && forall i :: 0 <= i < it ==> !HasMark(toks[i].toks, Second(beginMs))
    ensures FindRange(toks, beginMs, endMs, id) == FindRange(toks[it..], beginMs, endMs, id)
  {
    if it > 0 {
      RangeAtFile(toks[1..], it - 1, beginMs, endMs, id);
      assert toks[1..][it - 1..] == toks[it..];
    }
  }

  lemma {:induction false} LinesAtFile(toks: seq<TokFile>, it: nat, beginMs: int, lines: int)
    requires it <= |toks| && forall i :: 0 <= i < it ==> !HasMark(toks[i].toks, Second(beginMs))
    ensures FindLines(toks, beginMs, lines) == FindLines(toks[it..], beginMs, lines)
  {
    if it > 0 {
      LinesAtFile(toks[1..], it - 1, beginMs, lines);
      assert toks[1..][it - 1..] == toks[it..];
    }
  }

  method FindByTimeAndResource(c: Config, files: seq<LogFile>, beginMs: int, endMs: int, identity: string,
                               uninitialised: int, ghost toks: seq<TokFile>) returns (r: seq<Item>)
    requires IsConfig(c) && HoldAll(c, files, toks) && CleanFiles(toks)
    ensures r == FindRange(toks, beginMs, endMs, identity)
  {
    var it, offset := FindFile(c, files, beginMs, uninitialised, toks, Second(beginMs));
    RangeAtFile(toks, it, beginMs, endMs, identity);
    if it == |files| {
      return [];
    }
    ghost var recs := After(toks[it].toks, Second(beginMs));
    AfterIsClean(toks[it].toks, Second(beginMs));
    assert toks[it..][0] == toks[it] && toks[it..][1..] == toks[it + 1..];
    r := ReadMetricsByEndTime(c, files, it, offset, Second(beginMs), Second(endMs), identity, toks, recs);
  }

  method Find(c: Config, files: seq<LogFile>, beginMs: int, recommendLines: int, uninitialised: int,
              ghost toks: seq<TokFile>) returns (r: seq<Item>)
    requires IsConfig(c) && HoldAll(c, files, toks) && CleanFiles(toks)
    ensures r == FindLines(toks, beginMs, recommendLines)
  {
    var it, offset := FindFile(c, files, beginMs, uninitialised, toks, Second(beginMs));
    LinesAtFile(toks, it, beginMs, recommendLines);
    if it == |files| {
      return [];
    }
    ghost var recs := After(toks[it].toks, Second(beginMs));
    AfterIsClean(toks[it].toks, Second(beginMs));
    assert toks[it..][0] == toks[it] && toks[it..][1..] == toks[it + 1..];
    r := ReadMetrics(c, files, it, offset, AsSize(recommendLines), toks, recs);
  }

  // ---------------------------------------------------------------- the files a searcher is given

  /** Listing and sorting the directory of a run gives its files in the order they were written, and the name
      chosen for a new file on any later day is a fresh one. */
  lemma SearcherSeesWriterOrder(c: Config, calls: seq<Call>, start: int, dir: string, file: string,
                                listing: seq<string>, sorted: seq<string>, second: int)
    requires IsConfig(c) && start >= 1 && IsBase(dir + file)
    requires var log := Run(c, Init(start), calls);
      && Lists(listing, file, Entries(log.files)) && Distinct(listing)
      && SortedAs(MetricFiles(listing, file, dir), sorted)
      && second >= log.lastSecond
      && forall e :: e in Entries(log.files) ==> e.number < INT32_MAX
    ensures var entries := Entries(Run(c, Init(start), calls).files);
      && sorted == Names(dir + file, entries)
      && NextFileNameOfDay(dir, file, c.date(second), listing) == Name(dir + file, NextEntry(entries, c.date(second)))
      && Name(file, NextEntry(entries, c.date(second))) !in listing
  {
    var log := Run(c, Init(start), calls);
    var entries := Entries(log.files);
    RunFromInit(c, calls, start);
    SortedListingIsCreationOrder(dir, file, listing, entries, sorted);
    LaterDate(c, entries, log.lastSecond, second);
    NextNameIsFreshAndLast(dir, file, c.date(second), listing, entries);
  }
}
