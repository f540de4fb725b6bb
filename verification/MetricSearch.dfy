/** What a search of the metric log returns, compared with a plain filter of everything written. */
module MetricSearch {
  import opened Seqs
  import opened MetricItem
  import opened MetricLog

  const MAX_LINES: nat := 100000

  // ---------------------------------------------------------------- where a search starts

  predicate HasMark(toks: seq<Tok>, begin: int) {
    toks != [] && ((toks[0].Mark? && toks[0].second >= begin) || HasMark(toks[1..], begin))
  }

  /** The records behind the first index entry of a second not before `begin`. */
  function After(toks: seq<Tok>, begin: int): seq<Item> {
    if toks == [] then []
    else if toks[0].Mark? && toks[0].second >= begin then Recs(toks[1..])
    else After(toks[1..], begin)
  }

  /** The records a full scan finds from `begin` on. */
  function Since(recs: seq<Item>, begin: int): seq<Item> {
    if recs == [] then []
    else (if Second(recs[0].timestamp) >= begin then [recs[0]] else []) + Since(recs[1..], begin)
  }

  predicate SortedFrom(recs: seq<Item>, second: int) {
    recs == [] || (Second(recs[0].timestamp) >= second && SortedFrom(recs[1..], Second(recs[0].timestamp)))
  }

  lemma LaterStart(recs: seq<Item>, s: int, t: int)
    requires SortedFrom(recs, t) && s <= t
    ensures SortedFrom(recs, s)
  {
  }

  lemma {:induction false} OrderedIsSorted(toks: seq<Tok>, second: int)
    requires Ordered(toks, second)
    ensures SortedFrom(Recs(toks), second)
  {
    if toks != [] {
      match toks[0]
      case Rec(m) =>
        OrderedIsSorted(toks[1..], second);
      case Mark(s) =>
        OrderedIsSorted(toks[1..], s);
        LaterStart(Recs(toks[1..]), second, s);
        assert [] + Recs(toks[1..]) == Recs(toks[1..]);
    }
  }

  lemma {:induction false} AllSince(recs: seq<Item>, begin: int)
    requires SortedFrom(recs, begin)
    ensures Since(recs, begin) == recs
  {
    if recs != [] {
      LaterStart(recs[1..], begin, Second(recs[0].timestamp));
      AllSince(recs[1..], begin);
    }
  }

  /** Starting at the index entry finds what a scan finds, unless records of `begin` or later precede every entry. */
  lemma {:induction false} AfterIsSince(toks: seq<Tok>, second: int, begin: int)
    requires Ordered(toks, second) && (second < begin || (toks != [] ==> toks[0].Mark?))
    ensures After(toks, begin) == Since(Recs(toks), begin)
    ensures SortedFrom(After(toks, begin), begin)
  {
    if toks != [] {
      var rest := toks[1..];
      match toks[0]
      case Rec(m) =>
        AfterIsSince(rest, second, begin);
        assert [m] + Recs(rest) == Recs(toks);
        assert Since(Recs(toks), begin) == [] + Since(Recs(rest), begin);
      case Mark(s) =>
        assert Recs(toks) == Recs(rest);
        if s >= begin {
          OrderedIsSorted(rest, s);
          LaterStart(Recs(rest), begin, s);
          AllSince(Recs(rest), begin);
        } else {
          AfterIsSince(rest, s, begin);
        }
    }
  }

  lemma {:induction false} AfterAppend(a: seq<Tok>, b: seq<Tok>, begin: int)
    ensures HasMark(a + b, begin) <==> HasMark(a, begin) || HasMark(b, begin)
    ensures After(a + b, begin) == if HasMark(a, begin) then After(a, begin) + Recs(b) else After(b, begin)
  {
    if a == [] {
      assert a + b == b;
    } else {
      assert (a + b)[0] == a[0] && (a + b)[1..] == a[1..] + b;
      RecsAppend(a[1..], b);
      AfterAppend(a[1..], b, begin);
    }
  }

  // ---------------------------------------------------------------- a range of time, one resource

  datatype Scan = Scan(items: seq<Item>, more: bool)

  predicate Wanted(m: Item, identity: string) {
    identity == "" || m.resource == identity
  }

  /** Reading on through `recs` with `got` already found; `more` tells whether to go on with the next file. */
  function ReadRange(got: seq<Item>, recs: seq<Item>, begin: int, end: int, identity: string): Scan
    decreases |recs|
  {
    if recs == [] then Scan(got, true)
    else
      var m := Stored(recs[0]);
      var second := Second(m.timestamp);
      if second < begin || second > end then Scan(got, false)
      else
        var now := if Wanted(m, identity) then got + [m] else got;
        if |now| >= MAX_LINES then Scan(now, false) else ReadRange(now, recs[1..], begin, end, identity)
  }

  function ReadRangeOn(got: seq<Item>, recs: seq<Item>, files: seq<TokFile>, begin: int, end: int, identity: string)
    : seq<Item>
    decreases |files|
  {
    var r := ReadRange(got, recs, begin, end, identity);
    if r.more && files != [] then ReadRangeOn(r.items, Recs(files[0].toks), files[1..], begin, end, identity)
    else r.items
  }

  /** FindByTimeAndResource, in milliseconds. */
  function FindRange(files: seq<TokFile>, beginMs: int, endMs: int, identity: string): seq<Item> {
    if files == [] then []
    else if HasMark(files[0].toks, Second(beginMs)) then
      ReadRangeOn([], After(files[0].toks, Second(beginMs)), files[1..], Second(beginMs), Second(endMs), identity)
    else FindRange(files[1..], beginMs, endMs, identity)
  }

  /** The records as they are read back, of the wanted resource and seconds. */
  function Matching(recs: seq<Item>, begin: int, end: int, identity: string): seq<Item> {
    if recs == [] then []
    else
      var m := Stored(recs[0]);
      (if begin <= Second(m.timestamp) <= end && (|identity| == 0 || m.resource == identity) then [m] else [])
      + Matching(recs[1..], begin, end, identity)
  }

  lemma {:induction false} ReadRangeAppend(got: seq<Item>, a: seq<Item>, b: seq<Item>, begin: int, end: int, id: string)
    ensures var r := ReadRange(got, a, begin, end, id);
      ReadRange(got, a + b, begin, end, id) == if r.more then ReadRange(r.items, b, begin, end, id) else r
    decreases |a|
  {
    if a == [] {
      assert a + b == b;
    } else {
      assert (a + b)[0] == a[0] && (a + b)[1..] == a[1..] + b;
      var m := Stored(a[0]);
      var now := if Wanted(m, id) then got + [m] else got;
      ReadRangeAppend(now, a[1..], b, begin, end, id);
    }
  }

  lemma {:induction false} ReadRangeOnIsOneRead(got: seq<Item>, recs: seq<Item>, files: seq<TokFile>,
                                                begin: int, end: int, id: string)
    ensures ReadRangeOn(got, recs, files, begin, end, id)
         == ReadRange(got, recs + Recs(All(files)), begin, end, id).items
    decreases |files|
  {
    if files == [] {
      assert recs + Recs(All(files)) == recs;
    } else {
      var r := ReadRange(got, recs, begin, end, id);
      RecsAppend(files[0].toks, All(files[1..]));
      ReadRangeAppend(got, recs, Recs(All(files)), begin, end, id);
      ReadRangeOnIsOneRead(r.items, Recs(files[0].toks), files[1..], begin, end, id);
    }
  }

  /** Files do not matter to a range search: it reads the retained log from one index entry on. */
  lemma {:induction false} FindRangeReadsOn(files: seq<TokFile>, beginMs: int, endMs: int, id: string)
    ensures FindRange(files, beginMs, endMs, id)
         == ReadRange([], After(All(files), Second(beginMs)), Second(beginMs), Second(endMs), id).items
  {
    if files != [] {
      AfterAppend(files[0].toks, All(files[1..]), Second(beginMs));
      if HasMark(files[0].toks, Second(beginMs)) {
        ReadRangeOnIsOneRead([], After(files[0].toks, Second(beginMs)), files[1..], Second(beginMs), Second(endMs), id);
      } else {
        FindRangeReadsOn(files[1..], beginMs, endMs, id);
      }
    }
  }

  lemma {:induction false} NothingLater(recs: seq<Item>, begin: int, end: int, id: string, second: int)
    requires SortedFrom(recs, second) && second > end
    ensures Matching(recs, begin, end, id) == []
  {
    if recs != [] {
      NothingLater(recs[1..], begin, end, id, Second(recs[0].timestamp));
    }
  }

  lemma {:induction false} ReadRangeIsFilter(got: seq<Item>, recs: seq<Item>, begin: int, end: int, id: string)
    requires SortedFrom(recs, begin) && |got| < MAX_LINES
    ensures ReadRange(got, recs, begin, end, id).items == Take(got + Matching(recs, begin, end, id), MAX_LINES)
    decreases |recs|
  {
    if recs == [] {
      assert got + [] == got;
    } else {
      var m, rest := Stored(recs[0]), recs[1..];
      var second := Second(m.timestamp);
      LaterStart(rest, begin, second);
      if second > end {
        NothingLater(recs, begin, end, id, second);
        assert got + [] == got;
      } else if Wanted(m, id) {
        var now := got + [m];
        var more := Matching(rest, begin, end, id);
        assert got + ([m] + more) == now + more;
        if |now| < MAX_LINES {
          ReadRangeIsFilter(now, rest, begin, end, id);
        } else {
          assert (now + more)[..MAX_LINES] == now;
        }
      } else {
        assert [] + Matching(rest, begin, end, id) == Matching(rest, begin, end, id);
        ReadRangeIsFilter(got, rest, begin, end, id);
      }
    }
  }

  lemma {:induction false} MatchingSince(recs: seq<Item>, begin: int, end: int, id: string)
    ensures Matching(Since(recs, begin), begin, end, id) == Matching(recs, begin, end, id)
  {
    if recs != [] {
      var rest := recs[1..];
      MatchingSince(rest, begin, end, id);
      if Second(recs[0].timestamp) >= begin {
        assert ([recs[0]] + Since(rest, begin))[1..] == Since(rest, begin);
      } else {
        assert [] + Since(rest, begin) == Since(rest, begin);
        assert [] + Matching(rest, begin, end, id) == Matching(rest, begin, end, id);
      }
    }
  }

  /** On tokens in order that begin with an index entry, a search is a filter. */
  lemma SearchIsFilter(toks: seq<Tok>, second: int, begin: int, end: int, id: string)
    requires Ordered(toks, second) && (toks != [] ==> toks[0].Mark?)
    ensures ReadRange([], After(toks, begin), begin, end, id).items
         == Take(Matching(Recs(toks), begin, end, id), MAX_LINES)
  {
    AfterIsSince(toks, second, begin);
    var found := After(toks, begin);
    ReadRangeIsFilter([], found, begin, end, id);
    MatchingSince(Recs(toks), begin, end, id);
    assert [] + Matching(found, begin, end, id) == Matching(found, begin, end, id);
  }

  lemma RunFromInit(c: Config, calls: seq<Call>, start: int)
    requires IsConfig(c) && start >= 1
    ensures Good(c, Run(c, Init(start), calls), start)
    ensures Recs(Whole(Run(c, Init(start), calls))) == Written(calls, start)
  {
    InitIsGood(c, start);
    RunWrites(c, Init(start), calls, start);
    assert Whole(Init(start)) == [];
    assert [] + Written(calls, start) == Written(calls, start);
  }

  /** With no file deleted, a range search returns the first matching records of everything that was written. */
  lemma RangeSearchIsExact(c: Config, calls: seq<Call>, start: int, beginMs: int, endMs: int, id: string)
    requires IsConfig(c) && start >= 1
    requires Run(c, Init(start), calls).removed == []
    ensures FindRange(Run(c, Init(start), calls).files, beginMs, endMs, id)
         == Take(Matching(Written(calls, start), Second(beginMs), Second(endMs), id), 100000)
  {
    var log := Run(c, Init(start), calls);
    RunFromInit(c, calls, start);
    assert Whole(log) == All(log.files);
    FindRangeReadsOn(log.files, beginMs, endMs, id);
    SearchIsFilter(All(log.files), start, Second(beginMs), Second(endMs), id);
  }

  // ---------------------------------------------------------------- a number of lines

  /** The conversion of an int to size_t. */
  function AsSize(n: int): nat {
    n % 0x1_0000_0000_0000_0000
  }

  function LastSecond(got: seq<Item>): int {
    if got == [] then -1 else Second(Last(got).timestamp)
  }

  /** Reading one file up to `limit` records, and past it while the second stays the same. */
  function ReadLines(got: seq<Item>, recs: seq<Item>, limit: nat): seq<Item>
    decreases |recs|
  {
    if recs == [] then got
    else
      var m := Stored(recs[0]);
      if |got| < limit || Second(m.timestamp) == LastSecond(got) then ReadLines(got + [m], recs[1..], limit)
      else got
  }

  function ReadLinesOn(got: seq<Item>, recs: seq<Item>, files: seq<TokFile>, limit: nat): seq<Item>
    decreases |files|
  {
    var r := ReadLines(got, recs, limit);
    if files != [] && |r| < limit then ReadLinesOn(r, Recs(files[0].toks), files[1..], limit) else r
  }

  /** Find, with the begin time in milliseconds. */
  function FindLines(files: seq<TokFile>, beginMs: int, recommendLines: int): seq<Item> {
    if files == [] then []
    else if HasMark(files[0].toks, Second(beginMs)) then
      ReadLinesOn([], After(files[0].toks, Second(beginMs)), files[1..], AsSize(recommendLines))
    else FindLines(files[1..], beginMs, recommendLines)
  }

  function AllStored(recs: seq<Item>): (r: seq<Item>)
    ensures |r| == |recs|
  {
    if recs == [] then [] else [Stored(recs[0])] + AllStored(recs[1..])
  }

  predicate SameSecondAt(r: seq<Item>, i: nat)
    requires i < |r|
  {
    i > 0 && Second(r[i].timestamp) == Second(r[i - 1].timestamp)
  }

  ghost predicate OneSecondPast(r: seq<Item>, limit: nat) {
    forall i :: limit <= i < |r| ==> SameSecondAt(r, i)
  }

  ghost predicate Dated(recs: seq<Item>) {
    forall i :: 0 <= i < |recs| ==> Second(recs[i].timestamp) != -1
  }

  lemma DatedParts(a: seq<Item>, b: seq<Item>)
    requires Dated(a + b)
    ensures Dated(a) && Dated(b)
  {
    assert forall i :: 0 <= i < |a| ==> a[i] == (a + b)[i];
    assert forall i :: 0 <= i < |b| ==> b[i] == (a + b)[|a| + i];
  }

  /** At least `limit` records if there are so many, from the start of `all`, and past the limit one second only. */
  ghost predicate FirstLines(r: seq<Item>, all: seq<Item>, limit: nat) {
    && r <= all
    && (|r| >= limit || r == all)
    && OneSecondPast(r, limit)
  }

  lemma {:induction false} StoredAppend(a: seq<Item>, b: seq<Item>)
    ensures AllStored(a + b) == AllStored(a) + AllStored(b)
  {
    if a == [] {
      assert a + b == b;
    } else {
      assert (a + b)[0] == a[0] && (a + b)[1..] == a[1..] + b;
      StoredAppend(a[1..], b);
    }
  }

  /** One file: the records that were read, and why reading stopped. */
  lemma {:induction false} ReadLinesIsPrefix(got: seq<Item>, recs: seq<Item>, limit: nat)
    requires OneSecondPast(got, limit) && Dated(recs)
    ensures FirstLines(ReadLines(got, recs, limit), got + AllStored(recs), limit)
    ensures var r, all := ReadLines(got, recs, limit), got + AllStored(recs);
      |r| < |all| ==> Second(all[|r|].timestamp) != LastSecond(r)
    decreases |recs|
  {
    if recs == [] {
      assert got + [] == got;
    } else {
      var m, rest := Stored(recs[0]), recs[1..];
      assert got + AllStored(recs) == (got + [m]) + AllStored(rest);
      if |got| < limit || Second(m.timestamp) == LastSecond(got) {
        var now := got + [m];
        forall i | limit <= i < |now| ensures SameSecondAt(now, i) {
          if i < |got| {
            assert SameSecondAt(got, i);
          }
        }
        ReadLinesIsPrefix(now, rest, limit);
      }
    }
  }

  lemma {:induction false} ReadLinesOnIsPrefix(got: seq<Item>, recs: seq<Item>, files: seq<TokFile>, limit: nat)
    requires OneSecondPast(got, limit) && Dated(recs + Recs(All(files)))
    ensures FirstLines(ReadLinesOn(got, recs, files, limit), got + AllStored(recs + Recs(All(files))), limit)
    decreases |files|
  {
    var later := Recs(All(files));
    DatedParts(recs, later);
    var r := ReadLines(got, recs, limit);
    ReadLinesIsPrefix(got, recs, limit);
    StoredAppend(recs, later);
    Associate(got, AllStored(recs), AllStored(later));
    if files == [] {
      assert recs + later == recs;
    } else if |r| < limit {
      RecsAppend(files[0].toks, All(files[1..]));
      ReadLinesOnIsPrefix(r, Recs(files[0].toks), files[1..], limit);
    }
  }

  lemma {:induction false} FindLinesReadsOn(files: seq<TokFile>, beginMs: int, lines: int)
    requires Dated(After(All(files), Second(beginMs)))
    ensures FirstLines(FindLines(files, beginMs, lines), AllStored(After(All(files), Second(beginMs))), AsSize(lines))
  {
    var begin := Second(beginMs);
    if files != [] {
      AfterAppend(files[0].toks, All(files[1..]), begin);
      if HasMark(files[0].toks, begin) {
        var recs, later := After(files[0].toks, begin), Recs(All(files[1..]));
        ReadLinesOnIsPrefix([], recs, files[1..], AsSize(lines));
        assert [] + AllStored(recs + later) == AllStored(recs + later);
      } else {
        FindLinesReadsOn(files[1..], beginMs, lines);
      }
    }
  }

  /** With no file deleted, a search by lines returns a prefix of what was written from the given second on:
      as many records as were asked for if there are so many, and beyond them only their last one's second. */
  lemma LineSearchIsPrefix(c: Config, calls: seq<Call>, start: int, beginMs: int, lines: int)
    requires IsConfig(c) && start >= 1
    requires Run(c, Init(start), calls).removed == []
    ensures FirstLines(FindLines(Run(c, Init(start), calls).files, beginMs, lines),
                       AllStored(Since(Written(calls, start), Second(beginMs))), AsSize(lines))
  {
    var log, begin := Run(c, Init(start), calls), Second(beginMs);
    RunFromInit(c, calls, start);
    assert Whole(log) == All(log.files);
    AfterIsSince(Whole(log), start, begin);
    OrderedIsSorted(Whole(log), start);
    var found := After(Whole(log), begin);
    forall i | 0 <= i < |found| ensures Second(found[i].timestamp) != -1 {
      SinceKeeps(Written(calls, start), start, begin, i);
    }
    FindLinesReadsOn(log.files, beginMs, lines);
  }

  lemma {:induction false} SinceKeeps(recs: seq<Item>, second: int, begin: int, i: nat)
    requires SortedFrom(recs, second) && i < |Since(recs, begin)|
    ensures Second(Since(recs, begin)[i].timestamp) >= second
  {
    if recs != [] {
      var rest := recs[1..];
      LaterStart(rest, second, Second(recs[0].timestamp));
      if Second(recs[0].timestamp) < begin {
        assert [] + Since(rest, begin) == Since(rest, begin);
        SinceKeeps(rest, second, begin, i);
      } else if i > 0 {
        SinceKeeps(rest, second, begin, i - 1);
      }
    }
  }

  // ---------------------------------------------------------------- after deletions

  /** The records in front of the first index entry, and the tokens from that entry on. */
  function Leading(toks: seq<Tok>): seq<Item> {
    if toks == [] || toks[0].Mark? then [] else [toks[0].item] + Leading(toks[1..])
  }

  function FromMark(toks: seq<Tok>): (r: seq<Tok>)
    ensures r != [] ==> r[0].Mark?
  {
    if toks == [] || toks[0].Mark? then toks else FromMark(toks[1..])
  }

  lemma {:induction false} LeadingSplit(toks: seq<Tok>, second: int)
    requires Ordered(toks, second)
    ensures Recs(toks) == Leading(toks) + Recs(FromMark(toks))
    ensures forall i :: 0 <= i < |Leading(toks)| ==> Second(Leading(toks)[i].timestamp) == second
    ensures Ordered(FromMark(toks), second)
  {
    if toks == [] || toks[0].Mark? {
      assert Leading(toks) + Recs(FromMark(toks)) == Recs(toks);
    } else {
      LeadingSplit(toks[1..], second);
    }
  }

  lemma {:induction false} LeadingIsSkipped(toks: seq<Tok>, begin: int)
    ensures After(toks, begin) == After(FromMark(toks), begin)
  {
    if toks != [] && toks[0].Rec? {
      LeadingIsSkipped(toks[1..], begin);
    }
  }

  /** What one search of a run finds, and what it cannot find. */
  ghost predicate MissesOnly(c: Config, calls: seq<Call>, start: int, second: int, missed: seq<Item>, seen: seq<Item>)
    requires c.totalFileCount >= 1
  {
    var log := Run(c, Init(start), calls);
    && Written(calls, start) == Recs(log.removed) + (missed + seen)
    && (forall i :: 0 <= i < |missed| ==> Second(missed[i].timestamp) == second)
    && missed == Leading(All(log.files))
  }

  lemma {:induction false} EndIsLater(toks: seq<Tok>, second: int)
    requires Ordered(toks, second)
    ensures End(toks, second) >= second
  {
    if toks != [] {
      EndIsLater(toks[1..], if toks[0].Rec? then second else toks[0].second);
    }
  }

  /** What is retained: in order from the second in force when the last deletion ended, and split at its first entry. */
  lemma Retained(c: Config, calls: seq<Call>, start: int) returns (second: int, missed: seq<Item>, seen: seq<Item>)
    requires IsConfig(c) && start >= 1
    ensures MissesOnly(c, calls, start, second, missed, seen) && second >= start
    ensures var kept := All(Run(c, Init(start), calls).files);
      Ordered(FromMark(kept), second) && seen == Recs(FromMark(kept))
    ensures |Run(c, Init(start), calls).files| <= c.totalFileCount + 1
  {
    var log := Run(c, Init(start), calls);
    RunFromInit(c, calls, start);
    var kept := All(log.files);
    RecsAppend(log.removed, kept);
    OrderedAppend(log.removed, kept, start);
    EndIsLater(log.removed, start);
    second := End(log.removed, start);
    LeadingSplit(kept, second);
    missed, seen := Leading(kept), Recs(FromMark(kept));
  }

  /** After any deletions a range search misses, of what is retained, only the records in front of the first
      retained index entry, and those carry one single second; the number of files stays bounded. */
  lemma RangeSearchAfterDeletions(c: Config, calls: seq<Call>, start: int, beginMs: int, endMs: int, id: string)
      returns (second: int, missed: seq<Item>, seen: seq<Item>)
    requires IsConfig(c) && start >= 1
    ensures MissesOnly(c, calls, start, second, missed, seen)
    ensures FindRange(Run(c, Init(start), calls).files, beginMs, endMs, id)
         == Take(Matching(seen, Second(beginMs), Second(endMs), id), 100000)
    ensures |Run(c, Init(start), calls).files| <= c.totalFileCount + 1
  {
    second, missed, seen := Retained(c, calls, start);
    var kept := All(Run(c, Init(start), calls).files);
    FindRangeReadsOn(Run(c, Init(start), calls).files, beginMs, endMs, id);
    LeadingIsSkipped(kept, Second(beginMs));
    SearchIsFilter(FromMark(kept), second, Second(beginMs), Second(endMs), id);
  }

  lemma LinesOfRetained(files: seq<TokFile>, second: int, beginMs: int, lines: int)
    requires Ordered(FromMark(All(files)), second) && second >= 0
    ensures FirstLines(FindLines(files, beginMs, lines), AllStored(Since(Recs(FromMark(All(files))), Second(beginMs))),
                       AsSize(lines))
  {
    var kept, begin := All(files), Second(beginMs);
    LeadingIsSkipped(kept, begin);
    AfterIsSince(FromMark(kept), second, begin);
    OrderedIsSorted(FromMark(kept), second);
    var found := After(kept, begin);
    forall i | 0 <= i < |found| ensures Second(found[i].timestamp) != -1 {
      SinceKeeps(Recs(FromMark(kept)), second, begin, i);
    }
    FindLinesReadsOn(files, beginMs, lines);
  }

  /** A search by lines misses no more: it returns a prefix of the retained records behind the first entry. */
  lemma LineSearchAfterDeletions(c: Config, calls: seq<Call>, start: int, beginMs: int, lines: int)
      returns (second: int, missed: seq<Item>, seen: seq<Item>)
    requires IsConfig(c) && start >= 1
    ensures MissesOnly(c, calls, start, second, missed, seen)
    ensures FirstLines(FindLines(Run(c, Init(start), calls).files, beginMs, lines),
                       AllStored(Since(seen, Second(beginMs))), AsSize(lines))
  {
    second, missed, seen := Retained(c, calls, start);
    LinesOfRetained(Run(c, Init(start), calls).files, second, beginMs, lines);
  }

  // ---------------------------------------------------------------- deletions do hide records

  /** The record alone reaches the size limit. */
  ghost predicate FillsOne(c: Config, rec: Item) {
    IsConfig(c) && c.singleFileSize <= |Line(c, rec)|
  }

  lemma OneLine(c: Config, toks: seq<Tok>, rec: Item)
    requires toks == [Rec(rec)] || exists second :: toks == [Mark(second), Rec(rec)]
    ensures |Lines(LineOf(c), Recs(toks))| == |Line(c, rec)|
  {
    var line := LineOf(c);
    assert [Rec(rec)][1..] == [] && Recs([Rec(rec)]) == [rec] + [];
    if toks != [Rec(rec)] {
      assert toks[1..] == [Rec(rec)] && Recs(toks) == [] + Recs([Rec(rec)]);
    }
    assert Recs(toks) == [rec] && [rec][1..] == [];
    assert Lines(line, [rec]) == line(rec) + Lines(line, []);
  }

  /** One file for each record, all of one second: only the first has an index entry. The last file is empty. */
  ghost predicate OneEach(log: Log, recs: seq<Item>) {
    && log.removed == [] && log.lastSecond == 1 && !log.firstWrite && recs != [] && |log.files| == |recs| + 1
    && log.files[0].toks == [Mark(1), Rec(recs[0])]
    && (forall i :: 0 < i < |recs| ==> log.files[i].toks == [Rec(recs[i])])
    && log.files[|recs|].toks == []
  }

  lemma OneItem(a: Item, time: Int64)
    ensures Stamp([a], time) == [a.(timestamp := time)]
    ensures Records(Stamp([a], time)) == [Rec(a.(timestamp := time))]
  {
    assert [a][1..] == [];
    assert [a.(timestamp := time)][1..] == [];
  }

  lemma PutTwice(log: Log, a: seq<Tok>, b: seq<Tok>)
    requires log.files != []
    ensures Put(Put(log, a), b) == Put(log, a + b)
  {
    var n := |log.files| - 1;
    assert log.files[n].toks + a + b == log.files[n].toks + (a + b);
    assert Put(Put(log, a), b).files == Put(log, a + b).files;
  }

  /** The index entry in front of the first record of a log. */
  function MarkOf(log: Log): seq<Tok> {
    if log.firstWrite then [Mark(1)] else []
  }

  /** Writing a record that fills the open file. */
  lemma FillsTheOpenFile(c: Config, log: Log, a: Item)
    requires FillsOne(c, a.(timestamp := 1000)) && log.files != [] && log.lastSecond == 1
    requires Last(log.files).toks == []
    ensures var m := Put(log.(firstWrite := false), MarkOf(log) + [Rec(a.(timestamp := 1000))]);
      Write(c, log, Call(1000, [a])) == NewFile(c, m, 1000)
  {
    var rec, l := [Rec(a.(timestamp := 1000))], log.(firstWrite := false);
    OneItem(a, 1000);
    assert Second(1000) == 1;
    PutTwice(l, MarkOf(log), rec);
    assert !log.firstWrite ==> MarkOf(log) + rec == rec;
    OneLine(c, Last(Put(l, MarkOf(log) + rec).files).toks, a.(timestamp := 1000));
  }

  lemma FirstRecord(c: Config, a: Item)
    requires FillsOne(c, a.(timestamp := 1000))
    ensures OneEach(Write(c, Init(1), Call(1000, [a])), [a.(timestamp := 1000)])
  {
    var opened_ := Opened(c, Init(1), 1000);
    assert All([]) == [];
    assert opened_.files == [opened_.files[0]] && opened_.files[0].toks == [] && opened_.removed == [];
    assert Write(c, Init(1), Call(1000, [a])) == Write(c, opened_, Call(1000, [a]));
    FillsTheOpenFile(c, opened_, a);
    var m := Put(opened_.(firstWrite := false), [Mark(1)] + [Rec(a.(timestamp := 1000))]);
    assert m.files[0].toks == [Mark(1), Rec(a.(timestamp := 1000))];
    assert m.files[..0] == [];
  }

  lemma NextRecord(c: Config, log: Log, recs: seq<Item>, a: Item)
    requires FillsOne(c, a.(timestamp := 1000)) && OneEach(log, recs) && |recs| < c.totalFileCount
    ensures OneEach(Write(c, log, Call(1000, [a])), recs + [a.(timestamp := 1000)])
  {
    FillsTheOpenFile(c, log, a);
    var m := Put(log, [] + [Rec(a.(timestamp := 1000))]);
    assert m.files[|recs|].toks == [Rec(a.(timestamp := 1000))];
    assert m.files[..0] == [] && All(m.files[..0]) == [];
  }

  /** Files of one record each, none with an index entry. */
  ghost predicate NoEntries(files: seq<TokFile>, recs: seq<Item>) {
    && |files| == |recs| + 1 && files[|recs|].toks == []
    && forall i :: 0 <= i < |recs| ==> files[i].toks == [Rec(recs[i])]
  }

  lemma OldestGoes(c: Config, log: Log, recs: seq<Item>, rec: Item)
    requires c.totalFileCount == |recs| && OneEach(log, recs)
    ensures NoEntries(NewFile(c, Put(log.(firstWrite := false), [] + [Rec(rec)]), 1000).files, recs[1..] + [rec])
  {
    var m := Put(log.(firstWrite := false), [] + [Rec(rec)]);
    var n := NewFile(c, m, 1000);
    assert m.files[|recs|].toks == [Rec(rec)];
    assert n.files[..|recs|] == m.files[1..] && |n.files| == |recs| + 1 && n.files[|recs|].toks == [];
    forall i | 0 <= i < |recs| ensures n.files[i].toks == [Rec((recs[1..] + [rec])[i])] {
      assert n.files[i] == m.files[i + 1];
    }
  }

  lemma LastRecord(c: Config, log: Log, recs: seq<Item>, a: Item)
    requires FillsOne(c, a.(timestamp := 1000)) && OneEach(log, recs) && |recs| == c.totalFileCount
    ensures NoEntries(Write(c, log, Call(1000, [a])).files, recs[1..] + [a.(timestamp := 1000)])
  {
    FillsTheOpenFile(c, log, a);
    OldestGoes(c, log, recs, a.(timestamp := 1000));
  }

  lemma {:induction false} NothingFound(files: seq<TokFile>, recs: seq<Item>, lines: int)
    requires NoEntries(files, recs)
    ensures Recs(All(files)) == recs
    ensures FindRange(files, 1000, 1000, "") == [] && FindLines(files, 1000, lines) == []
  {
    var f := files[0];
    assert files == [f] + files[1..];
    assert !HasMark(f.toks, 1) by {
      if recs != [] {
        assert f.toks[1..] == [];
      }
    }
    assert Second(1000) == 1;
    if recs == [] {
      assert files[1..] == [] && All(files) == [] + [];
      assert FindRange(files[1..], 1000, 1000, "") == [] && FindLines(files[1..], 1000, lines) == [];
    } else {
      NothingFound(files[1..], recs[1..], lines);
      assert [Rec(recs[0])][1..] == [] && Recs([Rec(recs[0])]) == [recs[0]] + [];
      RecsAppend(f.toks, All(files[1..]));
      assert recs == [recs[0]] + recs[1..];
    }
  }

  function Singly(items: seq<Item>): (calls: seq<Call>)
    ensures |calls| == |items|
  {
    if items == [] then [] else [Call(1000, [items[0]])] + Singly(items[1..])
  }

  lemma RunOne(c: Config, log: Log, items: seq<Item>)
    requires c.totalFileCount >= 1 && items != []
    ensures Run(c, log, Singly(items)) == Run(c, Write(c, log, Call(1000, [items[0]])), Singly(items[1..]))
    ensures |items| == 1 ==> Run(c, log, Singly(items)) == Write(c, log, Call(1000, [items[0]]))
  {
    var calls := Singly(items);
    assert calls[0] == Call(1000, [items[0]]) && calls[1..] == Singly(items[1..]);
    if |items| == 1 {
      assert Run(c, Write(c, log, calls[0]), []) == Write(c, log, calls[0]);
    }
  }

  lemma RunNext(c: Config, log: Log, recs: seq<Item>, items: seq<Item>) returns (next: Log)
    requires IsConfig(c) && OneEach(log, recs) && items != [] && |recs| < c.totalFileCount
    requires FillsOne(c, items[0].(timestamp := 1000))
    ensures OneEach(next, recs + [items[0].(timestamp := 1000)])
    ensures Run(c, log, Singly(items)) == Run(c, next, Singly(items[1..]))
  {
    next := Write(c, log, Call(1000, [items[0]]));
    RunOne(c, log, items);
    NextRecord(c, log, recs, items[0]);
  }

  lemma RunLast(c: Config, log: Log, recs: seq<Item>, items: seq<Item>)
    requires IsConfig(c) && OneEach(log, recs) && |items| == 1 && |recs| == c.totalFileCount
    requires FillsOne(c, items[0].(timestamp := 1000))
    ensures NoEntries(Run(c, log, Singly(items)).files, recs[1..] + [items[0].(timestamp := 1000)])
  {
    RunOne(c, log, items);
    LastRecord(c, log, recs, items[0]);
  }

  lemma FirstGone(recs: seq<Item>, a: Item, rest: seq<Item>)
    requires recs != []
    ensures (recs + [a])[1..] + rest == recs[1..] + ([a] + rest)
  {
  }

  lemma {:induction false} FilledAndDeleted(c: Config, log: Log, recs: seq<Item>, items: seq<Item>)
    requires IsConfig(c) && OneEach(log, recs) && items != [] && |recs| + |items| == c.totalFileCount + 1
    requires forall i :: 0 <= i < |items| ==> FillsOne(c, items[i].(timestamp := 1000))
    ensures NoEntries(Run(c, log, Singly(items)).files, recs[1..] + Stamp(items, 1000))
    decreases |items|
  {
    var a := items[0].(timestamp := 1000);
    if |items| == 1 {
      RunLast(c, log, recs, items);
      assert Stamp(items, 1000) == [a] + Stamp([], 1000);
    } else {
      var next := RunNext(c, log, recs, items);
      FilledAndDeleted(c, next, recs + [a], items[1..]);
      FirstGone(recs, a, Stamp(items[1..], 1000));
    }
  }

  /** Deletions do hide retained records, whatever number of files is kept: when every record fills a file, all but the
      first file of a second have no index entry, and once that file is deleted none of the others is found. */
  lemma DeletionHidesRecords(c: Config, items: seq<Item>, lines: int)
    requires IsConfig(c) && |items| == c.totalFileCount + 1
    requires forall i :: 0 <= i < |items| ==> FillsOne(c, items[i].(timestamp := 1000))
    ensures var log := Run(c, Init(1), Singly(items));
      && Recs(All(log.files)) == Stamp(items[1..], 1000)
      && FindRange(log.files, 1000, 1000, "") == [] && FindLines(log.files, 1000, lines) == []
  {
    var a := items[0].(timestamp := 1000);
    RunOne(c, Init(1), items);
    FirstRecord(c, items[0]);
    FilledAndDeleted(c, Write(c, Init(1), Call(1000, [items[0]])), [a], items[1..]);
    assert [a][1..] + Stamp(items[1..], 1000) == Stamp(items[1..], 1000);
    NothingFound(Run(c, Init(1), Singly(items)).files, Stamp(items[1..], 1000), lines);
  }
}
