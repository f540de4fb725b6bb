/** Choosing the next metric file name from a directory listing, and listing the files in order. */
module FileListing {
  import opened Text
  import opened Seqs
  import opened FileNames

  const INT32_MAX := 0x7fff_ffff

  predicate CanCompare(name1: string, name2: string) {
    var l1, l2 := Split(name1, '.'), Split(name2, '.');
    DateField(l1) < |l1| && DateField(l1) < |l2|
  }

  predicate Later(name1: string, name2: string) {
    CanCompare(name2, name1) && Comparator(name2, name1)
  }

  /** The last element after std::sort. */
  function Greatest(names: seq<string>): string
    requires names != []
  {
    if |names| == 1 then names[0]
    else
      var g := Greatest(names[1..]);
      if Later(names[0], g) then names[0] else g
  }

  predicate IsCandidate(name: string, model: string) {
    Contains(name, model) && !EndsWith(name, INDEX_SUFFIX) && !EndsWith(name, LOCK_SUFFIX)
  }

  function Candidates(listing: seq<string>, model: string, dir: string): seq<string> {
    if listing == [] then []
    else
      (if IsCandidate(listing[0], model) then [dir + listing[0]] else []) + Candidates(listing[1..], model, dir)
  }

  /** The conversion of an int64_t to int. */
  function Narrow(x: int): int {
    (x + 0x8000_0000) % 0x1_0000_0000 - 0x8000_0000
  }

  /** The number a file name ends in, when its last field is one to ten digits. */
  function NumberOf(name: string): int {
    var fields := Split(name, '.');
    var last := fields[|fields| - 1];
    if 1 <= |last| <= 10 && AllDigits(last) then Narrow(Value(last)) else 0
  }

  function NextFileNameOfDay(dir: string, file: string, date: string, listing: seq<string>): string {
    var model := file + "." + date;
    var files := Candidates(listing, model, dir);
    if files == [] then dir + model
    else dir + model + "." + Decimal(NumberOf(Greatest(files)) + 1)
  }

  // ---------------------------------------------------------------- one writer's directory

  /** Entries in the order they were created: by day, then by number. */
  ghost predicate InOrder(entries: seq<Entry>) {
    && (forall i :: 0 <= i < |entries| ==> IsDate(entries[i].date))
    && (forall i, j :: 0 <= i < j < |entries| ==> Before(entries[i], entries[j]))
  }

  /** A directory that holds each entry's metric file and index file, listed in any order. What else it holds does not
      have the writer's base name in its name: the record and block logs, other writers' files. */
  ghost predicate Lists(listing: seq<string>, file: string, entries: seq<Entry>) {
    && (forall e :: e in entries ==> Name(file, e) in listing)
    && (forall name :: name in listing && Contains(name, file) ==>
          exists e :: e in entries && (name == Name(file, e) || name == Name(file, e) + INDEX_SUFFIX))
  }

  lemma ContainsStart(name: string, start: string, rest: string)
    requires Contains(name, start + rest)
    ensures Contains(name, start)
  {
    var k :| 0 <= k <= |name| - |start + rest| && OccursAt(name, start + rest, k);
    assert name[k..k + |start + rest|][..|start|] == name[k..k + |start|];
    assert OccursAt(name, start, k);
  }

  lemma StartIsContained(name: string, start: string)
    requires StartsWith(name, start)
    ensures Contains(name, start)
  {
    assert OccursAt(name, start, 0);
  }

  function NextEntry(entries: seq<Entry>, date: string): Entry {
    if entries != [] && Last(entries).date == date then Entry(date, Last(entries).number + 1) else Entry(date, 0)
  }

  lemma NameEndsInDigit(file: string, e: Entry)
    requires IsDate(e.date)
    ensures var n := Name(file, e); n != [] && IsDigit(n[|n| - 1])
  {
    DigitsShape(e.number);
    assert e.date[8..][1] == e.date[9];
  }

  lemma NotASuffix(name: string, suffix: string)
    requires name != [] && IsDigit(name[|name| - 1]) && suffix != [] && !IsDigit(suffix[|suffix| - 1])
    ensures !EndsWith(name, suffix)
  {
    if |suffix| <= |name| {
      assert name[|name| - |suffix|..][|suffix| - 1] == name[|name| - 1];
    }
  }

  /** Past its start a name cannot contain a name model: at most one later dot fits, in front of digits. */
  lemma NotLater(file: string, e: Entry, date: string, k: nat)
    requires IsDate(e.date) && IsDate(date) && k > 0
    ensures !OccursAt(Name(file, e), file + "." + date, k)
  {
    var name, model, n := Name(file, e), file + "." + date, |file|;
    if k + |model| <= |name| {
      DigitsShape(e.number);
      DateShape(e.date);
      assert e.number > 0 && |name| == |model| + 1 + |Digits(e.number)|;
      assert forall i :: 0 <= i < |Digits(e.number)| ==> name[n + 12 + i] == Digits(e.number)[i];
      assert model[n] == '.' && model[n + 5] == date[4];
      assert forall i :: 0 <= i < 10 ==> name[n + 1 + i] == e.date[i];
      var part := name[k..k + |model|];
      if k == 11 {
        assert part[n + 5] == name[n + 16];
      } else {
        assert part[n] == name[n + k] != '.';
      }
    }
  }

  /** Only the files of a day contain that day's name model. */
  lemma ContainsModel(file: string, e: Entry, date: string)
    requires IsDate(e.date) && IsDate(date)
    ensures Contains(Name(file, e), file + "." + date) <==> e.date == date
  {
    var name, model, n := Name(file, e), file + "." + date, |file|;
    forall k | 0 < k ensures !OccursAt(name, model, k) {
      NotLater(file, e, date, k);
    }
    assert name[..|model|] == file + "." + e.date;
    assert (file + "." + e.date)[n + 1..] == e.date && model[n + 1..] == date;
    assert OccursAt(name, model, 0) <==> e.date == date;
  }

  lemma CandidatesOf(listing: seq<string>, model: string, dir: string)
    ensures forall f :: f in Candidates(listing, model, dir)
              <==> exists name :: name in listing && IsCandidate(name, model) && f == dir + name
  {
    if listing != [] {
      CandidatesOf(listing[1..], model, dir);
      assert listing == [listing[0]] + listing[1..];
    }
  }

  lemma EntryIsCandidate(file: string, e: Entry, date: string)
    requires IsDate(e.date) && IsDate(date)
    ensures IsCandidate(Name(file, e), file + "." + date) <==> e.date == date
    ensures !IsCandidate(Name(file, e) + INDEX_SUFFIX, file + "." + date)
  {
    ContainsModel(file, e, date);
    NameEndsInDigit(file, e);
    NotASuffix(Name(file, e), INDEX_SUFFIX);
    NotASuffix(Name(file, e), LOCK_SUFFIX);
    assert EndsWith(Name(file, e) + INDEX_SUFFIX, INDEX_SUFFIX);
  }

  lemma FullName(dir: string, file: string, e: Entry)
    ensures dir + Name(file, e) == Name(dir + file, e)
  {
  }

  /** The candidates for a day are the full names of that day's entries. */
  lemma CandidatesAreEntries(dir: string, file: string, date: string, listing: seq<string>, entries: seq<Entry>)
    requires InOrder(entries) && Lists(listing, file, entries) && IsDate(date)
    ensures forall f :: f in Candidates(listing, file + "." + date, dir)
              <==> exists e :: e in entries && e.date == date && f == Name(dir + file, e)
  {
    var model := file + "." + date;
    CandidatesOf(listing, model, dir);
    forall e | e in entries ensures IsDate(e.date) && dir + Name(file, e) == Name(dir + file, e)
      && (IsCandidate(Name(file, e), model) <==> e.date == date) && !IsCandidate(Name(file, e) + INDEX_SUFFIX, model)
    {
      EntryIsCandidate(file, e, date);
      FullName(dir, file, e);
    }
    forall f | f in Candidates(listing, model, dir)
      ensures exists e :: e in entries && e.date == date && f == Name(dir + file, e)
    {
      var name :| name in listing && IsCandidate(name, model) && f == dir + name;
      assert model == file + ("." + date);
      ContainsStart(name, file, "." + date);
      var e :| e in entries && (name == Name(file, e) || name == Name(file, e) + INDEX_SUFFIX);
      assert e.date == date && f == Name(dir + file, e);
    }
    forall e | e in entries && e.date == date ensures Name(dir + file, e) in Candidates(listing, model, dir) {
      assert Name(file, e) in listing && IsCandidate(Name(file, e), model);
    }
  }

  ghost predicate NamesEntry(base: string, name: string, e: Entry, last: Entry) {
    IsDate(e.date) && name == Name(base, e) && (e == last || Before(e, last))
  }

  ghost predicate NamesUpTo(base: string, name: string, last: Entry) {
    exists e :: NamesEntry(base, name, e, last)
  }

  /** Among comparable names of entries, the greatest is the name of the last entry. */
  lemma {:induction false} GreatestIsLast(base: string, names: seq<string>, last: Entry)
    requires names != [] && IsBase(base) && IsDate(last.date) && Name(base, last) in names
    requires forall f :: f in names ==> NamesUpTo(base, f, last)
    ensures Greatest(names) == Name(base, last)
  {
    if |names| > 1 {
      assert names == [names[0]] + names[1..];
      assert NamesUpTo(base, names[0], last);
      var e :| NamesEntry(base, names[0], e, last);
      var g := Greatest(names[1..]);
      GreatestIsMember(names[1..]);
      assert NamesUpTo(base, g, last);
      var d :| NamesEntry(base, g, d, last);
      ComparatorIsCreationOrder(base, d, e);
      BeforeIsStrictTotalOrder(d, e, last);
      BeforeIsStrictTotalOrder(last, last, last);
      if Name(base, last) in names[1..] {
        GreatestIsLast(base, names[1..], last);
        ComparatorIsCreationOrder(base, last, e);
        BeforeIsStrictTotalOrder(last, e, last);
      } else {
        NamesAreInjective(base, e, last);
        NamesAreInjective(base, d, last);
        assert Before(d, last);
        ComparatorIsCreationOrder(base, d, last);
      }
    }
  }

  lemma {:induction false} GreatestIsMember(names: seq<string>)
    requires names != []
    ensures Greatest(names) in names
  {
    if |names| > 1 {
      GreatestIsMember(names[1..]);
    }
  }

  lemma NamesAreInjective(base: string, a: Entry, b: Entry)
    requires IsBase(base) && IsDate(a.date) && IsDate(b.date)
    ensures Name(base, a) == Name(base, b) ==> a == b
  {
    ComparatorIsCreationOrder(base, a, b);
    ComparatorIsCreationOrder(base, b, a);
    ComparatorIsCreationOrder(base, a, a);
    BeforeIsStrictTotalOrder(a, b, a);
  }

  lemma NumberOfName(base: string, e: Entry)
    requires IsDate(e.date) && e.number < INT32_MAX
    ensures NumberOf(Name(base, e)) == e.number
  {
    NameFields(base, e);
    var fields := Split(Name(base, e), '.');
    if e.number == 0 {
      assert Last(fields) == e.date && !IsDigit(e.date[4]);
    } else {
      ValueOfDigits(e.number);
      DigitsRange(e.number);
      assert Last(fields) == Digits(e.number);
      Pow10Ten();
      if |Digits(e.number)| > 10 {
        Pow10Grows(10, |Digits(e.number)| - 1);
        assert false;
      }
    }
  }

  lemma Pow10Ten()
    ensures Pow10(10) == 10_000_000_000
  {
    assert Pow10(5) == 100_000;
    assert Pow10(6) == 1_000_000 && Pow10(8) == 100_000_000;
  }

  lemma NextIsLast(entries: seq<Entry>, date: string)
    requires InOrder(entries) && IsDate(date) && forall e :: e in entries ==> !Less(date, e.date)
    ensures forall e :: e in entries ==> Before(e, NextEntry(entries, date))
    ensures entries == [] || Last(entries).date != date ==> forall e :: e in entries ==> e.date != date
  {
    if entries != [] {
      var last, next := Last(entries), NextEntry(entries, date);
      assert last in entries;
      LessTotal(last.date, date);
      LessIrreflexive(date);
      forall e | e in entries ensures Before(e, next) && (e.date == date ==> last.date == date) {
        var i :| 0 <= i < |entries| && entries[i] == e;
        assert e == last || Before(e, last);
        BeforeIsStrictTotalOrder(e, last, next);
      }
    }
  }

  lemma NotListed(dir: string, file: string, listing: seq<string>, entries: seq<Entry>, next: Entry)
    requires InOrder(entries) && Lists(listing, file, entries) && IsDate(next.date) && IsBase(dir + file)
    requires forall e :: e in entries ==> Before(e, next)
    ensures Name(file, next) !in listing
  {
    assert Name(file, next)[..|file|] == file;
    StartIsContained(Name(file, next), file);
    forall e | e in entries
      ensures Name(file, next) != Name(file, e) && Name(file, next) != Name(file, e) + INDEX_SUFFIX
    {
      FullName(dir, file, e);
      FullName(dir, file, next);
      NamesAreInjective(dir + file, e, next);
      BeforeIsStrictTotalOrder(next, e, e);
      NameEndsInDigit(file, next);
      var idx := Name(file, e) + INDEX_SUFFIX;
      assert !IsDigit(idx[|idx| - 1]);
    }
  }

  lemma EmptyIffNoMember(s: seq<string>)
    ensures s == [] <==> forall f :: f !in s
  {
    assert |s| > 0 ==> exists f :: f in s by {
      if |s| > 0 {
        assert s[0] in s;
      }
    }
  }

  lemma ModelNames(dir: string, file: string, date: string, n: nat)
    ensures dir + (file + "." + date) == Name(dir + file, Entry(date, 0))
    ensures n > 0 ==> dir + (file + "." + date) + "." + Digits(n) == Name(dir + file, Entry(date, n))
  {
    var model := file + "." + date;
    assert dir + model == dir + file + "." + date;
    assert dir + file + "." + date + "" == dir + file + "." + date;
    assert (dir + model) + ("." + Digits(n)) == dir + model + "." + Digits(n);
  }

  lemma UpToLast(base: string, entries: seq<Entry>, e: Entry)
    requires InOrder(entries) && e in entries
    ensures NamesUpTo(base, Name(base, e), Last(entries))
  {
    var i :| 0 <= i < |entries| && entries[i] == e;
    assert NamesEntry(base, Name(base, e), e, Last(entries));
  }

  lemma NextNumbered(dir: string, file: string, date: string, files: seq<string>, last: Entry, entries: seq<Entry>)
    requires InOrder(entries) && entries != [] && last == Last(entries) && last.date == date && IsBase(dir + file)
    requires last.number < INT32_MAX
    requires forall f :: f in files <==> exists e :: e in entries && e.date == date && f == Name(dir + file, e)
    ensures files != [] && Greatest(files) == Name(dir + file, last) && NumberOf(Greatest(files)) == last.number
  {
    assert last in entries;
    assert Name(dir + file, last) in files;
    forall f | f in files ensures NamesUpTo(dir + file, f, last) {
      var e :| e in entries && e.date == date && f == Name(dir + file, e);
      UpToLast(dir + file, entries, e);
    }
    GreatestIsLast(dir + file, files, last);
    NumberOfName(dir + file, last);
  }

  /** The file name chosen for a day no earlier than any on record: the next number of that day, or
      none for its first file. The new name is not taken and comes after every other. */
  lemma NextNameIsFreshAndLast(dir: string, file: string, date: string, listing: seq<string>, entries: seq<Entry>)
    requires InOrder(entries) && Lists(listing, file, entries) && IsDate(date) && IsBase(dir + file)
    requires forall e :: e in entries ==> !Less(date, e.date) && e.number < INT32_MAX
    ensures NextFileNameOfDay(dir, file, date, listing) == Name(dir + file, NextEntry(entries, date))
    ensures forall e :: e in entries ==> Before(e, NextEntry(entries, date))
    ensures Name(file, NextEntry(entries, date)) !in listing
  {
    var next := NextEntry(entries, date);
    var files := Candidates(listing, file + "." + date, dir);
    CandidatesAreEntries(dir, file, date, listing, entries);
    NextIsLast(entries, date);
    ModelNames(dir, file, date, next.number);
    NotListed(dir, file, listing, entries, next);
    if next.number > 0 {
      NextNumbered(dir, file, date, files, Last(entries), entries);
    } else {
      assert forall e :: e in entries ==> e.date != date;
      assert forall f :: f !in files;
      EmptyIffNoMember(files);
    }
  }

  // ---------------------------------------------------------------- ListMetricFiles

  /** The regular expression of FileNameMatches, on what follows the base name. */
  predicate MatchesDate(part: string) {
    |part| >= 11 && part[0] == '.' && IsDate(part[1..11])
    && (|part| == 11 || (part[11] == '.' && AllDigits(part[12..])))
  }

  predicate FileNameMatches(name: string, file: string) {
    StartsWith(name, file) && MatchesDate(name[|file|..])
  }

  predicate IsMetricFile(name: string, file: string) {
    FileNameMatches(name, file) && !EndsWith(name, INDEX_SUFFIX) && !EndsWith(name, LOCK_SUFFIX)
  }

  function MetricFiles(listing: seq<string>, file: string, dir: string): seq<string> {
    if listing == [] then []
    else
      (if IsMetricFile(listing[0], file) then [dir + listing[0]] else []) + MetricFiles(listing[1..], file, dir)
  }

  /** What std::sort may return: the same names, none of which the comparator puts before an earlier one. */
  ghost predicate SortedAs(names: seq<string>, sorted: seq<string>) {
    && multiset(sorted) == multiset(names)
    && forall i, j :: 0 <= i < j < |sorted| ==> !Later(sorted[i], sorted[j])
  }

  lemma EntryIsMetricFile(file: string, e: Entry)
    requires IsDate(e.date)
    ensures IsMetricFile(Name(file, e), file)
    ensures !IsMetricFile(Name(file, e) + INDEX_SUFFIX, file)
  {
    var name := Name(file, e);
    assert name[..|file|] == file;
    var part := name[|file|..];
    assert part == "." + e.date + NumberSuffix(e.number);
    assert part[1..11] == e.date;
    DigitsShape(e.number);
    assert e.number > 0 ==> part[12..] == Digits(e.number);
    NameEndsInDigit(file, e);
    NotASuffix(name, INDEX_SUFFIX);
    NotASuffix(name, LOCK_SUFFIX);
    assert EndsWith(name + INDEX_SUFFIX, INDEX_SUFFIX);
  }

  ghost function Names(base: string, entries: seq<Entry>): seq<string> {
    seq(|entries|, i requires 0 <= i < |entries| => Name(base, entries[i]))
  }

  lemma {:induction false} MetricFilesOf(listing: seq<string>, file: string, dir: string)
    requires Distinct(listing)
    ensures forall f :: f in MetricFiles(listing, file, dir)
              <==> exists name :: name in listing && IsMetricFile(name, file) && f == dir + name
    ensures Distinct(MetricFiles(listing, file, dir))
  {
    if listing != [] {
      DistinctTail(listing);
      MetricFilesOf(listing[1..], file, dir);
      assert forall name :: name in listing <==> name == listing[0] || name in listing[1..];
      var rest, first := MetricFiles(listing[1..], file, dir), dir + listing[0];
      assert first !in rest by {
        assert forall name :: name in listing[1..] ==> dir + name != first by {
          assert forall name: string :: (dir + name)[|dir|..] == name;
        }
      }
      if IsMetricFile(listing[0], file) {
        DistinctCons(first, rest);
      }
    }
  }

  lemma MetricFilesAreEntries(dir: string, file: string, listing: seq<string>, entries: seq<Entry>)
    requires InOrder(entries) && Lists(listing, file, entries) && Distinct(listing)
    ensures Distinct(MetricFiles(listing, file, dir))
    ensures forall f :: f in MetricFiles(listing, file, dir) <==> exists e :: e in entries && f == Name(dir + file, e)
  {
    MetricFilesOf(listing, file, dir);
    forall e | e in entries ensures dir + Name(file, e) == Name(dir + file, e)
      && IsMetricFile(Name(file, e), file) && !IsMetricFile(Name(file, e) + INDEX_SUFFIX, file)
    {
      EntryIsMetricFile(file, e);
      FullName(dir, file, e);
    }
    forall f | f in MetricFiles(listing, file, dir) ensures exists e :: e in entries && f == Name(dir + file, e) {
      var name :| name in listing && IsMetricFile(name, file) && f == dir + name;
      StartIsContained(name, file);
      var e :| e in entries && (name == Name(file, e) || name == Name(file, e) + INDEX_SUFFIX);
      assert f == Name(dir + file, e);
    }
    forall e | e in entries ensures Name(dir + file, e) in MetricFiles(listing, file, dir) {
      assert Name(file, e) in listing && IsMetricFile(Name(file, e), file);
    }
  }

  lemma PermutationKeepsDistinct(a: seq<string>, b: seq<string>)
    requires multiset(a) == multiset(b) && Distinct(a)
    ensures Distinct(b) && forall x :: x in b <==> x in a
  {
    assert forall x :: x in b <==> x in multiset(b);
    assert forall x :: x in a <==> x in multiset(a);
    forall i, j | 0 <= i < j < |b| ensures b[i] != b[j] {
      assert b == b[..i] + [b[i]] + b[i + 1..j] + [b[j]] + b[j + 1..];
      CountAtMostOnce(a, b[j]);
    }
  }

  lemma {:induction false} CountAtMostOnce(a: seq<string>, x: string)
    requires Distinct(a)
    ensures multiset(a)[x] <= 1
  {
    if a != [] {
      DistinctTail(a);
      assert a == [a[0]] + a[1..];
      CountAtMostOnce(a[1..], x);
      assert x == a[0] ==> x !in a[1..];
    }
  }

  ghost predicate SortedNames(base: string, entries: seq<Entry>, sorted: seq<string>) {
    && InOrder(entries) && IsBase(base) && Distinct(sorted)
    && (forall f :: f in sorted <==> f in Names(base, entries))
    && (forall i, j :: 0 <= i < j < |sorted| ==> !Later(sorted[i], sorted[j]))
  }

  lemma LaterEntry(base: string, entries: seq<Entry>, i: nat, j: nat)
    requires InOrder(entries) && IsBase(base) && i < j < |entries|
    ensures Later(Name(base, entries[j]), Name(base, entries[i]))
  {
    ComparatorIsCreationOrder(base, entries[i], entries[j]);
  }

  lemma NameAt(base: string, entries: seq<Entry>, sorted: seq<string>, k: nat) returns (j: nat)
    requires SortedNames(base, entries, sorted) && k < |sorted|
    ensures j < |entries| && sorted[k] == Name(base, entries[j])
  {
    assert sorted[k] in sorted;
    j :| 0 <= j < |entries| && Names(base, entries)[j] == sorted[k];
  }

  lemma FirstIsLeast(base: string, entries: seq<Entry>, sorted: seq<string>, n: nat, j: nat, k: nat)
    requires SortedNames(base, entries, sorted) && n <= j < |entries| && n <= k < |sorted|
    requires sorted[n] == Name(base, entries[j]) && sorted[k] == Name(base, entries[n])
    ensures sorted[n] == Name(base, entries[n])
  {
    assert n < k ==> !Later(sorted[n], sorted[k]);
    if n < j {
      LaterEntry(base, entries, n, j);
    }
  }

  lemma PlaceOf(base: string, entries: seq<Entry>, sorted: seq<string>, n: nat) returns (k: nat)
    requires SortedNames(base, entries, sorted) && n < |entries|
    ensures k < |sorted| && sorted[k] == Name(base, entries[n])
  {
    assert Names(base, entries)[n] in sorted;
    k :| 0 <= k < |sorted| && sorted[k] == Name(base, entries[n]);
  }

  ghost predicate AgreeUpTo(base: string, entries: seq<Entry>, sorted: seq<string>, n: nat) {
    n <= |sorted| && n <= |entries| && forall i :: 0 <= i < n ==> sorted[i] == Name(base, entries[i])
  }

  /** A name further on in either list is further on in the other. */
  lemma NotAmongFirst(base: string, entries: seq<Entry>, sorted: seq<string>, n: nat, j: nat, k: nat)
    requires SortedNames(base, entries, sorted) && AgreeUpTo(base, entries, sorted, n)
    requires j < |entries| && k < |sorted| && sorted[k] == Name(base, entries[j])
    ensures n <= j <==> n <= k
  {
    if j < n {
      assert sorted[j] == sorted[k];
    } else if k < n {
      assert Name(base, entries[k]) == Name(base, entries[j]);
      DifferentNames(base, entries, j);
    }
  }

  lemma NextAgrees(base: string, entries: seq<Entry>, sorted: seq<string>, n: nat)
    requires SortedNames(base, entries, sorted) && AgreeUpTo(base, entries, sorted, n) && n < |entries|
    ensures AgreeUpTo(base, entries, sorted, n + 1)
  {
    var k := PlaceOf(base, entries, sorted, n);
    NotAmongFirst(base, entries, sorted, n, n, k);
    var j := NameAt(base, entries, sorted, n);
    NotAmongFirst(base, entries, sorted, n, j, n);
    FirstIsLeast(base, entries, sorted, n, j, k);
  }

  lemma {:induction false} SortedEntries(base: string, entries: seq<Entry>, sorted: seq<string>, n: nat)
    requires SortedNames(base, entries, sorted) && n <= |entries|
    ensures AgreeUpTo(base, entries, sorted, n)
  {
    if n > 0 {
      SortedEntries(base, entries, sorted, n - 1);
      NextAgrees(base, entries, sorted, n - 1);
    }
  }

  lemma DifferentNames(base: string, entries: seq<Entry>, n: nat)
    requires InOrder(entries) && IsBase(base) && n < |entries|
    ensures forall i :: 0 <= i < n ==> Name(base, entries[i]) != Name(base, entries[n])
  {
    forall i | 0 <= i < n ensures Name(base, entries[i]) != Name(base, entries[n]) {
      NamesAreInjective(base, entries[i], entries[n]);
      BeforeIsStrictTotalOrder(entries[i], entries[n], entries[i]);
    }
  }

  /** Sorting the listing with the comparator gives back the order in which the files were created. */
  lemma SortedListingIsCreationOrder(dir: string, file: string, listing: seq<string>, entries: seq<Entry>,
                                     sorted: seq<string>)
    requires InOrder(entries) && Lists(listing, file, entries) && Distinct(listing) && IsBase(dir + file)
    requires SortedAs(MetricFiles(listing, file, dir), sorted)
    ensures sorted == Names(dir + file, entries)
  {
    var base := dir + file;
    MetricFilesAreEntries(dir, file, listing, entries);
    PermutationKeepsDistinct(MetricFiles(listing, file, dir), sorted);
    forall f ensures f in sorted <==> f in Names(base, entries) {
      if f in sorted {
        var e :| e in entries && f == Name(base, e);
        var i :| 0 <= i < |entries| && entries[i] == e;
        assert Names(base, entries)[i] == f;
      }
      if f in Names(base, entries) {
        var i :| 0 <= i < |entries| && Names(base, entries)[i] == f;
        assert entries[i] in entries;
      }
    }
    SortedEntries(base, entries, sorted, |entries|);
    if |sorted| > |entries| {
      var j := NameAt(base, entries, sorted, |entries|);
      assert false;
    }
  }
}
