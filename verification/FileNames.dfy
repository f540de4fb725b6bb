/** Names of metric files: how a fresh name is chosen and how names are put in order. */
module FileNames {
  import opened Text

  const METRIC_FILE := "metrics.log"
  const INDEX_SUFFIX := ".idx"
  const LOCK_SUFFIX := ".lck"

  predicate StartsWith(s: string, prefix: string) {
    |prefix| <= |s| && s[..|prefix|] == prefix
  }

  predicate EndsWith(s: string, suffix: string) {
    |suffix| <= |s| && s[|s| - |suffix|..] == suffix
  }

  predicate OccursAt(s: string, part: string, k: nat) {
    k + |part| <= |s| && s[k..k + |part|] == part
  }

  /** std::string::find != npos. */
  predicate Contains(s: string, part: string) {
    exists k :: 0 <= k <= |s| - |part| && OccursAt(s, part, k)
  }

  function NoDots(name: string): (r: string)
    ensures |r| == |name| && '.' !in r
    ensures forall i :: 0 <= i < |name| ==> r[i] == name[i] || (name[i] == '.' && r[i] == '-')
  {
    seq(|name|, i requires 0 <= i < |name| => if name[i] == '.' then '-' else name[i])
  }

  /** "app-metrics.log", with ".pid123" appended when the log names carry the process id. */
  function FormMetricFileName(app: string, usePid: bool, pid: nat): string {
    NoDots(app) + "-" + METRIC_FILE + if usePid then "." + ("pid" + Digits(pid)) else ""
  }

  /** "%Y-%m-%d" with a four-digit year. */
  predicate IsDate(date: string) {
    |date| == 10 && date[4] == '-' && date[7] == '-'
    && AllDigits(date[..4]) && AllDigits(date[5..7]) && AllDigits(date[8..])
  }

  /** A metric file of the writer: its day, and its number within the day; 0 stands for no number. */
  datatype Entry = Entry(date: string, number: nat)

  predicate Before(a: Entry, b: Entry) {
    Less(a.date, b.date) || (a.date == b.date && a.number < b.number)
  }

  function NumberSuffix(n: nat): string {
    if n == 0 then "" else "." + Digits(n)
  }

  /** The full path of an entry, with base = directory + FormMetricFileName(..). */
  function Name(base: string, e: Entry): string {
    base + "." + e.date + NumberSuffix(e.number)
  }

  // ---------------------------------------------------------------- the comparator

  function DateField(fields: seq<string>): nat
  {
    if |fields| > 2 && StartsWith(fields[2], "pid") then 3 else 2
  }

  /** MetricFileNameComparator; the code indexes the fields without a check. */
  predicate Comparator(name1: string, name2: string)
    requires var l1, l2 := Split(name1, '.'), Split(name2, '.');
      DateField(l1) < |l1| && DateField(l1) < |l2|
  {
    var l1, l2 := Split(name1, '.'), Split(name2, '.');
    var d := DateField(l1);
    if l1[d] != l2[d] then Less(l1[d], l2[d])
    else if |name1| != |name2| then |name1| < |name2|
    else Less(name1, name2)
  }

  /** A base whose dots are the ones FormMetricFileName puts there: the directory has none. */
  ghost predicate IsBase(base: string) {
    exists dir, app, usePid, pid :: '.' !in dir && base == dir + FormMetricFileName(app, usePid, pid)
  }

  lemma DateShape(date: string)
    requires IsDate(date)
    ensures '.' !in date && !StartsWith(date, "pid")
  {
    assert forall i :: 0 <= i < 4 ==> date[i] == date[..4][i];
    assert forall i :: 5 <= i < 7 ==> date[i] == date[5..7][i - 5];
    assert forall i :: 8 <= i < 10 ==> date[i] == date[8..][i - 8];
    assert date[..3][0] == date[0] && "pid"[0] == 'p';
  }

  lemma DigitsHaveNoDot(n: nat)
    ensures '.' !in Digits(n)
  {
    DigitsShape(n);
  }

  lemma CoreFields(head: string)
    requires '.' !in head
    ensures Split(head + METRIC_FILE, '.') == [head + "metrics", "log"]
  {
    assert head + METRIC_FILE == (head + "metrics") + "." + "log";
    SplitField(head + "metrics", '.');
    SplitField("log", '.');
    SplitConcat(head + "metrics", '.', "log");
  }

  lemma Reassociate(dir: string, app: string, file: string, pid: string)
    ensures dir + (app + "-" + file + pid) == (dir + app + "-" + file) + pid
  {
  }

  lemma BaseFields(base: string)
    requires IsBase(base)
    ensures var l := Split(base, '.');
      |l| == 2 || (|l| == 3 && StartsWith(l[2], "pid"))
  {
    var dir, app, usePid, pid :| '.' !in dir && base == dir + FormMetricFileName(app, usePid, pid);
    var core := dir + NoDots(app) + "-" + METRIC_FILE;
    CoreFields(dir + NoDots(app) + "-");
    if usePid {
      var last := "pid" + Digits(pid);
      Reassociate(dir, NoDots(app), METRIC_FILE, "." + last);
      DigitsHaveNoDot(pid);
      SplitField(last, '.');
      SplitConcat(core, '.', last);
      assert core + ("." + last) == core + "." + last;
    } else {
      Reassociate(dir, NoDots(app), METRIC_FILE, "");
      assert core + "" == core;
    }
  }

  /** The fields of a name: those of its base, its date, and its number if it has one. */
  lemma NameFields(base: string, e: Entry)
    requires IsDate(e.date)
    ensures Split(Name(base, e), '.')
         == Split(base, '.') + [e.date] + (if e.number == 0 then [] else [Digits(e.number)])
  {
    DateShape(e.date);
    SplitField(e.date, '.');
    SplitConcat(base, '.', e.date);
    if e.number == 0 {
      assert Name(base, e) == base + "." + e.date;
    } else {
      assert Name(base, e) == (base + "." + e.date) + "." + Digits(e.number);
      DigitsHaveNoDot(e.number);
      SplitField(Digits(e.number), '.');
      SplitConcat(base + "." + e.date, '.', Digits(e.number));
    }
  }

  lemma Comparable(base: string, a: Entry, b: Entry)
    requires IsBase(base) && IsDate(a.date) && IsDate(b.date)
    ensures var l1, l2 := Split(Name(base, a), '.'), Split(Name(base, b), '.');
      DateField(l1) < |l1| && DateField(l1) < |l2| && l1[DateField(l1)] == a.date && l2[DateField(l1)] == b.date
  {
    BaseFields(base);
    NameFields(base, a);
    NameFields(base, b);
    DateShape(a.date);
  }

  /** On the writer's own names the comparator is the order of days, then of numbers. */
  lemma ComparatorIsCreationOrder(base: string, a: Entry, b: Entry)
    requires IsBase(base) && IsDate(a.date) && IsDate(b.date)
    ensures var l1, l2 := Split(Name(base, a), '.'), Split(Name(base, b), '.');
      DateField(l1) < |l1| && DateField(l1) < |l2|
    ensures Comparator(Name(base, a), Name(base, b)) <==> Before(a, b)
  {
    Comparable(base, a, b);
    if a.date == b.date {
      var p := base + "." + a.date;
      LessIrreflexive(a.date);
      LessPrefix(p, NumberSuffix(a.number), NumberSuffix(b.number));
      if a.number < b.number {
        SuffixOrder(a.number, b.number);
        LessAsymmetricOrShorter(NumberSuffix(a.number), NumberSuffix(b.number));
      } else if b.number < a.number {
        SuffixOrder(b.number, a.number);
        LessAsymmetricOrShorter(NumberSuffix(b.number), NumberSuffix(a.number));
      } else {
        LessIrreflexive(NumberSuffix(a.number));
      }
    } else {
      LessAsymmetricDates(a, b);
    }
  }

  lemma {:induction false} LessIrreflexive(a: string)
    ensures !Less(a, a)
  {
    if a != [] {
      LessIrreflexive(a[1..]);
    }
  }

  lemma LessAsymmetricDates(a: Entry, b: Entry)
    requires a.date != b.date
    ensures Before(a, b) <==> Less(a.date, b.date)
  {
  }

  lemma LessAsymmetricOrShorter(a: string, b: string)
    requires ShortLess(a, b)
    ensures |a| <= |b| && (|a| == |b| ==> !Less(b, a))
  {
    if |a| == |b| {
      LessAsymmetric(a, b);
    }
  }

  lemma SuffixOrder(m: nat, n: nat)
    requires m < n
    ensures ShortLess(NumberSuffix(m), NumberSuffix(n))
  {
    DigitsShape(n);
    if m > 0 {
      DigitsOrder(m, n);
      LessPrefix(".", Digits(m), Digits(n));
    }
  }

  /** A strict total order on entries, hence on their names. */
  lemma BeforeIsStrictTotalOrder(a: Entry, b: Entry, c: Entry)
    ensures !Before(a, a)
    ensures Before(a, b) ==> !Before(b, a)
    ensures Before(a, b) && Before(b, c) ==> Before(a, c)
    ensures a != b ==> Before(a, b) || Before(b, a)
  {
    LessIrreflexive(a.date);
    LessTotal(a.date, b.date);
    if Less(a.date, b.date) {
      LessAsymmetric(a.date, b.date);
      if Less(b.date, c.date) {
        LessTransitive(a.date, b.date, c.date);
      }
    }
  }
}
