/** One line of the metric log: its thin and fat text forms and their parsers. */
module MetricItem {
  import opened Text
  import opened Seqs
  import opened Options

  const INT64_MIN: int := -0x8000_0000_0000_0000
  const INT64_MAX: int := 0x7fff_ffff_ffff_ffff

  type Int64 = x: int | INT64_MIN <= x <= INT64_MAX witness 0

  datatype Item = Item(
    resource: string,
    timestamp: Int64,
    passQps: Int64,
    blockQps: Int64,
    completeQps: Int64,
    exceptionQps: Int64,
    rt: Int64)

  predicate IsSpace(c: char) {
    c == ' ' || '\t' <= c <= '\r'
  }

  function TrimLeft(s: string): string {
    if s != [] && IsSpace(s[0]) then TrimLeft(s[1..]) else s
  }

  function TrimRight(s: string): string {
    if s != [] && IsSpace(s[|s| - 1]) then TrimRight(s[..|s| - 1]) else s
  }

  /** absl::SimpleAtoi<int64_t>: blanks at either end, an optional sign, at least one digit, no overflow. */
  function ParseInt64(s: string): Option<Int64> {
    var t := TrimRight(TrimLeft(s));
    var negative := t != [] && t[0] == '-';
    var digits := if t != [] && (t[0] == '-' || t[0] == '+') then t[1..] else t;
    if digits == [] || !AllDigits(digits) then None
    else
      var v := if negative then -(Value(digits) as int) else Value(digits);
      if INT64_MIN <= v <= INT64_MAX then Some(v) else None
  }

  function ParseOrDefault(s: string, default_: Int64): Int64 {
    match ParseInt64(s)
    case Some(x) => x
    case None => default_
  }

  /** The name as it is stored: the field separator may not occur in it. */
  function Legal(name: string): (r: string)
    ensures |r| == |name|
    ensures forall i :: 0 <= i < |name| ==> r[i] == if name[i] == '|' then '_' else name[i]
  {
    seq(|name|, i requires 0 <= i < |name| => if name[i] == '|' then '_' else name[i])
  }

  /** The five counters that end every line. */
  function Counters(m: Item): seq<string> {
    [Decimal(m.passQps), Decimal(m.blockQps), Decimal(m.completeQps), Decimal(m.exceptionQps), Decimal(m.rt)]
  }

  function ToThinString(m: Item): string {
    Join([Decimal(m.timestamp), Legal(m.resource)] + Counters(m), '|')
  }

  /** `time` is the local date and time of the timestamp, which the parser skips. */
  function ToFatString(m: Item, time: string): string {
    Join([Decimal(m.timestamp), time, Legal(m.resource)] + Counters(m), '|')
  }

  /** The item in a list of fields whose resource is the k-th. */
  function FromFields(v: seq<string>, k: nat): Option<Item> {
    if |v| < k + 6 then None
    else
      Some(Item(v[k], ParseOrDefault(v[0], 0), ParseOrDefault(v[k + 1], 0), ParseOrDefault(v[k + 2], 0),
                ParseOrDefault(v[k + 3], 0), ParseOrDefault(v[k + 4], 0), ParseOrDefault(v[k + 5], 0)))
  }

  function FromThinString(s: string): Option<Item> {
    FromFields(Split(s, '|'), 1)
  }

  function FromFatString(s: string): Option<Item> {
    FromFields(Split(s, '|'), 2)
  }

  // ---------------------------------------------------------------- round trips

  lemma NothingToTrim(s: string)
    requires s != [] && !IsSpace(s[0]) && !IsSpace(s[|s| - 1])
    ensures TrimRight(TrimLeft(s)) == s
  {
  }

  lemma ParseDigits(n: nat)
    requires n <= INT64_MAX
    ensures ParseInt64(Digits(n)) == Some(n)
  {
    ValueOfDigits(n);
    DigitsShape(n);
    NothingToTrim(Digits(n));
  }

  lemma ParseNegative(n: nat)
    requires 0 < n <= -INT64_MIN
    ensures ParseInt64("-" + Digits(n)) == Some(-(n as int))
  {
    ValueOfDigits(n);
    DigitsShape(n);
    var s := "-" + Digits(n);
    assert s[1..] == Digits(n);
    assert s[|s| - 1] == Digits(n)[|Digits(n)| - 1];
    NothingToTrim(s);
  }

  lemma ParseDecimal(x: int)
    requires INT64_MIN <= x <= INT64_MAX
    ensures ParseInt64(Decimal(x)) == Some(x)
    ensures forall i :: 0 <= i < |Decimal(x)| ==> IsDigit(Decimal(x)[i]) || Decimal(x)[i] == '-'
  {
    if x < 0 {
      DigitsShape(-x);
      ParseNegative(-x);
    } else {
      DigitsShape(x);
      ParseDigits(x);
    }
  }

  /** Neither the separator nor a line break: what every field of a line must be. */
  predicate Clean(s: string) {
    '|' !in s && '\n' !in s
  }

  lemma NumberField(x: Int64)
    ensures Clean(Decimal(x)) && ParseOrDefault(Decimal(x), 0) == x
  {
    ParseDecimal(x);
  }

  /** What a stored item becomes: every number intact, the name with its bars replaced. */
  function Stored(m: Item): Item {
    m.(resource := Legal(m.resource))
  }

  lemma NumberClean(x: Int64)
    ensures Clean(Decimal(x))
  {
    NumberField(x);
  }

  lemma NumberParses(x: Int64)
    ensures ParseOrDefault(Decimal(x), 0) == x
  {
    NumberField(x);
  }

  lemma CleanList(a: string, b: string, c: string, d: string, e: string)
    requires Clean(a) && Clean(b) && Clean(c) && Clean(d) && Clean(e)
    ensures forall i :: 0 <= i < 5 ==> Clean([a, b, c, d, e][i])
  {
  }

  lemma CountersClean(m: Item)
    ensures forall i :: 0 <= i < 5 ==> Clean(Counters(m)[i])
  {
    NumberClean(m.passQps);
    NumberClean(m.blockQps);
    NumberClean(m.completeQps);
    NumberClean(m.exceptionQps);
    NumberClean(m.rt);
    CleanList(Decimal(m.passQps), Decimal(m.blockQps), Decimal(m.completeQps), Decimal(m.exceptionQps), Decimal(m.rt));
  }

  lemma CountersParse(m: Item)
    ensures ParseOrDefault(Counters(m)[0], 0) == m.passQps && ParseOrDefault(Counters(m)[1], 0) == m.blockQps
    ensures ParseOrDefault(Counters(m)[2], 0) == m.completeQps && ParseOrDefault(Counters(m)[3], 0) == m.exceptionQps
    ensures ParseOrDefault(Counters(m)[4], 0) == m.rt
  {
    NumberParses(m.passQps);
    NumberParses(m.blockQps);
    NumberParses(m.completeQps);
    NumberParses(m.exceptionQps);
    NumberParses(m.rt);
  }

  lemma LegalIsLegal(name: string)
    ensures '|' !in Legal(name) && ('\n' !in name ==> '\n' !in Legal(name))
    ensures Legal(Legal(name)) == Legal(name)
  {
  }

  /** The fields before the counters, split off a joined line. */
  lemma FieldsRead(m: Item, first: seq<string>)
    requires forall i :: 0 <= i < |first| ==> '|' !in first[i]
    requires |first| >= 2 && first[0] == Decimal(m.timestamp) && Last(first) == Legal(m.resource)
    ensures FromFields(Split(Join(first + Counters(m), '|'), '|'), |first| - 1) == Some(Stored(m))
  {
    var f := first + Counters(m);
    CountersClean(m);
    CountersParse(m);
    forall i | 0 <= i < |f| ensures '|' !in f[i] {
      assert f[i] == if i < |first| then first[i] else Counters(m)[i - |first|];
    }
    SplitJoin(f, '|');
    NumberField(m.timestamp);
    var k := |first| - 1;
    assert f[k] == Last(first) && f[k + 1] == Counters(m)[0] && f[k + 2] == Counters(m)[1];
    assert f[k + 3] == Counters(m)[2] && f[k + 4] == Counters(m)[3] && f[k + 5] == Counters(m)[4];
  }

  /** Reading back a thin line gives the stored item, for every 64-bit value in every field. */
  lemma ThinRoundTrip(m: Item)
    ensures FromThinString(ToThinString(m)) == Some(Stored(m))
  {
    NumberField(m.timestamp);
    LegalIsLegal(m.resource);
    FieldsRead(m, [Decimal(m.timestamp), Legal(m.resource)]);
  }

  lemma FatRoundTrip(m: Item, time: string)
    requires '|' !in time
    ensures FromFatString(ToFatString(m, time)) == Some(Stored(m))
  {
    NumberField(m.timestamp);
    LegalIsLegal(m.resource);
    FieldsRead(m, [Decimal(m.timestamp), time, Legal(m.resource)]);
  }

  /** The text of a number. */
  predicate IsText(s: string, x: Int64) {
    ParseInt64(s) == Some(x)
  }

  lemma DecimalIsText(x: Int64)
    ensures IsText(Decimal(x), x)
  {
    ParseDecimal(x);
  }

  lemma CountersInOrder(m: Item)
    ensures IsText(Counters(m)[0], m.passQps) && IsText(Counters(m)[1], m.blockQps)
    ensures IsText(Counters(m)[2], m.completeQps) && IsText(Counters(m)[3], m.exceptionQps)
    ensures IsText(Counters(m)[4], m.rt)
  {
    DecimalIsText(m.passQps);
    DecimalIsText(m.blockQps);
    DecimalIsText(m.completeQps);
    DecimalIsText(m.exceptionQps);
    DecimalIsText(m.rt);
  }

  lemma FatSplit(m: Item, time: string)
    requires '|' !in time
    ensures Split(ToFatString(m, time), '|') == [Decimal(m.timestamp), time, Legal(m.resource)] + Counters(m)
  {
    var f := [Decimal(m.timestamp), time, Legal(m.resource)] + Counters(m);
    LegalIsLegal(m.resource);
    CountersClean(m);
    NumberClean(m.timestamp);
    forall i | 0 <= i < |f| ensures '|' !in f[i] {
      assert i >= 3 ==> f[i] == Counters(m)[i - 3];
    }
    SplitJoin(f, '|');
  }

  /** The fields of a fat line, each in its place. */
  lemma FatFields(m: Item, time: string)
    requires '|' !in time
    ensures var v := Split(ToFatString(m, time), '|');
      && |v| == 8 && IsText(v[0], m.timestamp) && v[1] == time && v[2] == Legal(m.resource)
      && IsText(v[3], m.passQps) && IsText(v[4], m.blockQps) && IsText(v[5], m.completeQps)
      && IsText(v[6], m.exceptionQps) && IsText(v[7], m.rt)
  {
    FatSplit(m, time);
    DecimalIsText(m.timestamp);
    CountersInOrder(m);
  }

  /** Printing what was read back prints the same line. */
  lemma PrintingIsAFixedPoint(m: Item, time: string)
    ensures Stored(Stored(m)) == Stored(m)
    ensures ToThinString(Stored(m)) == ToThinString(m)
    ensures ToFatString(Stored(m), time) == ToFatString(m, time)
  {
    LegalIsLegal(m.resource);
  }

  /** A fat line fits on one line of a file when its name and its time do. */
  lemma FatStringHasNoNewline(m: Item, time: string)
    requires '\n' !in m.resource && '\n' !in time
    ensures '\n' !in ToFatString(m, time)
  {
    var first, rest := [Decimal(m.timestamp), time, Legal(m.resource)], Counters(m);
    NumberField(m.timestamp);
    LegalIsLegal(m.resource);
    CountersClean(m);
    forall i | 0 <= i < 8 ensures '\n' !in (first + rest)[i] {
      assert (first + rest)[i] == if i < 3 then first[i] else rest[i - 3];
    }
    JoinHasNoNewline(first + rest, '|');
  }

  lemma {:induction false} JoinHasNoNewline(parts: seq<string>, sep: char)
    requires parts != [] && sep != '\n' && forall i :: 0 <= i < |parts| ==> '\n' !in parts[i]
    ensures '\n' !in Join(parts, sep)
  {
    if |parts| > 1 {
      JoinHasNoNewline(parts[1..], sep);
    }
  }
}
