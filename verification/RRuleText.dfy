/** Recurrence rules as text: the subset of RFC 5545, section 3.3.10 that events are stored with. */
module RRuleText {
  import opened Wrappers
  import opened Decimal
  import opened Calendar
  import opened Recurrence
  import Zone

  datatype Error =
    | MalformedPart | UnsupportedPart | BadFreq | BadInterval | BadCount | BadUntil | CountAndUntil
    | ByDayNotWeekly | BadByDay

  // -------------------------------------------------------------------------
  // Strings
  // -------------------------------------------------------------------------

  function UpperChar(c: char): char {
    if 'a' <= c <= 'z' then (c as int - 32) as char else c
  }

  function Upper(s: string): string {
    seq(|s|, i requires 0 <= i < |s| => UpperChar(s[i]))
  }

  function Split(s: string, sep: char): (r: seq<string>)
    ensures r != []
  {
    if s == [] then [""]
    else
      var rest := Split(s[1..], sep);
      if s[0] == sep then [""] + rest else [[s[0]] + rest[0]] + rest[1..]
  }

  function Join(parts: seq<string>, sep: char): string {
    if parts == [] then "" else if |parts| == 1 then parts[0] else parts[0] + [sep] + Join(parts[1..], sep)
  }

  lemma {:induction false} SplitNone(s: string, sep: char)
    requires sep !in s
    ensures Split(s, sep) == [s]
  {
    if s != [] {
      SplitNone(s[1..], sep);
      assert [s[0]] + s[1..] == s && s[0] in s;
    }
  }

  lemma {:induction false} SplitFirst(a: string, sep: char, b: string)
    requires sep !in a
    ensures Split(a + [sep] + b, sep) == [a] + Split(b, sep)
  {
    var s := a + [sep] + b;
    if a == [] {
      assert s[1..] == b;
    } else {
      SplitFirst(a[1..], sep, b);
      assert s[1..] == a[1..] + [sep] + b;
      assert s[0] == a[0] && a[0] in a;
      assert [a[0]] + a[1..] == a;
    }
  }

  /** Splitting at the separator undoes joining with it. */
  lemma {:induction false} SplitJoin(parts: seq<string>, sep: char)
    requires parts != [] && forall p :: p in parts ==> sep !in p
    ensures Split(Join(parts, sep), sep) == parts
  {
    if |parts| == 1 {
      SplitNone(parts[0], sep);
    } else {
      SplitJoin(parts[1..], sep);
      SplitFirst(parts[0], sep, Join(parts[1..], sep));
    }
  }

  // -------------------------------------------------------------------------
  // Parsing
  // -------------------------------------------------------------------------

  function StripPrefix(s: string): string {
    if |s| >= 6 && Upper(s[..6]) == "RRULE:" then s[6..] else s
  }

  function NonEmpty(parts: seq<string>): seq<string> {
    if parts == [] then []
    else if parts[0] == "" then NonEmpty(parts[1..])
    else [parts[0]] + NonEmpty(parts[1..])
  }

  /** Each part is read as key=value; of two parts with one key, the later counts. */
  function ReadParts(parts: seq<string>): Result<map<string, string>, Error> {
    if parts == [] then Ok(map[])
    else
      var before, last := ReadParts(parts[..|parts| - 1]), Split(parts[|parts| - 1], '=');
      if before.Err? then before
      else if last[0] == "" || |last| < 2 then Err(MalformedPart)
      else Ok(before.value[Upper(last[0]) := Upper(last[1])])
  }

  const KEYS := {"FREQ", "INTERVAL", "COUNT", "UNTIL", "BYDAY"}

  /** An absent part and an empty one are alike. */
  function Get(m: map<string, string>, key: string): string {
    if key in m then m[key] else ""
  }

  function ReadFreq(s: string): Option<Frequency> {
    if s == "DAILY" then Some(Daily)
    else if s == "WEEKLY" then Some(Weekly)
    else if s == "MONTHLY" then Some(Monthly)
    else if s == "YEARLY" then Some(Yearly)
    else None
  }

  function ReadNumber(s: string): Option<int> {
    if s != "" && AllDigits(s) then Some(Value(s)) else None
  }

  /** Eight digits, then possibly T, six digits and possibly Z. A date alone stands for its last second. */
  function ReadUntil(s: string): Option<int> {
    if |s| < 8 || !AllDigits(s[..8]) then None
    else if |s| == 8 then Some(ReadInstant(s, "235959"))
    else if s[8] == 'T' && (|s| == 15 || (|s| == 16 && s[15] == 'Z')) && AllDigits(s[9..15]) then
      Some(ReadInstant(s[..8], s[9..15]))
    else None
  }

  function ReadInstant(date: string, time: string): int
    requires |date| == 8 && |time| == 6 && AllDigits(date) && AllDigits(time)
  {
    DateUtc(WallClock(Value(date[..4]), Value(date[4..6]), Value(date[6..]),
                      Value(time[..2]), Value(time[2..4]), Value(time[4..])))
  }

  const NAMES := ["MO", "TU", "WE", "TH", "FR", "SA", "SU"]

  function ReadDay(s: string): (d: Option<int>)
    ensures d.Some? ==> 0 <= d.value < 7 && NAMES[d.value] == s
    ensures d.None? ==> s !in NAMES
  {
    if s == "MO" then Some(0)
    else if s == "TU" then Some(1)
    else if s == "WE" then Some(2)
    else if s == "TH" then Some(3)
    else if s == "FR" then Some(4)
    else if s == "SA" then Some(5)
    else if s == "SU" then Some(6)
    else None
  }

  function ReadDays(names: seq<string>): (r: Option<seq<int>>)
    ensures r.Some? ==>
              && |r.value| == |names|
              && forall i :: 0 <= i < |names| ==> 0 <= r.value[i] < 7 && NAMES[r.value[i]] == names[i]
  {
    if names == [] then Some([])
    else
      var d, rest := ReadDay(names[0]), ReadDays(names[1..]);
      if d.None? || rest.None? then None else Some([d.value] + rest.value)
  }

  /** The days among the first n weekdays, in the week's order, each once. */
  function DaysBelow(days: seq<int>, n: nat): seq<int> {
    if n == 0 then [] else if n - 1 in days then DaysBelow(days, n - 1) + [n - 1] else DaysBelow(days, n - 1)
  }

  function Interpret(m: map<string, string>): Result<Rule, Error> {
    var freq := ReadFreq(Get(m, "FREQ"));
    var interval := if Get(m, "INTERVAL") == "" then Some(1) else ReadNumber(Get(m, "INTERVAL"));
    var count := ReadNumber(Get(m, "COUNT"));
    var until := ReadUntil(Get(m, "UNTIL"));
    var days := ReadDays(Split(Get(m, "BYDAY"), ','));
    if !(m.Keys <= KEYS) then Err(UnsupportedPart)
    else if freq.None? then Err(BadFreq)
    else if interval.None? || !(1 <= interval.value <= 366) then Err(BadInterval)
    else if Get(m, "COUNT") != "" && (count.None? || !(1 <= count.value <= MAX_COUNT)) then Err(BadCount)
    else if Get(m, "UNTIL") != "" && until.None? then Err(BadUntil)
    else if Get(m, "COUNT") != "" && Get(m, "UNTIL") != "" then Err(CountAndUntil)
    else if Get(m, "BYDAY") != "" && freq != Some(Weekly) then Err(ByDayNotWeekly)
    else if Get(m, "BYDAY") != "" && days.None? then Err(BadByDay)
    else
      Ok(Rule(freq.value, interval.value, count, until,
              if Get(m, "BYDAY") == "" then None else Some(DaysBelow(days.value, 7))))
  }

  function Parse(input: string): Result<Rule, Error> {
    var m := ReadParts(NonEmpty(Split(StripPrefix(input), ';')));
    if m.Err? then Err(m.error) else Interpret(m.value)
  }

  // -------------------------------------------------------------------------
  // Printing
  // -------------------------------------------------------------------------

  function FreqName(f: Frequency): string {
    match f
    case Daily => "DAILY"
    case Weekly => "WEEKLY"
    case Monthly => "MONTHLY"
    case Yearly => "YEARLY"
  }

  /** The year as toISOString writes it, without the dashes: so a negative year loses its sign. */
  function YearText(y: int): string {
    if 0 <= y <= 9999 then PadStart(Print(y), 4)
    else if y > 9999 then "+" + PadStart(Print(y), 6)
    else PadStart(Print(-y), 6)
  }

  function Two(n: nat): string {
    PadStart(Print(n), 2)
  }

  function DateText(w: WallClock): string
    requires w.month >= 0 && w.day >= 0
  {
    YearText(w.year) + Two(w.month) + Two(w.day)
  }

  function TimeText(w: WallClock): string
    requires w.hour >= 0 && w.minute >= 0 && w.second >= 0
  {
    Two(w.hour) + Two(w.minute) + Two(w.second)
  }

  function UntilText(t: int): string {
    DateText(ClockAt(t)) + "T" + TimeText(ClockAt(t)) + "Z"
  }

  function DayNames(days: seq<int>): (names: seq<string>)
    requires forall i :: 0 <= i < |days| ==> 0 <= days[i] < 7
    ensures |names| == |days| && forall i :: 0 <= i < |days| ==> names[i] == NAMES[days[i]]
  {
    seq(|days|, i requires 0 <= i < |days| => NAMES[days[i]])
  }

  datatype Field = Field(key: string, value: string)

  function If(c: bool, f: Field): seq<Field> {
    if c then [f] else []
  }

  function IntervalField(r: Rule): seq<Field>
    requires r.interval >= 0
  {
    If(r.interval != 1, Field("INTERVAL", Print(r.interval)))
  }

  function ByDayField(r: Rule): seq<Field>
    requires r.byDay.Some? ==> forall i :: 0 <= i < |r.byDay.value| ==> 0 <= r.byDay.value[i] < 7
  {
    if r.byDay.Some? && r.byDay.value != [] then [Field("BYDAY", Join(DayNames(r.byDay.value), ','))] else []
  }

  function CountField(r: Rule): seq<Field>
    requires r.count.Some? ==> r.count.value >= 0
  {
    if r.count.Some? && r.count.value != 0 then [Field("COUNT", Print(r.count.value))] else []
  }

  function UntilField(r: Rule): seq<Field> {
    if r.until.Some? then [Field("UNTIL", UntilText(r.until.value))] else []
  }

  function Fields(r: Rule): seq<Field>
    requires ValidRule(r)
  {
    [Field("FREQ", FreqName(r.freq))] + IntervalField(r) + ByDayField(r) + CountField(r) + UntilField(r)
  }

  function Parts(fields: seq<Field>): (p: seq<string>)
    ensures |p| == |fields| && forall i :: 0 <= i < |p| ==> p[i] == fields[i].key + "=" + fields[i].value
  {
    seq(|fields|, i requires 0 <= i < |fields| => fields[i].key + "=" + fields[i].value)
  }

  function Format(r: Rule): string
    requires ValidRule(r)
  {
    Join(Parts(Fields(r)), ';')
  }

  // -------------------------------------------------------------------------
  // Printed text reads back
  // -------------------------------------------------------------------------

  /** The characters of printed keys and values: no separator, nothing that upper-casing changes. */
  predicate PlainChar(c: char) {
    IsDigit(c) || 'A' <= c <= 'Z' || c == ',' || c == '+'
  }

  predicate Plain(s: string) {
    forall i :: 0 <= i < |s| ==> PlainChar(s[i])
  }

  predicate PlainField(f: Field) {
    f.key != "" && Plain(f.key) && Plain(f.value)
  }

  predicate AllPlain(fields: seq<Field>) {
    forall i :: 0 <= i < |fields| ==> PlainField(fields[i])
  }

  lemma PlainUpper(s: string)
    requires Plain(s)
    ensures Upper(s) == s
  {
  }

  function Table(fields: seq<Field>): map<string, string> {
    if fields == [] then map[]
    else Table(fields[..|fields| - 1])[fields[|fields| - 1].key := fields[|fields| - 1].value]
  }

  lemma PartSplits(f: Field)
    requires PlainField(f)
    ensures Split(f.key + "=" + f.value, '=') == [f.key, f.value]
  {
    SplitFirst(f.key, '=', f.value);
    SplitNone(f.value, '=');
  }

  lemma {:induction false} PartsRead(fields: seq<Field>)
    requires AllPlain(fields)
    ensures ReadParts(Parts(fields)) == Ok(Table(fields))
  {
    if fields != [] {
      var init, f := fields[..|fields| - 1], fields[|fields| - 1];
      PartsRead(init);
      assert Parts(fields)[..|fields| - 1] == Parts(init);
      PartSplits(f);
      PlainUpper(f.key);
      PlainUpper(f.value);
    }
  }

  lemma {:induction false} AllNonEmpty(parts: seq<string>)
    requires forall i :: 0 <= i < |parts| ==> parts[i] != ""
    ensures NonEmpty(parts) == parts
  {
    if parts != [] {
      AllNonEmpty(parts[1..]);
    }
  }

  lemma JoinStarts(parts: seq<string>, sep: char)
    requires parts != [] && parts[0] != ""
    ensures Join(parts, sep) != "" && Join(parts, sep)[0] == parts[0][0]
  {
  }

  lemma PartIsOne(f: Field)
    requires PlainField(f)
    ensures ';' !in f.key + "=" + f.value
  {
    var p := f.key + "=" + f.value;
    forall i | 0 <= i < |p| ensures p[i] != ';' {
      if i < |f.key| { assert PlainChar(f.key[i]); }
      if i > |f.key| { assert PlainChar(f.value[i - |f.key| - 1]); }
    }
  }

  /** What parsing makes of printed fields, the first of which does not look like the prefix. */
  lemma PrintedFieldsRead(fields: seq<Field>)
    requires fields != [] && fields[0].key == "FREQ" && AllPlain(fields)
    ensures Parse(Join(Parts(fields), ';')) == Interpret(Table(fields))
  {
    var parts := Parts(fields);
    hide Split, Join, Interpret, PlainField, StripPrefix;
    forall i | 0 <= i < |parts| ensures parts[i] != "" && ';' !in parts[i] {
      PartIsOne(fields[i]);
    }
    assert parts[0][0] == 'F';
    JoinStarts(parts, ';');
    NoPrefix(Join(parts, ';'));
    SplitJoin(parts, ';');
    AllNonEmpty(parts);
    PartsRead(fields);
  }

  lemma NoPrefix(s: string)
    requires s != "" && s[0] == 'F'
    ensures StripPrefix(s) == s
  {
    if |s| >= 6 {
      assert Upper(s[..6])[0] == 'F';
    }
  }

  function GetField(fields: seq<Field>): string {
    if fields == [] then "" else fields[0].value
  }

  function Put(m: map<string, string>, fields: seq<Field>): map<string, string> {
    if fields == [] then m else m[fields[0].key := fields[0].value]
  }

  lemma TableAppend(fields: seq<Field>, more: seq<Field>)
    requires |more| <= 1
    ensures Table(fields + more) == Put(Table(fields), more)
  {
    if more == [] {
      assert fields + more == fields;
    } else {
      assert (fields + more)[..|fields|] == fields;
    }
  }

  lemma PutGets(m: map<string, string>, fields: seq<Field>, key: string, other: string)
    requires OneField(fields, key)
    ensures key !in m ==> Get(Put(m, fields), key) == GetField(fields)
    ensures key != other ==> Get(Put(m, fields), other) == Get(m, other) && (other in Put(m, fields) <==> other in m)
    ensures Put(m, fields).Keys <= m.Keys + {key}
  {
  }

  lemma KeysDiffer()
    ensures "FREQ" != "INTERVAL" && "FREQ" != "BYDAY" && "FREQ" != "COUNT" && "FREQ" != "UNTIL"
    ensures "INTERVAL" != "BYDAY" && "INTERVAL" != "COUNT" && "INTERVAL" != "UNTIL"
    ensures "BYDAY" != "COUNT" && "BYDAY" != "UNTIL" && "COUNT" != "UNTIL"
  {
    assert "BYDAY"[0] != "COUNT"[0] && "BYDAY"[0] != "UNTIL"[0] && "COUNT"[0] != "UNTIL"[0];
  }

  /** Five fields under five keys: each is found under its own. */
  lemma FiveFields(k: seq<string>, f: seq<seq<Field>>)
    requires |k| == |f| == 5 && forall i :: 0 <= i < 5 ==> OneField(f[i], k[i])
    requires forall i, j :: 0 <= i < j < 5 ==> k[i] != k[j]
    ensures var m := Put(Put(Put(Put(Put(map[], f[0]), f[1]), f[2]), f[3]), f[4]);
            m.Keys <= {k[0], k[1], k[2], k[3], k[4]} && forall i :: 0 <= i < 5 ==> Get(m, k[i]) == GetField(f[i])
  {
    var m1 := Put(map[], f[0]);
    var m2 := Put(m1, f[1]);
    var m3 := Put(m2, f[2]);
    var m4 := Put(m3, f[3]);
    forall i | 0 <= i < 5 ensures Get(Put(m4, f[4]), k[i]) == GetField(f[i]) {
      PutGets(map[], f[0], k[0], k[i]);
      PutGets(m1, f[1], k[1], k[i]);
      PutGets(m2, f[2], k[2], k[i]);
      PutGets(m3, f[3], k[3], k[i]);
      PutGets(m4, f[4], k[4], k[i]);
    }
  }

  /** The same for the keys of a rule. */
  lemma RuleFields(f: seq<seq<Field>>)
    requires |f| == 5 && OneField(f[0], "FREQ") && OneField(f[1], "INTERVAL") && OneField(f[2], "BYDAY")
    requires OneField(f[3], "COUNT") && OneField(f[4], "UNTIL")
    ensures var m := Put(Put(Put(Put(Put(map[], f[0]), f[1]), f[2]), f[3]), f[4]);
            && m.Keys <= KEYS
            && Get(m, "FREQ") == GetField(f[0]) && Get(m, "INTERVAL") == GetField(f[1])
            && Get(m, "BYDAY") == GetField(f[2]) && Get(m, "COUNT") == GetField(f[3])
            && Get(m, "UNTIL") == GetField(f[4])
  {
    hide OneField, Put, Get, GetField;
    KeysDiffer();
    var k := ["FREQ", "INTERVAL", "BYDAY", "COUNT", "UNTIL"];
    FiveFields(k, f);
    var m := Put(Put(Put(Put(Put(map[], f[0]), f[1]), f[2]), f[3]), f[4]);
    assert Get(m, k[0]) == GetField(f[0]) && Get(m, k[1]) == GetField(f[1]) && Get(m, k[2]) == GetField(f[2]);
    assert Get(m, k[3]) == GetField(f[3]) && Get(m, k[4]) == GetField(f[4]);
  }

  lemma FieldsTable(r: Rule)
    requires ValidRule(r)
    ensures var m := Table(Fields(r));
            && m.Keys <= KEYS
            && Get(m, "FREQ") == FreqName(r.freq)
            && Get(m, "INTERVAL") == GetField(IntervalField(r))
            && Get(m, "BYDAY") == GetField(ByDayField(r))
            && Get(m, "COUNT") == GetField(CountField(r))
            && Get(m, "UNTIL") == GetField(UntilField(r))
  {
    hide IntervalField, ByDayField, CountField, UntilField, FreqName, Get, Put;
    FieldShapes(r);
    var f0 := [Field("FREQ", FreqName(r.freq))];
    RuleFields([f0, IntervalField(r), ByDayField(r), CountField(r), UntilField(r)]);
    assert Table(f0) == Put(map[], f0) by { TableAppend([], f0); assert [] + f0 == f0; }
    hide Table;
    AppendFour(f0, IntervalField(r), ByDayField(r), CountField(r), UntilField(r));
  }

  lemma AppendFour(f: seq<Field>, f1: seq<Field>, f2: seq<Field>, f3: seq<Field>, f4: seq<Field>)
    requires |f1| <= 1 && |f2| <= 1 && |f3| <= 1 && |f4| <= 1
    ensures Table(f + f1 + f2 + f3 + f4) == Put(Put(Put(Put(Table(f), f1), f2), f3), f4)
  {
    hide Table, Put;
    TableAppend(f, f1);
    TableAppend(f + f1, f2);
    TableAppend(f + f1 + f2, f3);
    TableAppend(f + f1 + f2 + f3, f4);
  }

  predicate OneField(fields: seq<Field>, key: string) {
    |fields| <= 1 && (fields != [] ==> fields[0].key == key)
  }

  lemma FieldShapes(r: Rule)
    requires ValidRule(r)
    ensures OneField(IntervalField(r), "INTERVAL") && OneField(ByDayField(r), "BYDAY")
    ensures OneField(CountField(r), "COUNT") && OneField(UntilField(r), "UNTIL")
    ensures OneField([Field("FREQ", FreqName(r.freq))], "FREQ")
  {
  }

  // -------------------------------------------------------------------------
  // The values read back
  // -------------------------------------------------------------------------

  lemma {:induction false} JoinPlain(parts: seq<string>)
    requires forall i :: 0 <= i < |parts| ==> Plain(parts[i])
    ensures Plain(Join(parts, ','))
  {
    if |parts| > 1 {
      JoinPlain(parts[1..]);
    }
  }

  lemma NamesPlain(days: seq<int>)
    requires forall i :: 0 <= i < |days| ==> 0 <= days[i] < 7
    ensures forall i :: 0 <= i < |days| ==> Plain(DayNames(days)[i]) && ',' !in DayNames(days)[i]
    ensures days != [] ==> Join(DayNames(days), ',') != ""
  {
    if days != [] {
      JoinStarts(DayNames(days), ',');
    }
  }

  lemma {:induction false} DayNamesRead(days: seq<int>)
    requires forall i :: 0 <= i < |days| ==> 0 <= days[i] < 7
    ensures ReadDays(DayNames(days)) == Some(days)
  {
    if days != [] {
      DayNamesRead(days[1..]);
      assert DayNames(days)[1..] == DayNames(days[1..]);
      assert ReadDay(NAMES[days[0]]) == Some(days[0]);
      assert [days[0]] + days[1..] == days;
    }
  }

  lemma {:induction false} DaysBelowAre(days: seq<int>, n: nat)
    ensures Increasing(DaysBelow(days, n))
    ensures forall d :: d in DaysBelow(days, n) <==> 0 <= d < n && d in days
  {
    if n > 0 {
      DaysBelowAre(days, n - 1);
      var s := DaysBelow(days, n - 1);
      forall i | 0 <= i < |s| ensures s[i] < n - 1 {
        assert s[i] in s;
      }
    }
  }

  /** A list that is in order already, without repeats, stays as it is. */
  lemma {:induction false} DaysBelowKeeps(days: seq<int>, n: nat)
    requires Increasing(days) && forall i :: 0 <= i < |days| ==> 0 <= days[i] < n
    ensures DaysBelow(days, n) == days
  {
    assert days != [] ==> 0 <= days[0] < n;
    if n > 0 && days != [] && days[|days| - 1] == n - 1 {
      var init := days[..|days| - 1];
      DaysBelowKeeps(init, n - 1);
      DaysBelowSame(init, days, n - 1);
      assert days == init + [n - 1];
    } else if n > 0 {
      forall i | 0 <= i < |days| ensures days[i] < n - 1 {
        assert i < |days| - 1 ==> days[i] < days[|days| - 1];
      }
      assert n - 1 !in days;
      DaysBelowKeeps(days, n - 1);
    }
  }

  lemma {:induction false} DaysBelowSame(a: seq<int>, b: seq<int>, n: nat)
    requires forall d :: 0 <= d < n ==> (d in a <==> d in b)
    ensures DaysBelow(a, n) == DaysBelow(b, n)
  {
    if n > 0 {
      DaysBelowSame(a, b, n - 1);
    }
  }

  lemma ByDayReads(days: seq<int>)
    requires ValidDays(days)
    ensures var text := Join(DayNames(days), ',');
            && text != "" && Plain(text)
            && ReadDays(Split(text, ',')) == Some(days)
            && DaysBelow(days, 7) == days
  {
    NamesPlain(days);
    JoinPlain(DayNames(days));
    SplitJoin(DayNames(days), ',');
    DayNamesRead(days);
    DaysBelowKeeps(days, 7);
  }

  lemma NumberReads(n: nat)
    ensures Plain(Print(n)) && ReadNumber(Print(n)) == Some(n)
  {
    ValueOfPrint(n);
  }

  // -------------------------------------------------------------------------
  // UNTIL
  // -------------------------------------------------------------------------

  lemma InstantReads(date: string, time: string)
    requires |date| == 8 && |time| == 6 && AllDigits(date) && AllDigits(time)
    ensures ReadUntil(date + "T" + time + "Z") == Some(ReadInstant(date, time))
  {
    hide ReadInstant;
    var t := date + "T" + time + "Z";
    assert t[..8] == date && t[9..15] == time;
  }

  lemma Slices(a: string, b: string, c: string)
    requires AllDigits(a) && AllDigits(b) && AllDigits(c)
    ensures AllDigits(a + b + c)
    ensures (a + b + c)[..|a|] == a && (a + b + c)[|a|..|a| + |b|] == b && (a + b + c)[|a| + |b|..] == c
  {
  }

  lemma TwoReads(n: nat)
    requires n < 100
    ensures |Two(n)| == 2 && AllDigits(Two(n)) && Value(Two(n)) == n
  {
    PaddedPrint(n, 2);
    PrintLength(n, 2);
    assert Pow10(2) == 100;
  }

  lemma YearReads(y: int)
    requires 0 <= y <= 9999
    ensures |YearText(y)| == 4 && AllDigits(YearText(y)) && Value(YearText(y)) == y
  {
    PaddedPrint(y, 4);
    PrintLength(y, 4);
    assert Pow10(4) == 10_000;
    hide Value, Print, PadStart, AllDigits;
    PaddedLength(y, 4);
  }

  lemma DateTextReads(w: WallClock)
    requires 0 <= w.year <= 9999 && 0 <= w.month < 100 && 0 <= w.day < 100
    ensures var s := DateText(w);
            && |s| == 8 && AllDigits(s)
            && Value(s[..4]) == w.year && Value(s[4..6]) == w.month && Value(s[6..]) == w.day
  {
    hide YearText, Value, Print, PadStart, Two, AllDigits;
    YearReads(w.year);
    TwoReads(w.month);
    TwoReads(w.day);
    Slices(YearText(w.year), Two(w.month), Two(w.day));
  }

  lemma TimeTextReads(w: WallClock)
    requires 0 <= w.hour < 100 && 0 <= w.minute < 100 && 0 <= w.second < 100
    ensures var s := TimeText(w);
            && |s| == 6 && AllDigits(s)
            && Value(s[..2]) == w.hour && Value(s[2..4]) == w.minute && Value(s[4..]) == w.second
  {
    TwoReads(w.hour);
    TwoReads(w.minute);
    TwoReads(w.second);
    hide Value, Print, PadStart, Two;
    Slices(Two(w.hour), Two(w.minute), Two(w.second));
  }

  /** For the years 0 to 9999 the text reads as Date.UTC of the clock it shows. */
  lemma UntilTextReads(t: int)
    requires 0 <= ClockAt(t).year <= 9999
    ensures ReadUntil(UntilText(t)) == Some(DateUtc(ClockAt(t)))
  {
    var w := ClockAt(t);
    hide ClockAt, DateUtc, ReadUntil, Value, DateText, TimeText, AllDigits;
    DateTextReads(w);
    TimeTextReads(w);
    InstantReads(DateText(w), TimeText(w));
  }

  /** Other years do not read back at all. */
  lemma UntilTextRefused(t: int)
    requires !(0 <= ClockAt(t).year <= 9999)
    ensures ReadUntil(UntilText(t)) == None
  {
    var w := ClockAt(t);
    hide ClockAt, Value, Print, TimeText, ReadInstant;
    if w.year < 0 {
      LongYearText(w);
      hide DateText;
      assert UntilText(t)[8] == DateText(w)[8];
    } else {
      assert UntilText(t)[..8][0] == '+';
    }
  }

  lemma LongYearText(w: WallClock)
    requires w.year < 0 && 0 <= w.month < 100 && 0 <= w.day < 100
    ensures |DateText(w)| >= 10 && IsDigit(DateText(w)[8])
  {
    PaddedPrint(-w.year, 6);
    PaddedLength(-w.year, 6);
    TwoReads(w.month);
    TwoReads(w.day);
    hide Value, Print, PadStart, Two;
    assert AllDigits(DateText(w));
  }

  lemma TwoDigitYearMovesDay(c: Civil)
    requires ValidCivil(c) && 0 <= c.year <= 99
    ensures DayNumber(c.year, c.month, c.day) < FIRST_DAY <= UtcDay(c.year, c.month - 1, c.day)
  {
    DayNumberIncreases(c, Civil(100, 1, 1));
    FirstDayIsYear100();
    YearsIncrease(100, 1900 + c.year);
    hide DaysBeforeYear;
    assert (c.month - 1) / 12 == 0 && (c.month - 1) % 12 == c.month - 1;
  }

  /** Date.UTC takes a clock in the years 0 to 99 for one in the 1900s. */
  lemma TwoDigitYearMoves(t: int)
    requires 0 <= ClockAt(t).year <= 99
    ensures DateUtc(ClockAt(t)) > t
  {
    hide CivilOf, DayNumber, UtcDay;
    var c, w := CivilOf(t / DAY_MS), ClockAt(t);
    TwoDigitYearMovesDay(c);
    assert w.year == c.year && w.month == c.month && w.day == c.day;
    hide ClockAt, ValidCivil, MonthLength;
    LaterDayIsAfter(t, UtcDay(w.year, w.month - 1, w.day), w.hour * 3_600_000 + w.minute * 60_000 + w.second * 1000);
  }

  lemma LaterDayIsAfter(t: int, day: int, rest: nat)
    requires t / DAY_MS < day
    ensures t < day * DAY_MS + rest
  {
  }

  /** Date.UTC of the shown clock is the instant itself exactly for whole seconds from year 100 on. */
  lemma ShownClockIsInstant(t: int)
    requires ClockAt(t).year >= 0
    ensures DateUtc(ClockAt(t)) == t <==> t % 1000 == 0 && ClockAt(t).year >= 100
  {
    if ClockAt(t).year >= 100 {
      YearFromFirstDay(t / DAY_MS);
      hide ClockAt, DateUtc, CivilOf;
      ClockRoundTrip(t);
    } else {
      TwoDigitYearMoves(t);
    }
  }

  /** An instant that the printed text can carry: a whole second of the years 100 to 9999. */
  predicate Readable(t: int) {
    t % 1000 == 0 && 100 <= ClockAt(t).year <= 9999
  }

  lemma UntilReads(t: int)
    ensures ReadUntil(UntilText(t)) == Some(t) <==> Readable(t)
  {
    if 0 <= ClockAt(t).year <= 9999 {
      UntilTextReads(t);
      ShownClockIsInstant(t);
    } else {
      UntilTextRefused(t);
    }
  }

  lemma DateTextPlain(w: WallClock)
    requires 0 <= w.month < 100 && 0 <= w.day < 100
    ensures Plain(DateText(w))
  {
    hide YearText, Two, Value, AllDigits, Plain;
    YearPlain(w.year);
    TwoPlain(w.month);
    TwoPlain(w.day);
    PlainConcat(YearText(w.year), Two(w.month));
    PlainConcat(YearText(w.year) + Two(w.month), Two(w.day));
  }

  lemma YearPlain(y: int)
    ensures Plain(YearText(y))
  {
    PaddedPrint(if y < 0 then -y else y, if 0 <= y <= 9999 then 4 else 6);
    hide PadStart, Value, Print;
    DigitsPlain(YearText(y));
  }

  lemma TwoPlain(n: nat)
    requires n < 100
    ensures Plain(Two(n))
  {
    TwoReads(n);
    hide Two, Value;
    DigitsPlain(Two(n));
  }

  lemma PlainConcat(a: string, b: string)
    requires Plain(a) && Plain(b)
    ensures Plain(a + b)
  {
  }

  lemma TimeTextPlain(w: WallClock)
    requires 0 <= w.hour < 100 && 0 <= w.minute < 100 && 0 <= w.second < 100
    ensures Plain(TimeText(w))
  {
    TimeTextReads(w);
    hide TimeText, Value;
    DigitsPlain(TimeText(w));
  }

  lemma UntilPlain(t: int)
    ensures Plain(UntilText(t)) && UntilText(t) != ""
  {
    var w := ClockAt(t);
    hide ClockAt, DateText, TimeText;
    DateTextPlain(w);
    TimeTextPlain(w);
  }

  lemma DigitsPlain(s: string)
    requires forall i :: 0 <= i < |s| ==> IsDigit(s[i]) || s[i] == '+'
    ensures Plain(s)
  {
  }

  // -------------------------------------------------------------------------
  // Main results
  // -------------------------------------------------------------------------

  lemma KeysPlain()
    ensures forall key :: key in KEYS ==> key != "" && Plain(key)
  {
  }

  lemma FreqPlain(f: Frequency)
    ensures Plain(FreqName(f))
  {
  }

  lemma OnePlain(key: string, value: string)
    requires key in KEYS && Plain(value)
    ensures AllPlain([Field(key, value)])
  {
    KeysPlain();
  }

  lemma IntervalPlain(r: Rule)
    requires ValidRule(r)
    ensures AllPlain(IntervalField(r))
  {
    NumberReads(r.interval);
    OnePlain("INTERVAL", Print(r.interval));
    hide Print, Plain;
  }

  lemma CountPlain(r: Rule)
    requires ValidRule(r)
    ensures AllPlain(CountField(r))
  {
    if r.count.Some? {
      NumberReads(r.count.value);
      OnePlain("COUNT", Print(r.count.value));
    }
    hide Print, Plain;
  }

  lemma ByDayPlain(r: Rule)
    requires ValidRule(r)
    ensures AllPlain(ByDayField(r))
  {
    if r.byDay.Some? {
      ByDayReads(r.byDay.value);
      OnePlain("BYDAY", Join(DayNames(r.byDay.value), ','));
    }
    hide DayNames, Join, Split, ReadDays, DaysBelow, Plain;
  }

  lemma UntilFieldPlain(r: Rule)
    ensures AllPlain(UntilField(r))
  {
    if r.until.Some? {
      UntilPlain(r.until.value);
      OnePlain("UNTIL", UntilText(r.until.value));
    }
    hide UntilText, Plain;
  }

  lemma SegmentsPlain(r: Rule)
    requires ValidRule(r)
    ensures AllPlain([Field("FREQ", FreqName(r.freq))]) && AllPlain(IntervalField(r)) && AllPlain(ByDayField(r))
    ensures AllPlain(CountField(r)) && AllPlain(UntilField(r))
  {
    FreqPlain(r.freq);
    OnePlain("FREQ", FreqName(r.freq));
    hide IntervalField, ByDayField, CountField, UntilField, FreqName, AllPlain, ValidRule;
    IntervalPlain(r);
    ByDayPlain(r);
    CountPlain(r);
    UntilFieldPlain(r);
  }

  lemma FieldsPlain(r: Rule)
    requires ValidRule(r)
    ensures AllPlain(Fields(r))
  {
    SegmentsPlain(r);
    hide IntervalField, ByDayField, CountField, UntilField, FreqName, PlainField;
  }

  /** The value of each field reads as the rule's own. */
  lemma FieldsRead(r: Rule, m: map<string, string>)
    requires ValidRule(r) && m.Keys <= KEYS
    requires Get(m, "FREQ") == FreqName(r.freq) && Get(m, "INTERVAL") == GetField(IntervalField(r))
    requires Get(m, "BYDAY") == GetField(ByDayField(r)) && Get(m, "COUNT") == GetField(CountField(r))
    requires Get(m, "UNTIL") == GetField(UntilField(r))
    ensures Interpret(m) == if r.until.None? then Ok(r)
                            else if ReadUntil(UntilText(r.until.value)).None? then Err(BadUntil)
                            else Ok(r.(until := ReadUntil(UntilText(r.until.value))))
  {
    if r.byDay.Some? { ByDayReads(r.byDay.value); }
    if r.until.Some? { UntilPlain(r.until.value); }
    if r.count.Some? { NumberReads(r.count.value); }
    NumberReads(r.interval);
    hide UntilText, ReadUntil, Print, DayNames, Join, Split, DaysBelow, ReadDays, ReadNumber, Get;
    FreqReads(r.freq);
    hide ReadFreq, FreqName;
    assert r.count.None? ==> ReadNumber("") == None by { EmptyReadsNone(); }
    assert r.until.None? ==> ReadUntil("") == None by { EmptyReadsNone(); }
  }

  lemma FreqReads(f: Frequency)
    ensures ReadFreq(FreqName(f)) == Some(f)
  {
  }

  lemma EmptyReadsNone()
    ensures ReadNumber("") == None && ReadUntil("") == None
  {
  }

  /** A printed rule parses back to itself exactly when its UNTIL is one the text can carry. */
  lemma PrintedRuleParses(r: Rule)
    requires ValidRule(r)
    ensures Parse(Format(r)) == Ok(r) <==> (r.until.Some? ==> Readable(r.until.value))
  {
    FieldsPlain(r);
    PrintedFieldsRead(Fields(r));
    FieldsTable(r);
    FieldsRead(r, Table(Fields(r)));
    if r.until.Some? { UntilReads(r.until.value); }
  }

  lemma DaysBelowNonEmpty(days: seq<int>)
    requires days != [] && forall i :: 0 <= i < |days| ==> 0 <= days[i] < 7
    ensures ValidDays(DaysBelow(days, 7)) && forall d :: d in DaysBelow(days, 7) <==> d in days
  {
    DaysBelowAre(days, 7);
    forall d | d in days ensures 0 <= d < 7 {
    }
    assert days[0] in days && days[0] in DaysBelow(days, 7);
    forall i | 0 <= i < |DaysBelow(days, 7)| ensures 0 <= DaysBelow(days, 7)[i] < 7 {
      assert DaysBelow(days, 7)[i] in DaysBelow(days, 7);
    }
  }

  lemma ReadUntilWhole(s: string)
    ensures ReadUntil(s).Some? ==> ReadUntil(s).value % 1000 == 0
  {
    hide DateUtc, Value;
    if ReadUntil(s).Some? {
      var w :| ReadUntil(s).value == DateUtc(w);
      Zone.WholeSeconds(w);
    }
  }

  /** Every accepted text gives a valid rule, with UNTIL on a whole second. */
  lemma ParsedRuleIsValid(input: string)
    requires Parse(input).Ok?
    ensures ValidRule(Parse(input).value)
    ensures Parse(input).value.until.Some? ==> Parse(input).value.until.value % 1000 == 0
  {
    var m := ReadParts(NonEmpty(Split(StripPrefix(input), ';'))).value;
    ReadUntilWhole(Get(m, "UNTIL"));
    EmptyReadsNone();
    if Get(m, "BYDAY") != "" {
      var names := Split(Get(m, "BYDAY"), ',');
      DaysBelowNonEmpty(ReadDays(names).value);
    }
    hide Split, DaysBelow, ReadDays, ReadNumber, ReadUntil, ReadParts, NonEmpty, StripPrefix;
  }

  /** Printing what was parsed gives a canonical text: it parses to the same rule and prints as itself, as long as
      UNTIL lies in the years 100 to 9999. */
  lemma CanonicalRule(input: string)
    requires Parse(input).Ok?
    ensures ValidRule(Parse(input).value)
    ensures var r := Parse(input).value;
            (r.until.Some? ==> 100 <= ClockAt(r.until.value).year <= 9999) <==> Parse(Format(r)) == Parse(input)
  {
    ParsedRuleIsValid(input);
    PrintedRuleParses(Parse(input).value);
  }
}
