/** What the parser makes of texts that are never printed: a date alone or a local time as UNTIL, the RRULE prefix, and
    letters of either case. */
module RRuleForms {
  import opened Wrappers
  import opened Decimal
  import opened Calendar
  import opened Recurrence
  import opened RRuleText

  // -------------------------------------------------------------------------
  // UNTIL
  // -------------------------------------------------------------------------

  /** A date as four, two and two digits. */
  function DateDigits(c: Civil): string
    requires ValidCivil(c) && c.year >= 0
  {
    PadStart(Print(c.year), 4) + PadStart(Print(c.month), 2) + PadStart(Print(c.day), 2)
  }

  function TimeDigits(h: nat, m: nat, s: nat): string {
    PadStart(Print(h), 2) + PadStart(Print(m), 2) + PadStart(Print(s), 2)
  }

  lemma {:induction false} JoinAppend(parts: seq<string>, p: string, sep: char)
    requires parts != []
    ensures Join(parts + [p], sep) == Join(parts, sep) + [sep] + p
  {
    if |parts| > 1 {
      assert (parts + [p])[1..] == parts[1..] + [p];
      JoinAppend(parts[1..], p, sep);
      var rest := Join(parts[1..], sep);
      assert parts[0] + [sep] + (rest + [sep] + p) == parts[0] + [sep] + rest + [sep] + p;
    }
  }

  /** The table of a rule without COUNT and UNTIL, with an UNTIL added. */
  lemma UntilInterpreted(m: map<string, string>, r: Rule, text: string)
    requires Interpret(m) == Ok(r) && Get(m, "COUNT") == "" && m.Keys <= KEYS
    requires text != "" && ReadUntil(text).Some?
    ensures Interpret(m["UNTIL" := text]) == Ok(r.(until := ReadUntil(text)))
  {
    hide ReadUntil, ReadNumber, ReadDays, Split, DaysBelow, ReadFreq;
    KeysDiffer();
    var n := m["UNTIL" := text];
    assert Get(n, "FREQ") == Get(m, "FREQ") && Get(n, "INTERVAL") == Get(m, "INTERVAL");
    assert Get(n, "COUNT") == "" && Get(n, "BYDAY") == Get(m, "BYDAY") && Get(n, "UNTIL") == text;
    assert ReadNumber("") == None by { EmptyReadsNone(); }
    hide Get;
  }

  lemma UntilAppended(r: Rule, text: string)
    requires ValidRule(r) && r.until.None? && r.count.None?
    requires text != "" && Plain(text) && ReadUntil(text).Some?
    ensures Parse(Format(r) + ";UNTIL=" + text) == Ok(r.(until := ReadUntil(text)))
  {
    hide ReadUntil, Plain, Interpret, Parse, Join, Table, Get;
    var fields, f := Fields(r), Field("UNTIL", text);
    FieldsPlain(r);
    FieldsTable(r);
    FieldsRead(r, Table(fields));
    assert Plain("UNTIL") by { KeysPlain(); }
    assert GetField(CountField(r)) == "";
    UntilInterpreted(Table(fields), r, text);
    TableAppend(fields, [f]);
    assert fields[0].key == "FREQ";
    PrintedFieldsRead(fields + [f]);
    assert Parts(fields + [f]) == Parts(fields) + ["UNTIL=" + text] by {
      assert "UNTIL" + "=" + text == "UNTIL=" + text;
    }
    JoinAppend(Parts(fields), "UNTIL=" + text, ';');
    assert Format(r) + [';'] + ("UNTIL=" + text) == Format(r) + ";UNTIL=" + text;
  }

  lemma DateReads(c: Civil)
    requires ValidCivil(c) && 0 <= c.year <= 9999
    ensures var s := DateDigits(c);
            && |s| == 8 && AllDigits(s)
            && Value(s[..4]) == c.year && Value(s[4..6]) == c.month && Value(s[6..]) == c.day
  {
    hide Value, Print, PadStart;
    DateTextReads(WallClock(c.year, c.month, c.day, 0, 0, 0));
  }

  lemma TimeReads(h: nat, m: nat, s: nat)
    requires h < 24 && m < 60 && s < 60
    ensures var t := TimeDigits(h, m, s);
            && |t| == 6 && AllDigits(t) && Value(t[..2]) == h && Value(t[2..4]) == m && Value(t[4..]) == s
  {
    hide Value, Print, PadStart;
    TimeTextReads(WallClock(0, 1, 1, h, m, s));
  }

  lemma TwoDigitValue(s: string)
    requires |s| == 2 && AllDigits(s)
    ensures Value(s) == 10 * DigitValue(s[0]) + DigitValue(s[1])
  {
    assert s[..1][..0] == "";
    assert Value(s[..1]) == 10 * Value(s[..1][..0]) + DigitValue(s[0]);
  }

  lemma LastSecond()
    ensures AllDigits("235959")
    ensures Value("235959"[..2]) == 23 && Value("235959"[2..4]) == 59 && Value("235959"[4..]) == 59
  {
    TwoDigitValue("23");
    TwoDigitValue("59");
    assert "235959"[..2] == "23" && "235959"[2..4] == "59" && "235959"[4..] == "59";
  }

  lemma ModernDate(c: Civil)
    requires ValidCivil(c) && c.year >= 100
    ensures Number(c) >= FIRST_DAY
  {
    hide DayNumber;
    FirstDayIsYear100();
    if c != Civil(100, 1, 1) { DayNumberIncreases(Civil(100, 1, 1), c); }
  }

  lemma InstantRead(c: Civil, date: string, time: string, h: nat, m: nat, s: nat)
    requires ValidCivil(c) && c.year >= 100
    requires |date| == 8 && AllDigits(date) && |time| == 6 && AllDigits(time)
    requires Value(date[..4]) == c.year && Value(date[4..6]) == c.month && Value(date[6..]) == c.day
    requires Value(time[..2]) == h && Value(time[2..4]) == m && Value(time[4..]) == s
    ensures ReadInstant(date, time) ==
            DayNumber(c.year, c.month, c.day) * DAY_MS + h * 3_600_000 + m * 60_000 + s * 1000
  {
    hide DateUtc, DayNumber, Value, AllDigits;
    ModernDate(c);
    TargetOfDate(c, h, m, s);
  }

  /** A date alone includes its whole day: in whole seconds, what is not after it is what is not on a later UTC date. */
  lemma DateUntilIncludesItsDay(r: Rule, c: Civil, t: int)
    requires ValidRule(r) && r.until.None? && r.count.None?
    requires ValidCivil(c) && 100 <= c.year <= 9999 && t % 1000 == 0
    ensures var p := Parse(Format(r) + ";UNTIL=" + DateDigits(c));
            && p.Ok? && p.value.until.Some? && p.value == r.(until := p.value.until)
            && (t <= p.value.until.value <==> t / DAY_MS <= DayNumber(c.year, c.month, c.day))
  {
    var s := DateDigits(c);
    DateReads(c);
    LastSecond();
    hide DateDigits, Format, Parse, DayNumber, Value, ReadInstant, PadStart, Print;
    DigitsPlain(s);
    InstantRead(c, s, "235959", 23, 59, 59);
    assert ReadUntil(s) == Some(ReadInstant(s, "235959"));
    hide ReadUntil, AllDigits, Plain;
    UntilAppended(r, s);
    LastSecondOfDay(t, DayNumber(c.year, c.month, c.day));
  }

  lemma LastSecondOfDay(t: int, day: int)
    requires t % 1000 == 0
    ensures t <= day * DAY_MS + 23 * 3_600_000 + 59 * 60_000 + 59 * 1000 <==> t / DAY_MS <= day
  {
  }

  /** A date with a time is that wall clock of UTC, with or without the Z. */
  lemma TimedUntilIsUtc(r: Rule, c: Civil, h: nat, m: nat, s: nat)
    requires ValidRule(r) && r.until.None? && r.count.None?
    requires ValidCivil(c) && 100 <= c.year <= 9999 && h < 24 && m < 60 && s < 60
    ensures var text := Format(r) + ";UNTIL=" + (DateDigits(c) + "T" + TimeDigits(h, m, s));
            var zulu := Format(r) + ";UNTIL=" + (DateDigits(c) + "T" + TimeDigits(h, m, s) + "Z");
            var until := DayNumber(c.year, c.month, c.day) * DAY_MS + h * 3_600_000 + m * 60_000 + s * 1000;
            Parse(text) == Parse(zulu) == Ok(r.(until := Some(until)))
  {
    hide *;
    var timed := DateDigits(c) + "T" + TimeDigits(h, m, s);
    TimedDigitsRead(c, h, m, s);
    UntilAppended(r, timed);
    UntilAppended(r, timed + "Z");
  }

  lemma TimedDigitsRead(c: Civil, h: nat, m: nat, s: nat)
    requires ValidCivil(c) && 100 <= c.year <= 9999 && h < 24 && m < 60 && s < 60
    ensures var timed := DateDigits(c) + "T" + TimeDigits(h, m, s);
            var until := DayNumber(c.year, c.month, c.day) * DAY_MS + h * 3_600_000 + m * 60_000 + s * 1000;
            && ReadUntil(timed) == ReadUntil(timed + "Z") == Some(until)
            && Plain(timed) && Plain(timed + "Z")
  {
    hide *;
    DateReads(c);
    TimeReads(h, m, s);
    InstantRead(c, DateDigits(c), TimeDigits(h, m, s), h, m, s);
    TimedReads(DateDigits(c), TimeDigits(h, m, s));
  }

  lemma TimedReads(date: string, time: string)
    requires |date| == 8 && AllDigits(date) && |time| == 6 && AllDigits(time)
    ensures Plain(date + "T" + time) && Plain(date + "T" + time + "Z")
    ensures ReadUntil(date + "T" + time) == Some(ReadInstant(date, time))
    ensures ReadUntil(date + "T" + time + "Z") == Some(ReadInstant(date, time))
  {
    hide ReadInstant;
    DigitsPlain(date);
    DigitsPlain(time);
    InstantReads(date, time);
    var t := date + "T" + time;
    assert t[..8] == date && t[9..15] == time && t[8] == 'T' && |t| == 15;
  }

  // -------------------------------------------------------------------------
  // Bounds
  // -------------------------------------------------------------------------

  lemma TwoFields(key: string, value: string)
    requires key != "" && key != "FREQ" && Plain(key) && Plain(value)
    ensures Parse("FREQ=DAILY;" + key + "=" + value) == Interpret(map["FREQ" := "DAILY", key := value])
  {
    hide *;
    FreqIsPlain();
    TwoFieldsPlain(Field("FREQ", "DAILY"), Field(key, value));
    TwoFieldsTable(key, value);
    TwoFieldsText(key, value);
    PrintedFieldsRead([Field("FREQ", "DAILY"), Field(key, value)]);
  }

  lemma FreqIsPlain()
    ensures Plain("FREQ") && Plain("DAILY")
  {
  }

  lemma TwoFieldsPlain(f: Field, g: Field)
    requires f.key != "" && Plain(f.key) && Plain(f.value) && g.key != "" && Plain(g.key) && Plain(g.value)
    ensures AllPlain([f, g])
  {
    hide Plain;
  }

  lemma TwoFieldsTable(key: string, value: string)
    requires key != "FREQ"
    ensures Table([Field("FREQ", "DAILY"), Field(key, value)]) == map["FREQ" := "DAILY", key := value]
  {
    var f, g := Field("FREQ", "DAILY"), Field(key, value);
    TableAppend([], [f]);
    TableAppend([f], [g]);
    assert [] + [f] == [f] && [f] + [g] == [f, g];
  }

  lemma TwoFieldsText(key: string, value: string)
    ensures Join(Parts([Field("FREQ", "DAILY"), Field(key, value)]), ';') == "FREQ=DAILY;" + key + "=" + value
  {
    var parts := Parts([Field("FREQ", "DAILY"), Field(key, value)]);
    assert parts == ["FREQ" + "=" + "DAILY", key + "=" + value];
    hide Parts;
    assert "FREQ" + "=" + "DAILY" == "FREQ=DAILY";
    assert Join(parts[1..], ';') == key + "=" + value;
    assert "FREQ=DAILY" + [';'] == "FREQ=DAILY;";
    assert "FREQ=DAILY;" + (key + "=" + value) == "FREQ=DAILY;" + key + "=" + value;
  }

  /** Intervals from 1 to 366 are accepted, and read as they are written; others are not. */
  lemma IntervalsAccepted(n: nat)
    ensures Parse("FREQ=DAILY;INTERVAL=" + Print(n)) ==
            if 1 <= n <= 366 then Ok(Rule(Daily, n, None, None, None)) else Err(BadInterval)
  {
    NumberReads(n);
    KeysPlain();
    hide Parse, Print, ReadNumber, ReadUntil, ReadDays, Split, DaysBelow;
    TwoFields("INTERVAL", Print(n));
    EmptyReadsNone();
    KeysDiffer();
    assert "FREQ=DAILY;" + "INTERVAL" + "=" + Print(n) == "FREQ=DAILY;INTERVAL=" + Print(n);
  }

  /** So are counts from 1 to 1000. */
  lemma CountsAccepted(n: nat)
    ensures Parse("FREQ=DAILY;COUNT=" + Print(n)) ==
            if 1 <= n <= 1000 then Ok(Rule(Daily, 1, Some(n), None, None)) else Err(BadCount)
  {
    NumberReads(n);
    KeysPlain();
    hide Parse, Print, ReadNumber, ReadUntil, ReadDays, Split, DaysBelow;
    TwoFields("COUNT", Print(n));
    EmptyReadsNone();
    KeysDiffer();
    assert "FREQ=DAILY;" + "COUNT" + "=" + Print(n) == "FREQ=DAILY;COUNT=" + Print(n);
  }

  // -------------------------------------------------------------------------
  // The prefix and the case of letters
  // -------------------------------------------------------------------------

  /** A text counts as it is without a prefix, in whatever case the prefix is written; only one is taken off. */
  lemma PrefixIgnored(prefix: string, s: string)
    requires Upper(prefix) == "RRULE:" && !(|s| >= 6 && Upper(s[..6]) == "RRULE:")
    ensures Parse(prefix + s) == Parse(s)
  {
    assert |prefix| == |Upper(prefix)|;
    assert (prefix + s)[..6] == prefix && (prefix + s)[6..] == s;
    hide Upper, Split, Interpret, ReadParts, NonEmpty;
  }

  /** Upper-casing turns a into A and z into Z, and leaves the characters next to the letters alone. */
  lemma UpperOfLetters(i: nat)
    requires i < 26
    ensures UpperChar(('a' as int + i) as char) == ('A' as int + i) as char
    ensures UpperChar('`') == '`' && UpperChar('{') == '{' && UpperChar(';') == ';' && UpperChar('=') == '='
  {
  }

  function Uppers(parts: seq<string>): seq<string> {
    seq(|parts|, i requires 0 <= i < |parts| => Upper(parts[i]))
  }

  lemma UppersOfTwo(a: seq<string>, b: seq<string>)
    ensures Uppers(a + b) == Uppers(a) + Uppers(b)
  {
    hide Upper;
  }

  lemma {:induction false} SplitUpper(s: string, sep: char)
    requires !('a' <= sep <= 'z') && !('A' <= sep <= 'Z')
    ensures Split(Upper(s), sep) == Uppers(Split(s, sep))
  {
    if s == [] {
      assert Upper(s) == "";
    } else {
      UpperStep(s);
      hide Upper, Split, UpperChar, Uppers;
      SplitUpper(s[1..], sep);
      SplitStep(s, sep);
      SplitStep(Upper(s), sep);
      UpperKeeps(s[0], sep);
      UppersStep(s[0], Split(s[1..], sep));
    }
  }

  lemma UpperStep(s: string)
    requires s != ""
    ensures Upper(s) != "" && Upper(s)[0] == UpperChar(s[0]) && Upper(s)[1..] == Upper(s[1..])
  {
  }

  lemma UpperKeeps(c: char, sep: char)
    requires !('a' <= sep <= 'z') && !('A' <= sep <= 'Z')
    ensures UpperChar(c) == sep <==> c == sep
  {
  }

  /** Split, told from the front: an empty part, or one more character in the first part. */
  lemma SplitStep(s: string, sep: char)
    requires s != ""
    ensures var rest := Split(s[1..], sep);
            Split(s, sep) == if s[0] == sep then [""] + rest else [[s[0]] + rest[0]] + rest[1..]
  {
  }

  lemma UppersStep(c: char, rest: seq<string>)
    requires rest != []
    ensures Uppers([""] + rest) == [""] + Uppers(rest)
    ensures Uppers(rest) != []
    ensures Uppers([[c] + rest[0]] + rest[1..]) == [[UpperChar(c)] + Uppers(rest)[0]] + Uppers(rest)[1..]
  {
    assert Upper("") == "";
    assert Upper([c] + rest[0]) == [UpperChar(c)] + Upper(rest[0]);
    hide Upper, UpperChar;
    UppersOfTwo([""], rest);
    UppersOfTwo([[c] + rest[0]], rest[1..]);
    assert Uppers(rest)[1..] == Uppers(rest[1..]);
  }

  lemma {:induction false} NonEmptyUppers(parts: seq<string>)
    ensures NonEmpty(Uppers(parts)) == Uppers(NonEmpty(parts))
  {
    if parts != [] {
      NonEmptyUppers(parts[1..]);
      assert Uppers(parts)[1..] == Uppers(parts[1..]);
      assert Upper(parts[0]) == "" <==> parts[0] == "";
    }
  }

  lemma UpperTwice(s: string)
    ensures Upper(Upper(s)) == Upper(s)
  {
  }

  lemma {:induction false} PartsUpper(parts: seq<string>)
    ensures ReadParts(Uppers(parts)) == ReadParts(parts)
  {
    if parts != [] {
      var n := |parts| - 1;
      PartsUpper(parts[..n]);
      assert Uppers(parts)[..n] == Uppers(parts[..n]);
      SplitUpper(parts[n], '=');
      var last := Split(parts[n], '=');
      UpperTwice(last[0]);
      if |last| >= 2 { UpperTwice(last[1]); }
      assert Upper(last[0]) == "" <==> last[0] == "";
      hide Upper, Split;
    }
  }

  lemma PrefixUpper(s: string)
    ensures StripPrefix(Upper(s)) == Upper(StripPrefix(s))
  {
    if |s| >= 6 {
      assert Upper(s)[..6] == Upper(s[..6]) && Upper(s)[6..] == Upper(s[6..]);
      UpperTwice(s[..6]);
    }
  }

  lemma ParseUpper(s: string)
    ensures Parse(Upper(s)) == Parse(s)
  {
    PrefixUpper(s);
    var t := StripPrefix(s);
    SplitUpper(t, ';');
    NonEmptyUppers(Split(t, ';'));
    PartsUpper(NonEmpty(Split(t, ';')));
    hide Upper, Split, Interpret, ReadParts, NonEmpty, StripPrefix, Uppers;
  }

  /** Texts that differ only in the case of letters parse alike, to the same rule or the same error. */
  lemma CaseIgnored(s: string, t: string)
    requires Upper(s) == Upper(t)
    ensures Parse(s) == Parse(t)
  {
    hide Parse, Upper;
    ParseUpper(s);
    ParseUpper(t);
  }
}
