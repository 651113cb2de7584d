/** Deterministic JSON text: logically identical bodies print alike, and only those. Strings are sequences of
    UTF-16 code units. */
module CanonicalJson {
  type CodeUnit = u: int | 0 <= u < 0x10000

  type Str = seq<CodeUnit>

  /** A number is held as the text JavaScript prints for it. */
  datatype Json = Null | Bool(b: bool) | Number(text: Str) | Text(s: Str) | Array(items: Items) | Object(fields: Fields)

  datatype Items = NoItem | Item(head: Json, tail: Items)

  datatype Fields = NoField | Field(key: Str, value: Json, rest: Fields)

  const NEWLINE: CodeUnit := 10
  const QUOTE: CodeUnit := 34
  const COMMA: CodeUnit := 44
  const COLON: CodeUnit := 58
  const OPEN_BRACKET: CodeUnit := 91
  const BACKSLASH: CodeUnit := 92
  const CLOSE_BRACKET: CodeUnit := 93
  const OPEN_BRACE: CodeUnit := 123
  const CLOSE_BRACE: CodeUnit := 125

  /** Digits, sign, point and exponent mark. */
  predicate NumeralUnit(u: CodeUnit) {
    48 <= u <= 57 || u == 43 || u == 45 || u == 46 || u == 69 || u == 101
  }

  predicate Numeral(s: Str) {
    s != [] && forall i :: 0 <= i < |s| ==> NumeralUnit(s[i])
  }

  predicate HasKey(f: Fields, key: Str) {
    f.Field? && (f.key == key || HasKey(f.rest, key))
  }

  function Get(f: Fields, key: Str): (v: Json)
    requires HasKey(f, key)
    ensures v < f
  {
    if f.key == key then f.value else Get(f.rest, key)
  }

  function Count(f: Fields): nat {
    if f.NoField? then 0 else 1 + Count(f.rest)
  }

  /** A JSON value: number texts are numerals, and no object has a key twice. */
  predicate WellFormed(v: Json) {
    match v
    case Number(text) => Numeral(text)
    case Array(items) => WellFormedItems(items)
    case Object(fields) => WellFormedFields(fields)
    case _ => true
  }

  predicate WellFormedItems(items: Items) {
    items.Item? ==> WellFormed(items.head) && WellFormedItems(items.tail)
  }

  predicate WellFormedFields(f: Fields) {
    f.Field? ==> !HasKey(f.rest, f.key) && WellFormed(f.value) && WellFormedFields(f.rest)
  }

  // -------------------------------------------------------------------------
  // Equality up to the order of object keys
  // -------------------------------------------------------------------------

  predicate Same(v: Json, w: Json) {
    match v
    case Array(items) => w.Array? && SameItems(items, w.items)
    case Object(fields) => w.Object? && Count(fields) == Count(w.fields) && FieldsWithin(fields, w.fields)
    case _ => v == w
  }

  predicate SameItems(a: Items, b: Items) {
    if a.NoItem? then b.NoItem? else b.Item? && Same(a.head, b.head) && SameItems(a.tail, b.tail)
  }

  /** Every field of f is a field of g, with the same value. */
  predicate FieldsWithin(f: Fields, g: Fields) {
    f.Field? ==> HasKey(g, f.key) && Same(f.value, Get(g, f.key)) && FieldsWithin(f.rest, g)
  }

  // -------------------------------------------------------------------------
  // Printing
  // -------------------------------------------------------------------------

  function HexDigit(n: int): CodeUnit
    requires 0 <= n < 16
  {
    if n < 10 then 48 + n else 87 + n
  }

  function UnicodeEscape(u: CodeUnit): Str {
    [BACKSLASH, 117, HexDigit(u / 4096), HexDigit(u / 256 % 16), HexDigit(u / 16 % 16), HexDigit(u % 16)]
  }

  predicate High(u: CodeUnit) {
    0xD800 <= u < 0xDC00
  }

  predicate Low(u: CodeUnit) {
    0xDC00 <= u < 0xE000
  }

  function EscapeUnit(u: CodeUnit, lone: bool): Str {
    if u == QUOTE || u == BACKSLASH then [BACKSLASH, u]
    else if u == 8 then [BACKSLASH, 98]
    else if u == 12 then [BACKSLASH, 102]
    else if u == 10 then [BACKSLASH, 110]
    else if u == 13 then [BACKSLASH, 114]
    else if u == 9 then [BACKSLASH, 116]
    else if u < 32 || lone then UnicodeEscape(u)
    else [u]
  }

  /** The first unit is half of a surrogate pair without its other half. */
  predicate Lone(s: Str, afterHigh: bool)
    requires s != []
  {
    (High(s[0]) && !(|s| > 1 && Low(s[1]))) || (Low(s[0]) && !afterHigh)
  }

  function Escape(s: Str, afterHigh: bool): Str {
    if s == [] then [] else EscapeUnit(s[0], Lone(s, afterHigh)) + Escape(s[1..], High(s[0]))
  }

  function Quoted(s: Str): Str {
    [QUOTE] + Escape(s, false) + [QUOTE]
  }

  /** JavaScript's `<` on strings. */
  predicate Less(a: Str, b: Str) {
    b != [] && (a == [] || a[0] < b[0] || (a[0] == b[0] && Less(a[1..], b[1..])))
  }

  datatype Entry = Entry(key: Str, text: Str)

  function Insert(e: Entry, s: seq<Entry>): seq<Entry> {
    if s == [] || Less(e.key, s[0].key) then [e] + s else [s[0]] + Insert(e, s[1..])
  }

  function Sort(s: seq<Entry>): seq<Entry> {
    if s == [] then [] else Insert(s[0], Sort(s[1..]))
  }

  function Join(s: seq<Entry>): Str {
    if s == [] then []
    else Quoted(s[0].key) + [COLON] + s[0].text + if |s| == 1 then [] else [COMMA] + Join(s[1..])
  }

  function Print(v: Json): Str {
    match v
    case Null => [110, 117, 108, 108]
    case Bool(b) => if b then [116, 114, 117, 101] else [102, 97, 108, 115, 101]
    case Number(text) => text
    case Text(s) => Quoted(s)
    case Array(items) => [OPEN_BRACKET] + PrintItems(items) + [CLOSE_BRACKET]
    case Object(fields) => [OPEN_BRACE] + Join(Sort(Entries(fields))) + [CLOSE_BRACE]
  }

  function PrintItems(items: Items): Str {
    match items
    case NoItem => []
    case Item(head, tail) => Print(head) + if tail.NoItem? then [] else [COMMA] + PrintItems(tail)
  }

  /** The fields, each with its printed value, in insertion order. */
  function Entries(f: Fields): seq<Entry> {
    if f.NoField? then [] else [Entry(f.key, Print(f.value))] + Entries(f.rest)
  }

  // -------------------------------------------------------------------------
  // Sorting
  // -------------------------------------------------------------------------

  lemma {:induction false} LessTotal(a: Str, b: Str)
    ensures a != b ==> Less(a, b) || Less(b, a)
    ensures !(Less(a, b) && Less(b, a)) && !Less(a, a)
  {
    if a != [] && b != [] {
      assert a == [a[0]] + a[1..] && b == [b[0]] + b[1..];
      LessTotal(a[1..], b[1..]);
      LessTotal(a[1..], a[1..]);
    } else if a != [] {
      LessTotal(a[1..], a[1..]);
    }
  }

  lemma {:induction false} LessTransitive(a: Str, b: Str, c: Str)
    requires Less(a, b) && Less(b, c)
    ensures Less(a, c)
  {
    if a != [] && b != [] && a[0] == b[0] && b[0] == c[0] {
      LessTransitive(a[1..], b[1..], c[1..]);
    }
  }

  predicate Sorted(s: seq<Entry>) {
    forall i, j :: 0 <= i < j < |s| ==> Less(s[i].key, s[j].key)
  }

  predicate DistinctKeys(s: seq<Entry>) {
    forall i, j :: 0 <= i < j < |s| ==> s[i].key != s[j].key
  }

  lemma {:induction false} InsertSorts(e: Entry, s: seq<Entry>)
    requires Sorted(s) && forall i :: 0 <= i < |s| ==> s[i].key != e.key
    ensures Sorted(Insert(e, s)) && forall x :: x in Insert(e, s) <==> x == e || x in s
  {
    if s == [] {
    } else if Less(e.key, s[0].key) {
      forall j | 0 <= j < |s| ensures Less(e.key, s[j].key) {
        if j > 0 { LessTransitive(e.key, s[0].key, s[j].key); }
      }
    } else {
      InsertSorts(e, s[1..]);
      LessTotal(e.key, s[0].key);
      var rest := Insert(e, s[1..]);
      forall j | 0 <= j < |rest| ensures Less(s[0].key, rest[j].key) {
        assert rest[j] == e || rest[j] in s[1..];
      }
      assert s == [s[0]] + s[1..];
    }
  }

  lemma {:induction false} SortSorts(s: seq<Entry>)
    requires DistinctKeys(s)
    ensures Sorted(Sort(s)) && forall x :: x in Sort(s) <==> x in s
  {
    if s != [] {
      SortSorts(s[1..]);
      var rest := Sort(s[1..]);
      forall i | 0 <= i < |rest| ensures rest[i].key != s[0].key {
        assert rest[i] in s[1..];
      }
      InsertSorts(s[0], rest);
      assert s == [s[0]] + s[1..];
    }
  }

  /** A set of entries has one sorted listing. */
  lemma {:induction false} SortedUnique(s: seq<Entry>, t: seq<Entry>)
    requires Sorted(s) && Sorted(t) && forall x :: x in s <==> x in t
    ensures s == t
  {
    assert t != [] ==> t[0] in t;
    if s == [] {
    } else {
      assert s[0] in t;
      assert t[0] in s;
      LessTotal(s[0].key, t[0].key);
      assert s[0] == t[0];
      assert s == [s[0]] + s[1..] && t == [t[0]] + t[1..];
      LessTotal(s[0].key, s[0].key);
      forall x ensures x in s[1..] <==> x in t[1..] {
        if x in s[1..] {
          var i :| 1 <= i < |s| && s[i] == x;
          assert Less(s[0].key, x.key) && x in t;
        }
        if x in t[1..] {
          var i :| 1 <= i < |t| && t[i] == x;
          assert Less(t[0].key, x.key) && x in s;
        }
      }
      SortedUnique(s[1..], t[1..]);
    }
  }

  // -------------------------------------------------------------------------
  // Strings can be read back
  // -------------------------------------------------------------------------

  lemma HexInjective(u: CodeUnit, v: CodeUnit)
    requires UnicodeEscape(u) == UnicodeEscape(v)
    ensures u == v
  {
    HexDigitInjective(u / 4096, v / 4096, UnicodeEscape(u)[2], UnicodeEscape(v)[2]);
    HexDigitInjective(u / 256 % 16, v / 256 % 16, UnicodeEscape(u)[3], UnicodeEscape(v)[3]);
    HexDigitInjective(u / 16 % 16, v / 16 % 16, UnicodeEscape(u)[4], UnicodeEscape(v)[4]);
    HexDigitInjective(u % 16, v % 16, UnicodeEscape(u)[5], UnicodeEscape(v)[5]);
    FourNibbles(u);
    FourNibbles(v);
  }

  lemma HexDigitInjective(m: int, n: int, a: CodeUnit, b: CodeUnit)
    requires 0 <= m < 16 && 0 <= n < 16 && a == HexDigit(m) && b == HexDigit(n) && a == b
    ensures m == n
  {
  }

  lemma FourNibbles(u: CodeUnit)
    ensures u == u / 4096 * 4096 + u / 256 % 16 * 256 + u / 16 % 16 * 16 + u % 16
  {
    var a := u / 16;
    var b := a / 16;
    assert u / 256 == b && u / 4096 == b / 16;
  }

  /** The first two units of an escaped unit tell which kind it is. */
  lemma EscapeUnitPrefix(u: CodeUnit, lone: bool, x: Str, v: CodeUnit, lone': bool, y: Str)
    requires EscapeUnit(u, lone) + x == EscapeUnit(v, lone') + y
    ensures u == v && x == y
  {
    var a, b := EscapeUnit(u, lone), EscapeUnit(v, lone');
    assert (a + x)[0] == a[0] && (b + y)[0] == b[0];
    assert |a| > 1 ==> (a + x)[1] == a[1];
    assert |b| > 1 ==> (b + y)[1] == b[1];
    if |a| == 6 && |b| == 6 {
      assert (a + x)[..6] == a && (b + y)[..6] == b;
      HexInjective(u, v);
    }
    assert |a| == |b|;
    assert x == (a + x)[|a|..] && y == (b + y)[|b|..];
  }

  lemma EscapeNeverQuotes(u: CodeUnit, lone: bool)
    ensures EscapeUnit(u, lone) != [] && EscapeUnit(u, lone)[0] != QUOTE
  {
  }

  lemma EscapeHead(s: Str, p: bool, x: Str)
    requires s != []
    ensures Escape(s, p) + [QUOTE] + x == EscapeUnit(s[0], Lone(s, p)) + (Escape(s[1..], High(s[0])) + [QUOTE] + x)
    ensures (Escape(s, p) + [QUOTE] + x)[0] != QUOTE
  {
    EscapeNeverQuotes(s[0], Lone(s, p));
    hide EscapeUnit, Lone, High;
  }

  lemma {:induction false} EscapePrefix(s: Str, p: bool, x: Str, t: Str, q: bool, y: Str)
    requires Escape(s, p) + [QUOTE] + x == Escape(t, q) + [QUOTE] + y
    ensures s == t && x == y
    decreases |s| + |t|
  {
    hide EscapeUnit, Lone, High;
    var l, r := Escape(s, p) + [QUOTE] + x, Escape(t, q) + [QUOTE] + y;
    if s != [] { EscapeHead(s, p, x); }
    if t != [] { EscapeHead(t, q, y); }
    if s == [] || t == [] {
      assert s == [] && t == [];
      assert x == l[1..] && y == r[1..];
    } else {
      hide Escape;
      EscapeUnitPrefix(s[0], Lone(s, p), Escape(s[1..], High(s[0])) + [QUOTE] + x,
                       t[0], Lone(t, q), Escape(t[1..], High(t[0])) + [QUOTE] + y);
      EscapePrefix(s[1..], High(s[0]), x, t[1..], High(t[0]), y);
      assert s == [s[0]] + s[1..] && t == [t[0]] + t[1..];
    }
  }

  lemma QuotedPrefix(s: Str, x: Str, t: Str, y: Str)
    requires Quoted(s) + x == Quoted(t) + y
    ensures s == t && x == y
  {
    hide Escape;
    assert (Quoted(s) + x)[1..] == Escape(s, false) + [QUOTE] + x;
    assert (Quoted(t) + y)[1..] == Escape(t, false) + [QUOTE] + y;
    EscapePrefix(s, false, x, t, false, y);
  }

  // -------------------------------------------------------------------------
  // Entries and fields
  // -------------------------------------------------------------------------

  lemma {:induction false} EntriesAreFields(f: Fields, e: Entry)
    requires WellFormedFields(f)
    ensures e in Entries(f) <==> HasKey(f, e.key) && e.text == Print(Get(f, e.key))
  {
    hide Print;
    if f.Field? {
      EntriesAreFields(f.rest, e);
    }
  }

  lemma {:induction false} EntriesDistinct(f: Fields)
    requires WellFormedFields(f)
    ensures DistinctKeys(Entries(f)) && |Entries(f)| == Count(f)
  {
    hide Print;
    if f.Field? {
      EntriesDistinct(f.rest);
      forall i | 0 <= i < |Entries(f.rest)| ensures Entries(f.rest)[i].key != f.key {
        EntriesAreFields(f.rest, Entries(f.rest)[i]);
      }
    }
  }

  lemma {:induction false} InsertLength(e: Entry, s: seq<Entry>)
    ensures |Insert(e, s)| == |s| + 1
  {
    if s != [] { InsertLength(e, s[1..]); }
  }

  lemma {:induction false} SortLength(s: seq<Entry>)
    ensures |Sort(s)| == |s|
  {
    if s != [] {
      SortLength(s[1..]);
      InsertLength(s[0], Sort(s[1..]));
    }
  }

  // -------------------------------------------------------------------------
  // Equal text means equal values
  // -------------------------------------------------------------------------

  /** What can follow a printed value. */
  predicate Ends(x: Str) {
    x == [] || x[0] == COMMA || x[0] == CLOSE_BRACKET || x[0] == CLOSE_BRACE
  }

  /** The first unit of a printed value tells what it is. */
  predicate Begins(v: Json, u: CodeUnit) {
    match v
    case Null => u == 110
    case Bool(b) => u == if b then 116 else 102
    case Number(_) => NumeralUnit(u)
    case Text(_) => u == QUOTE
    case Array(_) => u == OPEN_BRACKET
    case Object(_) => u == OPEN_BRACE
  }

  lemma PrintBegins(v: Json)
    requires WellFormed(v)
    ensures Print(v) != [] && Begins(v, Print(v)[0])
  {
    hide Escape, Join, Sort, Entries, PrintItems;
  }

  /** How many numeral units the text starts with. */
  function Span(s: Str): nat {
    if s == [] || !NumeralUnit(s[0]) then 0 else 1 + Span(s[1..])
  }

  lemma {:induction false} SpanOfNumeral(a: Str, x: Str)
    requires Ends(x) && forall i :: 0 <= i < |a| ==> NumeralUnit(a[i])
    ensures Span(a + x) == |a|
  {
    if a == [] {
      assert a + x == x;
    } else {
      assert (a + x)[0] == a[0] && (a + x)[1..] == a[1..] + x;
      SpanOfNumeral(a[1..], x);
    }
  }

  lemma NumeralPrefix(a: Str, x: Str, b: Str, y: Str)
    requires Numeral(a) && Numeral(b) && Ends(x) && Ends(y) && a + x == b + y
    ensures a == b && x == y
  {
    SpanOfNumeral(a, x);
    SpanOfNumeral(b, y);
    assert a == (a + x)[..|a|] && b == (b + y)[..|b|];
    assert x == (a + x)[|a|..] && y == (b + y)[|b|..];
  }

  lemma Unwrap(u: CodeUnit, a: Str, x: Str, b: Str, y: Str)
    requires [u] + a + x == [u] + b + y
    ensures a + x == b + y
  {
    assert ([u] + a + x)[1..] == a + x && ([u] + b + y)[1..] == b + y;
  }

  lemma EqualLengths(a: Str, x: Str, b: Str, y: Str)
    requires a + x == b + y && |a| == |b|
    ensures a == b && x == y
  {
    assert a == (a + x)[..|a|] && b == (b + y)[..|b|];
    assert x == (a + x)[|a|..] && y == (b + y)[|b|..];
  }

  /** Values whose printed forms start alike are of one kind. */
  lemma SameKind(v: Json, x: Str, w: Json, y: Str)
    requires WellFormed(v) && WellFormed(w) && Print(v) + x == Print(w) + y
    ensures v.Null? == w.Null? && v.Bool? == w.Bool? && v.Number? == w.Number? && v.Text? == w.Text?
    ensures v.Array? == w.Array? && (v.Bool? ==> v.b == w.b)
  {
    PrintBegins(v);
    PrintBegins(w);
    hide Print, WellFormed;
    assert (Print(v) + x)[0] == Print(v)[0] && (Print(w) + y)[0] == Print(w)[0];
  }

  /** Printed values form a prefix code up to key order. */
  lemma {:induction false} PrintPrefix(v: Json, x: Str, w: Json, y: Str)
    requires WellFormed(v) && WellFormed(w) && Ends(x) && Ends(y) && Print(v) + x == Print(w) + y
    ensures Same(v, w) && Print(v) == Print(w) && x == y
    decreases v
  {
    hide PrintItems, Join, Sort, Entries, Quoted, Ends;
    SameKind(v, x, w, y);
    match v
    case Null => EqualLengths(Print(v), x, Print(w), y);
    case Bool(b) => EqualLengths(Print(v), x, Print(w), y);
    case Number(text) => NumeralPrefix(text, x, w.text, y);
    case Text(s) => QuotedPrefix(s, x, w.s, y);
    case Array(items) =>
      assert Print(v) + x == [OPEN_BRACKET] + PrintItems(items) + ([CLOSE_BRACKET] + x);
      assert Print(w) + y == [OPEN_BRACKET] + PrintItems(w.items) + ([CLOSE_BRACKET] + y);
      Unwrap(OPEN_BRACKET, PrintItems(items), [CLOSE_BRACKET] + x, PrintItems(w.items), [CLOSE_BRACKET] + y);
      ItemsPrefix(items, x, w.items, y);
    case Object(fields) => ObjectPrefix(fields, x, w.fields, y);
  }

  /** What follows the first item of a printed array. */
  function AfterHead(a: Items, x: Str): (s: Str)
    requires a.Item?
    ensures s != [] && Ends(s) && (s[0] == COMMA <==> a.tail.Item?)
  {
    (if a.tail.NoItem? then [] else [COMMA] + PrintItems(a.tail)) + ([CLOSE_BRACKET] + x)
  }

  lemma ItemsHead(a: Items, x: Str)
    requires a.Item? && WellFormedItems(a)
    ensures PrintItems(a) + ([CLOSE_BRACKET] + x) == Print(a.head) + AfterHead(a, x)
    ensures (PrintItems(a) + ([CLOSE_BRACKET] + x))[0] != CLOSE_BRACKET
  {
    hide Print, Ends;
    PrintBegins(a.head);
    assert Print(a.head)[0] != CLOSE_BRACKET;
  }

  lemma {:induction false} ItemsPrefix(a: Items, x: Str, b: Items, y: Str)
    requires WellFormedItems(a) && WellFormedItems(b)
    requires PrintItems(a) + ([CLOSE_BRACKET] + x) == PrintItems(b) + ([CLOSE_BRACKET] + y)
    ensures SameItems(a, b) && PrintItems(a) == PrintItems(b) && x == y
    decreases a
  {
    hide Print, Ends;
    var l, r := PrintItems(a) + ([CLOSE_BRACKET] + x), PrintItems(b) + ([CLOSE_BRACKET] + y);
    if a.Item? { ItemsHead(a, x); }
    if b.Item? { ItemsHead(b, y); }
    if a.NoItem? || b.NoItem? {
      assert a.NoItem? && b.NoItem?;
      assert x == l[1..] && y == r[1..];
    } else {
      var s, t := AfterHead(a, x), AfterHead(b, y);
      PrintPrefix(a.head, s, b.head, t);
      if a.tail.NoItem? {
        assert x == s[1..] && y == t[1..];
      } else {
        assert s[1..] == PrintItems(a.tail) + ([CLOSE_BRACKET] + x);
        assert t[1..] == PrintItems(b.tail) + ([CLOSE_BRACKET] + y);
        ItemsPrefix(a.tail, x, b.tail, y);
      }
    }
  }

  ghost predicate Describes(s: seq<Entry>, f: Fields) {
    forall e :: e in s ==> HasKey(f, e.key) && e.text == Print(Get(f, e.key))
  }

  lemma {:induction false} GetWellFormed(f: Fields, key: Str)
    requires WellFormedFields(f) && HasKey(f, key)
    ensures WellFormed(Get(f, key))
  {
    if f.key != key { GetWellFormed(f.rest, key); }
  }

  /** Text after the colon of the first entry. */
  function AfterKey(s: seq<Entry>, x: Str): Str
    requires s != []
  {
    s[0].text + ((if |s| == 1 then [] else [COMMA] + Join(s[1..])) + ([CLOSE_BRACE] + x))
  }

  lemma Regroup(a: Str, b: Str, c: Str, d: Str, e: Str)
    ensures a + b + c + d + e == a + (b + (c + (d + e)))
  {
    assert a + b + c + d + e == a + b + c + (d + e);
    assert a + b + c + (d + e) == a + b + (c + (d + e));
  }

  lemma QuotedBegins(key: Str)
    ensures Quoted(key) != [] && Quoted(key)[0] == QUOTE
  {
    hide Escape;
  }

  lemma JoinHead(s: seq<Entry>, x: Str)
    requires s != []
    ensures Join(s) + ([CLOSE_BRACE] + x) == Quoted(s[0].key) + ([COLON] + AfterKey(s, x))
    ensures (Join(s) + ([CLOSE_BRACE] + x))[0] == QUOTE
  {
    hide Quoted;
    var more := if |s| == 1 then [] else [COMMA] + Join(s[1..]);
    assert Join(s) == Quoted(s[0].key) + [COLON] + s[0].text + more;
    hide Join;
    Regroup(Quoted(s[0].key), [COLON], s[0].text, more, [CLOSE_BRACE] + x);
    QuotedBegins(s[0].key);
  }

  /** Equal texts start with the same key, and go on alike. */
  lemma FirstKeysAgree(s: seq<Entry>, x: Str, t: seq<Entry>, y: Str)
    requires Join(s) + ([CLOSE_BRACE] + x) == Join(t) + ([CLOSE_BRACE] + y)
    ensures s == [] <==> t == []
    ensures s == [] ==> x == y
    ensures s != [] ==> s[0].key == t[0].key && AfterKey(s, x) == AfterKey(t, y)
  {
    hide Quoted, AfterKey;
    var l, r := Join(s) + ([CLOSE_BRACE] + x), Join(t) + ([CLOSE_BRACE] + y);
    if s != [] { JoinHead(s, x); }
    if t != [] { JoinHead(t, y); }
    assert s == [] ==> l[0] == CLOSE_BRACE;
    assert t == [] ==> r[0] == CLOSE_BRACE;
    assert s == [] && t == [] ==> l[1..] == x && r[1..] == y;
    if s != [] {
      QuotedPrefix(s[0].key, [COLON] + AfterKey(s, x), t[0].key, [COLON] + AfterKey(t, y));
      assert ([COLON] + AfterKey(s, x))[1..] == AfterKey(s, x) && ([COLON] + AfterKey(t, y))[1..] == AfterKey(t, y);
    }
  }

  /** What follows the first value. */
  function AfterValue(s: seq<Entry>, x: Str): Str
    requires s != []
  {
    (if |s| == 1 then [] else [COMMA] + Join(s[1..])) + ([CLOSE_BRACE] + x)
  }

  lemma AfterValuesAgree(s: seq<Entry>, x: Str, t: seq<Entry>, y: Str)
    requires s != [] && t != [] && AfterValue(s, x) == AfterValue(t, y)
    ensures |s| == 1 <==> |t| == 1
    ensures |s| == 1 ==> x == y
    ensures |s| > 1 ==> Join(s[1..]) + ([CLOSE_BRACE] + x) == Join(t[1..]) + ([CLOSE_BRACE] + y)
  {
    hide Join;
    var p, q := AfterValue(s, x), AfterValue(t, y);
    assert p[0] == q[0];
    assert p[1..] == q[1..];
    assert |s| == 1 ==> p[1..] == x;
    assert |t| == 1 ==> q[1..] == y;
    assert |s| > 1 ==> p[1..] == Join(s[1..]) + ([CLOSE_BRACE] + x);
    assert |t| > 1 ==> q[1..] == Join(t[1..]) + ([CLOSE_BRACE] + y);
  }

  lemma {:induction false} JoinPrefix(f: Fields, s: seq<Entry>, x: Str, g: Fields, t: seq<Entry>, y: Str)
    requires WellFormedFields(f) && WellFormedFields(g) && Describes(s, f) && Describes(t, g)
    requires Join(s) + ([CLOSE_BRACE] + x) == Join(t) + ([CLOSE_BRACE] + y)
    ensures s == t && x == y
    decreases f, |s|
  {
    hide Print, Quoted, WellFormedFields, Join;
    FirstKeysAgree(s, x, t, y);
    if s != [] {
      assert s[0] in s && t[0] in t;
      GetWellFormed(f, s[0].key);
      GetWellFormed(g, t[0].key);
      PrintPrefix(Get(f, s[0].key), AfterValue(s, x), Get(g, t[0].key), AfterValue(t, y));
      AfterValuesAgree(s, x, t, y);
      if |s| > 1 {
        JoinPrefix(f, s[1..], x, g, t[1..], y);
      }
      assert s == [s[0]] + s[1..] && t == [t[0]] + t[1..];
    }
  }

  lemma SortedDescribes(f: Fields)
    requires WellFormedFields(f)
    ensures Describes(Sort(Entries(f)), f) && |Sort(Entries(f))| == Count(f)
    ensures forall e :: e in Sort(Entries(f)) <==> e in Entries(f)
    ensures Sorted(Sort(Entries(f)))
  {
    hide Print;
    EntriesDistinct(f);
    SortSorts(Entries(f));
    SortLength(Entries(f));
    forall e | e in Sort(Entries(f)) ensures HasKey(f, e.key) && e.text == Print(Get(f, e.key)) {
      EntriesAreFields(f, e);
    }
  }

  lemma ObjectText(f: Fields, x: Str)
    ensures Print(Object(f)) + x == [OPEN_BRACE] + Join(Sort(Entries(f))) + ([CLOSE_BRACE] + x)
  {
    hide Join, Sort, Entries;
  }

  lemma {:induction false} ObjectPrefix(f: Fields, x: Str, g: Fields, y: Str)
    requires WellFormedFields(f) && WellFormedFields(g) && Print(Object(f)) + x == Print(Object(g)) + y
    ensures Same(Object(f), Object(g)) && Print(Object(f)) == Print(Object(g)) && x == y
    decreases f, Count(f) + 1
  {
    var s, t := Sort(Entries(f)), Sort(Entries(g));
    ObjectText(f, x);
    ObjectText(g, y);
    SortedDescribes(f);
    SortedDescribes(g);
    hide Print, Join, Sort, Entries, WellFormedFields, HasKey, FieldsWithin;
    Unwrap(OPEN_BRACE, Join(s), [CLOSE_BRACE] + x, Join(t), [CLOSE_BRACE] + y);
    JoinPrefix(f, s, x, g, t, y);
    assert forall e :: e in Entries(f) ==> e in t;
    ObjectText(f, []);
    ObjectText(g, []);
    assert Print(Object(f)) + [] == Print(Object(f)) && Print(Object(g)) + [] == Print(Object(g));
    WithinFromEntries(f, g);
  }

  lemma {:induction false} WithinFromEntries(part: Fields, g: Fields)
    requires WellFormedFields(part) && WellFormedFields(g)
    requires forall e :: e in Entries(part) ==> HasKey(g, e.key) && e.text == Print(Get(g, e.key))
    ensures FieldsWithin(part, g)
    decreases part, 0
  {
    hide Print;
    if part.Field? {
      var e := Entry(part.key, Print(part.value));
      assert e in Entries(part);
      GetWellFormed(g, part.key);
      assert Print(part.value) + [] == Print(Get(g, part.key)) + [];
      PrintPrefix(part.value, [], Get(g, part.key), []);
      WithinFromEntries(part.rest, g);
    }
  }

  // -------------------------------------------------------------------------
  // Equal values mean equal text
  // -------------------------------------------------------------------------

  function EntrySet(s: seq<Entry>): set<Entry> {
    set e | e in s
  }

  lemma {:induction false} EntrySetSize(s: seq<Entry>)
    requires DistinctKeys(s)
    ensures |EntrySet(s)| == |s|
  {
    if s != [] {
      EntrySetSize(s[1..]);
      assert s[0] !in s[1..];
      assert EntrySet(s) == {s[0]} + EntrySet(s[1..]);
    } else {
      assert EntrySet(s) == {};
    }
  }

  lemma SubsetOfSameSize<T>(a: set<T>, b: set<T>)
    requires a <= b && |a| == |b|
    ensures a == b
  {
    assert b == a + (b - a);
  }

  lemma {:induction false} SamePrints(v: Json, w: Json)
    requires WellFormed(v) && WellFormed(w) && Same(v, w)
    ensures Print(v) == Print(w)
    decreases v
  {
    match v
    case Array(items) => SameItemsPrint(items, w.items);
    case Object(f) =>
      var g := w.fields;
      forall e | e in Entries(f) ensures e in Entries(g) {
        FieldEntryShared(f, g, e);
      }
      SameSortedText(f, g);
    case _ =>
  }

  lemma {:induction false} SameItemsPrint(a: Items, b: Items)
    requires WellFormedItems(a) && WellFormedItems(b) && SameItems(a, b)
    ensures PrintItems(a) == PrintItems(b)
    decreases a
  {
    if a.Item? {
      SamePrints(a.head, b.head);
      SameItemsPrint(a.tail, b.tail);
    }
  }

  lemma {:induction false} FieldEntryShared(part: Fields, g: Fields, e: Entry)
    requires WellFormedFields(part) && WellFormedFields(g) && FieldsWithin(part, g) && e in Entries(part)
    ensures e in Entries(g)
    decreases part
  {
    hide Print;
    if e == Entry(part.key, Print(part.value)) {
      GetWellFormed(g, part.key);
      SamePrints(part.value, Get(g, part.key));
      EntriesAreFields(g, e);
    } else {
      FieldEntryShared(part.rest, g, e);
    }
  }

  lemma SameSortedText(f: Fields, g: Fields)
    requires WellFormedFields(f) && WellFormedFields(g) && Count(f) == Count(g)
    requires forall e :: e in Entries(f) ==> e in Entries(g)
    ensures Print(Object(f)) == Print(Object(g))
  {
    SortedDescribes(f);
    SortedDescribes(g);
    EntriesDistinct(f);
    EntriesDistinct(g);
    hide Entries, Join, Sort;
    EntrySetSize(Entries(f));
    EntrySetSize(Entries(g));
    SubsetOfSameSize(EntrySet(Entries(f)), EntrySet(Entries(g)));
    forall e ensures e in Entries(f) <==> e in Entries(g) {
      assert e in EntrySet(Entries(f)) <==> e in EntrySet(Entries(g));
    }
    SortedUnique(Sort(Entries(f)), Sort(Entries(g)));
  }

  /** Two JSON values have the same canonical text exactly when they are equal up to the order of object keys. */
  lemma CanonicalText(v: Json, w: Json)
    requires WellFormed(v) && WellFormed(w)
    ensures Print(v) == Print(w) <==> Same(v, w)
  {
    hide Print, Same, WellFormed;
    if Print(v) == Print(w) {
      assert Print(v) + [] == Print(w) + [];
      PrintPrefix(v, [], w, []);
    }
    if Same(v, w) {
      SamePrints(v, w);
    }
  }

  // -------------------------------------------------------------------------
  // The text that is hashed
  // -------------------------------------------------------------------------

  function RequestText(route: Str, path: Str, body: Json): Str {
    route + [NEWLINE] + path + [NEWLINE] + Print(body)
  }

  lemma {:induction false} LinePrefix(a: Str, x: Str, b: Str, y: Str)
    requires NEWLINE !in a && NEWLINE !in b && a + [NEWLINE] + x == b + [NEWLINE] + y
    ensures a == b && x == y
  {
    var l, r := a + [NEWLINE] + x, b + [NEWLINE] + y;
    assert l[0] == if a == [] then NEWLINE else a[0];
    assert r[0] == if b == [] then NEWLINE else b[0];
    assert (a != [] ==> a[0] in a) && (b != [] ==> b[0] in b);
    if a == [] || b == [] {
      assert a == [] && b == [];
      assert x == l[1..] && y == r[1..];
    } else {
      assert l[1..] == a[1..] + [NEWLINE] + x && r[1..] == b[1..] + [NEWLINE] + y;
      LinePrefix(a[1..], x, b[1..], y);
      assert a == [a[0]] + a[1..] && b == [b[0]] + b[1..];
    }
  }

  /** Equal hashed texts come from the same route and path and from bodies equal up to key order. */
  lemma RequestTextInjective(route: Str, path: Str, body: Json, route': Str, path': Str, body': Json)
    requires WellFormed(body) && WellFormed(body')
    requires NEWLINE !in route && NEWLINE !in path && NEWLINE !in route' && NEWLINE !in path'
    ensures RequestText(route, path, body) == RequestText(route', path', body') <==>
            route == route' && path == path' && Same(body, body')
  {
    hide Print, Same, WellFormed;
    CanonicalText(body, body');
    if RequestText(route, path, body) == RequestText(route', path', body') {
      var x, y := path + [NEWLINE] + Print(body), path' + [NEWLINE] + Print(body');
      assert RequestText(route, path, body) == route + [NEWLINE] + x;
      assert RequestText(route', path', body') == route' + [NEWLINE] + y;
      LinePrefix(route, x, route', y);
      LinePrefix(path, Print(body), path', Print(body'));
    }
  }
}
