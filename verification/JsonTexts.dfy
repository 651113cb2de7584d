/** The canonical text character by character, as JSON.stringify writes strings and words (ECMA-262, section 25.5.2). */
module JsonTexts {
  import opened CanonicalJson

  /** The code units of a text in ASCII. */
  function Ascii(s: string): Str
    requires forall i :: 0 <= i < |s| ==> s[i] < 128 as char
  {
    seq(|s|, i requires 0 <= i < |s| => s[i] as int)
  }

  /** The three words, and the empty array and object. */
  lemma Words()
    ensures Print(Null) == Ascii("null") && Print(Bool(true)) == Ascii("true") && Print(Bool(false)) == Ascii("false")
    ensures Print(Array(NoItem)) == Ascii("[]") && Print(Object(NoField)) == Ascii("{}")
  {
  }

  // -------------------------------------------------------------------------
  // Single units
  // -------------------------------------------------------------------------

  /** A digit of a \u escape: 0 to 9, then a to f in lower case. */
  predicate HexOf(digit: CodeUnit, value: int) {
    (0 <= value < 10 && digit == '0' as int + value) || (10 <= value < 16 && digit == 'a' as int + value - 10)
  }

  /** Quotes and backslashes are escaped by a backslash, five control characters by a letter of their own, the other
      control characters and lone surrogates by four hexadecimal digits; every other unit stands for itself. */
  lemma UnitWritten(u: CodeUnit, lone: bool)
    requires 0 <= u < 0x1_0000
    ensures var t := EscapeUnit(u, lone);
            if u == 34 then t == Ascii("\\\"") else if u == 92 then t == Ascii("\\\\")
            else if u == 8 then t == Ascii("\\b") else if u == 9 then t == Ascii("\\t")
            else if u == 10 then t == Ascii("\\n") else if u == 12 then t == Ascii("\\f")
            else if u == 13 then t == Ascii("\\r")
            else if u < 32 || lone then
              && |t| == 6 && t[..2] == Ascii("\\u")
              && exists a, b, c, d :: HexOf(t[2], a) && HexOf(t[3], b) && HexOf(t[4], c) && HexOf(t[5], d) &&
                                      u == 4096 * a + 256 * b + 16 * c + d
            else t == [u]
  {
    if u < 32 || lone { FourDigits(u); }
  }

  lemma FourDigits(u: CodeUnit)
    requires 0 <= u < 0x1_0000
    ensures var t := UnicodeEscape(u);
            && |t| == 6 && t[..2] == Ascii("\\u")
            && exists a, b, c, d :: HexOf(t[2], a) && HexOf(t[3], b) && HexOf(t[4], c) && HexOf(t[5], d) &&
                                    u == 4096 * a + 256 * b + 16 * c + d
  {
    var t := UnicodeEscape(u);
    var a, b, c, d := u / 4096, u / 256 % 16, u / 16 % 16, u % 16;
    DigitsOf(u);
    assert t[..2] == Ascii("\\u");
    assert t[2] == HexDigit(a) && t[3] == HexDigit(b) && t[4] == HexDigit(c) && t[5] == HexDigit(d);
    hide UnicodeEscape, Ascii;
    HexDigitOf(a);
    HexDigitOf(b);
    HexDigitOf(c);
    HexDigitOf(d);
  }

  lemma HexDigitOf(n: int)
    requires 0 <= n < 16
    ensures HexOf(HexDigit(n), n)
  {
  }

  lemma DigitsOf(u: int)
    requires 0 <= u < 0x1_0000
    ensures 0 <= u / 4096 < 16 && 0 <= u / 256 % 16 < 16 && 0 <= u / 16 % 16 < 16 && 0 <= u % 16 < 16
    ensures u == 4096 * (u / 4096) + 256 * (u / 256 % 16) + 16 * (u / 16 % 16) + u % 16
  {
    assert u / 16 / 16 == u / 256 && u / 256 / 16 == u / 4096;
  }

  // -------------------------------------------------------------------------
  // Whole strings
  // -------------------------------------------------------------------------

  predicate HighSurrogate(u: CodeUnit) {
    0xD800 <= u <= 0xDBFF
  }

  predicate LowSurrogate(u: CodeUnit) {
    0xDC00 <= u <= 0xDFFF
  }

  /** Half of a surrogate pair whose other half is not next to it. */
  predicate LoneAt(s: Str, i: nat)
    requires i < |s|
  {
    || (HighSurrogate(s[i]) && !(i + 1 < |s| && LowSurrogate(s[i + 1])))
    || (LowSurrogate(s[i]) && !(i > 0 && HighSurrogate(s[i - 1])))
  }

  function WrittenFrom(s: Str, i: nat): Str
    requires i <= |s|
    decreases |s| - i
  {
    if i == |s| then [] else EscapeUnit(s[i], LoneAt(s, i)) + WrittenFrom(s, i + 1)
  }

  lemma {:induction false} EscapeIsWritten(s: Str, i: nat)
    requires i <= |s|
    ensures Escape(s[i..], i > 0 && HighSurrogate(s[i - 1])) == WrittenFrom(s, i)
    decreases |s| - i
  {
    if i < |s| {
      EscapeIsWritten(s, i + 1);
      var t := s[i..];
      assert t[1..] == s[i + 1..] && t[0] == s[i] && (|t| > 1 ==> t[1] == s[i + 1]);
      hide EscapeUnit;
    }
  }

  /** A string is written unit by unit between quotes; surrogates are escaped exactly where they stand alone. */
  lemma StringWritten(s: Str)
    ensures Print(Text(s)) == Ascii("\"") + WrittenFrom(s, 0) + Ascii("\"")
  {
    EscapeIsWritten(s, 0);
    assert s[0..] == s;
    assert Ascii("\"") == [QUOTE];
    hide Escape, WrittenFrom;
  }

  // -------------------------------------------------------------------------
  // A whole text
  // -------------------------------------------------------------------------

  /** Two fields are written in the order of their keys, whatever order they were given in. */
  lemma FieldsWritten(k: Str, v: Json, l: Str, w: Json)
    requires Less(k, l)
    ensures var text := [OPEN_BRACE] + (Quoted(k) + [COLON] + Print(v) + [COMMA] + Quoted(l) + [COLON] + Print(w)) +
                        [CLOSE_BRACE];
            && Print(Object(Field(k, v, Field(l, w, NoField)))) == text
            && Print(Object(Field(l, w, Field(k, v, NoField)))) == text
  {
    LessTotal(k, l);
    var a, b := Entry(k, Print(v)), Entry(l, Print(w));
    hide Print, Quoted, Less, Sort, Join;
    TwoFieldsPrinted(k, v, l, w);
    TwoFieldsPrinted(l, w, k, v);
    TwoSorted(b, a);
    TwoInOrder(a, b);
    TwoJoined(a, b);
  }

  /** Items are written in their own order. */
  lemma ItemsWritten(v: Json, w: Json)
    ensures Print(Array(Item(v, Item(w, NoItem)))) ==
            [OPEN_BRACKET] + (Print(v) + ([COMMA] + Print(w))) + [CLOSE_BRACKET]
  {
    var one := Item(w, NoItem);
    assert PrintItems(one) == Print(w) + [];
    assert PrintItems(Item(v, one)) == Print(v) + ([COMMA] + PrintItems(one));
  }

  lemma NumberPrints(text: Str)
    ensures Print(Number(text)) == text
  {
  }

  lemma TwoInOrder(a: Entry, b: Entry)
    requires Less(a.key, b.key)
    ensures Sort([a, b]) == [a, b]
  {
    assert [a, b][1..] == [b] && [b][1..] == [];
    assert Sort([b]) == [b];
  }

  lemma TwoSorted(a: Entry, b: Entry)
    requires Less(b.key, a.key) && !Less(a.key, b.key)
    ensures Sort([a, b]) == [b, a]
  {
    assert [a, b][1..] == [b] && [b][1..] == [];
    assert Sort([b]) == [b];
    assert Insert(a, [b]) == [b] + Insert(a, [b][1..]);
  }

  lemma TwoJoined(a: Entry, b: Entry)
    ensures Join([a, b]) ==
            Quoted(a.key) + [COLON] + a.text + [COMMA] + Quoted(b.key) + [COLON] + b.text
  {
    hide Quoted;
    assert [a, b][1..] == [b];
    assert Join([b]) == Quoted(b.key) + [COLON] + b.text;
  }

  lemma TwoFieldsPrinted(k: Str, v: Json, l: Str, w: Json)
    ensures Print(Object(Field(k, v, Field(l, w, NoField)))) ==
            [OPEN_BRACE] + Join(Sort([Entry(k, Print(v)), Entry(l, Print(w))])) + [CLOSE_BRACE]
  {
    hide Join, Sort;
    var f := Field(k, v, Field(l, w, NoField));
    assert Entries(Field(l, w, NoField)) == [Entry(l, Print(w))];
    assert Entries(f) == [Entry(k, Print(v)), Entry(l, Print(w))];
  }
}
