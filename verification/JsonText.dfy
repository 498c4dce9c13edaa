/** Strings as JavaScript holds them, sequences of 16-bit code units, and the string form of
    `JSON.stringify` (section 3.2.2.2 of RFC 8785). */
module JsonText {
  import opened Wrappers

  type Unit = u: int | 0 <= u < 0x1_0000
  type Text = seq<Unit>

  const QUOTE: Unit := 34
  const BACKSLASH: Unit := 92
  const COMMA: Unit := 44
  const COLON: Unit := 58

  predicate IsHigh(u: Unit) { 0xD800 <= u < 0xDC00 }
  predicate IsLow(u: Unit) { 0xDC00 <= u < 0xE000 }

  function HexDigit(n: int): Unit
    requires 0 <= n < 16
  {
    if n < 10 then 48 + n else 87 + n
  }

  function UnicodeEscape(u: Unit): Text {
    [BACKSLASH, 117, HexDigit(u / 4096), HexDigit(u / 256 % 16), HexDigit(u / 16 % 16), HexDigit(u % 16)]
  }

  /** The letter of a two-character escape. */
  function ShortEscape(u: Unit): Option<Unit> {
    if u == 8 then Some(98)
    else if u == 9 then Some(116)
    else if u == 10 then Some(110)
    else if u == 12 then Some(102)
    else if u == 13 then Some(114)
    else if u == QUOTE || u == BACKSLASH then Some(u)
    else None
  }

  function EscapeUnit(u: Unit): Text {
    if ShortEscape(u).Some? then [BACKSLASH, ShortEscape(u).value]
    else if u < 32 || IsHigh(u) || IsLow(u) then UnicodeEscape(u)
    else [u]
  }

  /** A surrogate pair is kept; a lone surrogate is escaped. */
  function QuoteUnits(s: Text): Text {
    if s == [] then []
    else if 1 < |s| && IsHigh(s[0]) && IsLow(s[1]) then s[..2] + QuoteUnits(s[2..])
    else EscapeUnit(s[0]) + QuoteUnits(s[1..])
  }

  function Quote(s: Text): Text {
    [QUOTE] + QuoteUnits(s) + [QUOTE]
  }

  // ---------- Reading a string back ----------

  // The reader is written with the code units of sections 2 and 7 of RFC 8259 themselves and shares
  // nothing with the writer.

  function HexValue(u: Unit): Option<int> {
    if 48 <= u < 58 then Some(u - 48)
    else if 97 <= u < 103 then Some(u - 87)
    else None
  }

  function ReadHex(t: Text): Option<Unit>
    requires |t| == 4
  {
    var (a, b, c, d) := (HexValue(t[0]), HexValue(t[1]), HexValue(t[2]), HexValue(t[3]));
    if a.Some? && b.Some? && c.Some? && d.Some? then Some(a.value * 4096 + b.value * 256 + c.value * 16 + d.value)
    else None
  }

  /** The meanings of the letters b, t, n, f and r, the quote and the backslash after a backslash. */
  function ReadShort(u: Unit): Option<Unit> {
    if u == 98 then Some(8)
    else if u == 116 then Some(9)
    else if u == 110 then Some(10)
    else if u == 102 then Some(12)
    else if u == 114 then Some(13)
    else if u == 34 then Some(34)
    else if u == 92 then Some(92)
    else None
  }

  /** One possibly escaped unit and what follows it. */
  function ReadUnit(t: Text): (r: Option<(Unit, Text)>)
    ensures r.Some? ==> |r.value.1| < |t|
  {
    if t == [] || t[0] < 32 || t[0] == 34 then None
    else if t[0] != 92 then Some((t[0], t[1..]))
    else if |t| < 2 then None
    else if t[1] == 117 then
      if |t| < 6 || ReadHex(t[2..6]).None? then None else Some((ReadHex(t[2..6]).value, t[6..]))
    else if ReadShort(t[1]).None? then None
    else Some((ReadShort(t[1]).value, t[2..]))
  }

  /** The string up to its closing quote and what follows the quote. */
  function ReadUnits(t: Text): (r: Option<(Text, Text)>)
    ensures r.Some? ==> |r.value.1| < |t|
    decreases |t|
  {
    if t == [] then None
    else if t[0] == 34 then Some(([], t[1..]))
    else
      var u := ReadUnit(t);
      if u.None? then None
      else
        var more := ReadUnits(u.value.1);
        if more.None? then None else Some(([u.value.0] + more.value.0, more.value.1))
  }

  lemma HexRoundTrip(n: int)
    requires 0 <= n < 16
    ensures HexValue(HexDigit(n)) == Some(n)
  {}

  lemma ReadFourDigits(a: int, b: int, c: int, d: int)
    requires 0 <= a < 16 && 0 <= b < 16 && 0 <= c < 16 && 0 <= d < 16
    ensures ReadHex([HexDigit(a), HexDigit(b), HexDigit(c), HexDigit(d)]) == Some(a * 4096 + b * 256 + c * 16 + d)
  {
    HexRoundTrip(a);
    HexRoundTrip(b);
    HexRoundTrip(c);
    HexRoundTrip(d);
  }

  lemma DigitsOff(u: int)
    requires 0 <= u
    ensures u / 256 == u / 16 / 16 && u / 4096 == u / 256 / 16
  {}

  lemma LastDigit(u: int)
    requires 0 <= u
    ensures u == u / 16 * 16 + u % 16
  {}

  lemma FourDigits(u: int)
    requires 0 <= u < 65536
    ensures u / 4096 < 16 && u == u / 4096 * 4096 + u / 256 % 16 * 256 + u / 16 % 16 * 16 + u % 16
  {
    DigitsOff(u);
    LastDigit(u);
    LastDigit(u / 16);
    LastDigit(u / 256);
  }

  lemma ReadUnicodeEscape(u: Unit)
    ensures ReadHex([HexDigit(u / 4096), HexDigit(u / 256 % 16), HexDigit(u / 16 % 16), HexDigit(u % 16)]) == Some(u)
  {
    FourDigits(u);
    ReadFourDigits(u / 4096, u / 256 % 16, u / 16 % 16, u % 16);
  }

  lemma ReadUnitEscape(u: Unit, rest: Text)
    ensures ReadUnit(EscapeUnit(u) + rest) == Some((u, rest))
  {
    var t := EscapeUnit(u) + rest;
    if ShortEscape(u).Some? {
      assert t[0] == BACKSLASH && t[1] == ShortEscape(u).value && t[2..] == rest;
    } else if u < 32 || IsHigh(u) || IsLow(u) {
      assert t[0] == BACKSLASH && t[1] == 117;
      assert t[2..6] == [HexDigit(u / 4096), HexDigit(u / 256 % 16), HexDigit(u / 16 % 16), HexDigit(u % 16)];
      ReadUnicodeEscape(u);
      assert t[6..] == rest;
    } else {
      assert t[0] == u && t[1..] == rest;
    }
  }

  lemma EscapeUnitNotQuote(u: Unit)
    ensures EscapeUnit(u) != [] && EscapeUnit(u)[0] != QUOTE
  {}

  lemma ReadUnitsStep(t: Text, u: Unit, tail: Text, s: Text, rest: Text)
    requires t != [] && t[0] != QUOTE && ReadUnit(t) == Some((u, tail)) && ReadUnits(tail) == Some((s, rest))
    ensures ReadUnits(t) == Some(([u] + s, rest))
  {}

  /** Reading inverts quoting, whatever follows. */
  lemma {:induction false} ReadQuoted(s: Text, rest: Text)
    ensures ReadUnits(QuoteUnits(s) + [QUOTE] + rest) == Some((s, rest))
    decreases |s|
  {
    if s == [] {
      assert [QUOTE] + rest == QuoteUnits([]) + [QUOTE] + rest && ([QUOTE] + rest)[1..] == rest;
    } else if 1 < |s| && IsHigh(s[0]) && IsLow(s[1]) {
      var more := s[2..];
      ReadQuoted(more, rest);
      ReadPair(s[0], s[1], more, QuoteUnits(more) + [QUOTE] + rest, rest);
      Regroup([s[0]] + [s[1]], QuoteUnits(more), [QUOTE], rest);
      assert QuoteUnits(s) == [s[0]] + [s[1]] + QuoteUnits(more);
      Pairs(s[0], s[1], QuoteUnits(more) + [QUOTE] + rest);
      Pairs(s[0], s[1], more);
      assert s == [s[0]] + [s[1]] + more;
    } else {
      var more := s[1..];
      ReadQuoted(more, rest);
      ReadOne(s[0], more, QuoteUnits(more) + [QUOTE] + rest, rest);
      assert QuoteUnits(s) == EscapeUnit(s[0]) + QuoteUnits(more);
      Regroup(EscapeUnit(s[0]), QuoteUnits(more), [QUOTE], rest);
      assert s == [s[0]] + more;
    }
  }

  lemma Regroup(a: Text, b: Text, c: Text, d: Text)
    ensures a + b + c + d == a + (b + c + d)
  {}

  lemma Pairs(u: Unit, v: Unit, t: Text)
    ensures [u] + [v] + t == [u] + ([v] + t)
  {}

  lemma ReadOne(u: Unit, more: Text, tail: Text, rest: Text)
    requires ReadUnits(tail) == Some((more, rest))
    ensures ReadUnits(EscapeUnit(u) + tail) == Some(([u] + more, rest))
  {
    EscapeUnitNotQuote(u);
    ReadUnitEscape(u, tail);
    ReadUnitsStep(EscapeUnit(u) + tail, u, tail, more, rest);
  }

  /** A surrogate pair stands for itself. */
  lemma ReadPair(u: Unit, v: Unit, more: Text, tail: Text, rest: Text)
    requires IsHigh(u) && IsLow(v) && ReadUnits(tail) == Some((more, rest))
    ensures ReadUnits([u] + ([v] + tail)) == Some(([u] + ([v] + more), rest))
  {
    assert ([v] + tail)[1..] == tail && ([u] + ([v] + tail))[1..] == [v] + tail;
    ReadUnitsStep([v] + tail, v, tail, more, rest);
    ReadUnitsStep([u] + ([v] + tail), u, [v] + tail, [v] + more, rest);
  }

  // ---------- Which units are escaped, and how ----------

  /** A surrogate beside its other half. */
  predicate Paired(s: Text, i: nat)
    requires i < |s|
  {
    || (0xD800 <= s[i] <= 0xDBFF && i + 1 < |s| && 0xDC00 <= s[i + 1] <= 0xDFFF)
    || (0xDC00 <= s[i] <= 0xDFFF && 0 < i && 0xD800 <= s[i - 1] <= 0xDBFF)
  }

  const ESCAPED: map<int, Text> := map[8 := [92, 98], 9 := [92, 116], 10 := [92, 110], 12 := [92, 102],
                                       13 := [92, 114], 34 := [92, 34], 92 := [92, 92]]

  const HEX_DIGITS: Text := [48, 49, 50, 51, 52, 53, 54, 55, 56, 57, 97, 98, 99, 100, 101, 102]

  /** What section 3.2.2.2 of RFC 8785 writes for unit `i` of a string: seven units have a short escape,
      the other control characters and lone surrogates their lower-case number, the rest stand for
      themselves. */
  function Standard(s: Text, i: nat): Text
    requires i < |s|
  {
    var u := s[i];
    if u in ESCAPED then ESCAPED[u]
    else if u <= 31 || (0xD800 <= u <= 0xDFFF && !Paired(s, i)) then
      [92, 117, HEX_DIGITS[u / 4096], HEX_DIGITS[u / 256 % 16], HEX_DIGITS[u / 16 % 16], HEX_DIGITS[u % 16]]
    else [u]
  }

  /** The standard's text for the units from `i` on. */
  function StandardFrom(s: Text, i: nat): Text
    requires i <= |s|
    decreases |s| - i
  {
    if i == |s| then [] else Standard(s, i) + StandardFrom(s, i + 1)
  }

  lemma HexValueExactly(u: Unit, n: int)
    ensures HexValue(u) == Some(n) <==> 0 <= n < 16 && HEX_DIGITS[n] == u
  {}

  lemma HexDigitListed(n: int)
    requires 0 <= n < 16
    ensures HexDigit(n) == HEX_DIGITS[n]
  {}

  lemma EscapeIsStandard(s: Text, i: nat)
    requires i < |s| && !Paired(s, i)
    ensures EscapeUnit(s[i]) == Standard(s, i)
  {
    var u := s[i];
    assert 0 <= u / 4096 < 16;
    HexDigitListed(u / 4096);
    HexDigitListed(u / 256 % 16);
    HexDigitListed(u / 16 % 16);
    HexDigitListed(u % 16);
  }

  /** A quoted string is the quote, the standard's text of its units in order, and the quote. */
  lemma QuoteIsStandard(s: Text)
    ensures Quote(s) == [34] + StandardFrom(s, 0) + [34]
  {
    assert s[0..] == s;
    QuotedFrom(s, 0);
  }

  lemma {:induction false} QuotedFrom(s: Text, i: nat)
    requires i <= |s| && !(0 < i < |s| && IsLow(s[i]) && IsHigh(s[i - 1]))
    ensures QuoteUnits(s[i..]) == StandardFrom(s, i)
    decreases |s| - i
  {
    if i < |s| {
      var t := s[i..];
      assert t[0] == s[i] && t[1..] == s[i + 1..] && (1 < |t| ==> t[1] == s[i + 1]);
      if 1 < |t| && IsHigh(t[0]) && IsLow(t[1]) {
        assert t[2..] == s[i + 2..] && t[..2] == [s[i]] + [s[i + 1]];
        QuotedFrom(s, i + 2);
        assert Standard(s, i) == [s[i]] && Standard(s, i + 1) == [s[i + 1]];
        Pairs(s[i], s[i + 1], StandardFrom(s, i + 2));
      } else {
        QuotedFrom(s, i + 1);
        EscapeIsStandard(s, i);
      }
    }
  }

  // ---------- Key order ----------

  /** Lexicographic order by code unit, as `Array.prototype.sort` compares strings. */
  predicate Less(a: Text, b: Text) {
    b != [] && (a == [] || a[0] < b[0] || (a[0] == b[0] && Less(a[1..], b[1..])))
  }

  /** The first difference decides, or else the length. */
  lemma {:induction false} LessExactly(a: Text, b: Text)
    ensures Less(a, b) <==> exists k :: 0 <= k <= |a| && k < |b| && a[..k] == b[..k] && (k == |a| || a[k] < b[k])
    decreases |a|
  {
    if a == [] {
      assert b != [] ==> a[..0] == b[..0];
    } else if b != [] && a[0] == b[0] {
      LessExactly(a[1..], b[1..]);
      if Less(a[1..], b[1..]) {
        var k :| 0 <= k <= |a[1..]| && k < |b[1..]| && a[1..][..k] == b[1..][..k]
                 && (k == |a[1..]| || a[1..][k] < b[1..][k]);
        assert a[..k + 1] == [a[0]] + a[1..][..k] && b[..k + 1] == [b[0]] + b[1..][..k];
      }
      if k :| 0 <= k <= |a| && k < |b| && a[..k] == b[..k] && (k == |a| || a[k] < b[k]) {
        assert k > 0;
        assert a[1..][..k - 1] == a[..k][1..] && b[1..][..k - 1] == b[..k][1..];
      }
    } else if b != [] {
      if Less(a, b) { assert a[..0] == b[..0]; }
      if k :| 0 <= k <= |a| && k < |b| && a[..k] == b[..k] && (k == |a| || a[k] < b[k]) {
        if k > 0 { assert a[..k][0] == b[..k][0]; }
      }
    }
  }

  lemma {:induction false} LessTotal(a: Text, b: Text)
    ensures Less(a, b) || Less(b, a) || a == b
    decreases |a|
  {
    if a != [] && b != [] && a[0] == b[0] {
      LessTotal(a[1..], b[1..]);
      assert a == [a[0]] + a[1..] && b == [b[0]] + b[1..];
    }
  }

  lemma {:induction false} LessTransitive(a: Text, b: Text, c: Text)
    requires Less(a, b) && Less(b, c)
    ensures Less(a, c)
    decreases |a|
  {
    if a != [] && a[0] == b[0] == c[0] { LessTransitive(a[1..], b[1..], c[1..]); }
  }

  lemma {:induction false} LessIrreflexive(a: Text)
    ensures !Less(a, a)
    decreases |a|
  {
    if a != [] { LessIrreflexive(a[1..]); }
  }

  // ---------- Sorting by a key ----------

  function InsertBy<T(!new)>(key: T -> Text, x: T, xs: seq<T>): (r: seq<T>)
    ensures forall y :: y in r <==> y == x || y in xs
  {
    if xs == [] || Less(key(x), key(xs[0])) then [x] + xs else [xs[0]] + InsertBy(key, x, xs[1..])
  }

  function SortBy<T(!new)>(key: T -> Text, xs: seq<T>): (r: seq<T>)
    ensures forall y :: y in r <==> y in xs
  {
    if xs == [] then [] else InsertBy(key, xs[0], SortBy(key, xs[1..]))
  }

  ghost predicate IncreasingBy<T>(key: T -> Text, xs: seq<T>) {
    forall i, j :: 0 <= i < j < |xs| ==> Less(key(xs[i]), key(xs[j]))
  }

  lemma {:induction false} InsertByIncreasing<T(!new)>(key: T -> Text, x: T, xs: seq<T>)
    requires IncreasingBy(key, xs) && forall y :: y in xs ==> key(y) != key(x)
    ensures IncreasingBy(key, InsertBy(key, x, xs)) && |InsertBy(key, x, xs)| == |xs| + 1
    decreases |xs|
  {
    var r := InsertBy(key, x, xs);
    if xs == [] {
    } else if Less(key(x), key(xs[0])) {
      forall i, j | 0 <= i < j < |r| ensures Less(key(r[i]), key(r[j])) {
        if i == 0 && j > 1 { LessTransitive(key(x), key(xs[0]), key(xs[j - 1])); }
      }
    } else {
      assert xs[0] in xs;
      LessTotal(key(x), key(xs[0]));
      var more := InsertBy(key, x, xs[1..]);
      InsertByIncreasing(key, x, xs[1..]);
      forall i, j | 0 <= i < j < |r| ensures Less(key(r[i]), key(r[j])) {
        assert r[j] == more[j - 1];
        if i == 0 {
          assert r[j] in more;
          if r[j] != x {
            var m :| 0 <= m < |xs[1..]| && xs[1..][m] == r[j];
            assert xs[m + 1] == r[j];
          }
        } else {
          assert r[i] == more[i - 1];
        }
      }
    }
  }

  /** Sorting items with distinct keys gives a strictly increasing list of the same length. */
  lemma {:induction false} SortByIncreasing<T(!new)>(key: T -> Text, xs: seq<T>)
    requires forall i, j :: 0 <= i < j < |xs| ==> key(xs[i]) != key(xs[j])
    ensures IncreasingBy(key, SortBy(key, xs)) && |SortBy(key, xs)| == |xs|
    decreases |xs|
  {
    if xs != [] {
      var tail := xs[1..];
      assert forall i :: 0 <= i < |tail| ==> tail[i] == xs[i + 1];
      SortByIncreasing(key, tail);
      forall y | y in SortBy(key, tail) ensures key(y) != key(xs[0]) {
        var k :| 0 <= k < |tail| && tail[k] == y;
      }
      InsertByIncreasing(key, xs[0], SortBy(key, tail));
    }
  }

  function Itself(k: Text): Text { k }

  /** `Object.keys(...).sort()` */
  function SortTexts(ks: seq<Text>): (r: seq<Text>)
    ensures forall x :: x in r <==> x in ks
  {
    SortBy(Itself, ks)
  }

  lemma SortTextsIncreasing(ks: seq<Text>)
    requires forall i, j :: 0 <= i < j < |ks| ==> ks[i] != ks[j]
    ensures IncreasingTexts(SortTexts(ks)) && |SortTexts(ks)| == |ks|
  {
    SortByIncreasing(Itself, ks);
  }

  ghost predicate IncreasingTexts(ks: seq<Text>) {
    forall i, j :: 0 <= i < j < |ks| ==> Less(ks[i], ks[j])
  }
}
