/**
 * Text forms of dates and times: decimal digits and zero padding, Python's
 * `str(datetime)`, the browser's `getDatabaseFormattedTime` form, and the
 * backend's `string_to_datetime`, which tries three `strptime` formats in turn
 * (Backend/main.py:115-128).
 */
module DateText {
  import opened Wrappers
  import opened CivilTime

  predicate IsDigit(c: char) {
    '0' <= c <= '9'
  }

  function DigitValue(c: char): (r: int)
    requires IsDigit(c)
    ensures 0 <= r < 10
  {
    c as int - '0' as int
  }

  function DigitChar(n: int): (c: char)
    requires 0 <= n < 10
    ensures IsDigit(c) && DigitValue(c) == n
  {
    (48 + n) as char
  }

  predicate AllDigits(s: string) {
    forall i :: 0 <= i < |s| ==> IsDigit(s[i])
  }

  /** The number a run of decimal digits denotes. */
  function DigitsValue(s: string): (r: nat)
    requires AllDigits(s)
    decreases |s|
  {
    if s == [] then 0 else 10 * DigitsValue(s[..|s| - 1]) + DigitValue(s[|s| - 1])
  }

  function Pow10(n: nat): (r: nat)
    ensures r >= 1
  {
    if n == 0 then 1 else 10 * Pow10(n - 1)
  }

  /** `str(n)` in Python, `String(n)` in JavaScript, for `n >= 0`: digits without leading zeros. */
  function NatText(n: nat): (s: string)
    ensures 1 <= |s| && AllDigits(s) && DigitsValue(s) == n && n < Pow10(|s|)
    decreases n
  {
    if n < 10 then [DigitChar(n)]
    else
      var s := NatText(n / 10) + [DigitChar(n % 10)];
      assert s[..|s| - 1] == NatText(n / 10);
      s
  }

  /** `s.padStart(w, "0")` and `%0wd`: left-pad with zeros to width `w`, never truncating. */
  function ZeroPad(s: string, w: nat): (r: string)
    ensures |r| == if |s| >= w then |s| else w
  {
    if |s| >= w then s else ['0'] + ZeroPad(s, w - 1)
  }

  /** Exactly `w` decimal digits of `n`, the low `w` ones. */
  function Fixed(n: nat, w: nat): (r: string)
    ensures |r| == w && AllDigits(r)
  {
    if w == 0 then [] else Fixed(n / 10, w - 1) + [DigitChar(n % 10)]
  }

  lemma {:induction false} FixedValue(n: nat, w: nat)
    requires n < Pow10(w)
    ensures DigitsValue(Fixed(n, w)) == n
  {
    if w > 0 {
      var r := Fixed(n, w);
      assert r[..w - 1] == Fixed(n / 10, w - 1);
      FixedValue(n / 10, w - 1);
    }
  }

  lemma {:induction false} FixedOfDigits(s: string)
    requires AllDigits(s)
    ensures Fixed(DigitsValue(s), |s|) == s
    decreases |s|
  {
    if s != [] {
      var init := s[..|s| - 1];
      FixedOfDigits(init);
      var v := DigitsValue(s);
      assert v / 10 == DigitsValue(init) && v % 10 == DigitValue(s[|s| - 1]);
      assert s == init + [s[|s| - 1]];
    }
  }

  lemma {:induction false} ZeroPadStep(s: string, c: char, w: nat)
    requires w >= 1
    ensures ZeroPad(s + [c], w) == ZeroPad(s, w - 1) + [c]
  {
    if |s| + 1 < w {
      ZeroPadStep(s, c, w - 1);
    }
  }

  /** Zero-padding the plain digits of `n` gives the fixed-width digits when `n` fits. */
  lemma {:induction false} ZeroPadIsFixed(n: nat, w: nat)
    requires w >= 1 && n < Pow10(w)
    ensures ZeroPad(NatText(n), w) == Fixed(n, w)
    decreases n
  {
    if n < 10 {
      assert NatText(n) == [] + [DigitChar(n)];
      ZeroPadStep([], DigitChar(n), w);
      ZeroPadFixedZero(w - 1);
    } else {
      assert NatText(n) == NatText(n / 10) + [DigitChar(n % 10)];
      ZeroPadStep(NatText(n / 10), DigitChar(n % 10), w);
      ZeroPadIsFixed(n / 10, w - 1);
    }
  }

  lemma {:induction false} ZeroPadFixedZero(w: nat)
    ensures ZeroPad([], w) == Fixed(0, w)
  {
    if w > 0 {
      ZeroPadFixedZero(w - 1);
      FixedZeroCons(w);
    }
  }

  lemma {:induction false} FixedZeroCons(w: nat)
    requires w >= 1
    ensures Fixed(0, w) == ['0'] + Fixed(0, w - 1)
  {
    if w > 1 {
      FixedZeroCons(w - 1);
    }
  }

  /** A non-negative number as at least `w` digits. */
  function Padded(n: nat, w: nat): string {
    ZeroPad(NatText(n), w)
  }

  /** The shape `Y-MO-D H:MI:SEC` shared by Python's `str(datetime)` and the browser's database form. */
  function DbString(y: string, mo: string, d: string, h: string, mi: string, sec: string): string {
    y + "-" + mo + "-" + d + " " + h + ":" + mi + ":" + sec
  }

  /** Python's `str(dt)` for a naive `datetime`: `YYYY-MM-DD HH:MM:SS`, then `.ffffff` when there are microseconds. */
  function PyText(t: DateTime): (r: string)
    requires ValidTime(t) && t.date.year >= 1
  {
    DbString(Padded(t.date.year, 4), Padded(t.date.month, 2), Padded(t.date.day, 2),
             Padded(t.hour, 2), Padded(t.minute, 2), Padded(t.second, 2))
    + (if t.micro != 0 then "." + Padded(t.micro, 6) else "")
  }

  /** The text of a JavaScript number that is an integer: `-` before the digits of a negative value. */
  function IntText(n: int): string {
    if n >= 0 then NatText(n) else "-" + NatText(-n)
  }

  /**
   * `getDatabaseFormattedTime` (WebApp/src/components/Calendar/index.jsx:59-79): the year as `String` gives it,
   * the other fields padded to two digits; milliseconds are dropped.
   */
  function DbText(t: DateTime): (r: string)
    requires ValidTime(t)
  {
    DbString(IntText(t.date.year), Padded(t.date.month, 2), Padded(t.date.day, 2),
             Padded(t.hour, 2), Padded(t.minute, 2), Padded(t.second, 2))
  }

  // ---- string_to_datetime ----

  /** `%Y`: exactly four digits. */
  function Year4(s: string): Option<(int, string)> {
    if |s| >= 4 && AllDigits(s[..4]) then Some((DigitsValue(s[..4]), s[4..])) else None
  }

  /**
   * A one-or-two-digit directive as `strptime`'s regular expression matches it: two digits when
   * their value lies in `lo..hi`, otherwise one digit whose value is at least `oneLo`.
   */
  function Field2(s: string, lo: int, hi: int, oneLo: int): Option<(int, string)> {
    if |s| >= 2 && IsDigit(s[0]) && IsDigit(s[1]) && lo <= 10 * DigitValue(s[0]) + DigitValue(s[1]) <= hi then
      Some((10 * DigitValue(s[0]) + DigitValue(s[1]), s[2..]))
    else if |s| >= 1 && IsDigit(s[0]) && oneLo <= DigitValue(s[0]) then
      Some((DigitValue(s[0]), s[1..]))
    else None
  }

  /** `%d` also admits a space followed by a non-zero digit. */
  function DayField(s: string): Option<(int, string)> {
    var f := Field2(s, 1, 31, 1);
    if f.Some? then f
    else if |s| >= 2 && s[0] == ' ' && IsDigit(s[1]) && s[1] != '0' then Some((DigitValue(s[1]), s[2..]))
    else None
  }

  /** `%f`: one to six digits, read as a fraction of a second. */
  function MicroField(s: string): Option<(int, string)> {
    var n := DigitRun(s, 6);
    if n == 0 then None
    else
      assert AllDigits(s[..n]) by {
        forall i | 0 <= i < n ensures IsDigit(s[..n][i]) { DigitRunDigits(s, 6, i); }
      }
      Some((DigitsValue(s[..n]) * Pow10(6 - n), s[n..]))
  }

  /** Length of the leading run of digits of `s`, at most `max`. */
  function DigitRun(s: string, max: nat): (n: nat)
    ensures n <= max && n <= |s|
  {
    if max == 0 || |s| == 0 || !IsDigit(s[0]) then 0 else 1 + DigitRun(s[1..], max - 1)
  }

  lemma {:induction false} DigitRunDigits(s: string, max: nat, i: nat)
    requires i < DigitRun(s, max)
    ensures IsDigit(s[i])
  {
    if i > 0 { DigitRunDigits(s[1..], max - 1, i - 1); }
  }

  function Lit(s: string, c: char): Option<string> {
    if |s| >= 1 && s[0] == c then Some(s[1..]) else None
  }

  /** The `T` of the ISO formats; `strptime` matches its literals ignoring case. */
  function TSep(s: string): Option<string> {
    if |s| >= 1 && (s[0] == 'T' || s[0] == 't') then Some(s[1..]) else None
  }

  predicate IsSpace(c: char) {
    c == ' ' || c == '\t' || c == '\n' || c == '\r' || c == '\U{0B}' || c == '\U{0C}'
  }

  function SkipSpaces(s: string): (r: string)
    ensures |r| <= |s|
  {
    if |s| >= 1 && IsSpace(s[0]) then SkipSpaces(s[1..]) else s
  }

  /** A space in a `strptime` format matches one or more whitespace characters. */
  function Spaces(s: string): Option<string> {
    if |s| >= 1 && IsSpace(s[0]) then Some(SkipSpaces(s[1..])) else None
  }

  datatype Fields = Fields(year: int, month: int, day: int, hour: int, minute: int, second: int, micro: int)

  /** `%Y-%m-%d`. */
  function ParseDatePart(s: string): Option<((int, int, int), string)> {
    var y :- Year4(s);
    var r1 :- Lit(y.1, '-');
    var m :- Field2(r1, 1, 12, 1);
    var r2 :- Lit(m.1, '-');
    var d :- DayField(r2);
    Some(((y.0, m.0, d.0), d.1))
  }

  /** `%H:%M:%S`, then `.%f` when `fraction` holds; nothing may follow. */
  function ParseClockPart(s: string, fraction: bool): Option<(int, int, int, int)> {
    var h :- Field2(s, 0, 23, 0);
    var r1 :- Lit(h.1, ':');
    var mi :- Field2(r1, 0, 59, 0);
    var r2 :- Lit(mi.1, ':');
    var sec :- Field2(r2, 0, 61, 0);
    if !fraction then
      if sec.1 == [] then Some((h.0, mi.0, sec.0, 0)) else None
    else
      var r3 :- Lit(sec.1, '.');
      var us :- MicroField(r3);
      if us.1 == [] then Some((h.0, mi.0, sec.0, us.0)) else None
  }

  /** The `datetime` the matched fields denote, or the `ValueError` the constructor raises. */
  function Build(date: (int, int, int), clock: (int, int, int, int)): Option<DateTime> {
    var t := DateTime(Date(date.0, date.1, date.2), clock.0, clock.1, clock.2, clock.3);
    if ValidTime(t) && t.date.year >= 1 then Some(t) else None
  }

  /** One `strptime` format: ISO with `T` (`isoT`) or with a space, with or without `.%f`. */
  function ParseFormat(s: string, isoT: bool, fraction: bool): Option<DateTime> {
    var d :- ParseDatePart(s);
    var rest :- if isoT then TSep(d.1) else Spaces(d.1);
    var c :- ParseClockPart(rest, fraction);
    Build(d.0, c)
  }

  /** Python's `s[:-1]`. */
  function DropLast(s: string): string {
    if |s| == 0 then s else s[..|s| - 1]
  }

  /**
   * `string_to_datetime`: `%Y-%m-%dT%H:%M:%S.%f` on the text without its last character, then
   * `%Y-%m-%dT%H:%M:%S`, then `%Y-%m-%d %H:%M:%S`; `None` stands for the `ValueError` raised when none matches.
   */
  function StringToDateTime(s: string): (r: Option<DateTime>)
    ensures r.Some? ==> ValidTime(r.value) && 1 <= r.value.date.year
  {
    var iso := ParseFormat(DropLast(s), true, true);
    if iso.Some? then iso
    else
      var plain := ParseFormat(s, true, false);
      if plain.Some? then plain else ParseFormat(s, false, false)
  }

  // ---- The database form YYYY-MM-DD HH:MM:SS ----

  predicate DigitsAt(s: string, i: int, j: int)
    requires 0 <= i <= j <= |s|
  {
    forall k :: i <= k < j ==> IsDigit(s[k])
  }

  /** Text in the exact shape `YYYY-MM-DD HH:MM:SS`. */
  predicate DbForm(s: string) {
    |s| == 19 && DigitsAt(s, 0, 4) && s[4] == '-' && DigitsAt(s, 5, 7) && s[7] == '-'
    && DigitsAt(s, 8, 10) && s[10] == ' ' && DigitsAt(s, 11, 13) && s[13] == ':'
    && DigitsAt(s, 14, 16) && s[16] == ':' && DigitsAt(s, 17, 19)
  }

  function Slice(s: string, i: int, j: int): (r: nat)
    requires 0 <= i <= j <= |s| && DigitsAt(s, i, j)
  {
    assert AllDigits(s[i..j]) by {
      forall k | 0 <= k < j - i ensures IsDigit(s[i..j][k]) { assert s[i..j][k] == s[i + k]; }
    }
    DigitsValue(s[i..j])
  }

  /** The date-time whose fields a text in database form spells, when they name one. */
  function DbFields(s: string): Option<DateTime>
    requires DbForm(s)
  {
    Build((Slice(s, 0, 4), Slice(s, 5, 7), Slice(s, 8, 10)), (Slice(s, 11, 13), Slice(s, 14, 16), Slice(s, 17, 19), 0))
  }

  lemma TwoDigits(s: string, i: int)
    requires 0 <= i && i + 2 <= |s| && DigitsAt(s, i, i + 2)
    ensures Slice(s, i, i + 2) == 10 * DigitValue(s[i]) + DigitValue(s[i + 1])
  {
    var x := s[i..i + 2];
    assert x[..1] == [s[i]] && x[..1][..0] == [] && x[1] == s[i + 1];
    assert DigitsValue(x[..1]) == DigitValue(s[i]);
    assert DigitsValue(x) == 10 * DigitsValue(x[..1]) + DigitValue(x[1]);
  }

  /** A two-digit field followed by a non-digit is read as both digits, or the parse fails. */
  lemma Field2Db(s: string, lo: int, hi: int, oneLo: int, c: char)
    requires |s| >= 3 && IsDigit(s[0]) && IsDigit(s[1]) && s[2] == c && !IsDigit(c)
    ensures var v := 10 * DigitValue(s[0]) + DigitValue(s[1]);
            (if lo <= v <= hi then Field2(s, lo, hi, oneLo) == Some((v, s[2..])) else
               Field2(s, lo, hi, oneLo) == None || Lit(Field2(s, lo, hi, oneLo).value.1, c) == None)
  {
  }

  lemma DayFieldDb(s: string)
    requires |s| >= 3 && IsDigit(s[0]) && IsDigit(s[1]) && !IsDigit(s[2])
    ensures var v := 10 * DigitValue(s[0]) + DigitValue(s[1]);
            (1 <= v <= 31 ==> DayField(s) == Some((v, s[2..])))
            && (DayField(s).Some? ==> (DayField(s) == Some((v, s[2..])) && 1 <= v <= 31) || DayField(s).value.1 == s[1..])
  {
  }

  /** `%Y-%m-%d` at the head of a text in database form: all three fields read as written, or the rest starts with a digit. */
  lemma DatePartDb(s: string)
    requires |s| >= 11 && DigitsAt(s, 0, 4) && s[4] == '-' && DigitsAt(s, 5, 7) && s[7] == '-' && DigitsAt(s, 8, 10)
    requires !IsDigit(s[10])
    ensures var m, d := 10 * DigitValue(s[5]) + DigitValue(s[6]), 10 * DigitValue(s[8]) + DigitValue(s[9]);
            var p := ParseDatePart(s);
            (1 <= m <= 12 && 1 <= d <= 31 ==> p == Some(((Slice(s, 0, 4), m, d), s[10..])))
            && (p.Some? ==> p == Some(((Slice(s, 0, 4), m, d), s[10..])) || p.value.1 == s[9..])
  {
    assert s[..4] == s[0..4];
    assert Year4(s) == Some((Slice(s, 0, 4), s[4..]));
    var r1 := s[5..];
    assert Lit(s[4..], '-') == Some(r1);
    Field2Db(r1, 1, 12, 1, '-');
    assert r1[2..] == s[7..];
    var r2 := s[8..];
    assert Lit(s[7..], '-') == Some(r2);
    assert r2[2..] == s[10..] && r2[1..] == s[9..];
    DayFieldDb(r2);
  }

  lemma ClockPartDb(s: string)
    requires |s| == 8 && DigitsAt(s, 0, 2) && s[2] == ':' && DigitsAt(s, 3, 5) && s[5] == ':' && DigitsAt(s, 6, 8)
    ensures var h, mi, sec := 10 * DigitValue(s[0]) + DigitValue(s[1]), 10 * DigitValue(s[3]) + DigitValue(s[4]),
                              10 * DigitValue(s[6]) + DigitValue(s[7]);
            ParseClockPart(s, false) == if h <= 23 && mi <= 59 && sec <= 61 then Some((h, mi, sec, 0)) else None
  {
    Field2Db(s, 0, 23, 0, ':');
    var r1 := s[3..];
    Field2Db(r1, 0, 59, 0, ':');
    var r2 := s[6..];
    assert s[2..][1..] == r1 && r1[2..][1..] == r2;
    var sec := 10 * DigitValue(s[6]) + DigitValue(s[7]);
    if sec > 61 {
      assert Field2(r2, 0, 61, 0) == Some((DigitValue(s[6]), r2[1..]));
    }
  }

  lemma IsoFailsDb(s: string)
    requires DbForm(s)
    ensures ParseFormat(DropLast(s), true, true) == None
  {
    var x := DropLast(s);
    assert forall k :: 0 <= k < 18 ==> x[k] == s[k];
    DatePartDb(x);
    assert x[9..][0] == s[9] && x[10..][0] == ' ';
  }

  lemma PlainFailsDb(s: string)
    requires DbForm(s)
    ensures ParseFormat(s, true, false) == None
  {
    DatePartDb(s);
    assert s[9..][0] == s[9] && s[10..][0] == ' ';
  }

  /** The date part of a text in database form, read by `%Y-%m-%d`. */
  lemma DateOfDb(s: string)
    requires DbForm(s)
    ensures var p := ParseDatePart(s);
            ((1 <= Slice(s, 5, 7) <= 12 && 1 <= Slice(s, 8, 10) <= 31)
             ==> p == Some(((Slice(s, 0, 4), Slice(s, 5, 7), Slice(s, 8, 10)), s[10..])))
            && (p.Some? ==> p == Some(((Slice(s, 0, 4), Slice(s, 5, 7), Slice(s, 8, 10)), s[10..])) || p.value.1 == s[9..])
  {
    DatePartDb(s);
    TwoDigits(s, 5);
    TwoDigits(s, 8);
  }

  /** The clock part of a text in database form, read by `%H:%M:%S`. */
  lemma ClockOfDb(s: string)
    requires DbForm(s)
    ensures ParseClockPart(s[11..], false)
            == if Slice(s, 11, 13) <= 23 && Slice(s, 14, 16) <= 59 && Slice(s, 17, 19) <= 61
               then Some((Slice(s, 11, 13), Slice(s, 14, 16), Slice(s, 17, 19), 0)) else None
  {
    TwoDigits(s, 11); TwoDigits(s, 14); TwoDigits(s, 17);
    var clock := s[11..];
    assert clock[0] == s[11] && clock[1] == s[12] && clock[2] == ':' && clock[3] == s[14] && clock[4] == s[15];
    assert clock[5] == ':' && clock[6] == s[17] && clock[7] == s[18];
    ClockPartDb(clock);
  }

  /** The one space of a text in database form matches the format's space. */
  lemma SpaceOfDb(s: string)
    requires DbForm(s)
    ensures Spaces(s[10..]) == Some(s[11..]) && Spaces(s[9..]).None?
  {
    assert s[9..][0] == s[9];
    assert s[10..][1..] == s[11..];
    assert SkipSpaces(s[11..]) == s[11..];
  }

  lemma SpaceFormatDb(s: string)
    requires DbForm(s)
    ensures ParseFormat(s, false, false) == DbFields(s)
  {
    DateOfDb(s);
    ClockOfDb(s);
    SpaceOfDb(s);
  }

  /** `string_to_datetime` reads a text in database form exactly as its digits spell it. */
  lemma DbFormParse(s: string)
    requires DbForm(s)
    ensures StringToDateTime(s) == DbFields(s)
  {
    IsoFailsDb(s);
    PlainFailsDb(s);
    SpaceFormatDb(s);
  }

  lemma PaddedTwo(n: nat)
    requires n < 100
    ensures Padded(n, 2) == Fixed(n, 2)
  {
    ZeroPadIsFixed(n, 2);
  }

  lemma SliceFixed(s: string, i: int, j: int)
    requires 0 <= i <= j <= |s| && DigitsAt(s, i, j)
    ensures Fixed(Slice(s, i, j), j - i) == s[i..j]
  {
    FixedOfDigits(s[i..j]);
  }

  lemma DbStringSlices(y: string, mo: string, d: string, h: string, mi: string, sec: string)
    requires |y| == 4 && |mo| == 2 && |d| == 2 && |h| == 2 && |mi| == 2 && |sec| == 2
    ensures var s := DbString(y, mo, d, h, mi, sec);
            |s| == 19 && s[0..4] == y && s[4] == '-' && s[5..7] == mo && s[7] == '-' && s[8..10] == d
            && s[10] == ' ' && s[11..13] == h && s[13] == ':' && s[14..16] == mi && s[16] == ':' && s[17..19] == sec
  {
  }

  lemma DbFormIsDbString(s: string)
    requires DbForm(s)
    ensures s == DbString(s[0..4], s[5..7], s[8..10], s[11..13], s[14..16], s[17..19])
  {
    var r := DbString(s[0..4], s[5..7], s[8..10], s[11..13], s[14..16], s[17..19]);
    DbStringSlices(s[0..4], s[5..7], s[8..10], s[11..13], s[14..16], s[17..19]);
    forall k | 0 <= k < 19 ensures r[k] == s[k] {
      if k < 4 { assert r[k] == r[0..4][k]; }
      else if 5 <= k < 7 { assert r[k] == r[5..7][k - 5]; }
      else if 8 <= k < 10 { assert r[k] == r[8..10][k - 8]; }
      else if 11 <= k < 13 { assert r[k] == r[11..13][k - 11]; }
      else if 14 <= k < 16 { assert r[k] == r[14..16][k - 14]; }
      else if 17 <= k < 19 { assert r[k] == r[17..19][k - 17]; }
    }
  }

  lemma PaddedFields(t: DateTime)
    requires ValidTime(t) && 1 <= t.date.year <= 9999
    ensures Padded(t.date.year, 4) == Fixed(t.date.year, 4)
    ensures Padded(t.date.month, 2) == Fixed(t.date.month, 2) && Padded(t.date.day, 2) == Fixed(t.date.day, 2)
    ensures Padded(t.hour, 2) == Fixed(t.hour, 2) && Padded(t.minute, 2) == Fixed(t.minute, 2)
    ensures Padded(t.second, 2) == Fixed(t.second, 2)
  {
    ZeroPadIsFixed(t.date.year, 4);
    PaddedTwo(t.date.month); PaddedTwo(t.date.day); PaddedTwo(t.hour); PaddedTwo(t.minute); PaddedTwo(t.second);
  }

  lemma {:induction false} DigitsValueBound(s: string)
    requires AllDigits(s)
    ensures DigitsValue(s) < Pow10(|s|)
    decreases |s|
  {
    if s != [] { DigitsValueBound(s[..|s| - 1]); }
  }

  /** `str()` of a whole-second date-time spells its fields at their fixed widths. */
  lemma PyTextFixed(t: DateTime)
    requires ValidTime(t) && 1 <= t.date.year <= 9999 && t.micro == 0
    ensures PyText(t) == DbString(Fixed(t.date.year, 4), Fixed(t.date.month, 2), Fixed(t.date.day, 2),
                                  Fixed(t.hour, 2), Fixed(t.minute, 2), Fixed(t.second, 2))
  {
    PaddedFields(t);
  }

  /** The fields of a text in database form, when they name a date-time: its digit groups, the year below 10000. */
  lemma DbFieldsShape(s: string)
    requires DbForm(s) && DbFields(s).Some?
    ensures DbFields(s).value
            == DateTime(Date(Slice(s, 0, 4), Slice(s, 5, 7), Slice(s, 8, 10)), Slice(s, 11, 13), Slice(s, 14, 16), Slice(s, 17, 19), 0)
    ensures Slice(s, 0, 4) <= 9999
  {
    DigitsValueBound(s[0..4]);
  }

  /** Each digit group of a text in database form, printed back at its width, is itself. */
  lemma DbSlicesFixed(s: string)
    requires DbForm(s)
    ensures Fixed(Slice(s, 0, 4), 4) == s[0..4] && Fixed(Slice(s, 5, 7), 2) == s[5..7]
    ensures Fixed(Slice(s, 8, 10), 2) == s[8..10] && Fixed(Slice(s, 11, 13), 2) == s[11..13]
    ensures Fixed(Slice(s, 14, 16), 2) == s[14..16] && Fixed(Slice(s, 17, 19), 2) == s[17..19]
  {
    SliceFixed(s, 0, 4); SliceFixed(s, 5, 7); SliceFixed(s, 8, 10);
    SliceFixed(s, 11, 13); SliceFixed(s, 14, 16); SliceFixed(s, 17, 19);
  }

  lemma DbFieldsPrintBack(s: string)
    requires DbForm(s) && DbFields(s).Some?
    ensures PyText(DbFields(s).value) == s
  {
    DbFieldsShape(s);
    PyTextFixed(DbFields(s).value);
    DbSlicesFixed(s);
    DbFormIsDbString(s);
  }

  /** A text in database form that parses is printed back unchanged by `str()`. */
  lemma DbFormPrintBack(s: string)
    requires DbForm(s) && StringToDateTime(s).Some?
    ensures PyText(StringToDateTime(s).value) == s
  {
    DbFormParse(s);
    DbFieldsPrintBack(s);
  }

  /** `str()` of a whole-second date-time is in database form and parses back to the same value. */
  lemma PyTextParse(t: DateTime)
    requires ValidTime(t) && 1 <= t.date.year <= 9999 && t.micro == 0
    ensures DbForm(PyText(t)) && StringToDateTime(PyText(t)) == Some(t)
  {
    PaddedFields(t);
    var y, mo, d := Fixed(t.date.year, 4), Fixed(t.date.month, 2), Fixed(t.date.day, 2);
    var h, mi, sec := Fixed(t.hour, 2), Fixed(t.minute, 2), Fixed(t.second, 2);
    var s := DbString(y, mo, d, h, mi, sec);
    assert PyText(t) == s;
    DbStringSlices(y, mo, d, h, mi, sec);
    assert DbForm(s) by {
      forall k | 0 <= k < 19 && k != 4 && k != 7 && k != 10 && k != 13 && k != 16 ensures IsDigit(s[k]) {
        if k < 4 { assert s[k] == s[0..4][k]; }
        else if k < 7 { assert s[k] == s[5..7][k - 5]; }
        else if k < 10 { assert s[k] == s[8..10][k - 8]; }
        else if k < 13 { assert s[k] == s[11..13][k - 11]; }
        else if k < 16 { assert s[k] == s[14..16][k - 14]; }
        else { assert s[k] == s[17..19][k - 17]; }
      }
    }
    FixedValue(t.date.year, 4); FixedValue(t.date.month, 2); FixedValue(t.date.day, 2);
    FixedValue(t.hour, 2); FixedValue(t.minute, 2); FixedValue(t.second, 2);
    DbFormParse(s);
  }

  /**
   * The browser's database form of a four-digit-year time is accepted by the third format of
   * `string_to_datetime` and read back as the same date-time without its milliseconds.
   */
  lemma DbTextParse(t: DateTime)
    requires ValidTime(t) && 1000 <= t.date.year <= 9999
    ensures DbForm(DbText(t)) && StringToDateTime(DbText(t)) == Some(t.(micro := 0))
    ensures DbText(t) == PyText(t.(micro := 0))
  {
    NatTextFourDigits(t.date.year);
    assert DbText(t) == PyText(t.(micro := 0));
    PyTextParse(t.(micro := 0));
  }

  lemma NatTextFourDigits(n: nat)
    requires 1000 <= n < 10000
    ensures ZeroPad(NatText(n), 4) == NatText(n)
  {
    assert |NatText(n / 1000)| == 1;
    assert NatText(n / 100) == NatText(n / 1000) + [DigitChar(n / 100 % 10)];
    assert NatText(n / 10) == NatText(n / 100) + [DigitChar(n / 10 % 10)];
    assert NatText(n) == NatText(n / 10) + [DigitChar(n % 10)];
  }
}
