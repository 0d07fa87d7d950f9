/**
 * The lesson editor (WebApp/src/components/Calendar/EditableLesson.jsx): how it reads a lesson's
 * recurrence rule into frequency, interval and end date, how each input changes its state, when
 * the form is complete, the request content `getFormattedData` builds, and where Save and Delete
 * lead.
 */
module LessonEditor {
  import opened Wrappers
  import opened CivilTime
  import opened DateText
  import opened Payload
  import opened RecurrenceRule
  import opened CalendarPage
  import CalendarView
  import LessonEdits

  // ---- Values of the form ----

  /** A dayjs value: a moment in time, or an invalid date. */
  datatype Moment = Valid(t: DateTime) | InvalidDate

  /** `getDatabaseFormattedTime(m.toDate(), false)`; an invalid date prints each field as `NaN`. */
  function MomentText(m: Moment): string {
    if m.Valid? && ValidTime(m.t) then DbText(m.t) else "NaN-NaN-NaN NaN:NaN:NaN"
  }

  /**
   * The interval as the template literal prints it: a number from `parseInt`, `NaN`, the text
   * typed into the input (kept as text), or `undefined`.
   */
  datatype Interval = Number(n: int) | NaN | Typed(text: string) | Undefined

  function IntervalText(v: Interval): string {
    match v
    case Number(n) => IntText(n)
    case NaN => "NaN"
    case Typed(s) => s
    case Undefined => "undefined"
  }

  /**
   * `lesson.recurrence_rule`: the three parts the inputs edit (`None` standing for `null` or
   * `undefined`), or the text `getFormattedData` has written over them.
   */
  datatype RuleField =
    | Parts(frequency: Option<string>, interval: Interval, until: Option<Moment>)
    | Written(text: string)

  /** The parts of a new lesson: weekly, every week, no end. */
  const DefaultRule: RuleField := Parts(Some("weekly"), Number(1), None)

  // ---- Reading the rule (the initial state) ----

  /** JavaScript's white space and line terminators, which `parseInt` skips before the number. */
  predicate IsJsSpace(c: char) {
    var n := c as int;
    n == 0x09 || n == 0x0A || n == 0x0B || n == 0x0C || n == 0x0D || n == 0x20 || n == 0xA0
    || n == 0x1680 || (0x2000 <= n <= 0x200A) || n == 0x2028 || n == 0x2029 || n == 0x202F
    || n == 0x205F || n == 0x3000 || n == 0xFEFF
  }

  /** `s` without its leading white space. */
  function TrimStart(s: string): (r: string)
    ensures |r| <= |s| && r == s[|s| - |r|..]
    ensures r == [] || !IsJsSpace(r[0])
  {
    if s != [] && IsJsSpace(s[0]) then TrimStart(s[1..]) else s
  }

  /** What `TrimStart` drops is white space only. */
  lemma {:induction false} TrimStartDropsSpace(s: string)
    ensures forall i :: 0 <= i < |s| - |TrimStart(s)| ==> IsJsSpace(s[i])
  {
    if s != [] && IsJsSpace(s[0]) {
      TrimStartDropsSpace(s[1..]);
      assert forall i :: 1 <= i < |s| - |TrimStart(s)| ==> s[i] == s[1..][i - 1];
    }
  }

  /** The value of `c` as a digit in base 16 (`hex`) or 10: `0`-`9`, and `a`-`f` in either case in base 16. */
  function RadixDigit(c: char, hex: bool): (r: Option<nat>)
    ensures r.Some? ==> r.value < if hex then 16 else 10
    ensures !hex ==> (r.Some? <==> IsDigit(c)) && (r.Some? ==> r.value == DigitValue(c))
  {
    if '0' <= c <= '9' then Some(c as int - '0' as int)
    else if hex && 'a' <= c <= 'f' then Some(c as int - 'a' as int + 10)
    else if hex && 'A' <= c <= 'F' then Some(c as int - 'A' as int + 10)
    else None
  }

  predicate AllRadixDigits(s: string, hex: bool) {
    forall i :: 0 <= i < |s| ==> RadixDigit(s[i], hex).Some?
  }

  /** The length of the run of digits, in base 16 or 10, that starts `s`. */
  function DigitPrefix(s: string, hex: bool): (n: nat)
    ensures n <= |s| && AllRadixDigits(s[..n], hex) && (n < |s| ==> RadixDigit(s[n], hex).None?)
  {
    if s == [] || RadixDigit(s[0], hex).None? then 0
    else
      var n := 1 + DigitPrefix(s[1..], hex);
      assert forall i :: 1 <= i < n ==> s[..n][i] == s[1..][..n - 1][i - 1];
      n
  }

  /** The number a run of digits denotes in base 16 or 10. */
  function RadixValue(s: string, hex: bool): nat
    requires AllRadixDigits(s, hex)
  {
    if s == [] then 0
    else (if hex then 16 else 10) * RadixValue(s[..|s| - 1], hex) + RadixDigit(s[|s| - 1], hex).value
  }

  /**
   * The number at the start of an unsigned text: hexadecimal after a `0x` or `0X` prefix, else
   * decimal, read up to the first character that is not a digit; `None` when no digit follows.
   */
  function ParseDigits(unsigned: string): (r: Option<nat>)
    ensures r.None? <==> DigitPrefix(if IsHexPrefixed(unsigned) then unsigned[2..] else unsigned, IsHexPrefixed(unsigned)) == 0
  {
    var hex := IsHexPrefixed(unsigned);
    var digits := if hex then unsigned[2..] else unsigned;
    var k := DigitPrefix(digits, hex);
    if k == 0 then None else Some(RadixValue(digits[..k], hex))
  }

  predicate IsHexPrefixed(s: string) {
    |s| >= 2 && s[0] == '0' && (s[1] == 'x' || s[1] == 'X')
  }

  /**
   * `parseInt(s)` without a radix: leading white space is skipped and the rest is read by
   * `ParseSigned`; `undefined` reads as `NaN`.
   */
  function ParseInt(s: Option<string>): (r: Interval)
    ensures r.Number? || r == NaN
    ensures s.None? ==> r == NaN
  {
    if s.None? then NaN else ParseSigned(TrimStart(s.value))
  }

  /** An optional sign, then the number `ParseDigits` reads; `NaN` when there is none. */
  function ParseSigned(text: string): (r: Interval)
    ensures r.Number? || r == NaN
  {
    var signed := |text| > 0 && (text[0] == '-' || text[0] == '+');
    match ParseDigits(if signed then text[1..] else text)
    case None => NaN
    case Some(v) => Number(if signed && text[0] == '-' then -(v as int) else v)
  }

  /** Base-10 digits denote the same number as `DigitsValue` says. */
  lemma {:induction false} DecimalValue(s: string)
    requires AllDigits(s)
    ensures AllRadixDigits(s, false) && RadixValue(s, false) == DigitsValue(s)
  {
    if s != [] {
      DecimalValue(s[..|s| - 1]);
    }
  }

  /** The digit run of `s + t` is all of `s` when `t` starts with a non-digit. */
  lemma {:induction false} DigitPrefixStops(s: string, t: string, hex: bool)
    requires AllRadixDigits(s, hex)
    requires t == [] || RadixDigit(t[0], hex).None?
    ensures DigitPrefix(s + t, hex) == |s|
  {
    if s != [] {
      assert (s + t)[1..] == s[1..] + t;
      DigitPrefixStops(s[1..], t, hex);
    }
  }

  /** Only the number 0 is written with a leading `0`. */
  lemma {:induction false} NatTextFirst(n: nat)
    ensures NatText(n)[0] == '0' ==> n == 0
    decreases n
  {
    if n >= 10 {
      NatTextFirst(n / 10);
      assert NatText(n)[0] == NatText(n / 10)[0];
    }
  }

  /** Text that starts with neither white space nor a sign is read by `ParseDigits` alone. */
  lemma ParseIntUnsigned(s: string)
    requires s == [] || (!IsJsSpace(s[0]) && s[0] != '-' && s[0] != '+')
    ensures ParseInt(Some(s)) == match ParseDigits(s) case None => NaN case Some(v) => Number(v)
  {
    assert TrimStart(s) == s;
    assert ParseSigned(s) == match ParseDigits(s) case None => NaN case Some(v) => Number(v);
  }

  /** The decimal text of a number followed by a non-digit, and no `x` after a lone 0, reads as the number. */
  lemma ParseDigitsDecimal(n: nat, t: string)
    requires t == [] || !IsDigit(t[0])
    requires n == 0 ==> t == [] || (t[0] != 'x' && t[0] != 'X')
    ensures ParseDigits(NatText(n) + t) == Some(n)
  {
    var d := NatText(n);
    var s := d + t;
    NatTextFirst(n);
    assert !IsHexPrefixed(s) by {
      if |s| >= 2 && s[0] == '0' {
        assert n == 0 && |d| == 1 && s[1] == t[0];
      }
    }
    DecimalValue(d);
    DigitPrefixStops(d, t, false);
    assert s[..|d|] == d;
  }

  /**
   * `parseInt` reads the decimal text of a number back when a non-digit (or nothing) follows it,
   * unless the number is 0 and an `x` follows, which makes a hexadecimal prefix.
   */
  lemma ParseIntDecimal(n: nat, t: string)
    requires t == [] || !IsDigit(t[0])
    requires n == 0 ==> t == [] || (t[0] != 'x' && t[0] != 'X')
    ensures ParseInt(Some(NatText(n) + t)) == Number(n)
  {
    var s := NatText(n) + t;
    assert s[0] == NatText(n)[0] && IsDigit(s[0]);
    ParseIntUnsigned(s);
    ParseDigitsDecimal(n, t);
  }

  lemma ParseIntNatText(n: nat)
    ensures ParseInt(Some(NatText(n))) == Number(n)
  {
    ParseIntDecimal(n, "");
    assert NatText(n) + "" == NatText(n);
  }

  /** White space before the number changes nothing. */
  lemma ParseIntSkipsSpace(c: char, t: string)
    requires IsJsSpace(c)
    ensures ParseInt(Some([c] + t)) == ParseInt(Some(t))
  {
    assert TrimStart([c] + t) == TrimStart(t) by {
      assert ([c] + t)[1..] == t;
    }
  }

  /** After a minus sign the number read is negated. */
  lemma ParseSignedMinus(t: string)
    ensures ParseSigned("-" + t) == match ParseDigits(t) case None => NaN case Some(v) => Number(-(v as int))
  {
    assert ("-" + t)[1..] == t;
  }

  /** A minus sign negates the number that follows it (a second sign or white space is not read). */
  lemma ParseIntNegated(t: string)
    requires t == [] || (!IsJsSpace(t[0]) && t[0] != '-' && t[0] != '+')
    ensures ParseInt(Some("-" + t)) == match ParseInt(Some(t)) case Number(n) => Number(-n) case _ => NaN
  {
    var s := "-" + t;
    assert TrimStart(s) == s by {
      assert !IsJsSpace(s[0]);
    }
    ParseSignedMinus(t);
    ParseIntUnsigned(t);
  }

  /** `0x` and `0X` start hexadecimal digits, in either case. */
  lemma ParseDigitsHex()
    ensures ParseDigits("0x10") == Some(16) && ParseDigits("0XfF") == Some(255)
  {
    assert IsHexPrefixed("0x10") && "0x10"[2..] == "1" + ['0'];
    HexDigits("1", '0');
    assert ("1" + ['0'])[..2] == "1" + ['0'];
    assert IsHexPrefixed("0XfF") && "0XfF"[2..] == "f" + ['F'];
    HexDigits("f", 'F');
    assert ("f" + ['F'])[..2] == "f" + ['F'];
  }

  /** The prefix alone, or followed by no hexadecimal digit, is no number. */
  lemma ParseDigitsHexBare()
    ensures ParseDigits("0x") == None && ParseDigits("0xg") == None
  {
    assert IsHexPrefixed("0x") && "0x"[2..] == [];
    assert IsHexPrefixed("0xg") && "0xg"[2..] == "g" && RadixDigit('g', true).None?;
  }

  /** The value of a two-digit hexadecimal text. */
  lemma HexDigits(a: string, b: char)
    requires |a| == 1 && RadixDigit(a[0], true).Some? && RadixDigit(b, true).Some?
    ensures DigitPrefix(a + [b], true) == 2
    ensures RadixValue(a + [b], true) == 16 * RadixDigit(a[0], true).value + RadixDigit(b, true).value
  {
    var s := a + [b];
    assert s[1..] == [b] && [b][1..] == [];
    assert s[..2] == s && s[..1] == a && a[..0] == "" && s[1] == b;
    assert RadixValue(a, true) == RadixDigit(a[0], true).value;
  }

  /** The interval box's text `" 3"` reads as 3, as in the browser. */
  lemma ParseIntSpaced()
    ensures ParseInt(Some(" 3")) == Number(3)
  {
    assert NatText(3) == "3";
    ParseIntNatText(3);
    assert [' '] + "3" == " 3";
    ParseIntSkipsSpace(' ', "3");
  }

  /** `"0x10"` reads as 16. */
  lemma ParseIntHexText()
    ensures ParseInt(Some("0x10")) == Number(16)
  {
    ParseDigitsHex();
    ParseIntUnsigned("0x10");
  }

  /** JavaScript's `parts[i]`: `undefined` past the end. */
  function Nth(parts: seq<string>, i: nat): (r: Option<string>)
    ensures r.Some? <==> i < |parts|
  {
    if i < |parts| then Some(parts[i]) else None
  }

  /** `component.split("=")[1]`. */
  function ValueOf(component: string): Option<string> {
    Nth(Split(component, '='), 1)
  }

  /**
   * The editor's reading of a non-empty rule: FREQ from the first component (lowercased),
   * INTERVAL from the second and UNTIL from a non-empty third, each the text after its first `=`,
   * whatever its key. `Err` is the `TypeError` the source throws when the first component has no
   * `=` or there is no second component. `readDate` is dayjs's parse of the UNTIL text (or of
   * `undefined` when the third component has no `=`): a library call the model takes as given.
   */
  function ReadRule(rule: string, readDate: Option<string> -> Moment): (r: Result<RuleField, string>)
    ensures r.Err? <==> '=' !in Split(rule, ';')[0] || ';' !in rule
    ensures r.Ok? ==> r.value.Parts? && r.value.frequency.Some? && (r.value.interval.Number? || r.value.interval == NaN)
  {
    var cs := Split(rule, ';');
    SplitSeveral(rule, ';');
    SplitSeveral(cs[0], '=');
    var frequency := ValueOf(cs[0]);
    if frequency.None? || |cs| < 2 then Err("TypeError")
    else
      var until := if |cs| > 2 && cs[2] != "" then Some(readDate(ValueOf(cs[2]))) else None;
      Ok(Parts(Some(LessonEdits.Lower(frequency.value)), ParseInt(ValueOf(cs[1])), until))
  }

  /** The initial `recurrence_rule` of the form: the lesson's rule read back when it has one, else the default. */
  function InitialRule(selected: Option<LessonItem>, readDate: Option<string> -> Moment): (r: Result<RuleField, string>)
    ensures (selected.None? || !Recurring(selected.value)) ==> r == Ok(DefaultRule)
  {
    if selected.Some? && Recurring(selected.value) then ReadRule(selected.value.rule.value, readDate) else Ok(DefaultRule)
  }

  // ---- Writing the rule (`getFormattedData`) ----

  /** One `KEY=value` component of a rule. */
  function Component(key: string, value: string): string {
    key + "=" + value
  }

  /** The rule text `getFormattedData` builds while recurrence is on. */
  function RuleText(field: RuleField): string {
    var frequency := if field.Parts? && field.frequency.Some? then field.frequency.value else "undefined";
    var interval := if field.Parts? then IntervalText(field.interval) else "undefined";
    var until := if field.Parts? && field.until.Some? then ";" + Component("UNTIL", MomentText(field.until.value)) else "";
    Component("FREQ", frequency) + ";" + Component("INTERVAL", interval) + until
  }

  lemma PaddedDigits(n: nat, w: nat)
    ensures AllDigits(Padded(n, w))
    decreases w
  {
    if |NatText(n)| < w {
      PaddedDigits(n, w - 1);
    }
  }

  lemma DbStringPlain(y: string, mo: string, d: string, h: string, mi: string, sec: string)
    requires Plain(y) && Plain(mo) && Plain(d) && Plain(h) && Plain(mi) && Plain(sec)
    ensures Plain(DbString(y, mo, d, h, mi, sec))
  {
  }

  /** The database form of a time holds neither separator of a rule. */
  lemma MomentTextPlain(m: Moment)
    ensures Plain(MomentText(m))
  {
    if m.Valid? && ValidTime(m.t) {
      var t := m.t;
      PaddedDigits(t.date.month, 2); PaddedDigits(t.date.day, 2);
      PaddedDigits(t.hour, 2); PaddedDigits(t.minute, 2); PaddedDigits(t.second, 2);
      assert Plain(IntText(t.date.year));
      DbStringPlain(IntText(t.date.year), Padded(t.date.month, 2), Padded(t.date.day, 2),
                    Padded(t.hour, 2), Padded(t.minute, 2), Padded(t.second, 2));
    }
  }

  lemma ValueOfPair(k: string, v: string)
    requires '=' !in k && '=' !in v
    ensures ValueOf(Component(k, v)) == Some(v)
  {
    SplitPrefix(k, v, '=');
    SplitNone(v, '=');
  }

  /** The three components of a written rule. */
  lemma RuleTextComponents(f: string, n: nat, until: Option<Moment>)
    requires Plain(f)
    ensures var cs := Split(RuleText(Parts(Some(f), Number(n), until)), ';');
            |cs| >= 2 && cs[0] == Component("FREQ", f) && cs[1] == Component("INTERVAL", NatText(n))
            && (until.None? ==> |cs| == 2)
            && (until.Some? ==> |cs| == 3 && cs[2] == Component("UNTIL", MomentText(until.value)))
  {
    var x, y := Component("FREQ", f), Component("INTERVAL", NatText(n));
    assert IntervalText(Number(n)) == NatText(n);
    PlainComponent("FREQ", f);
    PlainComponent("INTERVAL", NatText(n));
    if until.Some? {
      var z := Component("UNTIL", MomentText(until.value));
      MomentTextPlain(until.value);
      PlainComponent("UNTIL", MomentText(until.value));
      assert RuleText(Parts(Some(f), Number(n), until)) == x + [';'] + y + [';'] + z;
      SplitThree(x, y, z, ';');
    } else {
      assert RuleText(Parts(Some(f), Number(n), until)) == x + [';'] + y;
      SplitPrefix(x, y, ';');
      SplitNone(y, ';');
    }
  }

  /**
   * Frequency and interval survive a save and a reopening: the editor reads back the lowercase
   * frequency and the whole-number interval it wrote, and an end date comes back as whatever
   * dayjs makes of the written database form.
   */
  lemma RuleRoundTrip(f: string, n: nat, until: Option<Moment>, readDate: Option<string> -> Moment)
    requires Plain(f) && f != "" && LessonEdits.Lower(f) == f
    ensures ReadRule(RuleText(Parts(Some(f), Number(n), until)), readDate)
            == Ok(Parts(Some(f), Number(n), if until.Some? then Some(readDate(Some(MomentText(until.value)))) else None))
  {
    var cs := Split(RuleText(Parts(Some(f), Number(n), until)), ';');
    RuleTextComponents(f, n, until);
    ValueOfPair("FREQ", f);
    ValueOfPair("INTERVAL", NatText(n));
    ParseIntNatText(n);
    assert ValueOf(cs[0]) == Some(f) && ParseInt(ValueOf(cs[1])) == Number(n);
    if until.Some? {
      MomentTextPlain(until.value);
      ValueOfPair("UNTIL", MomentText(until.value));
      assert cs[2] != "" && ValueOf(cs[2]) == Some(MomentText(until.value));
    }
  }

  lemma UntilTextEntry(text: string, t: PyDateTime)
    requires '=' !in text && StringToDateTime(text) == Some(t)
    ensures ParseEntry(Component("UNTIL", text)) == Ok(Entry("UNTIL", At(t)))
  {
    SplitPrefix("UNTIL", text, '=');
    SplitNone(text, '=');
  }

  lemma ThreeEntries(cs: seq<string>, e0: Entry, e1: Entry, e2: Entry)
    requires |cs| == 3 && ParseEntry(cs[0]) == Ok(e0) && ParseEntry(cs[1]) == Ok(e1) && ParseEntry(cs[2]) == Ok(e2)
    ensures ParseEntries(cs) == Ok([e0, e1, e2])
  {
    assert forall i :: 0 <= i < |cs| ==> ParseEntry(cs[i]).Ok? by {
      forall i | 0 <= i < |cs| ensures ParseEntry(cs[i]).Ok? {
        assert i == 0 || i == 1 || i == 2;
      }
    }
    var r := ParseEntries(cs).value;
    assert r[0] == e0 && r[1] == e1 && r[2] == e2;
    assert r == [e0, e1, e2];
  }

  /**
   * The backend reads a rule the editor wrote (with an end date in a four-digit year) as FREQ and
   * INTERVAL texts and the end's date and time, in that order.
   */
  lemma BackendReadsRule(f: string, n: nat, t: DateTime)
    requires Plain(f) && ValidTime(t) && 1000 <= t.date.year <= 9999
    ensures ParseRule(RuleText(Parts(Some(f), Number(n), Some(Valid(t))))) ==
            Ok([Entry("FREQ", Text(f)), Entry("INTERVAL", Text(NatText(n))), Entry("UNTIL", At(t.(micro := 0)))])
  {
    var rule := RuleText(Parts(Some(f), Number(n), Some(Valid(t))));
    var entries := [Entry("FREQ", Text(f)), Entry("INTERVAL", Text(NatText(n))), Entry("UNTIL", At(t.(micro := 0)))];
    WrittenEntries(f, n, t);
    CollectThree(entries);
    ParseRuleOfEntries(rule, entries);
  }

  lemma WrittenEntries(f: string, n: nat, t: DateTime)
    requires Plain(f) && ValidTime(t) && 1000 <= t.date.year <= 9999
    ensures ParseEntries(Split(RuleText(Parts(Some(f), Number(n), Some(Valid(t)))), ';')) ==
            Ok([Entry("FREQ", Text(f)), Entry("INTERVAL", Text(NatText(n))), Entry("UNTIL", At(t.(micro := 0)))])
  {
    var cs := Split(RuleText(Parts(Some(f), Number(n), Some(Valid(t)))), ';');
    RuleTextComponents(f, n, Some(Valid(t)));
    ComponentEntries(f, n, t);
    ThreeEntries(cs, Entry("FREQ", Text(f)), Entry("INTERVAL", Text(NatText(n))), Entry("UNTIL", At(t.(micro := 0))));
  }

  lemma CollectThree(entries: seq<Entry>)
    requires |entries| == 3 && entries[0].key == "FREQ" && entries[1].key == "INTERVAL" && entries[2].key == "UNTIL"
    ensures Collect(entries, []) == entries
  {
    CollectDistinct(entries, []);
  }

  lemma ParseRuleOfEntries(rule: string, entries: seq<Entry>)
    requires ParseEntries(Split(rule, ';')) == Ok(entries)
    ensures ParseRule(rule) == Ok(Collect(entries, []))
  {
  }

  lemma ComponentEntries(f: string, n: nat, t: DateTime)
    requires Plain(f) && ValidTime(t) && 1000 <= t.date.year <= 9999
    ensures ParseEntry(Component("FREQ", f)) == Ok(Entry("FREQ", Text(f)))
    ensures ParseEntry(Component("INTERVAL", NatText(n))) == Ok(Entry("INTERVAL", Text(NatText(n))))
    ensures ParseEntry(Component("UNTIL", MomentText(Valid(t)))) == Ok(Entry("UNTIL", At(t.(micro := 0))))
  {
    ParseTextEntry("FREQ", f);
    ParseTextEntry("INTERVAL", NatText(n));
    MomentTextPlain(Valid(t));
    DbTextParse(t);
    UntilTextEntry(MomentText(Valid(t)), t.(micro := 0));
  }

  /**
   * The end date is asked of dayjs with the pattern `YYYYMMDD`, but the editor writes it as the
   * 19 characters `YYYY-MM-DD HH:MM:SS`; it reads back only because that pattern is not applied
   * strictly. The backend reads the same text as the end's date and time.
   */
  lemma UntilFormatMismatch(t: DateTime)
    requires ValidTime(t) && 1000 <= t.date.year <= 9999
    ensures var text := MomentText(Valid(t));
            |text| == 19 && !AllDigits(text) && text[4] == '-' && StringToDateTime(text) == Some(t.(micro := 0))
  {
    DbTextParse(t);
  }

  /**
   * `getFormattedData` writes the text over the parts of the form's own state, so a second call
   * finds no parts: it writes `FREQ=undefined;INTERVAL=undefined` and loses the end date.
   */
  lemma RewrittenRuleLosesParts(field: RuleField)
    ensures RuleText(Written(RuleText(field))) == "FREQ=undefined;INTERVAL=undefined"
  {
  }

  // ---- The form ----

  /** The keys of the plain inputs. */
  predicate ValueField(field: string) {
    field in {"title", "description", "tutor_id", "student_id", "location_id", "subject_id"}
  }

  /**
   * `lesson`: the plain inputs by key, the date, the pair of start and end times (dayjs values
   * that carry a day of their own), and the rule.
   */
  datatype Form = Form(values: Body, date: Option<Date>, time: Option<(DateTime, DateTime)>, rule: RuleField)

  predicate ValidForm(form: Form) {
    (form.date.Some? ==> ValidDate(form.date.value))
    && (form.time.Some? ==> ValidTime(form.time.value.0) && ValidTime(form.time.value.1))
  }

  /** `handleValidateData`: every required input is truthy. */
  function Complete(form: Form): (r: bool)
    ensures r ==> form.date.Some? && form.time.Some?
    ensures r <==> form.date.Some? && form.time.Some?
                   && forall k :: k in ["title", "subject_id", "student_id", "tutor_id", "location_id"] ==> Truthy(GetOrNull(form.values, k))
  {
    Truthy(GetOrNull(form.values, "title")) && Truthy(GetOrNull(form.values, "subject_id"))
    && Truthy(GetOrNull(form.values, "student_id")) && Truthy(GetOrNull(form.values, "tutor_id"))
    && Truthy(GetOrNull(form.values, "location_id")) && form.date.Some? && form.time.Some?
  }

  /**
   * What `getFormattedData` returns: the form's values, the rule text, and both times in database
   * form. The source's object also carries the pickers' own `date` and `time` values; no handler
   * of the server reads those two keys, and the modify routes send only modified fields, which
   * never include them, so they are not part of this body.
   */
  function Content(form: Form, ruleText: string): (b: Body)
    requires form.date.Some? && form.time.Some? && ValidForm(form)
    ensures forall k :: k in b <==> k in form.values || k in {"recurrence_rule", "start_time", "end_time"}
    ensures forall k :: k in form.values && k !in {"recurrence_rule", "start_time", "end_time"} ==> b[k] == form.values[k]
    ensures "recurrence_rule" in b && "start_time" in b && "end_time" in b
    ensures b["recurrence_rule"] == JStr(ruleText)
    ensures var times := FormattedTime(form.date.value, form.time.value.0, form.time.value.1);
            b["start_time"] == JStr(times.0) && b["end_time"] == JStr(times.1)
  {
    var times := FormattedTime(form.date.value, form.time.value.0, form.time.value.1);
    form.values["recurrence_rule" := JStr(ruleText)]["start_time" := JStr(times.0)]["end_time" := JStr(times.1)]
  }

  // ---- Inputs ----

  /** One call of `handleInputChange`. */
  datatype Edit =
    | SetValue(field: string, value: Json)
    | SetDate(date: Option<Date>)
    | SetTime(time: Option<(DateTime, DateTime)>)
    | SetFrequency(frequency: string)
    | SetInterval(text: string)
    | SetUntil(until: Option<Moment>)

  /** The edits the inputs send: plain fields by their own key, and dates and times from the pickers. */
  predicate WellFormed(e: Edit) {
    match e
    case SetValue(field, _) => ValueField(field)
    case SetDate(d) => d.Some? ==> ValidDate(d.value)
    case SetTime(t) => t.Some? ==> ValidTime(t.value.0) && ValidTime(t.value.1)
    case SetUntil(u) => u.Some? && u.value.Valid? ==> ValidTime(u.value.t)
    case _ => true
  }

  /** The day the end date is compared with: the opened lesson's start, else the chosen start time's. */
  function LessonDay(selected: Option<LessonItem>, form: Form): Option<Date> {
    if selected.Some? then Some(selected.value.start.date)
    else if form.time.Some? then Some(form.time.value.0.date)
    else None
  }

  /** The day `new Date(value).setHours(0, 0, 0, 0)` stands for: 1970-01-01 for `null`, none for an invalid date. */
  function DayOfValue(value: Option<Moment>): Option<Date> {
    if value.None? then Some(Date(1970, 1, 1))
    else if value.value.Valid? then Some(value.value.t.date)
    else None
  }

  /** Whether an end-date edit is applied: it clears an existing end date, or falls on or after the lesson's day. */
  predicate UntilAccepted(rule: RuleField, day: Option<Date>, value: Option<Moment>) {
    (value.None? && rule.Parts? && rule.until.Some?)
    || (day.Some? && DayOfValue(value).Some? && ValidDate(day.value) && ValidDate(DayOfValue(value).value)
        && DayNumber(DayOfValue(value).value) >= DayNumber(day.value))
  }

  /** `{ ...lesson.recurrence_rule, [subField]: value }`; spreading a written text keeps none of the parts. */
  function WithFrequency(rule: RuleField, f: string): RuleField {
    if rule.Parts? then rule.(frequency := Some(f)) else Parts(Some(f), Undefined, None)
  }

  function WithInterval(rule: RuleField, text: string): RuleField {
    if rule.Parts? then rule.(interval := Typed(text)) else Parts(None, Typed(text), None)
  }

  function WithUntil(rule: RuleField, u: Option<Moment>): RuleField {
    if rule.Parts? then rule.(until := u) else Parts(None, Undefined, u)
  }

  /** The form after an edit. */
  function NextForm(form: Form, e: Edit, day: Option<Date>): Form {
    match e
    case SetValue(field, v) => form.(values := form.values[field := v])
    case SetDate(d) => form.(date := d)
    case SetTime(t) => form.(time := t)
    case SetFrequency(f) => form.(rule := WithFrequency(form.rule, f))
    case SetInterval(s) => form.(rule := WithInterval(form.rule, s))
    case SetUntil(u) => if UntilAccepted(form.rule, day, u) then form.(rule := WithUntil(form.rule, u)) else form
  }

  /** The key an edit names: `field`, with the three rule inputs all under `recurrence_rule`. */
  function FieldOf(e: Edit): string {
    match e
    case SetValue(field, _) => field
    case SetDate(_) => "date"
    case SetTime(_) => "time"
    case _ => "recurrence_rule"
  }

  /** What an edit appends to `modifiedFields`: both times for a date or time, else the edit's key. */
  function AddedFields(e: Edit): seq<string> {
    if e.SetDate? || e.SetTime? then ["start_time", "end_time"] else [FieldOf(e)]
  }

  /**
   * `clashDetails`: the tutor, the student and the proposed times sent to the clash check;
   * `times` is `None` while they are still the opened lesson's own (or unset for a new lesson).
   */
  datatype Clash = Clash(tutor: Json, student: Json, times: Option<(string, string)>)

  /**
   * The clash details after an edit. A date or time edit recomputes the times when the form then
   * has both a date and a time; a cleared date counts as 1970-01-01, and a cleared time throws a
   * `TypeError` before the details are stored, leaving them as they were.
   */
  function NextClash(clash: Clash, form: Form, e: Edit): (r: Clash)
    requires WellFormed(e) && ValidForm(form)
    ensures r.times != clash.times ==> (e.SetDate? && form.time.Some?) || (e.SetTime? && e.time.Some? && form.date.Some?)
    ensures (r.tutor != clash.tutor ==> e == SetValue("tutor_id", r.tutor))
            && (r.student != clash.student ==> e == SetValue("student_id", r.student))
  {
    match e
    case SetValue(field, v) =>
      if field == "tutor_id" then clash.(tutor := v)
      else if field == "student_id" then clash.(student := v)
      else clash
    case SetDate(d) =>
      if form.time.Some? then
        var day := if d.Some? then d.value else Date(1970, 1, 1);
        clash.(times := Some(FormattedTime(day, form.time.value.0, form.time.value.1)))
      else clash
    case SetTime(t) =>
      if form.date.Some? && t.Some? then clash.(times := Some(FormattedTime(form.date.value, t.value.0, t.value.1)))
      else clash
    case _ => clash
  }

  // ---- Where Save and Delete lead ----

  /** Whether the all-or-one question is asked: a recurring lesson whose rule is untouched and that is not an exception. */
  predicate AsksAllOrOne(selected: LessonItem, modifiedFields: seq<string>) {
    Recurring(selected) && "recurrence_rule" !in modifiedFields && !IsException(selected)
  }

  datatype DeleteChoice = DeleteRecurring | DeleteSingle

  /** The Delete button. */
  function DeleteChoiceOf(selected: LessonItem, modifiedFields: seq<string>): (r: DeleteChoice)
    ensures r == DeleteRecurring <==> AsksAllOrOne(selected, modifiedFields)
  {
    if AsksAllOrOne(selected, modifiedFields) then DeleteRecurring else DeleteSingle
  }

  /** While the rule is untouched, the editor's Delete asks the same question as the calendar's context menu. */
  lemma DeleteAgreesWithMenu(selected: LessonItem, modifiedFields: seq<string>)
    requires "recurrence_rule" !in modifiedFields
    ensures (DeleteChoiceOf(selected, modifiedFields) == DeleteRecurring) <==>
            CalendarView.MenuClick("delete", selected).ConfirmDeleteRecurring?
  {
  }

  /** Where "Save changes" leads. */
  datatype SaveRoute =
    | Disabled                  // nothing was modified: the button is disabled
    | Incomplete                // a required input is missing: nothing is sent
    | AllOrOne                  // ask: all occurrences (series edit) or only this one (occurrence edit)
    | OccurrenceEdit            // an exception is edited on its own
    | ConfirmRecurrenceChange   // ask to confirm, then a series edit with both times
    | SeriesEdit                // a series edit with both times

  function SaveRouteOf(selected: LessonItem, form: Form, modifiedFields: seq<string>, modifiedRecurrenceType: bool): (r: SaveRoute)
    ensures r == Disabled <==> modifiedFields == []
    ensures r == Incomplete <==> modifiedFields != [] && !Complete(form)
    ensures r == AllOrOne <==> modifiedFields != [] && Complete(form) && AsksAllOrOne(selected, modifiedFields)
    ensures r == OccurrenceEdit <==>
              modifiedFields != [] && Complete(form) && !AsksAllOrOne(selected, modifiedFields) && IsException(selected)
    ensures r == ConfirmRecurrenceChange <==>
              modifiedFields != [] && Complete(form) && !AsksAllOrOne(selected, modifiedFields) && !IsException(selected)
              && modifiedRecurrenceType
  {
    if modifiedFields == [] then Disabled
    else if !Complete(form) then Incomplete
    else if AsksAllOrOne(selected, modifiedFields) then AllOrOne
    else if IsException(selected) then OccurrenceEdit
    else if modifiedRecurrenceType then ConfirmRecurrenceChange
    else SeriesEdit
  }

  /** The header every series edit of the editor carries. */
  function SeriesHeader(selected: LessonItem): Body {
    map["lesson_occurrence_id" := JInt(selected.id), "update_type" := JStr("MODIFY")]
  }

  /**
   * The series edit sent after a recurrence change or from a lesson that is not asked about:
   * the modified fields plus both times, so the new series starts at this occurrence.
   */
  function SeriesEditBody(selected: LessonItem, content: Body, modifiedFields: seq<string>): Body {
    ModifyLessonBody(SeriesHeader(selected), Some(content), modifiedFields + ["start_time", "end_time"])
  }

  /** A series edit from the Save button always carries the content's start and end times. */
  lemma SeriesEditSendsTimes(selected: LessonItem, content: Body, modifiedFields: seq<string>)
    requires "start_time" in content && "end_time" in content
    ensures var b := SeriesEditBody(selected, content, modifiedFields);
            "start_time" in b && b["start_time"] == content["start_time"]
            && "end_time" in b && b["end_time"] == content["end_time"]
  {
    var keys := modifiedFields + ["start_time", "end_time"];
    assert "start_time" in keys && "end_time" in keys;
  }

  /**
   * "Edit all lesson occurrences" after changing only the title sends no times and no rule, so
   * `update_lesson` updates the series in place without moving any occurrence.
   */
  lemma TitleOnlyUpdatesSeries(selected: LessonItem, content: Body, lesson: Tables.Lesson, current: DateTime)
    requires "title" in content && lesson.recurrenceRule != ""
    ensures LessonEdits.RouteUpdate(ModifyLessonBody(SeriesHeader(selected), Some(content), ["title"]), Some(lesson), Some(current))
            == LessonEdits.UpdateRecurring
  {
    var b := ModifyLessonBody(SeriesHeader(selected), Some(content), ["title"]);
    var d := LessonEdits.LessonData(b);
    assert d.Keys == {"title"};
    assert "recurrence_rule" !in d && "start_time" !in d;
  }

  /**
   * An end date before the lesson's day is refused and leaves the form as it was, yet the edit
   * is still recorded under `recurrence_rule`: from then on Save no longer asks "all or one" and
   * Delete opens the single-lesson dialog, although the rule is unchanged.
   */
  lemma RefusedUntilStillMarksRule(selected: LessonItem, form: Form, modifiedFields: seq<string>,
                                   u: Option<Moment>, modifiedRecurrenceType: bool)
    requires !UntilAccepted(form.rule, LessonDay(Some(selected), form), u)
    ensures NextForm(form, SetUntil(u), LessonDay(Some(selected), form)) == form
    ensures var fields := modifiedFields + AddedFields(SetUntil(u));
            DeleteChoiceOf(selected, fields) == DeleteSingle
            && SaveRouteOf(selected, form, fields, modifiedRecurrenceType) != AllOrOne
  {
    var fields := modifiedFields + AddedFields(SetUntil(u));
    assert fields[|fields| - 1] == "recurrence_rule";
  }

  /** An end-date edit that is applied either clears an end date that was set or falls on or after the lesson's day. */
  lemma UntilEditOutcome(form: Form, day: Option<Date>, u: Option<Moment>)
    requires NextForm(form, SetUntil(u), day) != form
    ensures var next := NextForm(form, SetUntil(u), day);
            next.values == form.values && next.date == form.date && next.time == form.time
            && next.rule.Parts? && next.rule.until == u
            && (u.None? ==> (form.rule.Parts? && form.rule.until.Some?)
                            || (day.Some? && ValidDate(day.value) && DayNumber(day.value) <= DayNumber(Date(1970, 1, 1))))
            && (u.Some? ==> u.value.Valid? && day.Some? && ValidDate(day.value) && ValidDate(u.value.t.date)
                            && DayNumber(u.value.t.date) >= DayNumber(day.value))
  {
  }

  // ---- The editor's state ----

  /**
   * The state of an open editor: the lesson it was opened on (none for a new lesson), the form,
   * the clash details, the recurrence switch and what has been modified.
   */
  class Editor {
    const selected: Option<LessonItem>
    var form: Form
    var clash: Clash
    var useRecurrence: bool
    var modifiedFields: seq<string>
    var modifiedRecurrenceType: bool
    var modifiedLessonDate: bool

    predicate Valid()
      reads this
    {
      ValidForm(form)
    }

    /**
     * Opening the editor: the rule is read from the lesson when it has one, recurrence is on
     * exactly for a lesson with a rule, and nothing is modified yet.
     */
    constructor (selected: Option<LessonItem>, values: Body, date: Option<Date>, time: Option<(DateTime, DateTime)>,
                 readDate: Option<string> -> Moment)
      requires InitialRule(selected, readDate).Ok?
      requires ValidForm(Form(values, date, time, DefaultRule))
      ensures Valid()
      ensures this.selected == selected
      ensures form == Form(values, date, time, InitialRule(selected, readDate).value)
      ensures clash == (if selected.Some? then Clash(JInt(selected.value.tutor), JInt(selected.value.student), None)
                        else Clash(JNull, JNull, None))
      ensures useRecurrence == (selected.Some? && Recurring(selected.value))
      ensures modifiedFields == [] && !modifiedRecurrenceType && !modifiedLessonDate
    {
      this.selected := selected;
      form := Form(values, date, time, InitialRule(selected, readDate).value);
      clash := if selected.Some? then Clash(JInt(selected.value.tutor), JInt(selected.value.student), None)
               else Clash(JNull, JNull, None);
      useRecurrence := selected.Some? && Recurring(selected.value);
      modifiedFields := [];
      modifiedRecurrenceType := false;
      modifiedLessonDate := false;
    }

    /** `handleInputChange`. */
    method InputChange(e: Edit)
      requires Valid() && WellFormed(e)
      modifies this
      ensures Valid()
      ensures form == NextForm(old(form), e, LessonDay(selected, old(form)))
      ensures clash == NextClash(old(clash), old(form), e)
      ensures modifiedFields == old(modifiedFields) + AddedFields(e)
      ensures modifiedRecurrenceType == (old(modifiedRecurrenceType) || e.SetFrequency? || e.SetInterval?)
      ensures modifiedLessonDate == (old(modifiedLessonDate) || e.SetDate?)
      ensures useRecurrence == old(useRecurrence)
    {
      var before := form;
      form := NextForm(form, e, LessonDay(selected, form));
      if e.SetFrequency? || e.SetInterval? {
        modifiedRecurrenceType := true;
      }
      if e.SetDate? {
        modifiedLessonDate := true;
      }
      modifiedFields := modifiedFields + AddedFields(e);
      clash := NextClash(clash, before, e);
    }

    /** The recurrence switch: the rule counts as modified whichever way it is turned. */
    method ToggleRecurrence(on: bool)
      modifies this
      ensures useRecurrence == on
      ensures modifiedFields == old(modifiedFields) + ["recurrence_rule"]
      ensures form == old(form) && clash == old(clash)
      ensures modifiedRecurrenceType == old(modifiedRecurrenceType) && modifiedLessonDate == old(modifiedLessonDate)
    {
      useRecurrence := on;
      modifiedFields := modifiedFields + ["recurrence_rule"];
    }

    /**
     * `getFormattedData`: the content of a request. The rule text (empty with recurrence off) is
     * written into the form's own rule, so the parts the inputs edit are gone afterwards.
     */
    method FormattedData() returns (body: Body)
      requires Valid() && Complete(form)
      modifies this
      ensures var text := if useRecurrence then RuleText(old(form).rule) else "";
              form == old(form).(rule := Written(text)) && body == Content(old(form), text)
      ensures Valid() && Complete(form)
      ensures clash == old(clash) && modifiedFields == old(modifiedFields) && useRecurrence == old(useRecurrence)
      ensures modifiedRecurrenceType == old(modifiedRecurrenceType) && modifiedLessonDate == old(modifiedLessonDate)
    {
      var text := if useRecurrence then RuleText(form.rule) else "";
      form := form.(rule := Written(text));
      body := Content(form, text);
    }

    /** `handleAddLesson`: the content is sent only when the form is complete. */
    method AddLesson() returns (sent: Option<Body>)
      requires Valid()
      modifies this
      ensures sent.Some? <==> Complete(old(form))
      ensures var text := if useRecurrence then RuleText(old(form).rule) else "";
              sent.Some? ==> sent.value == Content(old(form), text) && form == old(form).(rule := Written(text))
      ensures sent.None? ==> form == old(form)
      ensures clash == old(clash) && modifiedFields == old(modifiedFields) && useRecurrence == old(useRecurrence)
      ensures modifiedRecurrenceType == old(modifiedRecurrenceType) && modifiedLessonDate == old(modifiedLessonDate)
      ensures Valid()
    {
      if Complete(form) {
        var body := FormattedData();
        sent := Some(body);
      } else {
        sent := None;
      }
    }
  }

  /**
   * The content of a second request from the same editor (a second click before it closes)
   * carries `FREQ=undefined;INTERVAL=undefined` with recurrence on, whatever the rule was.
   */
  lemma SecondContentLosesRule(form: Form)
    requires ValidForm(form) && Complete(form)
    ensures var first := form.(rule := Written(RuleText(form.rule)));
            Content(first, RuleText(first.rule))["recurrence_rule"] == JStr("FREQ=undefined;INTERVAL=undefined")
  {
    RewrittenRuleLosesParts(form.rule);
  }
}
