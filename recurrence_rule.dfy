/**
 * The recurrence rule text a lesson stores, `KEY=VALUE;KEY=VALUE;…`
 * (Backend/main.py:158-170). It is a simplified RRULE in the spirit of
 * section 3.3.10 of RFC 5545: FREQ is `daily`, `weekly` or `monthly` in
 * lower case and UNTIL is written `YYYY-MM-DD HH:MM:SS`.
 *
 * `parse_recurrence_rule` builds a Python dict, so a later duplicate key
 * overwrites the earlier value but keeps the earlier position.
 */
module RecurrenceRule {
  import opened Wrappers
  import opened CivilTime
  import opened DateText

  /** A date-time Python's `datetime` can hold. */
  type PyDateTime = t: DateTime | ValidTime(t) && t.date.year >= 1
    witness DateTime(Date(1970, 1, 1), 0, 0, 0, 0)

  /** A rule value: the text after `=`, the `datetime` an UNTIL text is read into, or Python's `None`. */
  datatype RuleValue = Text(text: string) | At(time: PyDateTime) | NoneValue

  datatype Entry = Entry(key: string, value: RuleValue)

  /** A dict in insertion order. */
  type Rule = seq<Entry>

  function Keys(d: Rule): (ks: seq<string>)
    ensures |ks| == |d| && forall i :: 0 <= i < |d| ==> ks[i] == d[i].key
  {
    if d == [] then [] else [d[0].key] + Keys(d[1..])
  }

  predicate Distinct(ks: seq<string>) {
    forall i, j :: 0 <= i < j < |ks| ==> ks[i] != ks[j]
  }

  /** `rule_dict.get(key)`. */
  function Get(d: Rule, k: string): (r: Option<RuleValue>)
    ensures r.Some? <==> k in Keys(d)
  {
    if d == [] then None else if d[0].key == k then Some(d[0].value) else Get(d[1..], k)
  }

  /** `rule_dict[key] = value`: overwrite in place when the key is present, else append. */
  function Put(d: Rule, k: string, v: RuleValue): (r: Rule)
    ensures k in Keys(d) ==> Keys(r) == Keys(d)
    ensures k !in Keys(d) ==> r == d + [Entry(k, v)]
    ensures Get(r, k) == Some(v)
  {
    if d == [] then [Entry(k, v)]
    else if d[0].key == k then [Entry(k, v)] + d[1..]
    else
      var rest := Put(d[1..], k, v);
      PutBehind(d, k, v, rest);
      [d[0]] + rest
  }

  /** The step of `Put` past an entry with another key keeps its contract. */
  lemma PutBehind(d: Rule, k: string, v: RuleValue, rest: Rule)
    requires d != [] && d[0].key != k
    requires k in Keys(d[1..]) ==> Keys(rest) == Keys(d[1..])
    requires k !in Keys(d[1..]) ==> rest == d[1..] + [Entry(k, v)]
    requires Get(rest, k) == Some(v)
    ensures k in Keys(d) ==> Keys([d[0]] + rest) == Keys(d)
    ensures k !in Keys(d) ==> [d[0]] + rest == d + [Entry(k, v)]
    ensures Get([d[0]] + rest, k) == Some(v)
  {
    var e, t := d[0], d[1..];
    assert [e] + t == d;
    KeysCons(e, t);
    GetCons(e, rest, k);
    if k in Keys(t) {
      KeysCons(e, rest);
    } else {
      assert k !in Keys(d);
      assert [e] + (t + [Entry(k, v)]) == d + [Entry(k, v)];
    }
  }

  lemma KeysCons(e: Entry, s: Rule)
    ensures Keys([e] + s) == [e.key] + Keys(s)
  {
    assert ([e] + s)[1..] == s;
  }

  lemma GetCons(e: Entry, s: Rule, k: string)
    requires e.key != k
    ensures Get([e] + s, k) == Get(s, k)
  {
    assert ([e] + s)[1..] == s;
  }

  // ---- str.split and str.join ----

  /** Python's `s.split(c)`: the pieces between occurrences of `c`, always at least one. */
  function Split(s: string, c: char): (parts: seq<string>)
    ensures |parts| >= 1
    ensures forall i :: 0 <= i < |parts| ==> c !in parts[i]
  {
    if |s| == 0 then [""]
    else
      var rest := Split(s[1..], c);
      if s[0] == c then [""] + rest else [[s[0]] + rest[0]] + rest[1..]
  }

  /** Python's `c.join(parts)`. */
  function Join(parts: seq<string>, c: char): string {
    if |parts| == 0 then "" else if |parts| == 1 then parts[0] else parts[0] + [c] + Join(parts[1..], c)
  }

  function Count(s: string, c: char): nat {
    if s == [] then 0 else (if s[0] == c then 1 else 0) + Count(s[1..], c)
  }

  /** Joining the pieces of a split gives back the text. */
  lemma {:induction false} JoinSplit(s: string, c: char)
    ensures Join(Split(s, c), c) == s
  {
    if |s| > 0 {
      JoinSplit(s[1..], c);
      var rest := Split(s[1..], c);
      if s[0] == c {
        assert Split(s, c) == [""] + rest;
        assert ([""] + rest)[1..] == rest;
      } else if |rest| > 1 {
        var parts := Split(s, c);
        assert parts[1..] == rest[1..];
        assert Join(rest, c) == rest[0] + [c] + Join(rest[1..], c);
      }
      assert s == [s[0]] + s[1..];
    }
  }

  /** A text splits into one more piece than it has separators. */
  lemma {:induction false} SplitCount(s: string, c: char)
    ensures |Split(s, c)| == Count(s, c) + 1
  {
    if |s| > 0 { SplitCount(s[1..], c); }
  }

  /** A text splits into several pieces exactly when it holds the separator. */
  lemma {:induction false} SplitSeveral(s: string, c: char)
    ensures |Split(s, c)| >= 2 <==> c in s
  {
    if |s| > 0 {
      SplitSeveral(s[1..], c);
      assert c in s <==> s[0] == c || c in s[1..];
    }
  }

  /** Splitting at a first separator peels off the text before it. */
  lemma {:induction false} SplitPrefix(a: string, b: string, c: char)
    requires c !in a
    ensures Split(a + [c] + b, c) == [a] + Split(b, c)
  {
    var s := a + [c] + b;
    if a == [] {
      assert s[0] == c && s[1..] == b;
    } else {
      SplitPrefix(a[1..], b, c);
      assert s[0] == a[0] && s[0] != c;
      assert s[1..] == a[1..] + [c] + b;
      assert [a[0]] + a[1..] == a;
    }
  }

  lemma {:induction false} SplitNone(a: string, c: char)
    requires c !in a
    ensures Split(a, c) == [a]
  {
    if a != [] {
      assert a[0] != c;
      assert c !in a[1..];
      SplitNone(a[1..], c);
      assert [a[0]] + a[1..] == a;
    }
  }

  /** Splitting a join of separator-free pieces gives the pieces back. */
  lemma {:induction false} SplitJoin(parts: seq<string>, c: char)
    requires |parts| >= 1 && forall i :: 0 <= i < |parts| ==> c !in parts[i]
    ensures Split(Join(parts, c), c) == parts
  {
    if |parts| == 1 {
      SplitNone(parts[0], c);
    } else {
      SplitJoin(parts[1..], c);
      SplitPrefix(parts[0], Join(parts[1..], c), c);
      assert [parts[0]] + parts[1..] == parts;
    }
  }

  // ---- parse_recurrence_rule ----

  datatype RuleError = NotKeyValue(component: string) | BadUntil(text: string)

  function KeyOf(component: string): string {
    Split(component, '=')[0]
  }

  /** `key, value = component.split('=')`, reading an UNTIL value with `string_to_datetime`. */
  function ParseEntry(component: string): (r: Result<Entry, RuleError>)
    ensures r.Ok? ==> Count(component, '=') == 1 && r.value.key == KeyOf(component)
  {
    var parts := Split(component, '=');
    SplitCount(component, '=');
    if |parts| != 2 then Err(NotKeyValue(component))
    else if parts[0] == "UNTIL" then
      match StringToDateTime(parts[1])
      case Some(t) => Ok(Entry("UNTIL", At(t)))
      case None => Err(BadUntil(parts[1]))
    else Ok(Entry(parts[0], Text(parts[1])))
  }

  /** The loop body for each component in turn; the first failing component raises. */
  function ParseEntries(components: seq<string>): (r: Result<seq<Entry>, RuleError>)
    ensures r.Ok? <==> forall i :: 0 <= i < |components| ==> ParseEntry(components[i]).Ok?
    ensures r.Ok? ==> |r.value| == |components|
                      && forall i :: 0 <= i < |components| ==> r.value[i] == ParseEntry(components[i]).value
  {
    if components == [] then Ok([])
    else
      var e :- ParseEntry(components[0]);
      var rest :- ParseEntries(components[1..]);
      Ok([e] + rest)
  }

  /** `rule_dict[key] = value` for each entry in turn. */
  function Collect(entries: seq<Entry>, acc: Rule): Rule {
    if entries == [] then acc else Collect(entries[1..], Put(acc, entries[0].key, entries[0].value))
  }

  /**
   * `parse_recurrence_rule`; an `Err` is the `ValueError` the source raises. Reading every component
   * before filling the dict raises on the same first bad component as the source's single loop.
   */
  function ParseRule(rule: string): Result<Rule, RuleError> {
    var entries :- ParseEntries(Split(rule, ';'));
    Ok(Collect(entries, []))
  }

  // ---- format_recurrence_rule ----

  /** `f'{value}'`: a `datetime` prints as `str()` does and `None` as `None`. */
  function ValueText(v: RuleValue): string {
    match v
    case Text(s) => s
    case At(t) => PyText(t)
    case NoneValue => "None"
  }

  function EntryText(e: Entry): string {
    e.key + "=" + ValueText(e.value)
  }

  function EntryTexts(d: Rule): (ts: seq<string>)
    ensures |ts| == |d| && forall i :: 0 <= i < |d| ==> ts[i] == EntryText(d[i])
  {
    if d == [] then [] else [EntryText(d[0])] + EntryTexts(d[1..])
  }

  /** `format_recurrence_rule`. */
  function FormatRule(d: Rule): string {
    Join(EntryTexts(d), ';')
  }

  // ---- Round trip ----

  function ComponentKeys(components: seq<string>): (ks: seq<string>)
    ensures |ks| == |components| && forall i :: 0 <= i < |ks| ==> ks[i] == KeyOf(components[i])
  {
    if components == [] then [] else [KeyOf(components[0])] + ComponentKeys(components[1..])
  }

  /** A component whose UNTIL value, if it is one, is written the way `str()` prints a whole-second `datetime`. */
  predicate PrintedForm(component: string) {
    var parts := Split(component, '=');
    |parts| == 2 && (parts[0] == "UNTIL" ==> DbForm(parts[1]))
  }

  lemma PutNew(acc: Rule, e: Entry)
    requires e.key !in Keys(acc)
    ensures Put(acc, e.key, e.value) == acc + [e]
  {
  }

  lemma ConsAssoc(acc: Rule, entries: seq<Entry>)
    requires entries != []
    ensures (acc + [entries[0]]) + entries[1..] == acc + entries
  {
    assert entries == [entries[0]] + entries[1..];
  }

  /** Filling a dict with entries whose keys are distinct and new appends them in order. */
  lemma {:induction false} CollectDistinct(entries: seq<Entry>, acc: Rule)
    requires forall i, j :: 0 <= i < j < |entries| ==> entries[i].key != entries[j].key
    requires forall i, j :: 0 <= i < |acc| && 0 <= j < |entries| ==> acc[i].key != entries[j].key
    ensures Collect(entries, acc) == acc + entries
  {
    if entries != [] {
      var e, tail := entries[0], entries[1..];
      PutNew(acc, e);
      var acc' := acc + [e];
      forall i, j | 0 <= i < |acc'| && 0 <= j < |tail| ensures acc'[i].key != tail[j].key {
        assert tail[j] == entries[j + 1];
        if i == |acc| { assert acc'[i] == entries[0]; } else { assert acc'[i] == acc[i]; }
      }
      forall i, j | 0 <= i < j < |tail| ensures tail[i].key != tail[j].key {
        assert tail[i] == entries[i + 1] && tail[j] == entries[j + 1];
      }
      assert Collect(entries, acc) == Collect(tail, acc');
      CollectDistinct(tail, acc');
      ConsAssoc(acc, entries);
    }
  }

  /** A parsed component in printed form prints back as itself. */
  lemma EntryPrintBack(component: string)
    requires PrintedForm(component) && ParseEntry(component).Ok?
    ensures EntryText(ParseEntry(component).value) == component
  {
    var parts := Split(component, '=');
    JoinSplit(component, '=');
    assert Join(parts, '=') == parts[0] + "=" + parts[1];
    if parts[0] == "UNTIL" {
      DbFormPrintBack(parts[1]);
    }
  }

  lemma ParsedKeys(cs: seq<string>)
    requires ParseEntries(cs).Ok?
    ensures Keys(ParseEntries(cs).value) == ComponentKeys(cs)
  {
  }

  lemma ParsedTexts(cs: seq<string>)
    requires ParseEntries(cs).Ok?
    requires forall i :: 0 <= i < |cs| ==> PrintedForm(cs[i])
    ensures EntryTexts(ParseEntries(cs).value) == cs
  {
    var ts := EntryTexts(ParseEntries(cs).value);
    forall i | 0 <= i < |cs| ensures ts[i] == cs[i] {
      EntryPrintBack(cs[i]);
    }
  }

  /**
   * `format_recurrence_rule(parse_recurrence_rule(r)) == r` when the keys are distinct and UNTIL, if present,
   * is written `YYYY-MM-DD HH:MM:SS`; the dict keeps the components' key order.
   */
  lemma FormatParse(r: string)
    requires ParseRule(r).Ok?
    requires Distinct(ComponentKeys(Split(r, ';')))
    requires forall i :: 0 <= i < |Split(r, ';')| ==> PrintedForm(Split(r, ';')[i])
    ensures FormatRule(ParseRule(r).value) == r
    ensures Keys(ParseRule(r).value) == ComponentKeys(Split(r, ';'))
  {
    var cs := Split(r, ';');
    var es := ParseEntries(cs).value;
    ParsedKeys(cs);
    forall i, j | 0 <= i < j < |es| ensures es[i].key != es[j].key {
      assert es[i].key == Keys(es)[i] && es[j].key == Keys(es)[j];
    }
    CollectDistinct(es, []);
    assert ParseRule(r).value == es;
    ParsedTexts(cs);
    JoinSplit(r, ';');
  }

  /** A component the loop body accepts: one `=`, and an UNTIL value `string_to_datetime` recognises. */
  predicate ComponentOk(component: string) {
    var parts := Split(component, '=');
    |parts| == 2 && (parts[0] == "UNTIL" ==> StringToDateTime(parts[1]).Some?)
  }

  lemma ComponentOkIff(component: string)
    ensures ParseEntry(component).Ok? <==> ComponentOk(component)
  {
  }

  /** The parse succeeds iff every component is accepted. */
  lemma ParseRuleOk(r: string)
    ensures ParseRule(r).Ok? <==> forall c :: c in Split(r, ';') ==> ComponentOk(c)
  {
    var cs := Split(r, ';');
    assert ParseRule(r).Ok? <==> ParseEntries(cs).Ok?;
    if ParseEntries(cs).Ok? {
      forall c | c in cs ensures ComponentOk(c) {
        ComponentOkIff(c);
      }
    } else {
      var i :| 0 <= i < |cs| && !ParseEntry(cs[i]).Ok?;
      ComponentOkIff(cs[i]);
    }
  }

  /** A component without exactly one `=` makes the parse raise. */
  lemma NotKeyValueRaises(r: string, i: int)
    requires 0 <= i < |Split(r, ';')| && Count(Split(r, ';')[i], '=') != 1
    ensures ParseRule(r).Err?
  {
    var c := Split(r, ';')[i];
    assert !ParseEntry(c).Ok?;
  }

  /** A plain `key=value` component reads as the text after `=`. */
  lemma ParseTextEntry(k: string, v: string)
    requires '=' !in k && '=' !in v && k != "UNTIL"
    ensures ParseEntry(k + "=" + v) == Ok(Entry(k, Text(v)))
  {
    SplitJoin([k, v], '=');
    assert Join([k, v], '=') == k + "=" + v;
  }

  /** Plain text with no separator of either kind. */
  predicate Plain(s: string) {
    ';' !in s && '=' !in s
  }

  lemma JoinTwo(x: string, y: string, c: char)
    ensures Join([x, y], c) == x + [c] + y
  {
    assert [x, y][1..] == [y];
  }

  lemma JoinThree(x: string, y: string, z: string, c: char)
    ensures Join([x, y, z], c) == x + [c] + y + [c] + z
  {
    assert [x, y, z][1..] == [y, z];
    JoinTwo(y, z, c);
  }

  /** A plain `key=value` component has no `;`. */
  lemma PlainComponent(k: string, v: string)
    requires Plain(k) && Plain(v)
    ensures ';' !in k + "=" + v
  {
  }

  /** Three pieces without `c`, joined by `c`, split back into them. */
  lemma SplitThree(x: string, y: string, z: string, c: char)
    requires c !in x && c !in y && c !in z
    ensures Split(x + [c] + y + [c] + z, c) == [x, y, z]
  {
    JoinThree(x, y, z, c);
    SplitJoin([x, y, z], c);
  }

  /** Three plain components in which the key `k` comes back after another key `j`. */
  lemma RepeatedKeyEntries(k: string, j: string, a: string, b: string, c: string)
    requires Plain(k) && Plain(j) && Plain(a) && Plain(b) && Plain(c)
    requires k != "UNTIL" && j != "UNTIL"
    ensures ParseEntries([k + "=" + a, j + "=" + b, k + "=" + c])
            == Ok([Entry(k, Text(a)), Entry(j, Text(b)), Entry(k, Text(c))])
  {
    var cs := [k + "=" + a, j + "=" + b, k + "=" + c];
    ParseTextEntry(k, a);
    ParseTextEntry(j, b);
    ParseTextEntry(k, c);
    assert ParseEntry(cs[0]).Ok? && ParseEntry(cs[1]).Ok? && ParseEntry(cs[2]).Ok?;
    assert forall i :: 0 <= i < |cs| ==> ParseEntry(cs[i]).Ok?;
    assert ParseEntries(cs).Ok?;
    var es := ParseEntries(cs).value;
    assert |es| == 3;
    assert es[0] == Entry(k, Text(a)) && es[1] == Entry(j, Text(b)) && es[2] == Entry(k, Text(c));
    assert es == [Entry(k, Text(a)), Entry(j, Text(b)), Entry(k, Text(c))];
  }

  /** Putting `k`, `j`, `k` in turn into an empty dict. */
  lemma PutRepeated(k: string, j: string, a: RuleValue, b: RuleValue, c: RuleValue)
    requires k != j
    ensures Put([], k, a) == [Entry(k, a)]
    ensures Put([Entry(k, a)], j, b) == [Entry(k, a), Entry(j, b)]
    ensures Put([Entry(k, a), Entry(j, b)], k, c) == [Entry(k, c), Entry(j, b)]
  {
    assert Keys([]) == [];
    assert [] + [Entry(k, a)] == [Entry(k, a)];
    assert Keys([Entry(k, a)]) == [k];
    assert [Entry(k, a)] + [Entry(j, b)] == [Entry(k, a), Entry(j, b)];
    assert [Entry(k, a), Entry(j, b)][1..] == [Entry(j, b)];
  }

  /** Filling a dict with `k`, `j`, `k`: the second `k` overwrites the first in place. */
  lemma CollectRepeated(k: string, j: string, a: RuleValue, b: RuleValue, c: RuleValue)
    requires k != j
    ensures Collect([Entry(k, a), Entry(j, b), Entry(k, c)], []) == [Entry(k, c), Entry(j, b)]
  {
    var es := [Entry(k, a), Entry(j, b), Entry(k, c)];
    PutRepeated(k, j, a, b, c);
    assert es[1..] == [Entry(j, b), Entry(k, c)] && es[2..] == [Entry(k, c)] && es[3..] == [];
    calc {
      Collect(es, []);
      Collect(es[1..], [Entry(k, a)]);
      Collect(es[2..], [Entry(k, a), Entry(j, b)]);
      Collect(es[3..], [Entry(k, c), Entry(j, b)]);
    }
  }

  /**
   * A repeated key keeps its first position and its last value, so a rule such as `F=1;I=2;F=3`
   * reads as `{F: 3, I: 2}` and prints back as `F=3;I=2`.
   */
  lemma RepeatedKey(k: string, j: string, a: string, b: string, c: string)
    requires Plain(k) && Plain(j) && Plain(a) && Plain(b) && Plain(c)
    requires k != "UNTIL" && j != "UNTIL" && k != j
    ensures ParseRule(k + "=" + a + [';'] + j + "=" + b + [';'] + k + "=" + c)
            == Ok([Entry(k, Text(c)), Entry(j, Text(b))])
    ensures FormatRule([Entry(k, Text(c)), Entry(j, Text(b))]) == k + "=" + c + [';'] + j + "=" + b
  {
    var x, y, z := k + "=" + a, j + "=" + b, k + "=" + c;
    var rule := k + "=" + a + [';'] + j + "=" + b + [';'] + k + "=" + c;
    assert rule == x + [';'] + y + [';'] + z;
    PlainComponent(k, a);
    PlainComponent(j, b);
    PlainComponent(k, c);
    SplitThree(x, y, z, ';');
    assert Split(rule, ';') == [x, y, z];
    RepeatedKeyEntries(k, j, a, b, c);
    var es := [Entry(k, Text(a)), Entry(j, Text(b)), Entry(k, Text(c))];
    assert ParseEntries(Split(rule, ';')) == Ok(es);
    CollectRepeated(k, j, Text(a), Text(b), Text(c));
    assert ParseRule(rule) == Ok(Collect(es, []));
    FormatTwo(k, j, b, c);
  }

  lemma FormatTwo(k: string, j: string, b: string, c: string)
    ensures FormatRule([Entry(k, Text(c)), Entry(j, Text(b))]) == k + "=" + c + [';'] + j + "=" + b
  {
    var d := [Entry(k, Text(c)), Entry(j, Text(b))];
    assert EntryTexts(d) == [k + "=" + c, j + "=" + b];
    JoinTwo(k + "=" + c, j + "=" + b, ';');
  }
}
