/**
 * The `{value, label}` options of the searchable multi-selects (the timetable filters and the
 * download menu): shown sorted by label with `localeCompare`, and matched against the search text
 * by a case-insensitive substring test.
 */
module Choices {
  import LessonEdits

  datatype Choice<T> = Choice(value: T, text: string)

  /** The order labels are sorted in: character by character, a prefix first. */
  predicate LabelLe(a: string, b: string) {
    a == [] || (b != [] && (a[0] < b[0] || (a[0] == b[0] && LabelLe(a[1..], b[1..]))))
  }

  /** Any two labels are ordered one way or the other. */
  lemma {:induction false} LabelLeTotal(a: string, b: string)
    ensures LabelLe(a, b) || LabelLe(b, a)
  {
    if a != [] && b != [] && a[0] == b[0] {
      LabelLeTotal(a[1..], b[1..]);
    }
  }

  predicate SortedByLabel<T>(s: seq<Choice<T>>) {
    forall i :: 0 <= i < |s| - 1 ==> LabelLe(s[i].text, s[i + 1].text)
  }

  /** One option placed before the first option whose label it does not follow. */
  function InsertByLabel<T>(x: Choice<T>, s: seq<Choice<T>>): (r: seq<Choice<T>>)
    requires SortedByLabel(s)
    ensures SortedByLabel(r) && multiset(r) == multiset(s) + multiset{x}
    ensures r[0] == x || (s != [] && r[0] == s[0])
  {
    if s == [] then [x]
    else if LabelLe(x.text, s[0].text) then [x] + s
    else
      LabelLeTotal(x.text, s[0].text);
      var rest := InsertByLabel(x, s[1..]);
      assert LabelLe(s[0].text, rest[0].text);
      assert multiset(s) == multiset{s[0]} + multiset(s[1..]) by {
        assert s == [s[0]] + s[1..];
      }
      [s[0]] + rest
  }

  /** `[...options].sort((a, b) => a.text.localeCompare(b.text))`: a sorted copy. */
  function SortByLabel<T>(s: seq<Choice<T>>): (r: seq<Choice<T>>)
    ensures SortedByLabel(r) && multiset(r) == multiset(s)
  {
    if s == [] then []
    else
      assert s == [s[0]] + s[1..];
      InsertByLabel(s[0], SortByLabel(s[1..]))
  }

  /** The options of `s` whose label is `t`, in their order in `s`. */
  function WithLabel<T>(s: seq<Choice<T>>, t: string): (r: seq<Choice<T>>)
    ensures |r| <= |s|
  {
    if s == [] then [] else (if s[0].text == t then [s[0]] else []) + WithLabel(s[1..], t)
  }

  /** Every label is ordered before itself. */
  lemma {:induction false} LabelLeRefl(a: string)
    ensures LabelLe(a, a)
  {
    if a != [] { LabelLeRefl(a[1..]); }
  }

  /** Picking the options labelled `t` from a list with `y` in front. */
  lemma WithLabelCons<T>(y: Choice<T>, s: seq<Choice<T>>, t: string)
    ensures WithLabel([y] + s, t) == (if y.text == t then [y] else []) + WithLabel(s, t)
  {
    assert ([y] + s)[1..] == s;
  }

  /** An option that does not go first is inserted into the rest. */
  lemma InsertByLabelLater<T>(x: Choice<T>, s: seq<Choice<T>>)
    requires SortedByLabel(s) && s != [] && !LabelLe(x.text, s[0].text)
    ensures SortedByLabel(s[1..])
    ensures InsertByLabel(x, s) == [s[0]] + InsertByLabel(x, s[1..])
  {
  }

  /** `x` passes an option `s0` not labelled as it is: the picks with either in front agree. */
  lemma WithLabelPass<T>(x: Choice<T>, s0: Choice<T>, rest: seq<Choice<T>>, tail: seq<Choice<T>>, t: string)
    requires x.text != t || s0.text != t
    requires WithLabel(rest, t) == (if x.text == t then [x] else []) + WithLabel(tail, t)
    ensures WithLabel([s0] + rest, t) == (if x.text == t then [x] else []) + WithLabel([s0] + tail, t)
  {
    WithLabelCons(s0, rest, t);
    WithLabelCons(s0, tail, t);
  }

  /** An inserted option goes before every option with the same label. */
  lemma {:induction false} InsertByLabelStable<T>(x: Choice<T>, s: seq<Choice<T>>, t: string)
    requires SortedByLabel(s)
    ensures WithLabel(InsertByLabel(x, s), t) == (if x.text == t then [x] else []) + WithLabel(s, t)
  {
    if s == [] {
      assert [x] == [x] + s;
      WithLabelCons(x, s, t);
    } else if LabelLe(x.text, s[0].text) {
      WithLabelCons(x, s, t);
    } else {
      InsertByLabelLater(x, s);
      InsertByLabelStable(x, s[1..], t);
      // `s[0]` and `x` cannot both be labelled `t`, or `x` would have gone first
      LabelLeRefl(x.text);
      WithLabelPass(x, s[0], InsertByLabel(x, s[1..]), s[1..], t);
      assert [s[0]] + s[1..] == s;
    }
  }

  /** The sort is stable: the options sharing a label keep their relative order. */
  lemma {:induction false} SortByLabelStable<T>(s: seq<Choice<T>>, t: string)
    ensures WithLabel(SortByLabel(s), t) == WithLabel(s, t)
  {
    if s != [] {
      SortByLabelStable(s[1..], t);
      InsertByLabelStable(s[0], SortByLabel(s[1..]), t);
    }
  }

  /** `s.includes(t)`. */
  predicate Includes(s: string, t: string) {
    (|t| <= |s| && s[..|t|] == t) || (s != [] && Includes(s[1..], t))
  }

  /** `t` occurs in `s` at position `i`. */
  predicate OccursAt(s: string, t: string, i: int) {
    0 <= i && i + |t| <= |s| && s[i..i + |t|] == t
  }

  /** `includes` holds exactly when `t` occurs somewhere in `s`. */
  lemma {:induction false} IncludesAt(s: string, t: string)
    ensures Includes(s, t) <==> exists i :: OccursAt(s, t, i)
  {
    if s != [] {
      IncludesAt(s[1..], t);
      if exists i :: OccursAt(s, t, i) {
        var i :| OccursAt(s, t, i);
        if i > 0 {
          assert OccursAt(s[1..], t, i - 1);
        }
      }
      if Includes(s[1..], t) {
        var i :| OccursAt(s[1..], t, i);
        assert s[1..][i..i + |t|] == s[i + 1..i + 1 + |t|];
        assert OccursAt(s, t, i + 1);
      }
      if |t| <= |s| && s[..|t|] == t {
        assert OccursAt(s, t, 0);
      }
    } else if t == [] {
      assert OccursAt(s, t, 0);
    }
  }

  /** The search test: the lowercased label contains the lowercased input. */
  predicate Matches(text: string, input: string) {
    Includes(LessonEdits.Lower(text), LessonEdits.Lower(input))
  }

  lemma LowerTwice(s: string)
    ensures LessonEdits.Lower(LessonEdits.Lower(s)) == LessonEdits.Lower(s)
  {
  }

  /** The search ignores case on both sides. */
  lemma MatchesIgnoresCase(text: string, input: string)
    ensures Matches(text, input) <==> Matches(LessonEdits.Lower(text), LessonEdits.Lower(input))
  {
    LowerTwice(text);
    LowerTwice(input);
  }

  /** An accented capital is found by its small letter: `é` finds `Émile`. */
  lemma AccentedMatches()
    ensures Matches("\U{C9}mile", "\U{E9}")
  {
    var l := LessonEdits.Lower("\U{C9}mile");
    assert LessonEdits.Lower("\U{E9}") == "\U{E9}";
    assert l[0] == '\U{E9}' && l[..1] == "\U{E9}";
  }

  /** An empty search shows every option. */
  lemma EmptySearchMatches(text: string)
    ensures Matches(text, "")
  {
    IncludesAt(LessonEdits.Lower(text), []);
    assert OccursAt(LessonEdits.Lower(text), [], 0);
  }

  /** A label is found by any piece of itself. */
  lemma PieceMatches(text: string, i: nat, j: nat)
    requires i <= j <= |text|
    ensures Matches(text, text[i..j])
  {
    var l := LessonEdits.Lower(text);
    assert LessonEdits.Lower(text[i..j]) == l[i..j];
    assert OccursAt(l, l[i..j], i);
    IncludesAt(l, l[i..j]);
  }
}
