/**
 * The array idioms the screens share: `find`, `filter`, `[...new Set(xs)]`, the filter options
 * of a table column and `splice(i, 0, x)`.
 */
module Listing {
  import opened Wrappers

  /** `rows.find(p)`: the first row satisfying `p`, if any. */
  function Find<R(!new)>(rows: seq<R>, p: R -> bool): (r: Option<R>)
    ensures r.Some? ==> r.value in rows && p(r.value)
    ensures r.None? <==> forall x :: x in rows ==> !p(x)
    ensures r.Some? <==> FindIndex(rows, p) >= 0
    ensures r.Some? ==> r.value == rows[FindIndex(rows, p)]
  {
    if rows == [] then None else if p(rows[0]) then Some(rows[0]) else Find(rows[1..], p)
  }

  /** A row that is the only one satisfying `p` is the one `find` returns. */
  lemma {:induction false} FindUnique<R(!new)>(rows: seq<R>, p: R -> bool, x: R)
    requires x in rows && p(x)
    requires forall y :: y in rows && p(y) ==> y == x
    ensures Find(rows, p) == Some(x)
  {
    if !p(rows[0]) {
      FindUnique(rows[1..], p, x);
    }
  }

  /** `rows.filter(p)`. */
  function Filter<R(!new)>(rows: seq<R>, p: R -> bool): (r: seq<R>)
    ensures |r| <= |rows|
    ensures forall x :: x in r <==> x in rows && p(x)
    ensures r == [] <==> forall x :: x in rows ==> !p(x)
  {
    if rows == [] then []
    else
      var last := rows[|rows| - 1];
      Filter(rows[..|rows| - 1], p) + (if p(last) then [last] else [])
  }

  /** The filter keeps each row it keeps as often as it occurs, and drops the others entirely. */
  lemma {:induction false} FilterCounts<R(!new)>(rows: seq<R>, p: R -> bool, x: R)
    ensures multiset(Filter(rows, p))[x] == if p(x) then multiset(rows)[x] else 0
    decreases |rows|
  {
    if rows != [] {
      var init := rows[..|rows| - 1];
      FilterCounts(init, p, x);
      assert rows == init + [rows[|rows| - 1]];
    }
  }

  /** Filtering keeps the order: a filtered list is a subsequence of the rows. */
  lemma {:induction false} FilterMonotone<R(!new)>(rows: seq<R>, p: R -> bool, q: R -> bool)
    requires forall x :: x in rows && p(x) ==> q(x)
    ensures multiset(Filter(rows, p)) <= multiset(Filter(rows, q))
    decreases |rows|
  {
    if rows != [] {
      var init := rows[..|rows| - 1];
      assert forall x :: x in init ==> x in rows;
      FilterMonotone(init, p, q);
    }
  }

  /** The position of the first `x` in `xs`. */
  function FirstIndex<T(==)>(xs: seq<T>, x: T): (i: nat)
    requires x in xs
    ensures i < |xs| && xs[i] == x && x !in xs[..i]
  {
    if xs[0] == x then 0 else 1 + FirstIndex(xs[1..], x)
  }

  /** `[...new Set(xs)]`: each value once, in the order of first occurrence. */
  function Distinct<T(==,!new)>(xs: seq<T>): (r: seq<T>)
    ensures forall x :: x in r <==> x in xs
    ensures forall i, j :: 0 <= i < j < |r| ==> r[i] != r[j]
    ensures forall i, j :: 0 <= i < j < |r| ==> FirstIndex(xs, r[i]) < FirstIndex(xs, r[j])
    decreases |xs|
  {
    if xs == [] then []
    else
      var init := xs[..|xs| - 1];
      var last := xs[|xs| - 1];
      var d := Distinct(init);
      FirstIndexInit(xs);
      if last in d then d
      else
        d + [last]
  }

  /** Dropping the last element keeps the first positions of the others, and a new last element is first found there. */
  lemma FirstIndexInit<T>(xs: seq<T>)
    requires xs != []
    ensures forall x :: x in xs[..|xs| - 1] ==> FirstIndex(xs, x) == FirstIndex(xs[..|xs| - 1], x)
    ensures xs[|xs| - 1] !in xs[..|xs| - 1] ==> FirstIndex(xs, xs[|xs| - 1]) == |xs| - 1
  {
    var init := xs[..|xs| - 1];
    forall x | x in init ensures FirstIndex(xs, x) == FirstIndex(init, x) {
      FirstIndexPrefix(init, xs, x);
    }
  }

  lemma {:induction false} FirstIndexPrefix<T>(init: seq<T>, xs: seq<T>, x: T)
    requires x in init && |init| <= |xs| && xs[..|init|] == init
    ensures FirstIndex(xs, x) == FirstIndex(init, x)
  {
    if init[0] != x {
      assert xs[1..][..|init| - 1] == init[1..];
      FirstIndexPrefix(init[1..], xs[1..], x);
    }
  }

  /** A filter option: the text shown and the value compared. */
  datatype FilterOption<T> = FilterOption(text: string, value: T)

  /**
   * A column's filter options: one per distinct value of `key`, in the order of first occurrence,
   * labelled with `text` of the first row that has it.
   */
  function Options<R, T(==,!new)>(data: seq<R>, key: R -> T, text: R -> string): (r: seq<FilterOption<T>>)
    ensures |r| == |Distinct(Keys(data, key))|
    ensures forall i :: 0 <= i < |r| ==>
              r[i].value == Distinct(Keys(data, key))[i] && r[i].text == text(data[FirstIndex(Keys(data, key), r[i].value)])
  {
    var values := Distinct(Keys(data, key));
    seq(|values|, i requires 0 <= i < |values| => FilterOption(text(data[FirstIndex(Keys(data, key), values[i])]), values[i]))
  }

  /** `data.map(key)`. */
  function Keys<R, T>(data: seq<R>, key: R -> T): (r: seq<T>)
    ensures |r| == |data| && forall i :: 0 <= i < |data| ==> r[i] == key(data[i])
  {
    seq(|data|, i requires 0 <= i < |data| => key(data[i]))
  }

  lemma KeysHave<R, T>(data: seq<R>, key: R -> T, v: T)
    ensures v in Keys(data, key) <==> exists r :: r in data && key(r) == v
  {
    var ks := Keys(data, key);
    if v in ks {
      var k :| 0 <= k < |ks| && ks[k] == v;
      assert data[k] in data;
    }
  }

  /** The options of every value that occurs, and of nothing else, each once. */
  lemma OptionsCover<R, T(!new)>(data: seq<R>, key: R -> T, text: R -> string, v: T)
    ensures (exists o :: o in Options(data, key, text) && o.value == v) <==> exists r :: r in data && key(r) == v
  {
    var values := Distinct(Keys(data, key));
    var os := Options(data, key, text);
    KeysHave(data, key, v);
    if v in values {
      var i :| 0 <= i < |values| && values[i] == v;
      assert os[i] in os && os[i].value == v;
    }
    if exists o :: o in os && o.value == v {
      var o :| o in os && o.value == v;
      var i :| 0 <= i < |os| && os[i] == o;
      assert values[i] == v;
    }
  }

  /** `array.splice(i, 0, x)`. */
  function Insert<T>(s: seq<T>, i: nat, x: T): (r: seq<T>)
    requires i <= |s|
    ensures |r| == |s| + 1 && r[i] == x && r[..i] == s[..i] && r[i + 1..] == s[i..]
  {
    s[..i] + [x] + s[i..]
  }
  /** `rows.findIndex(p)`: the position of the first row satisfying `p`, or -1. */
  function FindIndex<R(!new)>(rows: seq<R>, p: R -> bool): (i: int)
    ensures -1 <= i < |rows|
    ensures 0 <= i ==> p(rows[i]) && forall j :: 0 <= j < i ==> !p(rows[j])
    ensures i == -1 <==> forall x :: x in rows ==> !p(x)
  {
    if rows == [] then -1
    else if p(rows[0]) then 0
    else
      var k := FindIndex(rows[1..], p);
      if k == -1 then -1 else k + 1
  }

  /**
   * `array.splice(start, 1, x)`: a negative start counts from the end (and stops at the front), a
   * start past the end appends; one element, if there is one there, is replaced by `x`.
   */
  function SpliceOne<T>(s: seq<T>, start: int, x: T): seq<T> {
    var a := if start < 0 then (if |s| + start < 0 then 0 else |s| + start)
             else (if start < |s| then start else |s|);
    s[..a] + [x] + s[(if a + 1 < |s| then a + 1 else |s|)..]
  }

  /** Splicing at an index inside the sequence replaces the element there. */
  lemma SpliceInside<T>(s: seq<T>, start: int, x: T)
    requires 0 <= start < |s|
    ensures SpliceOne(s, start, x) == s[start := x]
  {
    assert s[..start] + [x] + s[start + 1..] == s[start := x];
  }

  /** Splicing at -1 replaces the last element, or gives `[x]` when there is none. */
  lemma SpliceLast<T>(s: seq<T>, x: T)
    ensures SpliceOne(s, -1, x) == if s == [] then [x] else s[|s| - 1 := x]
  {
    if s != [] {
      assert s[..|s| - 1] + [x] == s[|s| - 1 := x];
    }
  }
}
