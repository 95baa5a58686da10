/**
 * `compute_frequency`: a `Counter` over stringified values, listed by
 * `most_common()` (count descending; equal counts keep the order in which the
 * values were first seen, because Python's sort is stable).
 */
module Frequency {
  import opened PyStr
  import opened Seqs

  /** The JSON scalars a feature record holds: Python `None`, `bool`, `int` and `str`. */
  datatype Value = VNone | VBool(b: bool) | VInt(i: int) | VStr(s: string)

  /** Python's `str(v)`. */
  function Str(v: Value): string {
    match v
    case VNone => "None"
    case VBool(b) => if b then "True" else "False"
    case VInt(i) => IntToString(i)
    case VStr(s) => s
  }

  /** Python truthiness: `None`, `False`, `0` and `""` are false. */
  predicate Truthy(v: Value) {
    match v
    case VNone => false
    case VBool(b) => b
    case VInt(i) => i != 0
    case VStr(s) => s != ""
  }

  /**
   * The two versions of `compute_frequency`: mcp.py and bugout.py count `str(v)` for
   * every value; qwen/prd_generator.py first drops the falsy ones (`if v`).
   */
  datatype Variant = StringifyAll | DropFalsy

  /** Whether a value present under a categorical key is counted by the variant. */
  predicate Counted(variant: Variant, v: Value) {
    variant.StringifyAll? || Truthy(v)
  }

  /** The generator `str(v) for v in values [if v]` that feeds the `Counter`. */
  function CountedStrings(variant: Variant, values: seq<Value>): (r: seq<string>)
    ensures |r| <= |values|
  {
    if values == [] then []
    else
      var rest := CountedStrings(variant, values[1..]);
      if Counted(variant, values[0]) then [Str(values[0])] + rest else rest
  }

  /** One `[value, count]` pair of a frequency table. */
  datatype Tally = Tally(value: string, count: nat)

  /** How often `x` occurs in `vals`. */
  function Occurrences(vals: seq<string>, x: string): nat {
    multiset(vals)[x]
  }

  /** The `Counter` itself: one tally per key, in the order the keys were given. */
  function Tallies(keys: seq<string>, vals: seq<string>): (ts: seq<Tally>)
    ensures |ts| == |keys|
    ensures forall k :: 0 <= k < |ts| ==> ts[k] == Tally(keys[k], Occurrences(vals, keys[k]))
  {
    if keys == [] then [] else [Tally(keys[0], Occurrences(vals, keys[0]))] + Tallies(keys[1..], vals)
  }

  /** Places `x` in front of the first entry whose count is not larger than its own. */
  function Insert(x: Tally, t: seq<Tally>): (r: seq<Tally>)
    ensures multiset(r) == multiset(t) + multiset{x}
    ensures |r| == |t| + 1
  {
    if t == [] || x.count >= t[0].count then [x] + t
    else
      assert t == [t[0]] + t[1..];
      [t[0]] + Insert(x, t[1..])
  }

  /** `sorted(items, key=count, reverse=True)`, as a stable insertion sort. */
  function SortByCount(ts: seq<Tally>): (r: seq<Tally>)
    ensures multiset(r) == multiset(ts)
    ensures |r| == |ts|
  {
    if ts == [] then []
    else
      assert ts == [ts[0]] + ts[1..];
      Insert(ts[0], SortByCount(ts[1..]))
  }

  /** `Counter(vals).most_common()`. */
  function MostCommon(vals: seq<string>): seq<Tally> {
    SortByCount(Tallies(FirstSeen(vals), vals))
  }

  /** `compute_frequency(values)` of either variant. */
  function ComputeFrequency(variant: Variant, values: seq<Value>): seq<Tally> {
    MostCommon(CountedStrings(variant, values))
  }

  function ValuesOf(t: seq<Tally>): (r: seq<string>)
    ensures |r| == |t| && forall k :: 0 <= k < |t| ==> r[k] == t[k].value
  {
    seq(|t|, k requires 0 <= k < |t| => t[k].value)
  }

  /** The sum of the counts of a table. */
  function SumCounts(t: seq<Tally>): nat {
    if t == [] then 0 else t[0].count + SumCounts(t[1..])
  }

  /** `a` comes before `b` in `most_common()` order: higher count, or same count and seen earlier. */
  predicate Before(a: Tally, b: Tally, vals: seq<string>) {
    a.count > b.count || (a.count == b.count && FirstIndex(vals, a.value) < FirstIndex(vals, b.value))
  }

  predicate Ordered(t: seq<Tally>, vals: seq<string>) {
    forall i, j :: 0 <= i < j < |t| ==> Before(t[i], t[j], vals)
  }

  predicate CountDescending(t: seq<Tally>) {
    forall i, j :: 0 <= i < j < |t| ==> t[i].count >= t[j].count
  }

  /** Putting in front an entry that comes before every entry keeps the order. */
  lemma OrderedCons(h: Tally, t: seq<Tally>, vals: seq<string>)
    requires Ordered(t, vals)
    requires forall k :: 0 <= k < |t| ==> Before(h, t[k], vals)
    ensures Ordered([h] + t, vals)
  {
    var r := [h] + t;
    forall i, j | 0 <= i < j < |r|
      ensures Before(r[i], r[j], vals)
    {
      assert r[j] == t[j - 1];
      if i > 0 {
        assert r[i] == t[i - 1];
      }
    }
  }

  /** Inserting an entry seen before all others keeps a table in `most_common()` order. */
  lemma {:induction false} InsertOrdered(x: Tally, t: seq<Tally>, vals: seq<string>)
    requires Ordered(t, vals)
    requires forall k :: 0 <= k < |t| ==> FirstIndex(vals, x.value) < FirstIndex(vals, t[k].value)
    ensures Ordered(Insert(x, t), vals)
  {
    if t == [] || x.count >= t[0].count {
      forall k | 0 < k < |t|
        ensures t[0].count >= t[k].count
      {
        assert Before(t[0], t[k], vals);
      }
      OrderedCons(x, t, vals);
    } else {
      var rest := Insert(x, t[1..]);
      InsertOrdered(x, t[1..], vals);
      forall k | 0 <= k < |rest|
        ensures Before(t[0], rest[k], vals)
      {
        var e := rest[k];
        assert e in multiset(rest);
        if e != x {
          assert e in multiset(t[1..]);
          var m :| 0 <= m < |t[1..]| && t[1..][m] == e;
          assert Before(t[0], t[m + 1], vals);
        }
      }
      OrderedCons(t[0], rest, vals);
    }
  }

  /** Sorting a list whose entries are in first-seen order yields `most_common()` order. */
  lemma {:induction false} SortOrdered(ts: seq<Tally>, vals: seq<string>)
    requires forall i, j :: 0 <= i < j < |ts| ==> FirstIndex(vals, ts[i].value) < FirstIndex(vals, ts[j].value)
    ensures Ordered(SortByCount(ts), vals)
  {
    if ts != [] {
      var rest := SortByCount(ts[1..]);
      SortOrdered(ts[1..], vals);
      forall k | 0 <= k < |rest|
        ensures FirstIndex(vals, ts[0].value) < FirstIndex(vals, rest[k].value)
      {
        assert rest[k] in multiset(ts[1..]);
        var m :| 0 <= m < |ts[1..]| && ts[1..][m] == rest[k];
        assert ts[m + 1] == rest[k];
      }
      InsertOrdered(ts[0], rest, vals);
    }
  }

  lemma {:induction false} SumCountsAppend(a: seq<Tally>, b: seq<Tally>)
    ensures SumCounts(a + b) == SumCounts(a) + SumCounts(b)
  {
    if a != [] {
      assert (a + b)[0] == a[0] && (a + b)[1..] == a[1..] + b;
      SumCountsAppend(a[1..], b);
    } else {
      assert a + b == b;
    }
  }

  lemma {:induction false} SumCountsInsert(x: Tally, t: seq<Tally>)
    ensures SumCounts(Insert(x, t)) == x.count + SumCounts(t)
  {
    if !(t == [] || x.count >= t[0].count) {
      SumCountsInsert(x, t[1..]);
    }
  }

  lemma {:induction false} SumCountsSort(ts: seq<Tally>)
    ensures SumCounts(SortByCount(ts)) == SumCounts(ts)
  {
    if ts != [] {
      SumCountsSort(ts[1..]);
      SumCountsInsert(ts[0], SortByCount(ts[1..]));
    }
  }

  /** Adding one more value raises the total over distinct keys by one exactly when its key is listed. */
  lemma {:induction false} SumTalliesAddValue(keys: seq<string>, vals: seq<string>, x: string)
    requires Distinct(keys)
    ensures SumCounts(Tallies(keys, vals + [x])) == SumCounts(Tallies(keys, vals)) + (if x in keys then 1 else 0)
  {
    if keys != [] {
      SumTalliesAddValue(keys[1..], vals, x);
      assert multiset(vals + [x]) == multiset(vals) + multiset{x};
      if keys[0] == x {
        assert x !in keys[1..];
      } else {
        assert x in keys <==> x in keys[1..];
      }
    }
  }

  /** The counts over the distinct values of `vals` add up to the number of values. */
  lemma {:induction false} SumTalliesFirstSeen(vals: seq<string>)
    ensures SumCounts(Tallies(FirstSeen(vals), vals)) == |vals|
  {
    if vals != [] {
      var v, x := vals[..|vals| - 1], vals[|vals| - 1];
      assert vals == v + [x];
      var d := FirstSeen(v);
      SumTalliesFirstSeen(v);
      SumTalliesAddValue(d, v, x);
      if x !in d {
        assert x !in v;
        assert Tallies(d + [x], vals) == Tallies(d, vals) + [Tally(x, Occurrences(vals, x))];
        SumCountsAppend(Tallies(d, vals), [Tally(x, Occurrences(vals, x))]);
        assert multiset(vals)[x] == multiset(v)[x] + 1;
      }
    }
  }

  lemma MostCommonCounts(vals: seq<string>)
    ensures var r := MostCommon(vals);
      forall k :: 0 <= k < |r| ==> r[k].count == Occurrences(vals, r[k].value) >= 1 && r[k].value in vals
  {
    var d := FirstSeen(vals);
    var ts := Tallies(d, vals);
    var r := MostCommon(vals);
    forall k | 0 <= k < |r|
      ensures r[k].count == Occurrences(vals, r[k].value) >= 1 && r[k].value in vals
    {
      assert r[k] in multiset(ts);
      var m :| 0 <= m < |ts| && ts[m] == r[k];
      assert d[m] in vals;
    }
  }

  lemma MostCommonCovers(vals: seq<string>)
    ensures var r := MostCommon(vals);
      forall k :: 0 <= k < |vals| ==> vals[k] in ValuesOf(r)
  {
    var d := FirstSeen(vals);
    var ts := Tallies(d, vals);
    var r := MostCommon(vals);
    forall k | 0 <= k < |vals|
      ensures vals[k] in ValuesOf(r)
    {
      var m :| 0 <= m < |d| && d[m] == vals[k];
      assert ts[m] in multiset(r);
      var j :| 0 <= j < |r| && r[j] == ts[m];
      assert ValuesOf(r)[j] == vals[k];
    }
  }

  lemma MostCommonOrdered(vals: seq<string>)
    ensures Ordered(MostCommon(vals), vals)
  {
    FirstSeenOrder(vals);
    SortOrdered(Tallies(FirstSeen(vals), vals), vals);
  }

  /**
   * What `Counter(vals).most_common()` is: every distinct value of `vals` exactly once,
   * with its number of occurrences (at least 1), ordered by count descending and, among
   * equal counts, by first appearance in `vals`; the counts add up to `|vals|`.
   */
  lemma MostCommonSpec(vals: seq<string>)
    ensures var r := MostCommon(vals);
      && Ordered(r, vals)
      && CountDescending(r)
      && (forall k :: 0 <= k < |r| ==> r[k].count == Occurrences(vals, r[k].value) >= 1)
      && (forall k :: 0 <= k < |r| ==> r[k].value in vals)
      && (forall k :: 0 <= k < |vals| ==> vals[k] in ValuesOf(r))
      && Distinct(ValuesOf(r))
      && SumCounts(r) == |vals|
  {
    var r := MostCommon(vals);
    MostCommonOrdered(vals);
    MostCommonCounts(vals);
    MostCommonCovers(vals);
    forall i, j | 0 <= i < j < |r|
      ensures r[i].count >= r[j].count && r[i].value != r[j].value
    {
      assert Before(r[i], r[j], vals);
    }
    SumCountsSort(Tallies(FirstSeen(vals), vals));
    SumTalliesFirstSeen(vals);
  }

  /** The first entry of `most_common()` is a most frequent value; the table is empty only for no values. */
  lemma MostCommonFirstIsMax(vals: seq<string>)
    ensures var r := MostCommon(vals);
      && (r == [] <==> vals == [])
      && (r != [] ==> r[0].value in vals && forall x :: x in vals ==> Occurrences(vals, x) <= r[0].count == Occurrences(vals, r[0].value))
  {
    var r := MostCommon(vals);
    MostCommonCounts(vals);
    MostCommonCovers(vals);
    MostCommonOrdered(vals);
    if vals != [] {
      assert vals[0] in ValuesOf(r);
    }
    forall x | x in vals
      ensures Occurrences(vals, x) <= r[0].count
    {
      var k :| 0 <= k < |vals| && vals[k] == x;
      var j :| 0 <= j < |r| && ValuesOf(r)[j] == x;
      if j > 0 {
        assert Before(r[0], r[j], vals);
      }
    }
  }

  /** `compute_frequency` lists each counted value once and its counts add up to the number counted. */
  lemma ComputeFrequencySpec(variant: Variant, values: seq<Value>)
    ensures var r := ComputeFrequency(variant, values);
      var cs := CountedStrings(variant, values);
      && Ordered(r, cs)
      && CountDescending(r)
      && (forall k :: 0 <= k < |r| ==> r[k].count >= 1)
      && Distinct(ValuesOf(r))
      && SumCounts(r) == |cs|
  {
    MostCommonSpec(CountedStrings(variant, values));
  }

  /** A counted string stems from a value that is counted and stringifies to it. */
  lemma {:induction false} CountedStringsMembers(variant: Variant, values: seq<Value>, x: string)
    ensures x in CountedStrings(variant, values) <==>
      exists k :: 0 <= k < |values| && Counted(variant, values[k]) && Str(values[k]) == x
  {
    if values != [] {
      CountedStringsMembers(variant, values[1..], x);
      if Counted(variant, values[0]) && Str(values[0]) == x {
        assert 0 < |values|;
      }
      forall k | 1 <= k < |values| && Counted(variant, values[k]) && Str(values[k]) == x
        ensures x in CountedStrings(variant, values[1..])
      {
        assert values[1..][k - 1] == values[k];
      }
    }
  }

  /** Only the text "False" and the boolean False stringify to "False". */
  lemma StrFalse(v: Value)
    ensures Str(v) == "False" <==> v == VBool(false) || v == VStr("False")
  {
    if v.VInt? {
      assert Str(v)[0] != 'F';
    }
  }

  /**
   * qwen/prd_generator.py drops falsy values before counting, so a `False` crash flag
   * never reaches the table: "False" is listed only when some value is the text "False".
   * mcp.py and bugout.py list it whenever a value stringifies to it.
   */
  lemma FalseListedOnlyForText(values: seq<Value>)
    ensures "False" in ValuesOf(ComputeFrequency(DropFalsy, values)) <==> VStr("False") in values
    ensures "False" in ValuesOf(ComputeFrequency(StringifyAll, values)) <==>
      VStr("False") in values || VBool(false) in values
  {
    forall variant: Variant ensures "False" in ValuesOf(ComputeFrequency(variant, values)) <==>
      "False" in CountedStrings(variant, values)
    {
      var cs := CountedStrings(variant, values);
      MostCommonSpec(cs);
      var r := MostCommon(cs);
      if "False" in ValuesOf(r) {
        var k :| 0 <= k < |r| && ValuesOf(r)[k] == "False";
        assert r[k].value in cs;
      }
    }
    forall variant: Variant
      ensures "False" in CountedStrings(variant, values) <==>
        exists k :: 0 <= k < |values| && Counted(variant, values[k]) && (values[k] == VBool(false) || values[k] == VStr("False"))
    {
      CountedStringsMembers(variant, values, "False");
      forall k | 0 <= k < |values| {
        StrFalse(values[k]);
      }
    }
  }
}
