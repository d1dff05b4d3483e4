/**
 Tie-averaged ranks: the loop over runs of equal values in the sorted list of
 (value, index) pairs, proved to give each value one more than the number of
 smaller ones, averaged over the places of its ties; and what such ranks keep of
 the values: their order, ties included, and a sum that depends on nothing but
 how many values there are. All arithmetic is exact.
 */
module Ranks {
  import opened Reals

  datatype Entry = Entry(value: real, index: nat)

  // --------------------------------------------------- what a rank means

  function Smaller(values: seq<real>, v: real): nat {
    if values == [] then 0 else (if values[0] < v then 1 else 0) + Smaller(values[1..], v)
  }

  function Equal(values: seq<real>, v: real): nat {
    if values == [] then 0 else (if values[0] == v then 1 else 0) + Equal(values[1..], v)
  }

  /** One more than the number of smaller values, averaged over the tied places. */
  function Rank(values: seq<real>, v: real): real {
    Smaller(values, v) as real + (Equal(values, v) + 1) as real / 2.0
  }

  function RanksOf(values: seq<real>): seq<real> {
    seq(|values|, i requires 0 <= i < |values| => Rank(values, values[i]))
  }

  // --------------------------------------------------- the ranking loop

  /** The (value, index) pairs, the first one numbered `start`. */
  function Enumerate(values: seq<real>, start: nat): seq<Entry> {
    if values == [] then [] else [Entry(values[0], start)] + Enumerate(values[1..], start + 1)
  }

  predicate Precedes(e: Entry, f: Entry) {
    e.value < f.value || (e.value == f.value && e.index < f.index)
  }

  function InsertEntry(e: Entry, entries: seq<Entry>): seq<Entry> {
    if entries == [] || Precedes(e, entries[0]) then [e] + entries else [entries[0]] + InsertEntry(e, entries[1..])
  }

  /** Python's `sorted` on pairs. */
  function SortEntries(entries: seq<Entry>): seq<Entry> {
    if entries == [] then [] else InsertEntry(entries[0], SortEntries(entries[1..]))
  }

  function Below(entries: seq<Entry>, v: real): nat {
    if entries == [] then 0 else (if entries[0].value < v then 1 else 0) + Below(entries[1..], v)
  }

  function Level(entries: seq<Entry>, v: real): nat {
    if entries == [] then 0 else (if entries[0].value == v then 1 else 0) + Level(entries[1..], v)
  }

  ghost predicate ByValue(entries: seq<Entry>) {
    forall i, j | 0 <= i < j < |entries| :: entries[i].value <= entries[j].value
  }

  lemma {:induction false} EnumerateCounts(values: seq<real>, start: nat, v: real)
    ensures Below(Enumerate(values, start), v) == Smaller(values, v)
    ensures Level(Enumerate(values, start), v) == Equal(values, v)
    ensures |Enumerate(values, start)| == |values|
  {
    if values != [] { EnumerateCounts(values[1..], start + 1, v); }
  }

  lemma {:induction false} EnumerateHas(values: seq<real>, start: nat, e: Entry)
    ensures e in Enumerate(values, start) <==>
      start <= e.index < start + |values| && e.value == values[e.index - start]
  {
    if values != [] { EnumerateHas(values[1..], start + 1, e); }
  }

  lemma {:induction false} InsertCounts(e: Entry, entries: seq<Entry>, v: real)
    ensures Below(InsertEntry(e, entries), v) == Below([e] + entries, v)
    ensures Level(InsertEntry(e, entries), v) == Level([e] + entries, v)
    ensures |InsertEntry(e, entries)| == |entries| + 1
  {
    if entries != [] && !Precedes(e, entries[0]) { InsertCounts(e, entries[1..], v); }
  }

  lemma {:induction false} SortCounts(entries: seq<Entry>, v: real)
    ensures Below(SortEntries(entries), v) == Below(entries, v)
    ensures Level(SortEntries(entries), v) == Level(entries, v)
    ensures |SortEntries(entries)| == |entries|
  {
    if entries != [] {
      SortCounts(entries[1..], v);
      InsertCounts(entries[0], SortEntries(entries[1..]), v);
    }
  }

  lemma {:induction false} InsertHas(e: Entry, entries: seq<Entry>, f: Entry)
    ensures f in InsertEntry(e, entries) <==> f == e || f in entries
  {
    if entries != [] && !Precedes(e, entries[0]) {
      InsertHas(e, entries[1..], f);
      assert entries == [entries[0]] + entries[1..];
    }
  }

  lemma PrependOrders(e: Entry, entries: seq<Entry>)
    requires ByValue(entries) && forall i | 0 <= i < |entries| :: e.value <= entries[i].value
    ensures ByValue([e] + entries)
  {
  }

  lemma {:induction false} InsertOrders(e: Entry, entries: seq<Entry>)
    requires ByValue(entries)
    ensures ByValue(InsertEntry(e, entries))
  {
    if entries != [] {
      var first, rest := entries[0], entries[1..];
      assert entries == [first] + rest;
      if Precedes(e, first) {
        PrependOrders(e, entries);
      } else {
        InsertOrders(e, rest);
        forall i | 0 <= i < |InsertEntry(e, rest)| ensures first.value <= InsertEntry(e, rest)[i].value {
          InsertHas(e, rest, InsertEntry(e, rest)[i]);
        }
        PrependOrders(first, InsertEntry(e, rest));
      }
    }
  }

  lemma {:induction false} SortOrders(entries: seq<Entry>)
    ensures ByValue(SortEntries(entries))
  {
    if entries != [] {
      SortOrders(entries[1..]);
      InsertOrders(entries[0], SortEntries(entries[1..]));
    }
  }

  lemma {:induction false} SortHas(entries: seq<Entry>, f: Entry)
    ensures f in SortEntries(entries) <==> f in entries
  {
    if entries != [] {
      SortHas(entries[1..], f);
      InsertHas(entries[0], SortEntries(entries[1..]), f);
      assert entries == [entries[0]] + entries[1..];
    }
  }

  lemma {:induction false} CountsSplit(a: seq<Entry>, b: seq<Entry>, v: real)
    ensures Below(a + b, v) == Below(a, v) + Below(b, v)
    ensures Level(a + b, v) == Level(a, v) + Level(b, v)
  {
    if a == [] {
      assert a + b == b;
    } else {
      assert (a + b)[1..] == a[1..] + b;
      CountsSplit(a[1..], b, v);
    }
  }

  ghost predicate AllBelow(entries: seq<Entry>, v: real) {
    forall i | 0 <= i < |entries| :: entries[i].value < v
  }

  ghost predicate AllLevel(entries: seq<Entry>, v: real) {
    forall i | 0 <= i < |entries| :: entries[i].value == v
  }

  ghost predicate AllAbove(entries: seq<Entry>, v: real) {
    forall i | 0 <= i < |entries| :: v < entries[i].value
  }

  lemma {:induction false} CountsAllBelow(entries: seq<Entry>, v: real)
    requires AllBelow(entries, v)
    ensures Below(entries, v) == |entries| && Level(entries, v) == 0
  {
    if entries != [] { CountsAllBelow(entries[1..], v); }
  }

  lemma {:induction false} CountsAllLevel(entries: seq<Entry>, v: real)
    requires AllLevel(entries, v)
    ensures Below(entries, v) == 0 && Level(entries, v) == |entries|
  {
    if entries != [] { CountsAllLevel(entries[1..], v); }
  }

  lemma {:induction false} CountsAllAbove(entries: seq<Entry>, v: real)
    requires AllAbove(entries, v)
    ensures Below(entries, v) == 0 && Level(entries, v) == 0
  {
    if entries != [] { CountsAllAbove(entries[1..], v); }
  }

  /** `lo..hi` is one maximal run of equal values. */
  ghost predicate IsRun(entries: seq<Entry>, lo: nat, hi: nat) {
    && lo < hi <= |entries|
    && (forall k | lo <= k < hi :: entries[k].value == entries[lo].value)
    && (lo == 0 || entries[lo - 1].value < entries[lo].value)
    && (hi == |entries| || entries[lo].value < entries[hi].value)
  }

  lemma RunSeparates(entries: seq<Entry>, lo: nat, hi: nat)
    requires ByValue(entries) && IsRun(entries, lo, hi)
    ensures AllBelow(entries[..lo], entries[lo].value)
    ensures AllLevel(entries[lo..hi], entries[lo].value)
    ensures AllAbove(entries[hi..], entries[lo].value)
  {
    forall i | 0 <= i < lo ensures entries[i].value < entries[lo].value {
      assert i < lo - 1 ==> entries[i].value <= entries[lo - 1].value;
    }
    forall i | hi <= i < |entries| ensures entries[lo].value < entries[i].value {
      assert hi < i ==> entries[hi].value <= entries[i].value;
    }
  }

  lemma ThreeParts(entries: seq<Entry>, before: seq<Entry>, run: seq<Entry>, after: seq<Entry>, v: real)
    requires entries == before + (run + after)
    requires AllBelow(before, v) && AllLevel(run, v) && AllAbove(after, v)
    ensures Below(entries, v) == |before| && Level(entries, v) == |run|
  {
    CountsSplit(before, run + after, v);
    CountsSplit(run, after, v);
    CountsAllBelow(before, v);
    CountsAllLevel(run, v);
    CountsAllAbove(after, v);
  }

  lemma CutInThree(entries: seq<Entry>, lo: nat, hi: nat)
    requires lo <= hi <= |entries|
    ensures entries == entries[..lo] + (entries[lo..hi] + entries[hi..])
  {
  }

  /** In a sorted list, a run's bounds are the counts that make up the rank. */
  lemma RunCounts(entries: seq<Entry>, lo: nat, hi: nat)
    requires ByValue(entries) && IsRun(entries, lo, hi)
    ensures Below(entries, entries[lo].value) == lo && Level(entries, entries[lo].value) == hi - lo
  {
    RunSeparates(entries, lo, hi);
    CutInThree(entries, lo, hi);
    ThreeParts(entries, entries[..lo], entries[lo..hi], entries[hi..], entries[lo].value);
  }

  /** The inner loop: the end of the run that starts at `lo`. */
  method RunEnd(entries: seq<Entry>, lo: nat) returns (end: nat)
    requires ByValue(entries) && lo < |entries|
    requires lo == 0 || entries[lo - 1].value < entries[lo].value
    ensures IsRun(entries, lo, end + 1)
  {
    end := lo;
    while end + 1 < |entries| && entries[end + 1].value == entries[lo].value
      invariant lo <= end < |entries|
      invariant forall k | lo <= k <= end :: entries[k].value == entries[lo].value
    {
      end := end + 1;
    }
  }

  /** Every index written so far holds the rank of its value. */
  ghost predicate Written(values: seq<real>, entries: seq<Entry>, ranks: seq<real>, n: nat)
    requires n <= |entries|
  {
    forall k | 0 <= k < n ::
      entries[k].index < |ranks| && ranks[entries[k].index] == Rank(values, entries[k].value)
  }

  ghost predicate IndexesValues(values: seq<real>, entries: seq<Entry>) {
    forall k | 0 <= k < |entries| :: entries[k].index < |values| && entries[k].value == values[entries[k].index]
  }

  /** The innermost loop: one rank for all entries of a run. */
  method FillRun(values: seq<real>, entries: seq<Entry>, ranks: array<real>, lo: nat, hi: nat, rank: real)
    requires lo <= hi <= |entries| && ranks.Length == |values|
    requires IndexesValues(values, entries) && Written(values, entries, ranks[..], lo)
    requires forall k | lo <= k < hi :: Rank(values, entries[k].value) == rank
    modifies ranks
    ensures Written(values, entries, ranks[..], hi)
  {
    for k := lo to hi
      invariant Written(values, entries, ranks[..], k)
    {
      ranks[entries[k].index] := rank;
    }
  }

  function Ordered(values: seq<real>): seq<Entry> {
    SortEntries(Enumerate(values, 0))
  }

  lemma OrderedHas(values: seq<real>, e: Entry)
    ensures e in Ordered(values) <==> e.index < |values| && e.value == values[e.index]
  {
    SortHas(Enumerate(values, 0), e);
    EnumerateHas(values, 0, e);
  }

  lemma OrderedIsSorted(values: seq<real>)
    ensures ByValue(Ordered(values)) && IndexesValues(values, Ordered(values))
  {
    SortOrders(Enumerate(values, 0));
    forall k | 0 <= k < |Ordered(values)|
      ensures Ordered(values)[k].index < |values| && Ordered(values)[k].value == values[Ordered(values)[k].index]
    {
      OrderedHas(values, Ordered(values)[k]);
    }
  }

  /** The average place of a run, counted from one, is the rank of its value. */
  lemma RunRank(values: seq<real>, lo: nat, hi: nat)
    requires IsRun(Ordered(values), lo, hi)
    ensures forall k | lo <= k < hi :: Rank(values, Ordered(values)[k].value) == (lo + hi + 1) as real / 2.0
  {
    var v := Ordered(values)[lo].value;
    OrderedIsSorted(values);
    RunCounts(Ordered(values), lo, hi);
    EnumerateCounts(values, 0, v);
    SortCounts(Enumerate(values, 0), v);
  }

  lemma AllWritten(values: seq<real>, ranks: seq<real>)
    requires |ranks| == |values| && Written(values, Ordered(values), ranks, |Ordered(values)|)
    ensures ranks == RanksOf(values)
  {
    forall i | 0 <= i < |values| ensures ranks[i] == Rank(values, values[i]) {
      OrderedHas(values, Entry(values[i], i));
      var k :| 0 <= k < |Ordered(values)| && Ordered(values)[k] == Entry(values[i], i);
    }
  }

  method ComputeRanks(values: seq<real>) returns (ranks: array<real>)
    ensures fresh(ranks) && ranks[..] == RanksOf(values)
  {
    var ordered := Ordered(values);
    OrderedIsSorted(values);
    ranks := new real[|values|];
    var idx := 0;
    while idx < |ordered|
      invariant 0 <= idx <= |ordered|
      invariant 0 < idx < |ordered| ==> ordered[idx - 1].value < ordered[idx].value
      invariant Written(values, ordered, ranks[..], idx)
    {
      var end := RunEnd(ordered, idx);
      RunRank(values, idx, end + 1);
      FillRun(values, ordered, ranks, idx, end + 1, (idx + end + 2) as real / 2.0);
      idx := end + 1;
    }
    AllWritten(values, ranks[..]);
  }

  // --------------------------------------------------- what ranks keep

  lemma {:induction false} CountsStep(values: seq<real>, u: real, v: real)
    requires u < v
    ensures Smaller(values, u) + Equal(values, u) <= Smaller(values, v)
  {
    if values != [] { CountsStep(values[1..], u, v); }
  }

  lemma {:induction false} EqualCountsItself(values: seq<real>, i: nat)
    requires i < |values|
    ensures Equal(values, values[i]) >= 1
  {
    if i > 0 { EqualCountsItself(values[1..], i - 1); }
  }

  /** Ranks compare exactly as the values do. */
  lemma RanksKeepOrder(values: seq<real>, i: nat, j: nat)
    requires i < |values| && j < |values|
    ensures RanksOf(values)[i] < RanksOf(values)[j] <==> values[i] < values[j]
    ensures RanksOf(values)[i] == RanksOf(values)[j] <==> values[i] == values[j]
  {
    EqualCountsItself(values, i);
    EqualCountsItself(values, j);
    if values[i] < values[j] { CountsStep(values, values[i], values[j]); }
    if values[j] < values[i] { CountsStep(values, values[j], values[i]); }
  }

  /** The part of `v`'s rank that a single value contributes. */
  function Share(w: real, v: real): real {
    if w < v then 1.0 else if w == v then 0.5 else 0.0
  }

  function Shares(values: seq<real>, v: real): real {
    if values == [] then 0.0 else Share(values[0], v) + Shares(values[1..], v)
  }

  function TotalShares(values: seq<real>, over: seq<real>): real {
    if over == [] then 0.0 else Shares(values, over[0]) + TotalShares(values, over[1..])
  }

  lemma {:induction false} RankIsShares(values: seq<real>, v: real)
    ensures Rank(values, v) == Shares(values, v) + 0.5
  {
    if values != [] { RankIsShares(values[1..], v); }
  }

  /** Of two values, one contributes to the other or they split the contribution. */
  lemma {:induction false} SharesPair(w: real, values: seq<real>, over: seq<real>)
    ensures TotalShares([w] + values, over) + Shares(over, w) == TotalShares(values, over) + |over| as real
  {
    if over != [] { SharesPair(w, values, over[1..]); }
  }

  lemma {:induction false} TotalIsHalfSquare(values: seq<real>)
    ensures TotalShares(values, values) == (|values| * |values|) as real / 2.0
  {
    if values != [] {
      var w, rest := values[0], values[1..];
      assert values == [w] + rest;
      TotalIsHalfSquare(rest);
      SharesPair(w, rest, rest);
      var m := |rest|;
      assert (m + 1) * (m + 1) == m * m + 2 * m + 1;
    }
  }

  lemma {:induction false} SumOfRanks(values: seq<real>, over: seq<real>)
    ensures Sum(seq(|over|, i requires 0 <= i < |over| => Rank(values, over[i])))
      == TotalShares(values, over) + |over| as real / 2.0
  {
    if over != [] {
      var ranks := seq(|over|, i requires 0 <= i < |over| => Rank(values, over[i]));
      assert ranks[1..] == seq(|over[1..]|, i requires 0 <= i < |over[1..]| => Rank(values, over[1..][i]));
      SumOfRanks(values, over[1..]);
      RankIsShares(values, over[0]);
    }
  }

  /** Ties or not, the ranks of `n` values add up to `1 + 2 + ... + n`. */
  lemma RanksAddUp(values: seq<real>)
    ensures Sum(RanksOf(values)) == (|values| * (|values| + 1)) as real / 2.0
  {
    SumOfRanks(values, values);
    TotalIsHalfSquare(values);
    var n := |values|;
    assert n * (n + 1) == n * n + n;
  }
}
