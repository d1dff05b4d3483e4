/**
 Identifiers and Python's `sorted`. The modelled algorithms only compare ids for
 equality and sort them, so an id is represented by its place in the string order.
 Sorting is given once for sets, by taking out the least element, and once for
 lists, by insertion; on lists without repeats the two agree. The rest is what the
 loops over lists of ids need: prefixes, distinctness and occurrence counts.
 */
module Ordering {

  datatype Id = Id(rank: nat)

  /** Each element is less than every later one; in particular there are no repeats. */
  ghost predicate StrictlySorted(q: seq<Id>) {
    forall i, j | 0 <= i < j < |q| :: q[i].rank < q[j].rank
  }

  ghost predicate Distinct(q: seq<Id>) {
    forall i, j | 0 <= i < j < |q| :: q[i] != q[j]
  }

  function Elements(q: seq<Id>): set<Id> {
    set x | x in q
  }

  predicate IsLeast(x: Id, s: set<Id>) {
    x in s && forall y | y in s :: x.rank <= y.rank
  }

  lemma {:induction false} LeastExists(s: set<Id>)
    requires s != {}
    ensures exists x :: IsLeast(x, s)
  {
    var x :| x in s;
    if s == {x} {
      assert IsLeast(x, s);
    } else {
      LeastExists(s - {x});
      var y :| IsLeast(y, s - {x});
      assert IsLeast(if x.rank < y.rank then x else y, s);
    }
  }

  /** The smallest element of a non-empty set. */
  function Least(s: set<Id>): (x: Id)
    requires s != {}
    ensures IsLeast(x, s)
  {
    LeastExists(s);
    var x :| x in s && IsLeast(x, s);
    x
  }

  /** Python's `sorted(s)` on a set. */
  function Sorted(s: set<Id>): seq<Id> {
    if s == {} then [] else [Least(s)] + Sorted(s - {Least(s)})
  }

  /** `Sorted(s)` lists `s` once, in strictly increasing order. */
  lemma {:induction false} SortedIsSorted(s: set<Id>)
    ensures StrictlySorted(Sorted(s))
    ensures Elements(Sorted(s)) == s
    ensures |Sorted(s)| == |s|
  {
    if s != {} {
      var x := Least(s);
      SortedIsSorted(s - {x});
      PrependLeast(x, Sorted(s - {x}), s - {x});
      assert {x} + (s - {x}) == s;
    }
  }

  lemma PrependLeast(x: Id, rest: seq<Id>, s: set<Id>)
    requires StrictlySorted(rest) && Elements(rest) == s && x !in s
    requires forall y | y in s :: x.rank <= y.rank
    ensures StrictlySorted([x] + rest) && Elements([x] + rest) == {x} + s
  {
    forall y | y in rest ensures x.rank < y.rank {
      assert y in Elements(rest);
    }
    forall y ensures y in [x] + rest <==> y in {x} + s {
      assert y in rest <==> y in Elements(rest);
    }
  }

  lemma SortedContains(s: set<Id>, x: Id)
    ensures x in Sorted(s) <==> x in s
  {
    SortedIsSorted(s);
    assert x in Sorted(s) <==> x in Elements(Sorted(s));
  }

  /** A strictly sorted list is determined by its elements. */
  lemma {:induction false} SortedIsUnique(q: seq<Id>, r: seq<Id>)
    requires StrictlySorted(q) && StrictlySorted(r)
    requires forall x :: x in q <==> x in r
    ensures q == r
  {
    if q == [] {
      assert forall i | 0 <= i < |r| :: r[i] in r;
    } else {
      assert q[0] in r && r[0] in q;
      assert q[0] == r[0];
      forall x ensures x in q[1..] <==> x in r[1..] {
        assert x in q[1..] <==> x in q && x != q[0];
        assert x in r[1..] <==> x in r && x != r[0];
      }
      SortedIsUnique(q[1..], r[1..]);
      assert q == [q[0]] + q[1..] && r == [r[0]] + r[1..];
    }
  }

  /** Insertion into a sorted list, after the elements that are not greater. */
  function Insert(x: Id, q: seq<Id>): seq<Id> {
    if q == [] || x.rank < q[0].rank then [x] + q else [q[0]] + Insert(x, q[1..])
  }

  /** Python's `sorted(q)` on a list. */
  function Sort(q: seq<Id>): seq<Id> {
    if q == [] then [] else Insert(q[|q| - 1], Sort(q[..|q| - 1]))
  }

  lemma {:induction false} InsertIntoStrict(x: Id, q: seq<Id>)
    requires StrictlySorted(q) && x !in q
    ensures StrictlySorted(Insert(x, q))
    ensures forall y :: y in Insert(x, q) <==> y == x || y in q
  {
    if q != [] && q[0].rank <= x.rank {
      var first, rest := q[0], q[1..];
      InsertIntoStrict(x, rest);
      assert q == [first] + rest;
      var r := Insert(x, rest);
      forall i | 0 <= i < |r| ensures first.rank < r[i].rank {
        assert r[i] in r && (r[i] == x || r[i] in rest);
      }
      assert Insert(x, q) == [first] + r;
    }
  }

  /** On a list without repeats, sorting the list is sorting the set of its elements. */
  lemma {:induction false} SortOfDistinct(q: seq<Id>)
    requires Distinct(q)
    ensures Sort(q) == Sorted(Elements(q))
  {
    SortIsSorted(q);
    SortedIsSorted(Elements(q));
    assert forall x :: x in Sorted(Elements(q)) <==> x in Elements(Sorted(Elements(q)));
    SortedIsUnique(Sort(q), Sorted(Elements(q)));
  }

  lemma {:induction false} SortIsSorted(q: seq<Id>)
    requires Distinct(q)
    ensures StrictlySorted(Sort(q)) && forall x :: x in Sort(q) <==> x in q
  {
    if q != [] {
      var front := q[..|q| - 1];
      SortIsSorted(front);
      InsertIntoStrict(q[|q| - 1], Sort(front));
      assert q == front + [q[|q| - 1]];
    }
  }

  /** Extending a prefix by one entry. */
  lemma PrefixStep(q: seq<Id>, i: nat)
    requires i < |q|
    ensures q[..i + 1] == q[..i] + [q[i]]
    ensures Elements(q[..i + 1]) == Elements(q[..i]) + {q[i]}
    ensures Distinct(q) ==> q[i] !in Elements(q[..i])
  {
    assert q[..i + 1] == q[..i] + [q[i]];
  }

  /** How often `x` occurs in `q`. */
  ghost function Count(q: seq<Id>, x: Id): nat {
    if q == [] then 0 else Count(q[..|q| - 1], x) + if q[|q| - 1] == x then 1 else 0
  }

  lemma CountAppend(q: seq<Id>, y: Id, x: Id)
    ensures Count(q + [y], x) == Count(q, x) + if x == y then 1 else 0
  {
    assert (q + [y])[..|q|] == q;
  }

  lemma {:induction false} CountMember(q: seq<Id>, x: Id)
    ensures Count(q, x) > 0 <==> x in q
  {
    if q != [] {
      CountMember(q[..|q| - 1], x);
      assert q == q[..|q| - 1] + [q[|q| - 1]];
    }
  }

  /** A prefix that stops just before an occurrence has fewer occurrences than the whole. */
  lemma {:induction false} CountPrefix(q: seq<Id>, j: nat)
    requires j < |q|
    ensures Count(q[..j], q[j]) < Count(q, q[j])
  {
    var front := q[..|q| - 1];
    if j < |front| {
      CountPrefix(front, j);
      assert front[..j] == q[..j];
    }
  }

  lemma SubsetSize<T>(s: set<T>, t: set<T>)
    requires s <= t
    ensures |s| <= |t|
  {
    assert t == s + (t - s);
  }
}
