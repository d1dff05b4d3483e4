/** Finite directed graphs over ids: walks, reachability, cycles and layering. */
module Graphs {
  import opened Ordering

  type Graph = map<Id, set<Id>>

  predicate Edge(g: Graph, a: Id, b: Id) {
    a in g && b in g[a]
  }

  /** Every target is itself a key. */
  ghost predicate Closed(g: Graph) {
    forall a, b | Edge(g, a, b) :: b in g
  }

  ghost predicate IsWalk(g: Graph, p: seq<Id>) {
    |p| > 0 && forall i | 0 <= i < |p| - 1 :: Edge(g, p[i], p[i + 1])
  }

  ghost predicate WalkBetween(g: Graph, p: seq<Id>, a: Id, b: Id) {
    IsWalk(g, p) && p[0] == a && p[|p| - 1] == b
  }

  /** `b` can be reached from `a` along at least one edge. */
  ghost predicate Reaches(g: Graph, a: Id, b: Id) {
    exists p :: WalkBetween(g, p, a, b) && |p| >= 2
  }

  ghost predicate Acyclic(g: Graph) {
    forall a :: !Reaches(g, a, a)
  }

  /** `a` lies on a cycle or leads to one. */
  ghost predicate LeadsToCycle(g: Graph, a: Id) {
    exists c :: (a == c || Reaches(g, a, c)) && Reaches(g, c, c)
  }

  lemma EdgeReaches(g: Graph, a: Id, b: Id)
    requires Edge(g, a, b)
    ensures Reaches(g, a, b)
  {
    assert WalkBetween(g, [a, b], a, b);
  }

  lemma TailIsWalk(g: Graph, p: seq<Id>)
    requires IsWalk(g, p) && |p| > 1
    ensures IsWalk(g, p[1..])
  {
    var q := p[1..];
    forall i | 0 <= i < |q| - 1 ensures Edge(g, q[i], q[i + 1]) {
      assert Edge(g, p[i + 1], p[i + 2]);
    }
  }

  lemma JoinWalks(g: Graph, p: seq<Id>, q: seq<Id>)
    requires IsWalk(g, p) && IsWalk(g, q) && p[|p| - 1] == q[0]
    ensures WalkBetween(g, p + q[1..], p[0], q[|q| - 1])
  {
    var r := p + q[1..];
    forall i | 0 <= i < |r| - 1 ensures Edge(g, r[i], r[i + 1]) {
      if i >= |p| - 1 {
        var k := i - (|p| - 1);
        assert Edge(g, q[k], q[k + 1]);
      } else {
        assert Edge(g, p[i], p[i + 1]);
      }
    }
  }

  lemma ReachesIsTransitive(g: Graph, a: Id, b: Id, c: Id)
    requires Reaches(g, a, b) && Reaches(g, b, c)
    ensures Reaches(g, a, c)
  {
    var p :| WalkBetween(g, p, a, b) && |p| >= 2;
    var q :| WalkBetween(g, q, b, c) && |q| >= 2;
    JoinWalks(g, p, q);
  }

  /** Two positions of a walk, in order, are connected. */
  lemma ReachesAlongWalk(g: Graph, p: seq<Id>, i: nat, j: nat)
    requires IsWalk(g, p) && i < j < |p|
    ensures Reaches(g, p[i], p[j])
  {
    var q := p[i..j + 1];
    forall k | 0 <= k < |q| - 1 ensures Edge(g, q[k], q[k + 1]) {
      assert Edge(g, p[i + k], p[i + k + 1]);
    }
    assert WalkBetween(g, q, p[i], p[j]);
  }

  /** The first edge of a connection. */
  lemma FirstEdge(g: Graph, a: Id, c: Id) returns (b: Id)
    requires Reaches(g, a, c)
    ensures Edge(g, a, b) && (b == c || Reaches(g, b, c))
  {
    var p :| WalkBetween(g, p, a, c) && |p| >= 2;
    b := p[1];
    assert Edge(g, p[0], p[1]);
    if |p| > 2 {
      ReachesAlongWalk(g, p, 1, |p| - 1);
    }
  }

  // ---------------------------------------------------------------- layering

  /** The ids whose every walk has at most `k` nodes, built one round at a time. */
  ghost function Settled(g: Graph, k: nat): set<Id> {
    if k == 0 then {} else set a | a in g && g[a] <= Settled(g, k - 1)
  }

  lemma {:induction false} SettledGrows(g: Graph, j: nat, k: nat)
    requires j <= k
    ensures Settled(g, j) <= Settled(g, k) <= g.Keys
    decreases k
  {
    if j > 0 {
      SettledGrows(g, j - 1, k - 1);
    }
  }

  lemma {:induction false} SettledIsStable(g: Graph, k: nat, m: nat)
    requires Settled(g, k) == Settled(g, k + 1) && k <= m
    ensures Settled(g, m) == Settled(g, k)
    decreases m
  {
    if k < m {
      SettledIsStable(g, k, m - 1);
    }
  }

  /** Walks from a settled id are short. */
  lemma {:induction false} SettledWalksAreShort(g: Graph, k: nat, p: seq<Id>)
    requires IsWalk(g, p) && p[0] in Settled(g, k)
    ensures |p| <= k && p[|p| - 1] in Settled(g, k - |p| + 1)
    decreases k
  {
    if |p| > 1 {
      assert Edge(g, p[0], p[1]);
      var q := p[1..];
      TailIsWalk(g, p);
      SettledWalksAreShort(g, k - 1, q);
    }
  }

  /** An id that is not settled starts a walk of more than `k` nodes. */
  lemma {:induction false} UnsettledHasLongWalk(g: Graph, k: nat, a: Id) returns (p: seq<Id>)
    requires Closed(g) && a in g && a !in Settled(g, k)
    ensures IsWalk(g, p) && p[0] == a && |p| == k + 1
    ensures forall x | x in p :: x in g
  {
    if k == 0 {
      p := [a];
    } else {
      var b :| b in g[a] && b !in Settled(g, k - 1);
      assert Edge(g, a, b);
      var q := UnsettledHasLongWalk(g, k - 1, b);
      p := [a] + q;
      forall i | 0 <= i < |p| - 1 ensures Edge(g, p[i], p[i + 1]) {
        if i > 0 { assert Edge(g, q[i - 1], q[i]); }
      }
    }
  }

  /** The longest walk from `a` has exactly `k` edges. */
  ghost predicate LongestWalk(g: Graph, a: Id, k: nat) {
    && (exists p :: IsWalk(g, p) && p[0] == a && |p| == k + 1)
    && (forall p | IsWalk(g, p) && p[0] == a :: |p| <= k + 1)
  }

  /** Round `k + 1` settles exactly the ids whose longest walk has `k` edges. */
  lemma LayerIsLongestWalk(g: Graph, k: nat, a: Id)
    requires Closed(g)
    ensures a in Settled(g, k + 1) - Settled(g, k) <==> a in g && LongestWalk(g, a, k)
  {
    if a in Settled(g, k + 1) - Settled(g, k) {
      SettledGrows(g, k + 1, k + 1);
      var p := UnsettledHasLongWalk(g, k, a);
      forall q | IsWalk(g, q) && q[0] == a ensures |q| <= k + 1 {
        SettledWalksAreShort(g, k + 1, q);
      }
    }
    if a in g && LongestWalk(g, a, k) {
      if a !in Settled(g, k + 1) {
        var p := UnsettledHasLongWalk(g, k + 1, a);
      }
      var p :| IsWalk(g, p) && p[0] == a && |p| == k + 1;
      if a in Settled(g, k) {
        SettledWalksAreShort(g, k, p);
      }
    }
  }

  /** A list longer than the set it draws from repeats an element. */
  lemma {:induction false} Pigeonhole(q: seq<Id>, s: set<Id>) returns (i: nat, j: nat)
    requires |q| > |s| && forall x | x in q :: x in s
    ensures i < j < |q| && q[i] == q[j]
  {
    var x := q[0];
    if x in q[1..] {
      var k :| 0 <= k < |q[1..]| && q[1..][k] == x;
      i, j := 0, k + 1;
    } else {
      assert q[0] in s;
      i, j := Pigeonhole(q[1..], s - {x});
      i, j := i + 1, j + 1;
    }
  }

  /** No cycle passes through a settled id. */
  lemma {:induction false} SettledIsOffCycles(g: Graph, k: nat, a: Id)
    requires a in Settled(g, k)
    ensures !Reaches(g, a, a)
    decreases k
  {
    if Reaches(g, a, a) {
      var p :| WalkBetween(g, p, a, a) && |p| >= 2;
      SettledWalksAreShort(g, k, p);
      SettledIsOffCycles(g, k - |p| + 1, a);
    }
  }

  /** When a round adds nothing, the ids left over are exactly those that lead to a cycle. */
  lemma UnsettledLeadsToCycle(g: Graph, k: nat, a: Id)
    requires Closed(g) && a in g && Settled(g, k) == Settled(g, k + 1)
    ensures a !in Settled(g, k) <==> LeadsToCycle(g, a)
  {
    if a !in Settled(g, k) {
      var m := if k <= |g.Keys| then |g.Keys| else k;
      SettledIsStable(g, k, m);
      var p := UnsettledHasLongWalk(g, m, a);
      var i, j := Pigeonhole(p, g.Keys);
      ReachesAlongWalk(g, p, i, j);
      if i > 0 { ReachesAlongWalk(g, p, 0, i); }
    } else if LeadsToCycle(g, a) {
      var c :| (a == c || Reaches(g, a, c)) && Reaches(g, c, c);
      if a == c {
        SettledIsOffCycles(g, k, a);
      } else {
        var p :| WalkBetween(g, p, a, c) && |p| >= 2;
        SettledWalksAreShort(g, k, p);
        SettledIsOffCycles(g, k - |p| + 1, c);
      }
    }
  }

  /** When a round adds nothing, everything is settled exactly if the graph is acyclic. */
  lemma AllSettledIffAcyclic(g: Graph, k: nat)
    requires Closed(g) && Settled(g, k) == Settled(g, k + 1)
    ensures Settled(g, k) == g.Keys <==> Acyclic(g)
  {
    SettledGrows(g, k, k);
    if Settled(g, k) == g.Keys {
      forall a ensures !Reaches(g, a, a) {
        if Reaches(g, a, a) {
          var b := FirstEdge(g, a, a);
          SettledIsOffCycles(g, k, a);
        }
      }
    } else {
      var a :| a in g && a !in Settled(g, k);
      UnsettledLeadsToCycle(g, k, a);
    }
  }

  /** Any assignment of slots that puts targets strictly earlier needs at least as many slots. */
  lemma {:induction false} NoScheduleIsShorter(g: Graph, k: nat, a: Id, slot: map<Id, nat>)
    requires Closed(g) && slot.Keys == g.Keys
    requires forall x, y | Edge(g, x, y) :: slot[y] < slot[x]
    requires a in Settled(g, k + 1) - Settled(g, k)
    ensures slot[a] >= k
  {
    SettledGrows(g, k + 1, k + 1);
    var p := UnsettledHasLongWalk(g, k, a);
    SlotsAlongWalk(g, slot, p);
  }

  lemma {:induction false} SlotsAlongWalk(g: Graph, slot: map<Id, nat>, p: seq<Id>)
    requires Closed(g) && slot.Keys == g.Keys
    requires forall x, y | Edge(g, x, y) :: slot[y] < slot[x]
    requires IsWalk(g, p) && p[0] in g
    ensures slot[p[0]] >= |p| - 1
  {
    if |p| > 1 {
      assert Edge(g, p[0], p[1]);
      var q := p[1..];
      TailIsWalk(g, p);
      SlotsAlongWalk(g, slot, q);
    }
  }
}
