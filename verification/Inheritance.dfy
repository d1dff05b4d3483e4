/** The structural analyzer's inheritance depth, on class maps that may contain cycles. */
module Inheritance {
  import opened Wrappers
  import opened Ordering
  import opened Graphs

  /** The base names listed by each known class, in source order. */
  type Bases = map<Id, seq<Id>>

  /** The listed bases that are themselves known classes. */
  function Resolvable(bases: Bases, names: seq<Id>): seq<Id> {
    if names == [] then []
    else (if names[0] in bases then [names[0]] else []) + Resolvable(bases, names[1..])
  }

  /** The depth of a class on a walk that has already passed through `seen`. */
  function Depth(bases: Bases, name: Id, seen: set<Id>): nat
    decreases bases.Keys - seen, 0
  {
    if name in seen || name !in bases then 0
    else
      var resolvable := Resolvable(bases, bases[name]);
      assert name in bases.Keys - seen && name !in bases.Keys - (seen + {name});
      if resolvable == [] then 1 else 1 + Deepest(bases, resolvable, seen + {name})
  }

  /** The largest depth among some classes. */
  function Deepest(bases: Bases, names: seq<Id>, seen: set<Id>): nat
    requires names != []
    decreases bases.Keys - seen, |names|
  {
    var first := Depth(bases, names[0], seen);
    if |names| == 1 then first
    else
      var rest := Deepest(bases, names[1..], seen);
      if first < rest then rest else first
  }

  /** The depths of a file's own classes, in their order; a local class hides a project class of the same name. */
  method InheritanceDepths(own: seq<Id>, local: Bases, project: Option<Bases>) returns (depths: seq<nat>)
    requires Distinct(own) && Elements(own) == local.Keys
    ensures own == [] ==> depths == [0]
    ensures own != [] ==> |depths| == |own| && forall i | 0 <= i < |own| ::
      IsLongestChain(Merge(project, local), own[i], depths[i]) && 1 <= depths[i] <= |Merge(project, local)|
  {
    if own == [] { return [0]; }
    var all := Merge(project, local);
    depths := [];
    for i := 0 to |own|
      invariant |depths| == i
      invariant forall j | 0 <= j < i :: IsLongestChain(all, own[j], depths[j]) && 1 <= depths[j] <= |all|
    {
      assert own[i] in Elements(own);
      DepthIsLongestChain(all, own[i]);
      depths := depths + [Depth(all, own[i], {})];
    }
  }

  function Merge(project: Option<Bases>, local: Bases): Bases {
    match project
    case None => local
    case Some(known) => known + local
  }

  // ------------------------------------------------------------------- chains

  /** Known classes, none twice and none in `seen`, each a base of the one before it. */
  ghost predicate IsChain(bases: Bases, chain: seq<Id>, seen: set<Id>) {
    && chain != []
    && Distinct(chain)
    && (forall i | 0 <= i < |chain| :: chain[i] in bases && chain[i] !in seen)
    && (forall i | 0 < i < |chain| :: chain[i] in bases[chain[i - 1]])
  }

  /** Some chain from `name` has `length` classes and none has more. */
  ghost predicate IsLongestChain(bases: Bases, name: Id, length: nat) {
    && (exists chain :: IsChain(bases, chain, {}) && chain[0] == name && |chain| == length)
    && (forall chain | IsChain(bases, chain, {}) && chain[0] == name :: |chain| <= length)
  }

  lemma {:induction false} InResolvable(bases: Bases, names: seq<Id>, b: Id)
    ensures b in Resolvable(bases, names) <==> b in names && b in bases
  {
    if names != [] {
      InResolvable(bases, names[1..], b);
      assert names == [names[0]] + names[1..];
    }
  }

  /** `Deepest` is attained by one of the names and exceeded by none. */
  lemma {:induction false} DeepestIsMaximum(bases: Bases, names: seq<Id>, seen: set<Id>) returns (b: Id)
    requires names != []
    ensures b in names && Depth(bases, b, seen) == Deepest(bases, names, seen)
    ensures forall c | c in names :: Depth(bases, c, seen) <= Deepest(bases, names, seen)
    decreases |names|
  {
    b := names[0];
    if |names| > 1 {
      var c := DeepestIsMaximum(bases, names[1..], seen);
      if Depth(bases, b, seen) < Depth(bases, c, seen) { b := c; }
      assert names == [names[0]] + names[1..];
    }
  }

  /** Some chain reaches the computed depth. */
  lemma {:induction false} DepthIsAttained(bases: Bases, name: Id, seen: set<Id>) returns (chain: seq<Id>)
    requires name in bases && name !in seen
    ensures IsChain(bases, chain, seen) && chain[0] == name && |chain| == Depth(bases, name, seen)
    decreases bases.Keys - seen
  {
    var resolvable := Resolvable(bases, bases[name]);
    chain := [name];
    if resolvable != [] {
      var b := DeepestIsMaximum(bases, resolvable, seen + {name});
      InResolvable(bases, bases[name], b);
      if b !in seen + {name} {
        assert name in bases.Keys - seen && name !in bases.Keys - (seen + {name});
        var rest := DepthIsAttained(bases, b, seen + {name});
        chain := [name] + rest;
      }
    }
  }

  /** No chain is longer than the computed depth. */
  lemma {:induction false} DepthBoundsChains(bases: Bases, chain: seq<Id>, seen: set<Id>)
    requires IsChain(bases, chain, seen)
    ensures |chain| <= Depth(bases, chain[0], seen)
    decreases |chain|
  {
    if |chain| > 1 {
      var name := chain[0];
      DepthBoundsChains(bases, chain[1..], seen + {name});
      InResolvable(bases, bases[name], chain[1]);
      var _ := DeepestIsMaximum(bases, Resolvable(bases, bases[name]), seen + {name});
    }
  }

  /**
   On any map, cyclic or not, the walk returns the number of classes on a longest
   chain without repetition, which lies between one and the number of known classes.
   */
  lemma DepthIsLongestChain(bases: Bases, name: Id)
    requires name in bases
    ensures IsLongestChain(bases, name, Depth(bases, name, {}))
    ensures 1 <= Depth(bases, name, {}) <= |bases|
  {
    var chain := DepthIsAttained(bases, name, {});
    assert bases.Keys == bases.Keys - {};
    if |chain| > |bases.Keys| {
      var i, j := Pigeonhole(chain, bases.Keys);
    }
    forall other | IsChain(bases, other, {}) && other[0] == name ensures |other| <= Depth(bases, name, {}) {
      DepthBoundsChains(bases, other, {});
    }
  }

  /** Resolving bases across files never makes a class shallower. */
  lemma ProjectNeverShortens(project: Bases, local: Bases, name: Id)
    requires name in local
    ensures Depth(local, name, {}) <= Depth(Merge(Some(project), local), name, {})
  {
    var chain := DepthIsAttained(local, name, {});
    assert IsChain(Merge(Some(project), local), chain, {});
    DepthBoundsChains(Merge(Some(project), local), chain, {});
  }

  // ---------------------------------------------------------------- hierarchies without cycles

  /**
   `height` is given for classes together with all their known bases, and strictly
   falls from a class to each of them: no cycle can be reached from these classes.
   */
  ghost predicate IsHierarchy(bases: Bases, height: map<Id, nat>) {
    forall c, b | c in height && c in bases && b in bases[c] && b in bases :: b in height && height[b] < height[c]
  }

  lemma {:induction false} ChainDescends(bases: Bases, height: map<Id, nat>, chain: seq<Id>, k: nat)
    requires IsHierarchy(bases, height) && IsChain(bases, chain, {}) && chain[0] in height && k < |chain|
    ensures chain[k] in height && height[chain[k]] <= height[chain[0]]
    ensures k > 0 ==> chain[k - 1] in height && height[chain[k]] < height[chain[k - 1]]
  {
    if k > 0 { ChainDescends(bases, height, chain, k - 1); }
  }

  /** Where no cycle can be reached, passing through higher classes first changes nothing. */
  lemma SeenIsIrrelevant(bases: Bases, height: map<Id, nat>, name: Id, seen: set<Id>)
    requires IsHierarchy(bases, height) && name in bases && name in height
    requires forall s | s in seen && s in height :: height[name] < height[s]
    ensures Depth(bases, name, seen) == Depth(bases, name, {})
  {
    var avoiding := DepthIsAttained(bases, name, seen);
    DepthBoundsChains(bases, avoiding, {});
    var chain := DepthIsAttained(bases, name, {});
    forall i | 0 <= i < |chain| ensures chain[i] !in seen {
      ChainDescends(bases, height, chain, i);
    }
    DepthBoundsChains(bases, chain, seen);
  }

  /** Where no cycle can be reached, a class is one deeper than its deepest known base. */
  lemma DepthRecurrence(bases: Bases, height: map<Id, nat>, name: Id)
    requires IsHierarchy(bases, height) && name in bases && name in height
    ensures forall b | b in bases[name] && b in bases :: Depth(bases, b, {}) < Depth(bases, name, {})
    ensures Depth(bases, name, {}) > 1 ==>
      exists b :: b in bases[name] && b in bases && Depth(bases, name, {}) == 1 + Depth(bases, b, {})
  {
    var resolvable := Resolvable(bases, bases[name]);
    forall b ensures b in resolvable <==> b in bases[name] && b in bases {
      InResolvable(bases, bases[name], b);
    }
    forall b | b in bases[name] && b in bases ensures Depth(bases, b, {}) == Depth(bases, b, {name}) {
      SeenIsIrrelevant(bases, height, b, {name});
    }
    assert {} + {name} == {name};
    if resolvable != [] {
      var b := DeepestIsMaximum(bases, resolvable, {name});
    }
  }

  function Depths(bases: Bases): map<Id, nat> {
    map c | c in bases :: Depth(bases, c, {})
  }

  /** Every class is deeper than each of its known bases exactly if the map has no cycle. */
  lemma DepthsFallIffAcyclic(bases: Bases)
    ensures IsHierarchy(bases, Depths(bases)) <==>
      exists height: map<Id, nat> :: bases.Keys <= height.Keys && IsHierarchy(bases, height)
  {
    if height: map<Id, nat> :| bases.Keys <= height.Keys && IsHierarchy(bases, height) {
      forall c | c in bases ensures forall b | b in bases[c] && b in bases :: Depths(bases)[b] < Depths(bases)[c] {
        DepthRecurrence(bases, height, c);
      }
    }
    assert bases.Keys <= Depths(bases).Keys;
  }

  // ---------------------------------------------------------------- chains to a root

  /** A known class none of whose bases is known. */
  ghost predicate IsRoot(bases: Bases, name: Id) {
    name in bases && forall b | b in bases[name] :: b !in bases
  }

  ghost predicate IsRootChain(bases: Bases, chain: seq<Id>, name: Id) {
    IsChain(bases, chain, {}) && chain[0] == name && IsRoot(bases, chain[|chain| - 1])
  }

  /** The documented depth: the number of classes on a longest chain from `name` to a root. */
  ghost predicate IsLongestRootChain(bases: Bases, name: Id, length: nat) {
    && (exists chain :: IsRootChain(bases, chain, name) && |chain| == length)
    && (forall chain | IsRootChain(bases, chain, name) :: |chain| <= length)
  }

  /** Where no cycle can be reached, every longest chain ends at a root, as it could go on to a known base otherwise. */
  lemma LongestChainEndsAtRoot(bases: Bases, height: map<Id, nat>, chain: seq<Id>)
    requires IsHierarchy(bases, height) && IsChain(bases, chain, {}) && chain[0] in height
    requires |chain| == Depth(bases, chain[0], {})
    ensures IsRoot(bases, chain[|chain| - 1])
  {
    var last := chain[|chain| - 1];
    forall b | b in bases[last] ensures b !in bases {
      if b in bases {
        forall i | 0 <= i < |chain| ensures chain[i] != b {
          ChainFalls(bases, height, chain, i, |chain| - 1);
        }
        assert IsChain(bases, chain + [b], {});
        DepthBoundsChains(bases, chain + [b], {});
      }
    }
  }

  lemma {:induction false} ChainFalls(bases: Bases, height: map<Id, nat>, chain: seq<Id>, i: nat, k: nat)
    requires IsHierarchy(bases, height) && IsChain(bases, chain, {}) && chain[0] in height && i <= k < |chain|
    ensures chain[i] in height && chain[k] in height && height[chain[k]] <= height[chain[i]]
  {
    ChainDescends(bases, height, chain, k);
    if i < k { ChainFalls(bases, height, chain, i, k - 1); }
  }

  /** The computed depth is the documented one wherever no cycle can be reached from the class. */
  lemma DepthIsLongestRootChain(bases: Bases, height: map<Id, nat>, name: Id)
    requires IsHierarchy(bases, height) && name in bases && name in height
    ensures IsLongestRootChain(bases, name, Depth(bases, name, {}))
  {
    var chain := DepthIsAttained(bases, name, {});
    LongestChainEndsAtRoot(bases, height, chain);
    assert IsRootChain(bases, chain, name);
    forall other | IsRootChain(bases, other, name) ensures |other| <= Depth(bases, name, {}) {
      DepthBoundsChains(bases, other, {});
    }
  }

  /** On two classes that name each other as base there is no chain to a root, and yet the computed depth is two. */
  lemma CyclicDepthReachesNoRoot() returns (bases: Bases)
    ensures bases == map[Id(1) := [Id(2)], Id(2) := [Id(1)]]
    ensures Depth(bases, Id(1), {}) == 2
    ensures forall name :: !IsRoot(bases, name)
    ensures forall name, length: nat :: !IsLongestRootChain(bases, name, length)
  {
    bases := map[Id(1) := [Id(2)], Id(2) := [Id(1)]];
    DepthBoundsChains(bases, [Id(1), Id(2)], {});
    DepthIsLongestChain(bases, Id(1));
    forall name ensures !IsRoot(bases, name) {
      assert name in bases ==> bases[name][0] in bases;
    }
  }
}
