/**
 Results of operations that the modelled code reports by exception or by
 `undefined`, and the last of several writes to one place.
 */
module Wrappers {

  datatype Option<+T> = None | Some(value: T)

  datatype Result<+T, +E> = Ok(value: T) | Err(error: E)

  /** What is there after a write that may not have happened. */
  function Or<T>(written: Option<T>, before: T): T {
    if written.Some? then written.value else before
  }

  /** The last value written, if any was. */
  function Last<T>(writes: seq<Option<T>>): Option<T> {
    if writes == [] then None
    else if writes[|writes| - 1].Some? then writes[|writes| - 1]
    else Last(writes[..|writes| - 1])
  }

  /** It was written at some point, and nothing was written after that. */
  lemma {:induction false} LastIsLastWrite<T>(writes: seq<Option<T>>)
    ensures Last(writes).None? <==> forall w | w in writes :: w.None?
    ensures Last(writes).Some? ==>
      exists k :: 0 <= k < |writes| && writes[k] == Last(writes) && forall l | k < l < |writes| :: writes[l].None?
  {
    if writes != [] {
      var front, w := writes[..|writes| - 1], writes[|writes| - 1];
      assert writes == front + [w];
      if w.None? {
        LastIsLastWrite(front);
        if Last(front).Some? {
          var k :| 0 <= k < |front| && front[k] == Last(front) && forall l | k < l < |front| :: front[l].None?;
          assert writes[k] == Last(writes);
        }
      } else {
        assert w in writes;
      }
    }
  }

  /** One more write. */
  lemma LastStep<T>(front: seq<Option<T>>, writes: seq<Option<T>>)
    requires |writes| == |front| + 1 && forall k | 0 <= k < |front| :: writes[k] == front[k]
    ensures Last(writes) == if writes[|front|].Some? then writes[|front|] else Last(front)
  {
    assert writes[..|writes| - 1] == front;
  }
}
