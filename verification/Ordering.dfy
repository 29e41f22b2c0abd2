/** `ORDER BY ... LIMIT`: the first rows of a table in the order of their times. */
module Ordering {
  import opened Domain

  /** The first `limit` of the candidates in the order of their times, or all of them. */
  ghost predicate FirstOf<T(!new)>(candidates: set<T>, at: T -> Time, limit: nat, ids: seq<T>) {
    && |ids| <= limit
    && (forall i :: 0 <= i < |ids| ==> ids[i] in candidates)
    && (forall i, j :: 0 <= i < j < |ids| ==> ids[i] != ids[j] && at(ids[i]) <= at(ids[j]))
    && (forall i, id :: 0 <= i < |ids| && id in candidates && id !in ids ==> at(ids[i]) <= at(id))
    && (|ids| < limit ==> forall id :: id in candidates ==> id in ids)
  }

  method Earliest<T(==, !new)>(candidates: set<T>, at: T -> Time) returns (first: T)
    requires candidates != {}
    ensures first in candidates && forall id :: id in candidates ==> at(first) <= at(id)
  {
    first :| first in candidates;
    var rest := candidates - {first};
    while rest != {}
      invariant rest <= candidates && first in candidates
      invariant forall id :: id in candidates - rest ==> at(first) <= at(id)
      decreases rest
    {
      var id :| id in rest;
      if at(id) < at(first) {
        first := id;
      }
      rest := rest - {id};
    }
  }

  /** Some of the candidates picked, the earliest first, and the rest of them. */
  ghost predicate Picked<T(!new)>(candidates: set<T>, at: T -> Time, ids: seq<T>, rest: set<T>) {
    && rest <= candidates
    && (forall id :: id in candidates ==> (id in ids <==> id !in rest))
    && (forall i :: 0 <= i < |ids| ==> ids[i] in candidates)
    && (forall i, j :: 0 <= i < j < |ids| ==> ids[i] != ids[j] && at(ids[i]) <= at(ids[j]))
    && (forall i, id :: 0 <= i < |ids| && id in rest ==> at(ids[i]) <= at(id))
  }

  lemma PickOne<T(!new)>(candidates: set<T>, at: T -> Time, ids: seq<T>, rest: set<T>, id: T)
    requires Picked(candidates, at, ids, rest) && id in rest && forall other :: other in rest ==> at(id) <= at(other)
    ensures Picked(candidates, at, ids + [id], rest - {id})
  {
    assert forall i :: 0 <= i < |ids| ==> ids[i] in ids && ids[i] != id;
  }

  lemma PickedAreFirst<T(!new)>(candidates: set<T>, at: T -> Time, limit: nat, ids: seq<T>, rest: set<T>)
    requires Picked(candidates, at, ids, rest) && |ids| <= limit && (rest == {} || |ids| == limit)
    ensures FirstOf(candidates, at, limit, ids)
  {
  }

  /** `ORDER BY at LIMIT limit`. */
  method OldestFirst<T(==, !new)>(candidates: set<T>, at: T -> Time, limit: nat) returns (ids: seq<T>)
    ensures FirstOf(candidates, at, limit, ids)
  {
    ids := [];
    var rest := candidates;
    while rest != {} && |ids| < limit
      invariant |ids| <= limit && Picked(candidates, at, ids, rest)
      decreases rest
    {
      var id := Earliest(rest, at);
      PickOne(candidates, at, ids, rest, id);
      ids := ids + [id];
      rest := rest - {id};
    }
    PickedAreFirst(candidates, at, limit, ids, rest);
  }
}
