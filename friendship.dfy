/**
 * `FriendshipAdmin.save_model` (tracker/admin.py): saving a directed
 * friendship edge from the admin, and mirroring a changed edge's status and
 * acceptance time onto the reverse edge when that edge exists.
 */
module Friendships {
  import opened Wrappers

  /** A directed friendship edge: `from_user` → `to_user`. */
  datatype Edge = Edge(fromUser: nat, toUser: nat, status: string, createdAt: int, acceptedAt: Option<int>)

  function Key(e: Edge): (nat, nat) {
    (e.fromUser, e.toUser)
  }

  /** The key of the edge running the other way. */
  function ReverseKey(e: Edge): (nat, nat) {
    (e.toUser, e.fromUser)
  }

  /** `r` with the status and acceptance time of `obj`, everything else kept. */
  function Mirror(r: Edge, obj: Edge): (m: Edge)
    ensures m.status == obj.status && m.acceptedAt == obj.acceptedAt
    ensures m.fromUser == r.fromUser && m.toUser == r.toUser && m.createdAt == r.createdAt
  {
    r.(status := obj.status, acceptedAt := obj.acceptedAt)
  }

  /** Every edge is stored under its own (from, to) key. */
  ghost predicate Keyed(t: map<(nat, nat), Edge>) {
    forall k | k in t :: Key(t[k]) == k
  }

  /**
   * The table after the admin saves `obj`: the edge itself is stored, and
   * when the save is a change and the reverse edge exists, the reverse edge
   * takes the saved status and acceptance time.
   */
  function AfterSave(t: map<(nat, nat), Edge>, obj: Edge, change: bool): (r: map<(nat, nat), Edge>)
    ensures r.Keys == t.Keys + {Key(obj)}
    ensures r[Key(obj)] == obj
    ensures forall k | k in t && k != Key(obj) && k != ReverseKey(obj) :: r[k] == t[k]
    ensures change && ReverseKey(obj) in t ==>
              r[ReverseKey(obj)].status == obj.status && r[ReverseKey(obj)].acceptedAt == obj.acceptedAt
    ensures change && ReverseKey(obj) in t && ReverseKey(obj) != Key(obj) ==>
              r[ReverseKey(obj)] == Mirror(t[ReverseKey(obj)], obj)
    ensures !change ==> r == t[Key(obj) := obj]
    ensures ReverseKey(obj) != Key(obj) && ReverseKey(obj) in t && !change ==>
              r[ReverseKey(obj)] == t[ReverseKey(obj)]
  {
    var saved := t[Key(obj) := obj];
    if change && ReverseKey(obj) in saved then
      saved[ReverseKey(obj) := Mirror(saved[ReverseKey(obj)], obj)]
    else
      saved
  }

  /** Saving keeps every edge under its own key. */
  lemma SaveKeepsKeyed(t: map<(nat, nat), Edge>, obj: Edge, change: bool)
    requires Keyed(t)
    ensures Keyed(AfterSave(t, obj, change))
  {
  }

  /** Saving the same edge a second time changes nothing. */
  lemma SaveIdempotent(t: map<(nat, nat), Edge>, obj: Edge, change: bool)
    ensures AfterSave(AfterSave(t, obj, change), obj, change) == AfterSave(t, obj, change)
  {
    var once := AfterSave(t, obj, change);
    var twice := AfterSave(once, obj, change);
    assert twice.Keys == once.Keys;
    forall k | k in once
      ensures twice[k] == once[k]
    {
      if change && k == ReverseKey(obj) && k != Key(obj) {
        assert once[k] == Mirror(t[k], obj);
      }
    }
  }

  /** The friendship table, keyed by (from_user, to_user). */
  class FriendshipTable {
    var edges: map<(nat, nat), Edge>

    ghost predicate Valid()
      reads this
    {
      Keyed(edges)
    }

    constructor()
      ensures Valid() && edges == map[]
    {
      edges := map[];
    }

    /**
     * `save_model`: the edge is saved, then, on a change, the reverse edge is
     * looked up and, if found, its status and acceptance time are overwritten
     * with the saved edge's and it is saved again.
     */
    method SaveModel(obj: Edge, change: bool)
      requires Valid()
      modifies this
      ensures Valid()
      ensures edges == AfterSave(old(edges), obj, change)
    {
      edges := edges[Key(obj) := obj];
      if change {
        var reverseKey := (obj.toUser, obj.fromUser);
        if reverseKey in edges {
          var reciprocal := edges[reverseKey];
          reciprocal := reciprocal.(status := obj.status, acceptedAt := obj.acceptedAt);
          edges := edges[reverseKey := reciprocal];
        }
      }
      SaveKeepsKeyed(old(edges), obj, change);
    }
  }
}
