/** The like toggle shared by comments and posts: find the user's id with
    `indexOf`, then `splice` it out if present or `push` it at the end. */
module Likes {
  import opened Common

  /** The list with the first occurrence of `u` taken out. */
  function RemoveFirst(s: seq<Id>, u: Id): (r: seq<Id>)
    requires u in s
    ensures |r| == |s| - 1
    ensures multiset(r) == multiset(s) - multiset{u}
    ensures forall v :: v in r ==> v in s
    ensures forall v :: v != u ==> (v in r <==> v in s)
  {
    assert s == [s[0]] + s[1..];
    if s[0] == u then s[1..]
    else [s[0]] + RemoveFirst(s[1..], u)
  }

  /** The intended effect of one toggle: unlike when present, like when absent. */
  function Toggled(likes: seq<Id>, u: Id): (r: seq<Id>)
    ensures |r| == if u in likes then |likes| - 1 else |likes| + 1
    ensures forall v :: v != u ==> (v in r <==> v in likes)
  {
    if u in likes then RemoveFirst(likes, u) else likes + [u]
  }

  /** `Array.prototype.indexOf`: the first position of `u`, or -1. */
  method IndexOf(s: seq<Id>, u: Id) returns (i: int)
    ensures -1 <= i < |s|
    ensures i == -1 <==> u !in s
    ensures 0 <= i ==> s[i] == u && u !in s[..i]
  {
    i := 0;
    while i < |s|
      invariant 0 <= i <= |s|
      invariant u !in s[..i]
    {
      if s[i] == u {
        return;
      }
      assert s[..i + 1] == s[..i] + [s[i]];
      i := i + 1;
    }
    assert s[..i] == s;
    i := -1;
  }

  /** Splicing out the element at the first index of `u` removes the first `u`. */
  lemma {:induction false} SpliceFirst(s: seq<Id>, u: Id, i: nat)
    requires i < |s| && s[i] == u && u !in s[..i]
    ensures s[..i] + s[i + 1..] == RemoveFirst(s, u)
  {
    if i > 0 {
      assert s[0] != u by { assert s[0] == s[..i][0]; }
      assert s[1..][..i - 1] == s[1..i];
      assert s[1..i] == s[..i][1..];
      SpliceFirst(s[1..], u, i - 1);
      assert s[1..][i..] == s[i + 1..];
      assert s[..i] == [s[0]] + s[1..][..i - 1];
    }
  }

  /** The toggle as both route handlers run it; `present` is whether the
      user had liked before (the handlers' `likeIndex > -1`). */
  method Toggle(likes: seq<Id>, u: Id) returns (r: seq<Id>, present: bool)
    ensures present == (u in likes)
    ensures r == Toggled(likes, u)
  {
    var i := IndexOf(likes, u);
    present := i > -1;
    if present {
      SpliceFirst(likes, u, i);
      r := likes[..i] + likes[i + 1..];
    } else {
      r := likes + [u];
    }
  }

  /** Removing one element keeps a duplicate-free list duplicate-free, and
      the removed element is then absent. */
  lemma {:induction false} RemoveFirstNoDup(s: seq<Id>, u: Id)
    requires u in s && NoDup(s)
    ensures NoDup(RemoveFirst(s, u))
    ensures u !in RemoveFirst(s, u)
  {
    if s[0] == u {
      assert forall k :: 0 <= k < |s| - 1 ==> s[1..][k] == s[k + 1];
    } else {
      assert NoDup(s[1..]) by {
        assert forall k :: 0 <= k < |s| - 1 ==> s[1..][k] == s[k + 1];
      }
      RemoveFirstNoDup(s[1..], u);
      assert s[0] !in s[1..];
    }
  }

  /** On a duplicate-free list a toggle flips membership and keeps the list
      duplicate-free. */
  lemma ToggleFlips(likes: seq<Id>, u: Id)
    requires NoDup(likes)
    ensures (u in Toggled(likes, u)) == (u !in likes)
    ensures NoDup(Toggled(likes, u))
  {
    if u in likes {
      RemoveFirstNoDup(likes, u);
    }
  }

  /** From a list without `u`, liking and unliking gives back the very same list. */
  lemma {:induction false} ToggleTwiceAbsent(likes: seq<Id>, u: Id)
    requires u !in likes
    ensures Toggled(Toggled(likes, u), u) == likes
  {
    RemoveAppended(likes, u);
  }

  lemma {:induction false} RemoveAppended(s: seq<Id>, u: Id)
    requires u !in s
    ensures RemoveFirst(s + [u], u) == s
  {
    if s != [] {
      assert (s + [u])[1..] == s[1..] + [u];
      RemoveAppended(s[1..], u);
    }
  }

  /** From a duplicate-free list holding `u`, unliking and liking again keeps
      the same members and length, but moves `u` to the end. */
  lemma ToggleTwicePresent(likes: seq<Id>, u: Id)
    requires u in likes && NoDup(likes)
    ensures Toggled(Toggled(likes, u), u) == RemoveFirst(likes, u) + [u]
    ensures multiset(Toggled(Toggled(likes, u), u)) == multiset(likes)
  {
    RemoveFirstNoDup(likes, u);
  }
}
