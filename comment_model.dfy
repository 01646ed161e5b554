/** server/models/Comment.js: the comment record with its bounds and
    defaults, the `likeCount` and `isLiked` virtuals, `toggleLike`, and
    `getCommentsForPost`, which picks a post's approved root comments,
    newest first, each with its approved replies, oldest first. */
module CommentModel {
  import opened Common
  import Text
  import Likes

  datatype Comment = Comment(
    id: Id,
    content: string,
    author: Id,
    post: Id,
    parent: Option<Id>,   // `parentComment`; None is `null`, a root comment
    likes: seq<Id>,
    isEdited: bool,
    isApproved: bool,
    createdAt: int,
    updatedAt: int)

  const MaxContent := 1000

  /** The schema's checks on `content`: required, trimmed, 1 to 1000 characters. */
  predicate ValidContent(content: string) {
    1 <= |Text.Trim(content)| <= MaxContent
  }

  /** A comment as `Comment.create` stores it: content trimmed, no likes,
      not edited, approved, both timestamps the creation time. */
  function NewComment(id: Id, content: string, author: Id, post: Id, parent: Option<Id>, now: int): (c: Comment)
    ensures c.id == id && c.author == author && c.post == post && c.parent == parent
    ensures c.content == Text.Trim(content)
    ensures c.likes == [] && !c.isEdited && c.isApproved
    ensures c.createdAt == now && c.updatedAt == now
  {
    Comment(id, Text.Trim(content), author, post, parent, [], false, true, now, now)
  }

  /** `toggleLike(userId)`: the record after the toggle and the save. */
  method ToggleLike(c: Comment, u: Id, now: int) returns (r: Comment)
    ensures r == c.(likes := Likes.Toggled(c.likes, u), updatedAt := now)
  {
    var likes, _ := Likes.Toggle(c.likes, u);
    r := c.(likes := likes, updatedAt := now);
  }

  /** Every record is stored under its own id. */
  predicate Keyed(m: map<Id, Comment>) {
    forall k :: k in m ==> m[k].id == k
  }

  /** The query of `getCommentsForPost`: `{ post, parentComment: null, isApproved: true }`. */
  function RootsOf(m: map<Id, Comment>, post: Id): set<Id> {
    set k | k in m && m[k].post == post && m[k].parent == None && m[k].isApproved
  }

  /** The `replies` populate: approved comments whose parent is `root`. */
  function RepliesOf(m: map<Id, Comment>, root: Id): set<Id> {
    set k | k in m && m[k].parent == Some(root) && m[k].isApproved
  }

  /** The sort key of record `k`: `createdAt` for oldest first
      (`createdAt: 1`), its negation for newest first (`createdAt: -1`). */
  function Key(m: map<Id, Comment>, k: Id, newestFirst: bool): int
    requires k in m
  {
    if newestFirst then -m[k].createdAt else m[k].createdAt
  }

  /** `r` lists records of `m` in the given time order. */
  predicate Sorted(m: map<Id, Comment>, r: seq<Id>, newestFirst: bool) {
    (forall k :: k in r ==> k in m)
    && forall i, j :: 0 <= i < j < |r| ==> Key(m, r[i], newestFirst) <= Key(m, r[j], newestFirst)
  }

  /** One insertion step of the query's sort. */
  function Insert(m: map<Id, Comment>, r: seq<Id>, k: Id, newestFirst: bool): (out: seq<Id>)
    requires k in m && forall x :: x in r ==> x in m
    ensures multiset(out) == multiset(r) + multiset{k}
  {
    if r == [] then [k]
    else if Key(m, k, newestFirst) <= Key(m, r[0], newestFirst) then [k] + r
    else
      assert r == [r[0]] + r[1..];
      [r[0]] + Insert(m, r[1..], k, newestFirst)
  }

  /** Every element of a sorted list's tail, and `k` when it sorts later,
      sorts no earlier than the head. */
  lemma HeadFirst(m: map<Id, Comment>, r: seq<Id>, k: Id, newestFirst: bool)
    requires k in m && Sorted(m, r, newestFirst) && r != []
    requires Key(m, r[0], newestFirst) <= Key(m, k, newestFirst)
    ensures forall x :: x in multiset(r[1..]) + multiset{k} ==> x in m && Key(m, r[0], newestFirst) <= Key(m, x, newestFirst)
  {
    forall x | x in multiset(r[1..]) + multiset{k}
      ensures x in m && Key(m, r[0], newestFirst) <= Key(m, x, newestFirst)
    {
      if x != k {
        assert x in r[1..];
        var j :| 0 <= j < |r[1..]| && r[1..][j] == x;
        assert r[j + 1] == x;
      }
    }
  }

  /** A head that sorts no later than any element of a sorted list keeps it sorted. */
  lemma ConsSorted(m: map<Id, Comment>, h: Id, r: seq<Id>, newestFirst: bool)
    requires h in m && Sorted(m, r, newestFirst)
    requires forall i :: 0 <= i < |r| ==> Key(m, h, newestFirst) <= Key(m, r[i], newestFirst)
    ensures Sorted(m, [h] + r, newestFirst)
  {
    var out := [h] + r;
    forall i, j | 0 <= i < j < |out| ensures Key(m, out[i], newestFirst) <= Key(m, out[j], newestFirst) {
      if i > 0 {
        assert out[i] == r[i - 1] && out[j] == r[j - 1];
      }
    }
  }

  /** Insertion keeps the order. */
  lemma {:induction false} InsertSorted(m: map<Id, Comment>, r: seq<Id>, k: Id, newestFirst: bool)
    requires k in m && Sorted(m, r, newestFirst)
    ensures Sorted(m, Insert(m, r, k, newestFirst), newestFirst)
  {
    if r == [] {
    } else if Key(m, k, newestFirst) <= Key(m, r[0], newestFirst) {
      ConsSorted(m, k, r, newestFirst);
    } else {
      var tail := r[1..];
      assert Sorted(m, tail, newestFirst);
      InsertSorted(m, tail, k, newestFirst);
      var rest := Insert(m, tail, k, newestFirst);
      HeadFirst(m, r, k, newestFirst);
      forall i | 0 <= i < |rest| ensures Key(m, r[0], newestFirst) <= Key(m, rest[i], newestFirst) {
        assert rest[i] in multiset(rest);
      }
      ConsSorted(m, r[0], rest, newestFirst);
    }
  }

  /** The query engine's `find(...).sort({ createdAt })`: an enumeration,
      without repetition, of exactly the selected ids, in time order. */
  method SortByTime(m: map<Id, Comment>, ids: set<Id>, newestFirst: bool) returns (r: seq<Id>)
    requires ids <= m.Keys
    ensures multiset(r) == multiset(ids)
    ensures Sorted(m, r, newestFirst)
  {
    r := [];
    var rest := ids;
    while rest != {}
      invariant rest <= ids
      invariant multiset(r) + multiset(rest) == multiset(ids)
      invariant Sorted(m, r, newestFirst)
      decreases |rest|
    {
      var k :| k in rest;
      InsertSorted(m, r, k, newestFirst);
      r := Insert(m, r, k, newestFirst);
      rest := rest - {k};
    }
  }

  /** A comment as the read path returns it, with its two virtuals. */
  datatype CommentView = CommentView(comment: Comment, likeCount: nat, isLiked: bool)

  /** A root comment and its replies. */
  datatype Thread = Thread(root: CommentView, replies: seq<CommentView>)

  /** The intended view of `c` for a viewer: `likeCount` is the number of
      likes, and `isLiked` is whether the viewer is among them (always false
      without a viewer). */
  function View(c: Comment, viewer: Option<Id>): CommentView {
    CommentView(c, |c.likes|, viewer.Some? && viewer.value in c.likes)
  }

  function IdsOf(vs: seq<CommentView>): (ids: seq<Id>)
    ensures |ids| == |vs| && forall j :: 0 <= j < |vs| ==> ids[j] == vs[j].comment.id
  {
    seq(|vs|, j requires 0 <= j < |vs| => vs[j].comment.id)
  }

  function RootIdsOf(ts: seq<Thread>): (ids: seq<Id>)
    ensures |ids| == |ts| && forall i :: 0 <= i < |ts| ==> ids[i] == ts[i].root.comment.id
  {
    seq(|ts|, i requires 0 <= i < |ts| => ts[i].root.comment.id)
  }

  /** `t` is the thread of root `rid` for `viewer`: the root's view, then
      the views of exactly its approved replies, oldest first. */
  predicate ThreadFor(m: map<Id, Comment>, rid: Id, viewer: Option<Id>, t: Thread) {
    var rs := IdsOf(t.replies);
    && rid in m
    && t.root == View(m[rid], viewer)
    && multiset(rs) == multiset(RepliesOf(m, rid))
    && Sorted(m, rs, false)
    && forall j :: 0 <= j < |rs| ==> t.replies[j] == View(m[rs[j]], viewer)
  }

  /** What `getCommentsForPost(post, viewer)` returns: one thread for each
      approved root comment of the post, newest first. */
  predicate ThreadsFor(m: map<Id, Comment>, post: Id, viewer: Option<Id>, ts: seq<Thread>) {
    var roots := RootIdsOf(ts);
    && multiset(roots) == multiset(RootsOf(m, post))
    && Sorted(m, roots, true)
    && forall i :: 0 <= i < |ts| ==> ThreadFor(m, roots[i], viewer, ts[i])
  }

  /** The `isLiked` assignment of the `forEach` loop for one comment. */
  function MarkLiked(v: CommentView, u: Id): CommentView {
    v.(isLiked := u in v.comment.likes)
  }

  /** The populated root `rid` before annotation: its replies selected and
      sorted oldest first, every `isLiked` at its default, false. */
  method BuildThread(m: map<Id, Comment>, rid: Id) returns (t: Thread)
    requires Keyed(m) && rid in m
    ensures ThreadFor(m, rid, None, t)
  {
    var replyIds := SortByTime(m, RepliesOf(m, rid), false);
    var replies := seq(|replyIds|, j requires 0 <= j < |replyIds| => View(m[replyIds[j]], None));
    assert IdsOf(replies) == replyIds;
    t := Thread(View(m[rid], None), replies);
  }

  /** One round of the `forEach` loop: mark the root, then every reply. */
  method MarkThread(ghost m: map<Id, Comment>, ghost rid: Id, t: Thread, u: Id) returns (t': Thread)
    requires ThreadFor(m, rid, None, t)
    ensures ThreadFor(m, rid, Some(u), t')
  {
    var replies := t.replies;
    var j := 0;
    while j < |replies|
      invariant 0 <= j <= |replies| == |t.replies|
      invariant forall k :: 0 <= k < j ==> replies[k] == MarkLiked(t.replies[k], u)
      invariant forall k :: j <= k < |replies| ==> replies[k] == t.replies[k]
    {
      replies := replies[j := MarkLiked(replies[j], u)];
      j := j + 1;
    }
    assert IdsOf(replies) == IdsOf(t.replies);
    t' := Thread(MarkLiked(t.root, u), replies);
  }

  /** `getCommentsForPost`, on the collection `m`. */
  method GetCommentsForPost(m: map<Id, Comment>, post: Id, viewer: Option<Id>) returns (threads: seq<Thread>)
    requires Keyed(m)
    ensures ThreadsFor(m, post, viewer, threads)
  {
    var rootIds := SortByTime(m, RootsOf(m, post), true);
    threads := [];
    var i := 0;
    while i < |rootIds|
      invariant 0 <= i <= |rootIds| && |threads| == i
      invariant forall t :: 0 <= t < i ==> ThreadFor(m, rootIds[t], None, threads[t])
    {
      var th := BuildThread(m, rootIds[i]);
      threads := threads + [th];
      i := i + 1;
    }
    assert RootIdsOf(threads) == rootIds;
    if viewer.Some? {
      i := 0;
      while i < |threads|
        invariant 0 <= i <= |threads| == |rootIds|
        invariant RootIdsOf(threads) == rootIds
        invariant forall t :: 0 <= t < i ==> ThreadFor(m, rootIds[t], viewer, threads[t])
        invariant forall t :: i <= t < |threads| ==> ThreadFor(m, rootIds[t], None, threads[t])
      {
        var th := MarkThread(m, rootIds[i], threads[i], viewer.value);
        threads := threads[i := th];
        i := i + 1;
      }
    }
  }
}
