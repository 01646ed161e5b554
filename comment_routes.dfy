/** server/routes/comments.js: the comment handlers as operations on the
    comment collection. Every handler except the listings runs after
    `protect`, so it receives the authenticated principal. */
module CommentRoutes {
  import opened Common
  import Text
  import Likes
  import Paging
  import Auth
  import opened CommentModel

  datatype Failure =
    | PostNotFound       // 404 "Post not found"
    | ParentNotFound     // 404 "Parent comment not found"
    | CommentNotFound    // 404 "Comment not found"
    | NotAuthorized      // 403 "Not authorized to edit/delete this comment"
    | InvalidContent     // the schema rejects the save; the handler's catch answers 500
    | ServerError        // any other failure inside the handler: 500

  function StatusOf(f: Failure): nat {
    match f
    case PostNotFound | ParentNotFound | CommentNotFound => 404
    case NotAuthorized => 403
    case InvalidContent | ServerError => 500
  }

  /** The like route's `data`: membership and count after the toggle. */
  datatype LikeReport = LikeReport(isLiked: bool, likeCount: nat)

  /** The user-listing route's `data`. */
  datatype UserComments = UserComments(comments: seq<Comment>, pagination: Paging.Pagination)

  /** `if (parentComment)`: no parent, or one that resolves. */
  predicate ParentResolves(m: map<Id, Comment>, parent: Option<Id>) {
    parent.None? || parent.value in m
  }

  /** The query of the user listing: `{ author, parentComment: null }`;
      approval is not part of it. */
  function AuthorRoots(m: map<Id, Comment>, author: Id): set<Id> {
    set k | k in m && m[k].author == author && m[k].parent == None
  }

  /** The collection after the delete route: `deleteMany({ parentComment: id })`
      then `findByIdAndDelete(id)`. The target and its direct replies are
      gone and every other record is untouched. */
  function CascadeDelete(m: map<Id, Comment>, id: Id): (r: map<Id, Comment>)
    ensures id !in r
    ensures forall k :: k in r ==> k in m && r[k] == m[k] && m[k].parent != Some(id)
    ensures forall k :: k in m && k != id && m[k].parent != Some(id) ==> k in r
  {
    var withoutReplies := map k | k in m && m[k].parent != Some(id) :: m[k];
    withoutReplies - {id}
  }

  /** Every parent link resolves. */
  predicate NoOrphans(m: map<Id, Comment>) {
    forall k :: k in m && m[k].parent.Some? ==> m[k].parent.value in m
  }

  /** Every reply answers a root comment: the one level of nesting the
      threads are built for. */
  predicate OneLevel(m: map<Id, Comment>) {
    forall k :: k in m && m[k].parent.Some? && m[k].parent.value in m ==> m[m[k].parent.value].parent.None?
  }

  /** With one level of nesting, the one-level cascade leaves no dangling
      parent link. */
  lemma CascadeKeepsLinks(m: map<Id, Comment>, id: Id)
    requires NoOrphans(m) && OneLevel(m)
    ensures NoOrphans(CascadeDelete(m, id)) && OneLevel(CascadeDelete(m, id))
  {
    var r := CascadeDelete(m, id);
    forall k | k in r && r[k].parent.Some? ensures r[k].parent.value in r {
      var p := r[k].parent.value;
      assert p in m && p != id && m[p].parent.None?;
    }
  }

  /** A page cut from the sorted author roots holds only author roots, as
      stored, and newest first. */
  lemma PageOfSorted(m: map<Id, Comment>, roots: set<Id>, ids: seq<Id>, skip: nat, found: seq<Comment>)
    requires Keyed(m) && roots <= m.Keys
    requires multiset(ids) == multiset(roots) && Sorted(m, ids, true)
    requires forall i :: 0 <= i < |found| ==> skip + i < |ids| && found[i] == m[ids[skip + i]]
    ensures forall c :: c in found ==> c.id in roots && m[c.id] == c
    ensures forall i, j :: 0 <= i < j < |found| ==> found[i].createdAt >= found[j].createdAt
  {
    forall c | c in found
      ensures c.id in roots && m[c.id] == c
    {
      var i :| 0 <= i < |found| && found[i] == c;
      assert ids[skip + i] in multiset(roots);
    }
    forall i, j | 0 <= i < j < |found|
      ensures found[i].createdAt >= found[j].createdAt
    {
      var a, b := found[i], found[j];
      assert skip + i < skip + j < |ids|;
      assert Key(m, ids[skip + i], true) <= Key(m, ids[skip + j], true);
    }
  }

  /** The records of one `.skip(skip).limit(limit)` window of the sorted
      author roots `order`: author roots only, as stored, newest first. */
  function PageOf(m: map<Id, Comment>, author: Id, order: seq<Id>, skip: int, limit: int): (r: Option<seq<Comment>>)
    requires Keyed(m) && limit != 0
    requires multiset(order) == multiset(AuthorRoots(m, author)) && Sorted(m, order, true)
    ensures r.None? <==> skip < 0
    ensures r.Some? ==> |r.value| == Paging.Clamp(|AuthorRoots(m, author)| - skip, Paging.Abs(limit))
    ensures r.Some? ==> forall c :: c in r.value ==> c.id in AuthorRoots(m, author) && m[c.id] == c
    ensures r.Some? ==> forall i, j :: 0 <= i < j < |r.value| ==> r.value[i].createdAt >= r.value[j].createdAt
    ensures r.Some? ==> forall i :: 0 <= i < |r.value| ==> skip + i < |order| && r.value[i] == m[order[skip + i]]
  {
    var roots := AuthorRoots(m, author);
    assert |order| == |roots| by {
      assert |multiset(order)| == |multiset(roots)|;
    }
    var window := Paging.Window(order, skip, limit);
    if window.None? then None
    else
      var w := window.value;
      var found := seq(|w|, i requires 0 <= i < |w| => m[w[i]]);
      PageOfSorted(m, roots, order, skip, found);
      Some(found)
  }

  /** GET /api/comments/user/:userId once the author's root comments are
      sorted into `order`: one page of them, at `skip = (page-1)*limit`,
      with the pagination over all of them. */
  function UserPage(m: map<Id, Comment>, author: Id, order: seq<Id>, pageParam: Option<int>, limitParam: Option<int>)
    : (res: Result<UserComments, Failure>)
    requires Keyed(m)
    requires multiset(order) == multiset(AuthorRoots(m, author)) && Sorted(m, order, true)
    ensures var page := Paging.ParamOr(pageParam, Paging.DefaultPage);
            var limit := Paging.ParamOr(limitParam, Paging.DefaultLimit);
            var skip := Paging.Skip(page, limit);
      && (res.Ok? <==> skip >= 0)
      && (res.Err? ==> res.error == ServerError)
      && (res.Ok? ==>
            && res.value.pagination == Paging.Paginate(page, limit, |AuthorRoots(m, author)|)
            && Some(res.value.comments) == PageOf(m, author, order, skip, limit))
  {
    var page := Paging.ParamOr(pageParam, Paging.DefaultPage);
    var limit := Paging.ParamOr(limitParam, Paging.DefaultLimit);
    var found := PageOf(m, author, order, Paging.Skip(page, limit), limit);
    if found.None? then Err(ServerError)
    else Ok(UserComments(found.value, Paging.Paginate(page, limit, |AuthorRoots(m, author)|)))
  }

  /** A reply is accepted under another reply (creation checks only that the
      parent exists), and deleting the root then leaves that second-level
      reply pointing at a comment that is gone. */
  lemma CascadeMayOrphan(root: Comment, reply: Comment, nested: Comment)
    requires root.id == 0 && root.parent == None
    requires reply.id == 1 && reply.parent == Some(0)
    requires nested.id == 2 && nested.parent == Some(1)
    ensures var m := map[0 := root, 1 := reply, 2 := nested];
      && NoOrphans(m) && !OneLevel(m)
      && 2 in CascadeDelete(m, 0) && 1 !in CascadeDelete(m, 0)
      && !NoOrphans(CascadeDelete(m, 0))
  {
    var m := map[0 := root, 1 := reply, 2 := nested];
    assert m[2].parent == Some(1) && m[1].parent.Some?;
    var r := CascadeDelete(m, 0);
    assert m[2].parent != Some(0);
    assert 2 in r;
    assert r[2].parent == Some(1);
  }

  class CommentStore {
    /** The comment collection, by id. */
    var comments: map<Id, Comment>
    /** Ids handed out so far are below this one; it stands for fresh ObjectIds. */
    var nextId: Id

    ghost predicate Valid()
      reads this
    {
      Keyed(comments) && forall k :: k in comments ==> k < nextId
    }

    constructor ()
      ensures Valid() && comments == map[]
    {
      comments := map[];
      nextId := 0;
    }

    /** POST /api/comments: the post must exist and a given parent must
        exist; nothing else is checked about the parent. */
    method Create(user: Principal, content: string, post: Id, parent: Option<Id>, posts: set<Id>, now: int)
      returns (res: Result<Comment, Failure>)
      requires Valid()
      modifies this
      ensures Valid()
      ensures post !in posts ==> res == Err(PostNotFound)
      ensures post in posts && !ParentResolves(old(comments), parent) ==> res == Err(ParentNotFound)
      ensures post in posts && ParentResolves(old(comments), parent) && !ValidContent(content) ==> res == Err(InvalidContent)
      ensures res.Ok? <==> post in posts && ParentResolves(old(comments), parent) && ValidContent(content)
      ensures NoOrphans(old(comments)) ==> NoOrphans(comments)
      ensures res.Err? ==> comments == old(comments)
      ensures res.Ok? ==>
        && res.value.id !in old(comments)
        && res.value == NewComment(res.value.id, content, user.id, post, parent, now)
        && comments == old(comments)[res.value.id := res.value]
    {
      if post !in posts {
        return Err(PostNotFound);
      }
      if parent.Some? && parent.value !in comments {
        return Err(ParentNotFound);
      }
      if !ValidContent(content) {
        return Err(InvalidContent);
      }
      var c := NewComment(nextId, content, user.id, post, parent, now);
      comments := comments[nextId := c];
      nextId := nextId + 1;
      res := Ok(c);
    }

    /** PUT /api/comments/:id: only the author or an admin; the content is
        replaced (trimmed by the schema) and the comment marked edited. */
    method Update(user: Principal, id: Id, content: string, now: int) returns (res: Result<Comment, Failure>)
      requires Valid()
      modifies this
      ensures Valid()
      ensures id !in old(comments) ==> res == Err(CommentNotFound)
      ensures id in old(comments) && !Auth.OwnerOrAdmin(user, old(comments)[id].author) ==> res == Err(NotAuthorized)
      ensures id in old(comments) && Auth.OwnerOrAdmin(user, old(comments)[id].author) && !ValidContent(content) ==>
        res == Err(InvalidContent)
      ensures res.Err? ==> comments == old(comments)
      ensures res.Ok? ==>
        && id in old(comments)
        && res.value == old(comments)[id].(content := Text.Trim(content), isEdited := true, updatedAt := now)
        && comments == old(comments)[id := res.value]
    {
      if id !in comments {
        return Err(CommentNotFound);
      }
      var c := comments[id];
      if c.author != user.id && user.role != "admin" {
        return Err(NotAuthorized);
      }
      if !ValidContent(content) {
        return Err(InvalidContent);
      }
      c := c.(content := Text.Trim(content));
      c := c.(isEdited := true, updatedAt := now);
      comments := comments[id := c];
      res := Ok(c);
    }

    /** DELETE /api/comments/:id: only the author or an admin; removes the
        direct replies, then the comment. */
    method Delete(user: Principal, id: Id) returns (res: Result<set<Id>, Failure>)
      requires Valid()
      modifies this
      ensures Valid()
      ensures id !in old(comments) ==> res == Err(CommentNotFound)
      ensures id in old(comments) && !Auth.OwnerOrAdmin(user, old(comments)[id].author) ==> res == Err(NotAuthorized)
      ensures res.Err? ==> comments == old(comments)
      ensures res.Ok? ==> comments == CascadeDelete(old(comments), id)
      ensures res.Ok? ==> res.value == old(comments).Keys - comments.Keys
      ensures NoOrphans(old(comments)) && OneLevel(old(comments)) ==> NoOrphans(comments) && OneLevel(comments)
    {
      if id !in comments {
        return Err(CommentNotFound);
      }
      if comments[id].author != user.id && user.role != "admin" {
        return Err(NotAuthorized);
      }
      var before := comments;
      comments := map k | k in comments && comments[k].parent != Some(id) :: comments[k];
      comments := comments - {id};
      assert comments == CascadeDelete(before, id);
      if NoOrphans(before) && OneLevel(before) {
        CascadeKeepsLinks(before, id);
      }
      res := Ok(before.Keys - comments.Keys);
    }

    /** POST /api/comments/:id/like. */
    method Like(user: Principal, id: Id, now: int) returns (res: Result<LikeReport, Failure>)
      requires Valid()
      modifies this
      ensures Valid()
      ensures id !in old(comments) ==> res == Err(CommentNotFound) && comments == old(comments)
      ensures id in old(comments) ==>
        && comments == old(comments)[id := old(comments)[id].(likes := Likes.Toggled(old(comments)[id].likes, user.id), updatedAt := now)]
        && res == Ok(LikeReport(user.id in comments[id].likes, |comments[id].likes|))
    {
      if id !in comments {
        return Err(CommentNotFound);
      }
      var c := ToggleLike(comments[id], user.id, now);
      comments := comments[id := c];
      res := Ok(LikeReport(user.id in c.likes, |c.likes|));
    }

    /** GET /api/comments/user/:userId: the author's root comments, newest
        first, one page of them; `order` is the sorted result the page is
        cut from. */
    method ListByUser(author: Id, pageParam: Option<int>, limitParam: Option<int>)
      returns (res: Result<UserComments, Failure>, order: seq<Id>)
      requires Valid()
      ensures multiset(order) == multiset(AuthorRoots(comments, author)) && Sorted(comments, order, true)
      ensures res == UserPage(comments, author, order, pageParam, limitParam)
    {
      order := SortByTime(comments, AuthorRoots(comments, author), true);
      res := UserPage(comments, author, order, pageParam, limitParam);
    }
  }
}
