/** server/routes/posts.js: the post listing (filters, pagination and the
    `isLiked` annotation), the ownership checks of update and delete, the
    like toggle, the Cloudinary public id of a featured image, and the
    upload input check. Text search, the sort order and the image service
    are outside the model: the listing receives the collection already in
    sort order and the set of posts the text search hits. */
module Posts {
  import opened Common
  import Text
  import Likes
  import Paging
  import Auth

  datatype Post = Post(
    id: Id,
    author: Id,
    title: string,
    content: string,
    status: string,          // "draft" or "published"
    category: Option<Id>,
    tags: seq<string>,
    likes: seq<Id>,
    featuredImage: string)   // "" when there is none

  datatype Failure =
    | PostNotFound     // 404 "Post not found"
    | NotAuthorized    // 403 "Not authorized to edit/delete this post"
    | ImageRequired    // 400 "Image data is required"
    | ServerError      // 500, the handlers' catch

  function StatusOf(f: Failure): nat {
    match f
    case PostNotFound => 404
    case NotAuthorized => 403
    case ImageRequired => 400
    case ServerError => 500
  }

  /** The listing's filters from the query string; a falsy value (absent or
      empty) is None or "". */
  datatype ListQuery = ListQuery(category: Option<Id>, tag: string, search: string)

  /** The query object of the listing: published, then the category, the
      tag and the text search when given; `hits` are the posts the text
      search matches. */
  predicate Matches(p: Post, q: ListQuery, hits: set<Id>) {
    && p.status == "published"
    && (q.category.Some? ==> p.category == q.category)
    && (q.tag != "" ==> q.tag in p.tags)
    && (q.search != "" ==> p.id in hits)
  }

  /** The posts of `s` that match, in the order of `s`. */
  function Filter(s: seq<Post>, q: ListQuery, hits: set<Id>): (r: seq<Post>)
    ensures |r| <= |s|
    ensures forall p :: p in r <==> p in s && Matches(p, q, hits)
  {
    if s == [] then []
    else (if Matches(s[0], q, hits) then [s[0]] else []) + Filter(s[1..], q, hits)
  }

  /** Filtering keeps the relative order: it distributes over concatenation. */
  lemma {:induction false} FilterAppend(a: seq<Post>, b: seq<Post>, q: ListQuery, hits: set<Id>)
    ensures Filter(a + b, q, hits) == Filter(a, q, hits) + Filter(b, q, hits)
  {
    if a == [] {
      assert a + b == b;
    } else {
      assert (a + b)[0] == a[0] && (a + b)[1..] == a[1..] + b;
      FilterAppend(a[1..], b, q, hits);
    }
  }

  /** A listed post; `isLiked` is None when there is no viewer (the `lean`
      document has no such field). */
  datatype PostView = PostView(post: Post, isLiked: Option<bool>)

  /** The intended entry of the listing for a viewer. */
  function ViewOf(p: Post, viewer: Option<Id>): PostView {
    PostView(p, if viewer.Some? then Some(viewer.value in p.likes) else None)
  }

  // ---- isLiked as the listing code computes it ----

  /** A value the listing compares: an ObjectId of a `lean` document's array,
      or a string. */
  datatype JsValue = ObjectIdValue(oid: Id) | StringValue(str: string)

  /** The comparison `Array.prototype.includes` makes: strings by content,
      ObjectIds (objects) by identity, here by their id, and never a string
      with an object. */
  predicate SameValue(a: JsValue, b: JsValue) {
    match (a, b)
    case (StringValue(x), StringValue(y)) => x == y
    case (ObjectIdValue(x), ObjectIdValue(y)) => x == y
    case _ => false
  }

  /** `post.likes.includes(req.user._id.toString())` on a `lean` post: the
      array holds raw ObjectIds and the key is a string, so nothing matches. */
  function LeanIncludes(likes: seq<Id>, key: string): (b: bool)
    ensures !b
  {
    exists i :: 0 <= i < |likes| && SameValue(ObjectIdValue(likes[i]), StringValue(key))
  }

  /** The listing entry as the code computes it, with the viewer's id string. */
  function ViewAsWritten(p: Post, viewerKey: Option<string>): (v: PostView)
    ensures v.post == p
    ensures viewerKey.Some? ==> v.isLiked == Some(false)
    ensures viewerKey.None? ==> v.isLiked.None?
  {
    PostView(p, if viewerKey.Some? then Some(LeanIncludes(p.likes, viewerKey.value)) else None)
  }

  /** As written, a viewer who liked a post is reported as not liking it,
      whatever string their id renders to; the intended view says they do. */
  lemma AsWrittenMissesLike(p: Post, viewer: Id, key: string)
    requires viewer in p.likes
    ensures ViewAsWritten(p, Some(key)).isLiked == Some(false)
    ensures ViewOf(p, Some(viewer)).isLiked == Some(true)
    ensures ViewAsWritten(p, Some(key)) != ViewOf(p, Some(viewer))
  {
  }

  datatype PostPage = PostPage(posts: seq<PostView>, pagination: Paging.Pagination)

  /** The `isLiked` annotation of one page: each post's view, with the
      viewer's membership in its likes when there is a viewer. */
  method Annotate(w: seq<Post>, viewer: Option<Id>) returns (posts: seq<PostView>)
    ensures |posts| == |w|
    ensures forall k :: 0 <= k < |w| ==> posts[k] == ViewOf(w[k], viewer)
  {
    posts := seq(|w|, i requires 0 <= i < |w| => PostView(w[i], None));
    if viewer.Some? {
      var i := 0;
      while i < |posts|
        invariant 0 <= i <= |posts| == |w|
        invariant forall k :: 0 <= k < i ==> posts[k] == ViewOf(w[k], viewer)
        invariant forall k :: i <= k < |posts| ==> posts[k] == PostView(w[k], None)
      {
        posts := posts[i := posts[i].(isLiked := Some(viewer.value in posts[i].post.likes))];
        i := i + 1;
      }
    }
  }

  /** The views of a window of the filtered posts show published, matching posts only. */
  lemma FilteredWindow(ranked: seq<Post>, q: ListQuery, hits: set<Id>, skip: int, limit: int,
                       viewer: Option<Id>, posts: seq<PostView>)
    requires limit != 0
    requires Paging.Window(Filter(ranked, q, hits), skip, limit).Some?
    requires var w := Paging.Window(Filter(ranked, q, hits), skip, limit).value;
      |posts| == |w| && forall k :: 0 <= k < |w| ==> posts[k] == ViewOf(w[k], viewer)
    ensures forall v :: v in posts ==> v.post.status == "published" && Matches(v.post, q, hits)
  {
    var selected := Filter(ranked, q, hits);
    var w := Paging.Window(selected, skip, limit).value;
    forall v | v in posts ensures v.post.status == "published" && Matches(v.post, q, hits) {
      var k :| 0 <= k < |posts| && posts[k] == v;
      assert w[k] == selected[skip + k];
      assert w[k] in selected;
    }
  }

  /** GET /api/posts on the collection `ranked`, given in sort order. */
  method ListPosts(ranked: seq<Post>, q: ListQuery, hits: set<Id>,
                   pageParam: Option<int>, limitParam: Option<int>, viewer: Option<Id>)
    returns (res: Result<PostPage, Failure>)
    ensures var skip := Paging.Skip(Paging.ParamOr(pageParam, Paging.DefaultPage), Paging.ParamOr(limitParam, Paging.DefaultLimit));
      res.Ok? <==> skip >= 0
    ensures res.Err? ==> res.error == ServerError
    ensures var page := Paging.ParamOr(pageParam, Paging.DefaultPage);
            var limit := Paging.ParamOr(limitParam, Paging.DefaultLimit);
            var selected := Filter(ranked, q, hits);
      res.Ok? ==>
        && res.value.pagination == Paging.Paginate(page, limit, |selected|)
        && |res.value.posts| == Paging.Clamp(|selected| - Paging.Skip(page, limit), Paging.Abs(limit))
    ensures var skip := Paging.Skip(Paging.ParamOr(pageParam, Paging.DefaultPage), Paging.ParamOr(limitParam, Paging.DefaultLimit));
            var selected := Filter(ranked, q, hits);
      res.Ok? ==> forall i :: 0 <= i < |res.value.posts| ==>
        skip + i < |selected| && res.value.posts[i] == ViewOf(selected[skip + i], viewer)
    ensures res.Ok? ==> forall v :: v in res.value.posts ==> v.post.status == "published" && Matches(v.post, q, hits)
  {
    var page := Paging.ParamOr(pageParam, Paging.DefaultPage);
    var limit := Paging.ParamOr(limitParam, Paging.DefaultLimit);
    var skip := Paging.Skip(page, limit);
    var selected := Filter(ranked, q, hits);
    var window := Paging.Window(selected, skip, limit);
    if window.None? {
      return Err(ServerError);
    }
    var w := window.value;
    var posts := Annotate(w, viewer);
    FilteredWindow(ranked, q, hits, skip, limit, viewer, posts);
    res := Ok(PostPage(posts, Paging.Paginate(page, limit, |selected|)));
  }

  /** The fields of a post an update body may carry; None leaves a field as it is. */
  datatype PostPatch = PostPatch(
    title: Option<string>,
    content: Option<string>,
    status: Option<string>,
    category: Option<Option<Id>>,
    tags: Option<seq<string>>,
    featuredImage: Option<string>)

  function Pick<T>(given: Option<T>, current: T): T {
    if given.Some? then given.value else current
  }

  /** `findByIdAndUpdate(id, body)`: the given fields replace the stored ones. */
  function Apply(p: Post, patch: PostPatch): (r: Post)
    ensures r.id == p.id && r.author == p.author && r.likes == p.likes
    ensures patch.title.Some? ==> r.title == patch.title.value
    ensures patch.title.None? ==> r.title == p.title
    ensures patch.content.Some? ==> r.content == patch.content.value
    ensures patch.content.None? ==> r.content == p.content
    ensures patch.status.Some? ==> r.status == patch.status.value
    ensures patch.status.None? ==> r.status == p.status
    ensures patch.category.Some? ==> r.category == patch.category.value
    ensures patch.category.None? ==> r.category == p.category
    ensures patch.tags.Some? ==> r.tags == patch.tags.value
    ensures patch.tags.None? ==> r.tags == p.tags
    ensures patch.featuredImage.Some? ==> r.featuredImage == patch.featuredImage.value
    ensures patch.featuredImage.None? ==> r.featuredImage == p.featuredImage
  {
    p.(title := Pick(patch.title, p.title),
       content := Pick(patch.content, p.content),
       status := Pick(patch.status, p.status),
       category := Pick(patch.category, p.category),
       tags := Pick(patch.tags, p.tags),
       featuredImage := Pick(patch.featuredImage, p.featuredImage))
  }

  /** An empty body changes nothing, and applying the same body twice is
      the same as applying it once. */
  lemma ApplyLaws(p: Post, patch: PostPatch)
    ensures Apply(p, PostPatch(None, None, None, None, None, None)) == p
    ensures Apply(Apply(p, patch), patch) == Apply(p, patch)
  {
  }

  /** `featuredImage.split('/').pop().split('.')[0]`. */
  function PublicId(url: string): (r: string)
    ensures '.' !in r
  {
    var segments := Text.Split(url, '/');
    var last := segments[|segments| - 1];
    Text.Split(last, '.')[0]
  }

  /** The public id of `<anything>/<name>.<ext>` is `<name>`. */
  lemma PublicIdOf(prefix: string, name: string, ext: string)
    requires '/' !in name && '/' !in ext && '.' !in name
    ensures PublicId(prefix + "/" + name + "." + ext) == name
  {
    var tail := name + "." + ext;
    assert prefix + "/" + name + "." + ext == prefix + ['/'] + tail;
    assert '/' !in tail;
    Text.SplitLast(prefix, tail, '/');
    assert tail == name + ['.'] + ext;
    Text.SplitAround(name, ext, '.');
  }

  lemma PublicIdExample()
    ensures PublicId("https://res.cloudinary.com/demo/sunset.jpg") == "sunset"
  {
    var prefix := "https://res.cloudinary.com/demo";
    assert prefix + "/" + "sunset" + "." + "jpg" == "https://res.cloudinary.com/demo/sunset.jpg";
    PublicIdOf(prefix, "sunset", "jpg");
  }

  /** The id handed to `deleteImage`: only for a Cloudinary URL. */
  function ImageToDelete(featuredImage: string): (r: Option<string>)
    ensures r.Some? <==> Text.Contains(featuredImage, "cloudinary")
    ensures r.Some? ==> r.value == PublicId(featuredImage)
  {
    if featuredImage != "" && Text.Contains(featuredImage, "cloudinary") then Some(PublicId(featuredImage)) else None
  }

  /** What the like route answers. */
  datatype LikeReport = LikeReport(isLiked: bool, likeCount: nat)

  /** POST /api/posts/upload-image: a falsy `image` is refused with 400;
      otherwise the data goes to the image service. */
  function CheckUpload(image: Option<string>): (r: Result<string, Failure>)
    ensures r.Err? <==> image.None? || image.value == ""
    ensures r.Err? ==> r.error == ImageRequired && StatusOf(r.error) == 400
    ensures r.Ok? ==> image == Some(r.value)
  {
    if image.None? || image.value == "" then Err(ImageRequired) else Ok(image.value)
  }

  class PostStore {
    /** The post collection, by id. */
    var posts: map<Id, Post>

    ghost predicate Valid()
      reads this
    {
      forall k :: k in posts ==> posts[k].id == k
    }

    constructor (initial: map<Id, Post>)
      requires forall k :: k in initial ==> initial[k].id == k
      ensures Valid() && posts == initial
    {
      posts := initial;
    }

    /** PUT /api/posts/:id. */
    method Update(user: Principal, id: Id, patch: PostPatch) returns (res: Result<Post, Failure>)
      requires Valid()
      modifies this
      ensures Valid()
      ensures id !in old(posts) ==> res == Err(PostNotFound)
      ensures id in old(posts) && !Auth.OwnerOrAdmin(user, old(posts)[id].author) ==> res == Err(NotAuthorized)
      ensures res.Ok? <==> id in old(posts) && Auth.OwnerOrAdmin(user, old(posts)[id].author)
      ensures res.Err? ==> posts == old(posts)
      ensures res.Ok? ==> res.value == Apply(old(posts)[id], patch) && posts == old(posts)[id := res.value]
    {
      if id !in posts {
        return Err(PostNotFound);
      }
      var p := posts[id];
      if p.author != user.id && user.role != "admin" {
        return Err(NotAuthorized);
      }
      var updated := Apply(p, patch);
      posts := posts[id := updated];
      res := Ok(updated);
    }

    /** DELETE /api/posts/:id. `res.value` is the public id sent to the
        image service, if any. A failure of that call is only logged, so its
        outcome does not enter: the post is removed either way. */
    method Delete(user: Principal, id: Id) returns (res: Result<Option<string>, Failure>)
      requires Valid()
      modifies this
      ensures Valid()
      ensures id !in old(posts) ==> res == Err(PostNotFound)
      ensures id in old(posts) && !Auth.OwnerOrAdmin(user, old(posts)[id].author) ==> res == Err(NotAuthorized)
      ensures res.Ok? <==> id in old(posts) && Auth.OwnerOrAdmin(user, old(posts)[id].author)
      ensures res.Err? ==> posts == old(posts)
      ensures res.Ok? ==> res.value == ImageToDelete(old(posts)[id].featuredImage) && posts == old(posts) - {id}
    {
      if id !in posts {
        return Err(PostNotFound);
      }
      var p := posts[id];
      if p.author != user.id && user.role != "admin" {
        return Err(NotAuthorized);
      }
      var sent := ImageToDelete(p.featuredImage);
      posts := posts - {id};
      res := Ok(sent);
    }

    /** POST /api/posts/:id/like: `isLiked` is whether the user had NOT
        liked before the toggle, `likeCount` the length after it. */
    method Like(user: Principal, id: Id) returns (res: Result<LikeReport, Failure>)
      requires Valid()
      modifies this
      ensures Valid()
      ensures id !in old(posts) ==> res == Err(PostNotFound) && posts == old(posts)
      ensures id in old(posts) ==>
        && posts == old(posts)[id := old(posts)[id].(likes := Likes.Toggled(old(posts)[id].likes, user.id))]
        && res == Ok(LikeReport(user.id !in old(posts)[id].likes, |posts[id].likes|))
    {
      if id !in posts {
        return Err(PostNotFound);
      }
      var p := posts[id];
      var likes, present := Likes.Toggle(p.likes, user.id);
      p := p.(likes := likes);
      posts := posts[id := p];
      res := Ok(LikeReport(!present, |likes|));
    }
  }

  /** On a duplicate-free like list, the post route's `isLiked` (absent
      before the toggle) is the comment route's (present after it). */
  lemma LikeReportsAgree(likes: seq<Id>, u: Id)
    requires NoDup(likes)
    ensures (u !in likes) == (u in Likes.Toggled(likes, u))
  {
    Likes.ToggleFlips(likes, u);
  }
}
