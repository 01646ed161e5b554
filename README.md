# Blog comment and reaction logic in Dafny

This project models the comment and reaction logic of a MERN blogging platform (an Express and MongoDB server with a React client).
It also models the small rule sets around that logic.
Everything is written as Dafny datatypes, functions, methods and lemmas, and the properties the code promises are proved about that model.

What is modelled, module by module:

- `CommentModel` covers the comment record, its content bounds and defaults, and the `likeCount` and `isLiked` virtuals.
  It also covers the like toggle and the read path `getCommentsForPost`. That read path selects the approved root comments of a post, newest first, each with its approved replies, oldest first, and marks `isLiked` for a viewer.
- `CommentRoutes` models the comment route handlers as a class `CommentStore` over a map from comment id to record.
  Its methods are create, update, delete with its one-level cascade, like, and the per-author paginated listing.
- `Likes` is the `indexOf` / `splice` / `push` toggle that comments and posts share.
- `Paging` holds the query-string defaults, `skip`, the window MongoDB returns for `skip`/`limit`, and the `pagination` object of the list responses.
- `Posts` covers:
  - the post listing: its filters, pagination and `isLiked` annotation;
  - the ownership checks of update and delete, and the like toggle, on a class `PostStore`;
  - the Cloudinary public id of a featured image, and the upload input check.
- `Auth` models the request gates `protect`, `optionalAuth`, `admin` and `authorize`, including the Bearer header parsing.
- `Category` covers the category field rules, the slug the pre-save hook derives from the name, and the order of the counts report.
- `AuthState` is the client's `authReducer` state machine.
- `CreatePost` covers the client's tag editor, the image size check, the form rules, the submit payload and the categories fallback.
- `Home` covers the category filter toggle, the page resets, and the pagination controls.
- `CategoriesPage` covers the statistics of the categories page and its loading, error and empty branches.
- `Text` holds the JavaScript string operations the code relies on: `trim`, `split` on one character, `startsWith` and `includes`.
- `Common` holds `Option`, `Result`, ids and the principal type.

Conventions:

- Ids of users, posts, comments and categories are one comparable type, `Id`.
- The clock is a parameter `now`.
- Fresh comment ids come from a counter in the store.
- Query-string numbers are `Option<int>`, where None stands for `NaN`.
- Foreign calls are parameters of the operations that use them:
  - JWT verification and the user lookup in `Auth`;
  - post existence for comment creation;
  - the text-search hits, the sort order of the post listing, and the public id sent to the image service in `Posts` (the outcome of that call is only logged, so the model leaves it out).
- `protect` runs before every mutating route, so the handlers receive the authenticated `Principal` directly.

The code accepts replies to replies, deletes only one level of replies, and answers validation failures with 500; the model follows the code:

- Creating a comment rejects only a missing post or a missing parent (`server/routes/comments.js` lines 49-57). A reply to a reply, or a parent on another post, is accepted.
- Deleting cascades exactly one level (lines 149-152).
- `CommentRoutes.CascadeMayOrphan` shows the consequence: a comment nested two levels deep survives the deletion of its root, with a parent that no longer exists.
- `CommentRoutes.CascadeKeepsLinks` shows that with one level of nesting, no parent link dangles.
- A schema validation failure on save is caught by the handler's `catch` and answered with 500, not with a dedicated validation status.

## Model

| member | source | states |
|---|---|---|
| Text.TrimStart | server/models/Comment.js:7 | the result is a suffix of the input, everything dropped is white space, and the result does not start with white space |
| Text.TrimEnd | server/models/Comment.js:7 | the result is a prefix of the input, everything dropped is white space, and the result does not end with white space |
| Text.Trim | server/models/Comment.js:7 | the result is no longer than the input and has no white space at either end |
| Text.TrimPieces | server/models/Comment.js:7 | the input is white space, then the trimmed result, then white space |
| Text.TrimIdempotent | server/models/Comment.js:7 | trimming twice is trimming once |
| Text.TrimEmptyIffAllSpace | server/models/Comment.js:6-8 | a string trims to empty exactly when all its characters are white space |
| Text.Split | server/middleware/auth.js:12 | there is at least one piece, no piece contains the separator, and there is one piece exactly when the separator does not occur |
| Text.JoinSplit | server/middleware/auth.js:12 | joining the pieces with the separator gives back the original string |
| Text.SplitNoSeparator | server/middleware/auth.js:12 | a string without the separator splits into itself alone |
| Text.SplitAround | server/middleware/auth.js:12 | the text before the first separator is the first piece, and the rest is split on its own |
| Text.SplitLast | server/routes/posts.js:277 | the text after the last separator is the last piece |
| Likes.RemoveFirst | server/models/Comment.js:112 | removing one occurrence shortens the list by one, takes exactly one copy of the id out of the multiset, and leaves other ids' membership unchanged |
| Likes.Toggled | server/models/Comment.js:108-116 | the length changes by exactly one, down when the id was present and up when absent, and no other id's membership changes |
| Likes.IndexOf | server/models/Comment.js:109 | the result is -1 exactly when the id is absent, and otherwise the first position holding it |
| Likes.SpliceFirst | server/models/Comment.js:112 | splicing at the first index of the id removes its first occurrence |
| Likes.Toggle | server/models/Comment.js:109-115 | the `indexOf`/`splice`/`push` sequence reports whether the id was present and produces exactly `Toggled` |
| Likes.RemoveFirstNoDup | server/models/Comment.js:111-112 | on a duplicate-free list, removal keeps it duplicate-free and the id ends up absent |
| Likes.ToggleFlips | server/models/Comment.js:109-115 | on a duplicate-free list, a toggle flips the user's membership and keeps the list duplicate-free |
| Likes.ToggleTwiceAbsent | server/models/Comment.js:109-115 | from a list without the id, two toggles restore the exact list |
| Likes.RemoveAppended | server/models/Comment.js:112-114 | removing an id just pushed onto a list that lacked it gives that list back |
| Likes.ToggleTwicePresent | server/models/Comment.js:109-115 | from a duplicate-free list holding the id, two toggles keep the multiset and length but move the id to the end |
| Paging.ParamOr | server/routes/comments.js:206-207 | `parseInt(x) \|\| d` is the parsed value unless that is NaN or 0, in which case it is the default; it is never 0 when the default is not |
| Paging.CeilDiv | server/routes/comments.js:231 | `Math.ceil(a / b)` is the least integer at or above the quotient, for either sign of the divisor |
| Paging.Paginate | server/routes/comments.js:229-235 | `currentPage` is the page, `totalPages` is the ceiling of total over limit, `hasNext` is `page*limit < total`, and `hasPrev` is `page > 1` |
| Paging.HasNextIffBeforeLastPage | server/routes/posts.js:63-69 | for a limit of at least 1, `hasNext` holds exactly when the page is before `totalPages` |
| Paging.Window | server/routes/comments.js:216-218 | a negative skip is an error; otherwise the page holds the elements from position `skip` on, at most the absolute value of the limit of them |
| Paging.HasNextIffNextPageNonEmpty | server/routes/posts.js:41-69 | `hasNext` holds exactly when the next page of the same query is not empty |
| Auth.Authorize | server/middleware/auth.js:76-95 | with no user the answer is 401; with a user it is `next` exactly when the role is admin or the user owns the resource, and 403 otherwise |
| Auth.Admin | server/middleware/auth.js:46-55 | `next` exactly when a user is present and has the admin role, and 403 otherwise |
| Auth.BearerToken | server/middleware/auth.js:12 | the token is the second space-separated field; there is none exactly when the header has no space |
| Auth.BearerTokenOf | server/middleware/auth.js:9-12 | the header `Bearer <token>` passes the prefix test and yields exactly `<token>` |
| Auth.Protect | server/middleware/auth.js:5-43 | without a Bearer header the answer is 401 "no token"; every refusal is 401; `next` holds exactly when the token verifies and the user exists, and `req.user` is then that user |
| Auth.OptionalAuth | server/middleware/auth.js:58-73 | the request always goes on, and there is no user without a Bearer header |
| Auth.OptionalAgreesWithProtect | server/middleware/auth.js:58-73 | `optionalAuth` sets the user `protect` would accept, and no user when `protect` would refuse |
| CommentModel.NewComment | server/models/Comment.js:3-37 | a new comment has trimmed content, no likes, no parent unless one is given, is not edited, is approved, and has both timestamps at creation time |
| CommentModel.ToggleLike | server/models/Comment.js:108-119 | `toggleLike` replaces `likes` by their toggle and touches only `updatedAt` besides |
| CommentModel.InsertSorted | server/models/Comment.js:90 | inserting into a time-ordered list keeps it time-ordered |
| CommentModel.SortByTime | server/models/Comment.js:75-90 | the query's sort returns each selected id exactly once, ordered by `createdAt` in the requested direction |
| CommentModel.BuildThread | server/models/Comment.js:81-89 | a root's thread holds the views of exactly its approved replies, oldest first |
| CommentModel.MarkThread | server/models/Comment.js:94-100 | the inner `forEach` sets `isLiked` of the root and of every reply to the viewer's membership in its likes |
| CommentModel.GetCommentsForPost | server/models/Comment.js:74-105 | the result has one thread per approved root comment of the post, newest first, each with its approved replies oldest first; `likeCount` is the number of likes, and `isLiked` is membership for a viewer and false without one |
| CommentRoutes.CascadeDelete | server/routes/comments.js:148-152 | after the two deletions the target and its direct replies are gone and every other comment is unchanged |
| CommentRoutes.CascadeKeepsLinks | server/routes/comments.js:148-152 | when every reply answers a root, the cascade leaves no dangling parent link and keeps one level of nesting |
| CommentRoutes.CascadeMayOrphan | server/routes/comments.js:49-57 | a reply under a reply is accepted by the creation checks, and deleting the root then leaves it pointing at a deleted parent |
| CommentRoutes.CommentStore.Create | server/routes/comments.js:35-80 | a missing post gives 404, then a given but missing parent gives 404, then invalid content fails with 500; otherwise exactly one new comment with the user as author is added, and parent links stay resolved |
| CommentRoutes.CommentStore.Update | server/routes/comments.js:85-124 | a missing comment gives 404, a user who is neither author nor admin gets 403, and invalid content fails; otherwise only the content (trimmed), `isEdited` and `updatedAt` change |
| CommentRoutes.CommentStore.Delete | server/routes/comments.js:129-165 | 404 and 403 as for update; otherwise the collection becomes exactly `CascadeDelete`, and the removed ids are reported |
| CommentRoutes.CommentStore.Like | server/routes/comments.js:170-198 | a missing comment gives 404; otherwise the likes are toggled, and the answer is membership and count after the toggle |
| CommentRoutes.PageOf | server/routes/comments.js:210-218 | a window of the sorted author roots fails exactly for a negative skip; otherwise it holds the clamped number of records, each an author root exactly as stored, newest first, taken in order from position `skip` |
| CommentRoutes.PageOfSorted | server/routes/comments.js:210-218 | any run of records read off the sorted author roots holds only author roots, as stored, newest first |
| CommentRoutes.UserPage | server/routes/comments.js:206-235 | with defaults 1 and 10 and `skip = (page-1)*limit`, a negative skip gives 500; otherwise the answer is that window of the author's root comments, in any approval state, with the pagination over their total |
| CommentRoutes.CommentStore.ListByUser | server/routes/comments.js:203-245 | the author's root comments are sorted newest first, each exactly once, and the answer is `UserPage` of that order |
| Posts.Filter | server/routes/posts.js:21-36 | a post is kept exactly when it is published and matches the category, tag and search filters that are given |
| Posts.FilterAppend | server/routes/posts.js:41-47 | filtering keeps the sort order of the collection |
| Posts.LeanIncludes | server/routes/posts.js:47-55 | `includes` of a string over the raw ObjectIds of a `lean` post is never true |
| Posts.ViewAsWritten | server/routes/posts.js:53-57 | as written, every post is listed with `isLiked` false for any viewer, and absent without one |
| Posts.AsWrittenMissesLike | server/routes/posts.js:53-57 | as written, a viewer who liked a post is listed as not liking it, where the intended view says they do |
| Posts.Annotate | server/routes/posts.js:53-57 | each post of the page gets `isLiked`, which is the viewer's membership in its likes, or is absent without a viewer; order and length are kept |
| Posts.FilteredWindow | server/routes/posts.js:21-47 | every post in a window of the filtered collection is published and matches the query |
| Posts.ListPosts | server/routes/posts.js:12-79 | the listing's page is cut from the matching posts at `skip = (page-1)*limit` with defaults 1 and 10; every listed post is published; `isLiked` is membership for a viewer and absent without one; the pagination is over the matching total |
| Posts.Apply | server/routes/posts.js:230-234 | the fields present in the body replace the stored ones, and id, author and likes stay |
| Posts.ApplyLaws | server/routes/posts.js:230-234 | an empty body changes nothing, and the same body applied twice is applied once |
| Posts.PublicId | server/routes/posts.js:277 | the public id contains no `.` |
| Posts.PublicIdOf | server/routes/posts.js:277 | the public id of `<prefix>/<name>.<ext>` is `<name>` |
| Posts.PublicIdExample | server/routes/posts.js:277 | `https://res.cloudinary.com/demo/sunset.jpg` gives `sunset` |
| Posts.ImageToDelete | server/routes/posts.js:275-277 | an image deletion is requested exactly when the URL contains `cloudinary`, and uses the URL's public id |
| Posts.CheckUpload | server/routes/posts.js:345-354 | a missing or empty `image` gives 400, and any other value goes to the upload |
| Posts.PostStore.Update | server/routes/posts.js:211-250 | a missing post gives 404, and a user who is neither author nor admin gets 403; otherwise the stored post becomes the patched post |
| Posts.PostStore.Delete | server/routes/posts.js:255-297 | 404 and 403 as for update; otherwise the post is removed, and the public id sent to the image service, if any, is reported |
| Posts.PostStore.Like | server/routes/posts.js:302-340 | a missing post gives 404; otherwise the likes are toggled, `isLiked` is whether the user was absent before, and `likeCount` is the new length |
| Posts.LikeReportsAgree | server/routes/posts.js:325-331 | on a duplicate-free list, absent-before equals present-after, so the post and comment like answers agree |
| Category.DefaultColorValid | server/models/Category.js:20-24 | the default colour `#3B82F6` passes the colour pattern |
| Category.ColorExamples | server/models/Category.js:20-24 | the default colour and 3- or 6-digit hex colours are valid; a missing `#`, 5 digits, non-hex digits or a bare `#` are not |
| Category.LowerStr | server/models/Category.js:59 | `toLowerCase` maps each character to its lower case, keeping the length |
| Category.Dashify | server/models/Category.js:60 | the result holds only `[a-z0-9-]` with no `--`, is empty only for empty input, and starts with `-` exactly when the input starts with a separator |
| Category.DashifyKeeps | server/models/Category.js:60 | the letters and digits of the input are kept, in order |
| Category.DashifyWordThen | server/models/Category.js:60 | a leading word of letters and digits is kept as it is, in front of the rest's result |
| Category.DashifySepsThen | server/models/Category.js:60 | a leading run of separators, of any length, followed by nothing or by a word, becomes exactly one `-` |
| Category.DashifyRun | server/models/Category.js:60 | a word, a non-empty run of separators and then a word (or nothing) give the word, one `-`, and the rest's result |
| Category.DashifyTrailing | server/models/Category.js:60 | separators after the last word become one trailing `-` |
| Category.DashifyWords | server/models/Category.js:60 | a run of separators, of any length, between two words becomes a single `-` |
| Category.WordsAreWords | server/models/Category.js:60 | each word of a string is a non-empty run of letters and digits |
| Category.NoWordsIff | server/models/Category.js:60 | a string has no words exactly when it has no letter or digit |
| Category.DashifyShape | server/models/Category.js:60 | the result is the words joined by single dashes, with one `-` added for leading and one for trailing separators; a string of separators only becomes one `-` |
| Category.StripShape | server/models/Category.js:60-61 | stripping the end dashes leaves exactly the words joined by single dashes |
| Category.DashifyDashed | server/models/Category.js:60 | a string already made of `[a-z0-9]` and single dashes is unchanged |
| Category.StripKeeps | server/models/Category.js:61 | removing the end dashes of a dashed string gives a slug with the same letters and digits |
| Category.Slugify | server/models/Category.js:58-61 | the slug holds only `[a-z0-9-]`, has no `--`, does not start or end with `-`, and keeps the lower-cased letters and digits of the name in order |
| Category.SlugifyWords | server/models/Category.js:58-61 | the slug is exactly the words of the lower-cased name joined by single dashes, so a dash stands exactly where a run of separators lies between two words |
| Category.SlugFixed | server/models/Category.js:58-61 | a slug is its own slug |
| Category.SlugIdempotent | server/models/Category.js:58-61 | slugifying a slug gives the same slug |
| Category.SlugExample | server/seed-categories.js:22-23 | "Web Development" gets the slug "web-development" |
| Category.PreSave | server/models/Category.js:55-64 | only the slug changes, it is recomputed from the name when the name was modified, and otherwise nothing changes |
| Category.FailingPaths | server/models/Category.js:3-28 | the name, description and colour paths are reported exactly when their own validators fail: trimmed name of 1 to 50 characters, description of at most 200, colour empty or hex |
| Category.Saved | server/models/Category.js:3-64 | the stored document has the id, the trimmed name, the slug of that name, the description as given, the colour given or `#3B82F6`, the icon given or the default, and is active |
| Category.Create | server/models/Category.js:3-64 | all validators run and a refusal lists every failing path in one validation error; only when none fails is a clash with an existing name or slug reported, as a duplicate key; otherwise the `Saved` document is stored, and its colour passes the colour rule |
| Category.CreateAccepts | server/models/Category.js:3-64 | a category saves exactly when the trimmed name has 1 to 50 characters, the description is at most 200, the colour, if given, is empty or a hex colour, and no existing category has the same name or the same slug |
| Category.ColorRule | server/models/Category.js:20-24 | a missing colour takes the default, and an empty colour is accepted and stored as empty |
| Category.CountRefs | server/models/Category.js:69-81 | the count is at most the number of posts, and zero exactly when no post references the category |
| Category.NameLeTotal | server/models/Category.js:88 | any two names are ordered one way or the other |
| Category.NameLeTrans | server/models/Category.js:88 | the name order is transitive |
| Category.NameLeAntisym | server/models/Category.js:88 | two names ordered both ways are equal |
| Category.RowLeTotal | server/models/Category.js:88 | any two report rows are ordered by `{ postCount: -1, name: 1 }` one way or the other |
| Category.RowLeTrans | server/models/Category.js:88 | the row order is transitive |
| Category.InsertRow | server/models/Category.js:88 | inserting a row into a sorted report keeps it sorted and adds exactly that row |
| Category.SortRows | server/models/Category.js:88 | the sorted report is a permutation of the rows, in order |
| Category.SortedPairwise | server/models/Category.js:88 | in a sorted report every row sorts no later than every row after it |
| Category.RowsOf | server/models/Category.js:69-86 | each category gets one row whose `postCount` is the number of posts referencing it |
| Category.CountsReport | server/models/Category.js:67-91 | the report holds each category's row once, with its post count, ordered by more posts first and then by name |
| AuthState.Initial | client/src/contexts/AuthContext.jsx:6-12 | the session starts with no user, the saved token, not authenticated, loading and no error |
| AuthState.Reduce | client/src/contexts/AuthContext.jsx:14-62 | `AUTH_START` changes only `loading` and `error`; `AUTH_SUCCESS` stores the payload's user and token as they are and signs in; `AUTH_FAILURE` signs out with the payload as error; `UPDATE_USER` replaces only the user, by the payload; `CLEAR_ERROR` changes only the error; any other action changes nothing |
| AuthState.LogoutIsQuietFailure | client/src/contexts/AuthContext.jsx:31-48 | `LOGOUT` is `AUTH_FAILURE` with the error cleared |
| AuthState.LogoutIdempotent | client/src/contexts/AuthContext.jsx:40-48 | logging out twice is logging out once, and clearing the error after a logout changes nothing |
| AuthState.ReduceConsistent | client/src/contexts/AuthContext.jsx:14-62 | every action whose payload carries its user (and, for a success, its token) keeps an authenticated session with a user and a token and no error |
| AuthState.MissingUserBreaks | client/src/contexts/AuthContext.jsx:22-78 | a success whose payload lacks the user signs the session in with no user, as the profile load on mount (line 77) would do if the reply has no top-level `user`; a profile update without a user leaves a signed-in session inconsistent |
| AuthState.SignedInShowsNoError | client/src/contexts/AuthContext.jsx:14-62 | whatever the payloads, every sequence of actions keeps an authenticated session free of errors |
| AuthState.AlwaysConsistent | client/src/contexts/AuthContext.jsx:14-62 | every sequence of actions with payloads present keeps the session consistent |
| AuthState.FromInitial | client/src/contexts/AuthContext.jsx:6-62 | every sequence of actions with payloads present, from the initial state, yields a consistent session |
| AuthState.FailureSignsOut | client/src/contexts/AuthContext.jsx:31-39 | whatever came before, a final failure leaves the session signed out with the failure's error |
| CreatePost.AddTag | client/src/pages/CreatePost.jsx:114-119 | the trimmed input is appended and the input cleared exactly when it is non-empty, new, and there are fewer than 10 tags; otherwise nothing changes |
| CreatePost.ClearedIffAdded | client/src/pages/CreatePost.jsx:115-118 | a non-empty input is cleared exactly when a tag was added |
| CreatePost.RemoveTag | client/src/pages/CreatePost.jsx:121-123 | an entry stays exactly when it differs from the argument |
| CreatePost.RemoveTagAppend | client/src/pages/CreatePost.jsx:121-123 | removal works piecewise, so the remaining tags keep their order |
| CreatePost.RemoveAbsent | client/src/pages/CreatePost.jsx:121-123 | removing a tag that is not there changes nothing |
| CreatePost.RemoveTagNoDup | client/src/pages/CreatePost.jsx:121-123 | removal keeps the tags duplicate-free |
| CreatePost.StepOk | client/src/pages/CreatePost.jsx:114-123 | typing, adding and removing keep at most 10 distinct, non-empty tags of at most 30 characters |
| CreatePost.RunOk | client/src/pages/CreatePost.jsx:114-123 | every sequence of edits keeps those bounds |
| CreatePost.FromEmpty | client/src/pages/CreatePost.jsx:22-23 | from the initial empty editor, the tags never exceed 10, never repeat and are never empty |
| CreatePost.CheckImage | client/src/pages/CreatePost.jsx:97-112 | a file goes to the upload exactly when it has at most 5·1024·1024 bytes, and a larger one is rejected |
| CreatePost.TitleErrors | client/src/pages/CreatePost.jsx:182-188 | the title passes exactly when it is non-empty and at most 200 characters, and the error names which rule failed |
| CreatePost.CategoryErrors | client/src/pages/CreatePost.jsx:209-211 | the category passes exactly when one is chosen |
| CreatePost.ContentErrors | client/src/pages/CreatePost.jsx:366-372 | the content passes exactly when it has at least 10 characters, and the error names which rule failed |
| CreatePost.Errors | client/src/pages/CreatePost.jsx:180-372 | the form is valid exactly when title and category pass and, unless the preview is shown (which unmounts the content editor, so its rules are not checked), the content passes; in preview no content error is reported |
| CreatePost.Submit | client/src/pages/CreatePost.jsx:125-138 | a payload is sent exactly when the form is valid in its current view and a user is logged in; a valid form with no user gives the not-logged-in outcome; the payload carries the form's fields and the current tags, with `status` defaulting to `draft` when empty |
| CreatePost.EditorChecksContent | client/src/pages/CreatePost.jsx:353-372 | with the editor shown, a sent post has at least 10 characters of content |
| CreatePost.PreviewSkipsContent | client/src/pages/CreatePost.jsx:353-372 | with the preview shown, a valid title and a chosen category are enough: the content is sent as it is, however short |
| CreatePost.StatusFromSelect | client/src/pages/CreatePost.jsx:389-393 | with the select's options, a valid post is sent as a draft or as published |
| CreatePost.CategorySelect | client/src/pages/CreatePost.jsx:206-219 | the select offers the categories; it is disabled exactly while loading, on an error or with no categories; its first option reads "Loading categories..." while loading, and otherwise "No categories available" exactly when there are none and "Select a category" when there are; while loading the page shows its skeleton instead (lines 140-153), so the loading text is never on screen |
| CreatePost.CategoriesOf | client/src/pages/CreatePost.jsx:60-63 | the first list present wins, even when empty, and with none there is the empty list |
| Home.CategoryChange | client/src/pages/Home.jsx:60-63 | choosing the selected category clears the selection, choosing another selects it, and the page goes back to 1 |
| Home.AllPostsClears | client/src/pages/Home.jsx:233 | "All Posts" always leaves no selection |
| Home.CategoryTwice | client/src/pages/Home.jsx:61 | choosing the same category twice returns to the starting selection when that was empty or that category |
| Home.Search | client/src/pages/Home.jsx:55-58 | submitting a search goes back to page 1 and changes nothing else |
| Home.TypeSearch | client/src/pages/Home.jsx:193 | typing in the search box changes the query but not the page |
| Home.PageNumbers | client/src/pages/Home.jsx:293 | the numbered buttons are 1 to `totalPages`, in order |
| Home.PageNumbersRange | client/src/pages/Home.jsx:293 | a number is offered exactly when it lies between 1 and `totalPages` |
| Home.ControlsFor | client/src/pages/Home.jsx:274-312 | the controls show exactly when the page has posts and there is more than one page; then the numbers are 1 to `totalPages`, Previous is disabled exactly on page 1 and Next exactly on the last page |
| Home.ClickPage | client/src/pages/Home.jsx:285-309 | a number goes to that page, an enabled Previous or Next moves by one, and a disabled button leaves the page |
| Home.ClickStaysInRange | client/src/pages/Home.jsx:283-312 | from a page in range, every button the shown controls offer leads to a page in range |
| Home.ControlsAgreeWithPagination | client/src/pages/Home.jsx:274-312 | for the listing's answer, shown controls start on a page in range, and Previous and Next are disabled exactly when the answer reports no previous or no next page |
| Home.ShownPageInRange | client/src/pages/Home.jsx:274-283 | a page of the listing that shows posts is never past the last page, so the controls start in range |
| CategoriesPage.ActiveBounds | client/src/pages/Categories.jsx:176-191 | the active count is at most the number of categories and at most Total Posts, and is zero exactly when Total Posts is |
| CategoriesPage.StatsAppend | client/src/pages/Categories.jsx:183-189 | both statistics add up over concatenated lists |
| CategoriesPage.View | client/src/pages/Categories.jsx:19-196 | loading comes first, then the error page, and otherwise the listing; it shows the admin link exactly for admins and one card per category; missing or empty data shows the empty branch without statistics; a non-empty list always has statistics, which are the count, Total Posts and Active Categories |

## Findings

| source | as written | input that shows it | evidently intended | confidence | as-written member | corrected member |
|---|---|---|---|---|---|---|
| server/routes/posts.js:55 | `post.likes.includes(req.user._id.toString())` on a `lean` post compares a string with the raw ObjectIds of `likes`, so it is always false | a signed-in viewer whose id is among a post's likes gets that post with `isLiked: false` | `isLiked` is whether the viewer's id is among the likes | not executed; rests on `lean` returning ObjectId instances | Posts.AsWrittenMissesLike | Posts.Annotate |

## Left out

- Persistence and queries are modelled as in-memory maps and sequences. Mongoose `populate`, `save`, `lean` and the `$inc` view counter are left out, and so is the `views` field.
- CommentRoutes.CommentStore, Posts.PostStore: ids are taken to be well-formed ObjectIds (`Common.Id` is `nat`). A malformed id in a path or query makes Mongoose throw a CastError, which the handlers answer with 500. This is not modelled: comment delete, like and the per-user listing (server/routes/comments.js lines 131, 172, 203-218), post update, delete and like (server/routes/posts.js lines 213, 257, 304), and the listing's `category` filter (server/routes/posts.js lines 24-25, 41-50) all have that path.
- The MongoDB `$text` search is a foreign ranking: the post listing receives the set of posts it hits.
- The `sort` query string of the post listing is a foreign key order: the listing receives the collection already in that order.
- The listing's tie order among comments with equal `createdAt` is MongoDB's own: the model proves only the order by time.
- Concurrency is left out; everything is sequential. This covers the read-modify-write race of the like toggles and the two non-atomic steps of the cascade delete.
- JWT verification, the user lookup, and the Cloudinary upload and delete are foreign calls. They appear as parameters or outcomes, not as code.
- `validateComment` and `validatePost` (server/middleware/validation.js) are not part of this model. Neither are the Post and User schemas, server/models/Post.js and server/models/User.js: the post record holds only the fields the routes read.
- Posts.PostStore.Update: the body may carry only the patchable post fields. A body that also names `author` or `likes` is not modelled, and neither are the Post schema's update validators.
- Post creation, the featured-post route, and the single-post routes by id and by slug are outside the modelled core.
- Posts.ListPosts: uses the intended `isLiked`, the viewer's membership in the likes. The code compares a string with the raw ObjectIds of a `lean` document, which never match (see Findings). The routes by id and by slug make the same comparison (server/routes/posts.js lines 122 and 161) and are outside the model.
- Category.Create: the unique indexes on name and slug are modelled as a check of the saved category against the existing ones. Two inserts racing on the index, and renames of an existing category, are not modelled.
- AuthState.Reduce: the payload is stored as the dispatch gives it. The profile load on mount reads `response.data.user` (client/src/contexts/AuthContext.jsx line 77). Register, login and the profile update read `response.data.data` (lines 99, 123, 154). Which of these fields the server fills depends on the User routes, which are not part of this model, so payload fields are optional and consistency is proved only for dispatches whose payloads are present.
- CommentModel.GetCommentsForPost: the assignment to `isLiked` is modelled as taking effect, as the code intends. Whether Mongoose keeps a value assigned to a getter-only virtual is library behaviour that is not modelled.
- The comments GET route (server/routes/comments.js:12-17) has no authentication middleware, so in the code its viewer is always absent. The model takes the viewer as a parameter.
- String lengths count Unicode code points, while JavaScript counts UTF-16 code units. They differ only for characters outside the Basic Multilingual Plane.
- Numbers are unbounded integers. JavaScript doubles, and `parseInt` of text such as `"2abc"`, are reduced to an optional integer.
- Category.Slugify: `toLowerCase` is modelled for ASCII only, and every other character is a separator. The few non-ASCII capitals that JavaScript lowers to ASCII letters (the Kelvin sign, dotted capital I) are not modelled.
- Category names are compared by code point, which is the store's binary string order. Collation settings are not modelled.
- The React rendering, toasts, animations, navigation, `localStorage` and FileReader are left out. So are the async provider functions of the authentication context.
- The placeholder pages and the layout components carry no logic and are not modelled.
