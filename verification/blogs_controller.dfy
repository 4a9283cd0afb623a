/** The `/api/blogs` router as transitions over the store: each handler takes the store
    (and the user the middleware attached) and gives the new store and an outcome. */
module BlogsController {
  import opened Wrappers
  import opened Json
  import opened Http
  import opened Models
  import opened Collections

  /** The request body fields a handler reads; absent fields are `None`. */
  datatype BlogInput = BlogInput(title: Option<string>, author: Option<string>, url: Option<string>, likes: Option<int>)

  /** A handler's effect: the store afterwards and what it answered or threw. */
  datatype Step = Step(store: Store, outcome: Outcome)

  /** JavaScript truthiness of an optional string: defined and non-empty. */
  predicate Truthy(s: Option<string>) {
    s.Some? && s.value != ""
  }

  /** `body.likes || 0`: a falsy number is 0 already, so only absent likes change. */
  function LikesOrZero(likes: Option<int>): (r: int)
    ensures r == 0 <==> likes.None? || likes == Some(0)
    ensures likes.Some? ==> r == likes.value
  {
    match likes
    case Some(n) => n
    case None => 0
  }

  /* ------------------------------------------------------------------ GET / */

  /** A blog with its `user` field populated by the owner's summary, or null when the
      owner no longer exists. */
  function Populated(users: seq<User>, b: Blog): (r: map<string, Value>)
    ensures forall f :: f in r ==> f == "user" || f in BlogToJson(b)
    ensures forall f :: f in BlogToJson(b) && f != "user" ==> f in r && r[f] == BlogToJson(b)[f]
    ensures b.user.None? ==> r == BlogToJson(b)
    ensures b.user.Some? ==>
              && "user" in r
              && (r["user"] == Null <==> forall i :: 0 <= i < |users| ==> users[i].id != b.user.value)
              && (r["user"] != Null ==>
                    exists i :: 0 <= i < |users| && users[i].id == b.user.value && r["user"] == Obj(UserSummary(users[i])))
  {
    var j := BlogToJson(b);
    match b.user
    case None => j
    case Some(owner) =>
      var k := Find(users, UserId, owner);
      j["user" := if k == -1 then Null else Obj(UserSummary(users[k]))]
  }

  /** GET `/`: every blog, in natural order, with its owner populated. */
  function List(st: Store): (r: Response)
    ensures r.status == 200 && r.body.JsonBody? && r.body.value.Arr?
    ensures |r.body.value.items| == |st.blogs|
    ensures forall i :: 0 <= i < |st.blogs| ==> r.body.value.items[i] == Obj(Populated(st.users, st.blogs[i]))
  {
    Response(200, JsonBody(Arr(seq(|st.blogs|, i requires 0 <= i < |st.blogs| => Obj(Populated(st.users, st.blogs[i]))))))
  }

  /* ----------------------------------------------------------------- POST / */

  /** The blog a POST stores: the body's title, author and url, its likes defaulted to 0,
      owned by `owner`. */
  function NewBlog(body: BlogInput, owner: User, id: string): (r: Blog)
    ensures r.id == id && r.user == Some(owner.id)
    ensures r.title == body.title && r.author == body.author && r.url == body.url
    ensures r.likes.Some? && (body.likes.Some? ==> r.likes.value == body.likes.value)
    ensures body.likes.None? ==> r.likes == Some(0)
  {
    Blog(id, body.title, body.author, body.url, Some(LikesOrZero(body.likes)), Some(owner.id))
  }

  /** POST `/`. A falsy title or url answers 400 and changes nothing. Otherwise the blog
      is built (throwing when no user is attached) and saved, the id is appended to the
      attached user's blog list and that user is saved (throwing when the user is no
      longer stored, after the blog was saved), and the saved blog is answered with 201. */
  function Create(st: Store, user: Option<User>, body: BlogInput, freshId: string): (r: Step)
    requires forall i :: 0 <= i < |st.blogs| ==> st.blogs[i].id != freshId
    ensures !Truthy(body.title) || !Truthy(body.url) ==>
              r == Step(st, Respond(ErrorResponse(400, "title or url missing")))
    ensures Truthy(body.title) && Truthy(body.url) && user.None? ==> r.store == st && r.outcome.Throw?
    ensures r.store != st ==> Truthy(body.title) && Truthy(body.url) && user.Some?
    ensures Truthy(body.title) && Truthy(body.url) && user.Some? && Find(st.users, UserId, user.value.id) >= 0 ==>
              r.outcome.Respond? && r.outcome.response.status == 201
    ensures r.store != st ==>
              && |r.store.blogs| == |st.blogs| + 1
              && r.store.blogs[..|st.blogs|] == st.blogs
              && var b := r.store.blogs[|st.blogs|];
                 && b.id == freshId && b.title == body.title && b.author == body.author && b.url == body.url
                 && b.user == Some(user.value.id)
                 && b.likes == Some(if body.likes.Some? then body.likes.value else 0)
    ensures r.outcome.Respond? && r.outcome.response.status == 201 ==>
              && user.Some?
              && |r.store.blogs| == |st.blogs| + 1
              && |r.store.users| == |st.users|
              && var k := Find(st.users, UserId, user.value.id);
                 && k >= 0
                 && r.store.users[k] == st.users[k].(blogs := user.value.blogs + [freshId])
                 && (forall i :: 0 <= i < |st.users| && i != k ==> r.store.users[i] == st.users[i])
                 && r.outcome.response.body == JsonBody(Obj(BlogToJson(r.store.blogs[|st.blogs|])))
  {
    if !Truthy(body.title) || !Truthy(body.url) then
      Step(st, Respond(ErrorResponse(400, "title or url missing")))
    else match user
      case None => Step(st, Throw(Error("TypeError", "Cannot read properties of null (reading '_id')")))
      case Some(u) =>
        var b := NewBlog(body, u, freshId);
        assert (st.blogs + [b])[..|st.blogs|] == st.blogs;
        Save(st, u, body, freshId)
  }

  /** The saving half of POST for an attached user `u`: the blog is saved, then `u`'s
      blog list is extended and saved, which throws when `u` is no longer stored. */
  function Save(st: Store, u: User, body: BlogInput, freshId: string): (r: Step)
    ensures r.store.blogs == st.blogs + [NewBlog(body, u, freshId)]
    ensures Find(st.users, UserId, u.id) == -1 ==> r.store.users == st.users && r.outcome.Throw?
    ensures Find(st.users, UserId, u.id) >= 0 ==> r.outcome.Respond?
    ensures r.outcome.Respond? ==>
              && r.outcome.response.status == 201
              && |r.store.users| == |st.users|
              && var k := Find(st.users, UserId, u.id);
                 && k >= 0
                 && r.store.users[k] == st.users[k].(blogs := u.blogs + [freshId])
                 && (forall i :: 0 <= i < |st.users| && i != k ==> r.store.users[i] == st.users[i])
                 && r.outcome.response.body == JsonBody(Obj(BlogToJson(NewBlog(body, u, freshId))))
  {
    var blog := NewBlog(body, u, freshId);
    var blogs := st.blogs + [blog];
    var k := Find(st.users, UserId, u.id);
    if k == -1 then
      Step(Store(blogs, st.users),
           Throw(Error("DocumentNotFoundError", "No document found for query \"{ _id: '" + u.id + "' }\" on model \"User\"")))
    else
      var users := st.users[k := st.users[k].(blogs := u.blogs + [freshId])];
      Step(Store(blogs, users), Respond(Response(201, JsonBody(Obj(BlogToJson(blog))))))
  }

  /* ----------------------------------------------------------- DELETE /:id */

  /** What `blog.user.toString()` throws for a blog without an owner. */
  const NoOwner := Error("TypeError", "Cannot read properties of undefined (reading 'toString')")

  /** What `user.id` throws when no user is attached. JavaScript says "of undefined"
      instead when the token's claims carried no id, since `request.user` is then never
      set; both are passed on by the error handler and answered 500 alike. */
  const NoUser := Error("TypeError", "Cannot read properties of null (reading 'id')")

  /** `blog.user.toString() !== user.id.toString()`, negated: whether the attached user
      owns the blog. The blog's side is read first, so a blog without an owner throws even
      when no user is attached. */
  function OwnerCheck(blog: Blog, user: Option<User>): (r: Result<bool, Error>)
    ensures blog.user.None? ==> r == Err(NoOwner)
    ensures blog.user.Some? && user.None? ==> r == Err(NoUser)
    ensures r.Ok? <==> blog.user.Some? && user.Some?
    ensures r == Ok(true) <==> user.Some? && blog.user == Some(user.value.id)
  {
    if blog.user.None? then Err(NoOwner)
    else if user.None? then Err(NoUser)
    else Ok(blog.user.value == user.value.id)
  }

  /** DELETE `/:id`. A malformed id throws a CastError; an unknown id answers 404; a user
      other than the owner gets 401; the owner's request removes that blog and answers 204.
      Only the owner's request changes the store, and it never touches any user. */
  function Remove(st: Store, user: Option<User>, id: string): (r: Step)
    ensures CastObjectId(id).None? ==> r == Step(st, Throw(CastError(id)))
    ensures CastObjectId(id).Some? && Find(st.blogs, BlogId, CastObjectId(id).value) == -1 ==>
              r == Step(st, Respond(MessageResponse(404, "Blog not found")))
    ensures var i := if CastObjectId(id).Some? then Find(st.blogs, BlogId, CastObjectId(id).value) else -1;
            i >= 0 && st.blogs[i].user.Some? && user.Some? && st.blogs[i].user.value != user.value.id ==>
              r == Step(st, Respond(MessageResponse(401, "You do not have permission to delete this blog")))
    ensures var i := if CastObjectId(id).Some? then Find(st.blogs, BlogId, CastObjectId(id).value) else -1;
            i >= 0 && user.Some? && st.blogs[i].user == Some(user.value.id) ==>
              r == Step(st.(blogs := Without(st.blogs, i)), Respond(Response(204, Empty)))
    ensures var i := if CastObjectId(id).Some? then Find(st.blogs, BlogId, CastObjectId(id).value) else -1;
            i >= 0 && st.blogs[i].user.None? ==> r == Step(st, Throw(NoOwner))
    ensures var i := if CastObjectId(id).Some? then Find(st.blogs, BlogId, CastObjectId(id).value) else -1;
            i >= 0 && st.blogs[i].user.Some? && user.None? ==> r == Step(st, Throw(NoUser))
    ensures r.store.users == st.users
    ensures r.store != st ==>
              && r.outcome == Respond(Response(204, Empty))
              && user.Some? && CastObjectId(id).Some?
              && var i := Find(st.blogs, BlogId, CastObjectId(id).value);
                 && 0 <= i && st.blogs[i].user == Some(user.value.id)
                 && r.store.blogs == Without(st.blogs, i)
    ensures r.outcome.Respond? && r.outcome.response.status == 204 ==> |r.store.blogs| == |st.blogs| - 1
  {
    match CastObjectId(id)
    case None => Step(st, Throw(CastError(id)))
    case Some(oid) =>
      var i := Find(st.blogs, BlogId, oid);
      if i == -1 then Step(st, Respond(MessageResponse(404, "Blog not found")))
      else RemoveFound(st, user, i)
  }

  /** The half of DELETE after the blog at `i` was found: only its owner removes it. */
  function RemoveFound(st: Store, user: Option<User>, i: int): (r: Step)
    requires 0 <= i < |st.blogs|
    ensures st.blogs[i].user.Some? && user.Some? && st.blogs[i].user.value != user.value.id ==>
              r == Step(st, Respond(MessageResponse(401, "You do not have permission to delete this blog")))
    ensures user.Some? && st.blogs[i].user == Some(user.value.id) ==>
              r == Step(st.(blogs := Without(st.blogs, i)), Respond(Response(204, Empty)))
    ensures st.blogs[i].user.None? ==> r == Step(st, Throw(NoOwner))
    ensures st.blogs[i].user.Some? && user.None? ==> r == Step(st, Throw(NoUser))
    ensures r.outcome != Respond(Response(204, Empty)) ==> r.store == st
    ensures r.outcome.Respond? && r.outcome.response.status == 204 ==>
              && r.outcome == Respond(Response(204, Empty))
              && user.Some? && st.blogs[i].user == Some(user.value.id)
              && r.store == st.(blogs := Without(st.blogs, i))
              && |r.store.blogs| == |st.blogs| - 1
  {
    match OwnerCheck(st.blogs[i], user)
    case Err(e) => Step(st, Throw(e))
    case Ok(same) =>
      if !same then Step(st, Respond(MessageResponse(401, "You do not have permission to delete this blog")))
      else
        var rest := Without(st.blogs, i);
        Step(st.(blogs := rest), Respond(Response(204, Empty)))
  }

  /** After the owner deletes a blog, no blog with that id is left (ids being unique). */
  lemma RemoveLeavesNoCopy(st: Store, user: Option<User>, id: string)
    requires ValidStore(st)
    requires Remove(st, user, id).store != st
    ensures forall b :: b in Remove(st, user, id).store.blogs ==> b.id != CastObjectId(id).value
  {
    var oid := CastObjectId(id).value;
    var i := Find(st.blogs, BlogId, oid);
    var rest := Remove(st, user, id).store.blogs;
    assert rest == Without(st.blogs, i);
    RemoveAtUnique(st.blogs, BlogId, i);
    forall b | b in rest ensures b.id != oid {
      var k :| 0 <= k < |rest| && rest[k] == b;
      assert BlogId(rest[k]) != BlogId(st.blogs[i]);
    }
  }

  /* -------------------------------------------------------------- PUT /:id */

  /** PUT `/:id` (`findByIdAndUpdate(id, blog, { new: true })`). A malformed id throws a
      CastError; an unknown id answers 200 with null; otherwise title, author, url and
      likes take the body's values, absent ones included, and the updated blog is answered
      with 200. No user is consulted and nothing else changes. */
  function Update(st: Store, id: string, body: BlogInput): (r: Step)
    ensures CastObjectId(id).None? ==> r == Step(st, Throw(CastError(id)))
    ensures CastObjectId(id).Some? && Find(st.blogs, BlogId, CastObjectId(id).value) == -1 ==>
              r == Step(st, Respond(Response(200, JsonBody(Null))))
    ensures r.store.users == st.users && |r.store.blogs| == |st.blogs|
    ensures forall i :: 0 <= i < |st.blogs| ==>
              var b := r.store.blogs[i];
              && b.id == st.blogs[i].id && b.user == st.blogs[i].user
              && (b != st.blogs[i] ==> CastObjectId(id) == Some(b.id))
    ensures CastObjectId(id).Some? && Find(st.blogs, BlogId, CastObjectId(id).value) >= 0 ==>
              var i := Find(st.blogs, BlogId, CastObjectId(id).value);
              var b := r.store.blogs[i];
              && b.title == body.title && b.author == body.author && b.url == body.url && b.likes == body.likes
              && r.outcome == Respond(Response(200, JsonBody(Obj(BlogToJson(b)))))
  {
    match CastObjectId(id)
    case None => Step(st, Throw(CastError(id)))
    case Some(oid) =>
      var i := Find(st.blogs, BlogId, oid);
      if i == -1 then Step(st, Respond(Response(200, JsonBody(Null))))
      else
        var b := st.blogs[i].(title := body.title, author := body.author, url := body.url, likes := body.likes);
        Step(st.(blogs := st.blogs[i := b]), Respond(Response(200, JsonBody(Obj(BlogToJson(b))))))
  }

  /* ------------------------------------------------------------- invariants */

  /** Creating a blog with a fresh printed ObjectId keeps the store valid. */
  lemma CreateKeepsStoreValid(st: Store, user: Option<User>, body: BlogInput, freshId: string)
    requires ValidStore(st) && IsObjectId(freshId)
    requires forall i :: 0 <= i < |st.blogs| ==> st.blogs[i].id != freshId
    ensures ValidStore(Create(st, user, body, freshId).store)
  {
    if Truthy(body.title) && Truthy(body.url) && user.Some? {
      var u := user.value;
      var b := NewBlog(body, u, freshId);
      var st' := st.(blogs := st.blogs + [b]);
      AppendBlogKeepsValid(st, b);
      var k := Find(st.users, UserId, u.id);
      if k >= 0 {
        SetUserBlogsKeepsValid(st', k, u.blogs + [freshId]);
        assert Create(st, user, body, freshId).store == st'.(users := st'.users[k := st'.users[k].(blogs := u.blogs + [freshId])]);
      } else {
        assert Create(st, user, body, freshId).store == st';
      }
    }
  }

  /** Deleting keeps the store valid. */
  lemma RemoveKeepsStoreValid(st: Store, user: Option<User>, id: string)
    requires ValidStore(st)
    ensures ValidStore(Remove(st, user, id).store)
  {
    var r := Remove(st, user, id).store;
    if r != st {
      var i := Find(st.blogs, BlogId, CastObjectId(id).value);
      RemoveBlogKeepsValid(st, i);
    }
  }

  /** Updating keeps the store valid. */
  lemma UpdateKeepsStoreValid(st: Store, id: string, body: BlogInput)
    requires ValidStore(st)
    ensures ValidStore(Update(st, id, body).store)
  {
  }
}
