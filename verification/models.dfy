/** The two Mongoose models: their stored records, the `toJSON` transforms that shape
    them for responses, the user schema's validation, and ObjectId handling. */
module Models {
  import opened Wrappers
  import opened Json
  import Http

  /* --------------------------------------------------------------- ObjectIds */

  predicate IsHexDigit(c: char) {
    '0' <= c <= '9' || 'a' <= c <= 'f' || 'A' <= c <= 'F'
  }

  /** A string that casts to an ObjectId: 24 hexadecimal digits. */
  predicate IsObjectIdText(s: string) {
    |s| == 24 && forall i :: 0 <= i < |s| ==> IsHexDigit(s[i])
  }

  /** The form `ObjectId.toString()` prints: 24 lower-case hexadecimal digits. */
  predicate IsObjectId(s: string) {
    |s| == 24 && forall i :: 0 <= i < |s| ==> '0' <= s[i] <= '9' || 'a' <= s[i] <= 'f'
  }

  function LowerHex(c: char): char {
    if 'A' <= c <= 'F' then (c as int - 'A' as int + 'a' as int) as char else c
  }

  /** Casting a path parameter to an ObjectId: the id it names, or none (a CastError). */
  function CastObjectId(s: string): (r: Option<string>)
    ensures r.Some? <==> IsObjectIdText(s)
    ensures r.Some? ==> IsObjectId(r.value) && forall i :: 0 <= i < 24 ==> LowerHex(s[i]) == r.value[i]
  {
    if IsObjectIdText(s) then Some(seq(24, i requires 0 <= i < 24 => LowerHex(s[i]))) else None
  }

  /** An id already in printed form casts to itself. */
  lemma CastPrintedId(s: string)
    requires IsObjectId(s)
    ensures CastObjectId(s) == Some(s)
  {
    assert CastObjectId(s).value == s;
  }

  /** The error a failed cast throws. */
  function CastError(value: string): Http.Error {
    Http.Error("CastError", "Cast to ObjectId failed for value \"" + value + "\" (type string) at path \"_id\"")
  }

  /* ------------------------------------------------------------------- Users */

  /** A stored user. `id` is the printed ObjectId; `blogs` are printed blog ids. */
  datatype User = User(id: string, username: string, name: Option<string>, passwordHash: string, blogs: seq<string>)

  /** A stored blog. Every field but the id may be absent. */
  datatype Blog = Blog(id: string, title: Option<string>, author: Option<string>, url: Option<string>,
                       likes: Option<int>, user: Option<string>)

  /** The version key Mongoose stores with every document. */
  const VersionKey := "__v"

  /** `user.toObject()`: every stored field, with `_id` an ObjectId. */
  function UserObject(u: User): map<string, Value> {
    var m := map["_id" := Oid(u.id), VersionKey := Num(0), "username" := Str(u.username),
                 "passwordHash" := Str(u.passwordHash),
                 "blogs" := Arr(seq(|u.blogs|, i requires 0 <= i < |u.blogs| => Oid(u.blogs[i])))];
    Put(m, "name", StrOf(u.name))
  }

  /** The user schema's `toJSON` transform: `id` becomes the printed `_id`, and `_id`,
      `__v` and `passwordHash` are deleted; every other field passes through. */
  function UserTransform(obj: map<string, Value>): (r: map<string, Value>)
    requires "_id" in obj && obj["_id"].Oid?
    ensures r.Keys == obj.Keys - {"_id", VersionKey, "passwordHash"} + {"id"}
    ensures r["id"] == Str(obj["_id"].hex)
    ensures forall k :: k in obj && k !in {"_id", VersionKey, "passwordHash", "id"} ==> r[k] == obj[k]
  {
    var withId := obj["id" := Str(obj["_id"].hex)];
    withId - {"_id", VersionKey, "passwordHash"}
  }

  /** A user as sent in a response. */
  function UserToJson(u: User): map<string, Value> {
    UserTransform(UserObject(u))
  }

  /** The serialised user carries its printed id, no `_id`, no `__v`, no password hash,
      and its username, name and blog ids unchanged. */
  lemma UserToJsonFields(u: User)
    ensures var j := UserToJson(u);
            && j.Keys == {"id", "username", "blogs"} + (if u.name.Some? then {"name"} else {})
            && j["id"] == Str(u.id)
            && j["username"] == Str(u.username)
            && StrField(j, "name") == u.name
            && j["blogs"] == Arr(seq(|u.blogs|, i requires 0 <= i < |u.blogs| => Oid(u.blogs[i])))
  {
  }

  /** The password hash never reaches a response: users that differ only in their
      hash serialise identically. */
  lemma UserToJsonHidesHash(u: User, hash: string)
    ensures UserToJson(u) == UserToJson(u.(passwordHash := hash))
  {
    var a := UserToJson(u);
    var b := UserToJson(u.(passwordHash := hash));
    assert a.Keys == b.Keys;
    forall k | k in a ensures a[k] == b[k] {}
  }

  /** The owner summary a populated blog embeds: `populate('user', { username: 1, name: 1, id: 1 })`
      selects `_id`, `username` and `name`, and the user transform then applies. */
  function UserSummary(u: User): (r: map<string, Value>)
    ensures r.Keys == {"id", "username"} + (if u.name.Some? then {"name"} else {})
    ensures r["id"] == Str(u.id) && r["username"] == Str(u.username) && StrField(r, "name") == u.name
  {
    UserTransform(Put(map["_id" := Oid(u.id), "username" := Str(u.username)], "name", StrOf(u.name)))
  }

  /* ------------------------------------------------------------------- Blogs */

  /** `blog.toObject()`: every defined field, with `_id` and `user` ObjectIds. */
  function BlogObject(b: Blog): map<string, Value> {
    Put(Put(TextFields(b), "likes", NumOf(b.likes)), "user", OidOf(b.user))
  }

  /** The identity, version and string fields of `toObject`. */
  function TextFields(b: Blog): map<string, Value> {
    var m := map["_id" := Oid(b.id), VersionKey := Num(0)];
    Put(Put(Put(m, "title", StrOf(b.title)), "author", StrOf(b.author)), "url", StrOf(b.url))
  }

  /** The blog schema's `toJSON` transform: `id` becomes the printed `_id`, and `_id` and
      `__v` are deleted; every other field passes through. */
  function BlogTransform(obj: map<string, Value>): (r: map<string, Value>)
    requires "_id" in obj && obj["_id"].Oid?
    ensures r.Keys == obj.Keys - {"_id", VersionKey} + {"id"}
    ensures r["id"] == Str(obj["_id"].hex)
    ensures forall k :: k in obj && k !in {"_id", VersionKey, "id"} ==> r[k] == obj[k]
  {
    var withId := obj["id" := Str(obj["_id"].hex)];
    withId - {"_id", VersionKey}
  }

  /** A blog as sent in a response. */
  function BlogToJson(b: Blog): map<string, Value> {
    BlogTransform(BlogObject(b))
  }

  /** Reads a serialised blog back. */
  function BlogFromJson(j: map<string, Value>): Option<Blog> {
    match StrField(j, "id")
    case None => None
    case Some(id) =>
      Some(Blog(id, StrField(j, "title"), StrField(j, "author"), StrField(j, "url"),
                NumField(j, "likes"), OidField(j, "user")))
  }

  /** Serialisation keeps everything a blog holds: reading the response back gives the
      stored blog, and the response has `id` but neither `_id` nor `__v`. */
  lemma BlogJsonRoundTrip(b: Blog)
    ensures BlogFromJson(BlogToJson(b)) == Some(b)
    ensures var j := BlogToJson(b);
            "id" in j && j["id"] == Str(b.id) && "_id" !in j && VersionKey !in j
  {
    var o := BlogObject(b);
    BlogObjectFields(b);
    TransformKeeps(o, "title");
    TransformKeeps(o, "author");
    TransformKeeps(o, "url");
    TransformKeeps(o, "likes");
    TransformKeeps(o, "user");
  }

  /** `toObject` holds every defined field of the blog under its own name. */
  lemma BlogObjectFields(b: Blog)
    ensures var o := BlogObject(b);
            && "_id" in o && o["_id"] == Oid(b.id)
            && StrField(o, "title") == b.title && StrField(o, "author") == b.author
            && StrField(o, "url") == b.url && NumField(o, "likes") == b.likes
            && OidField(o, "user") == b.user
  {
    var t := TextFields(b);
    TextFieldsHold(b);
    var m := Put(t, "likes", NumOf(b.likes));
    assert StrField(m, "title") == b.title && StrField(m, "author") == b.author && StrField(m, "url") == b.url;
    assert NumField(m, "likes") == b.likes;
  }

  lemma TextFieldsHold(b: Blog)
    ensures var t := TextFields(b);
            && "_id" in t && t["_id"] == Oid(b.id)
            && StrField(t, "title") == b.title && StrField(t, "author") == b.author
            && StrField(t, "url") == b.url
            && "likes" !in t && "user" !in t
  {
    var m0 := map["_id" := Oid(b.id), VersionKey := Num(0)];
    var m1 := Put(m0, "title", StrOf(b.title));
    var m2 := Put(m1, "author", StrOf(b.author));
    assert StrField(m2, "title") == b.title;
  }

  /** The blog transform leaves every field other than `_id`, `__v` and `id` as it was. */
  lemma TransformKeeps(o: map<string, Value>, k: string)
    requires "_id" in o && o["_id"].Oid?
    requires k !in {"_id", VersionKey, "id"}
    ensures StrField(BlogTransform(o), k) == StrField(o, k)
    ensures NumField(BlogTransform(o), k) == NumField(o, k)
    ensures OidField(BlogTransform(o), k) == OidField(o, k)
  {
  }

  /* -------------------------------------------------------- user schema rules */

  /** The fields of a user document before it is saved. */
  datatype UserDraft = UserDraft(username: Option<string>, name: Option<string>, passwordHash: Option<string>)

  /** Both `username` and `passwordHash` are `required` with `minlength: 3`. */
  const MinLength := 3

  /** JavaScript's `length` of a string: UTF-16 code units, so a character outside the
      Basic Multilingual Plane counts twice. `minlength` compares this length. */
  function JsLength(s: string): (r: nat)
    ensures r >= |s|
    ensures r == 0 <==> s == ""
  {
    if |s| == 0 then 0 else (if s[0] as int > 0xFFFF then 2 else 1) + JsLength(s[1..])
  }

  /** For text inside the Basic Multilingual Plane the two lengths agree. */
  lemma {:induction false} JsLengthBmp(s: string)
    requires forall i :: 0 <= i < |s| ==> s[i] as int <= 0xFFFF
    ensures JsLength(s) == |s|
  {
    if |s| > 0 {
      JsLengthBmp(s[1..]);
    }
  }

  /** A two-character username whose first character is an emoji has JavaScript length 3,
      so it meets `minlength: 3`. */
  lemma EmojiNameLongEnough()
    ensures |"\U{1F600}a"| == 2 && JsLength("\U{1F600}a") == 3
    ensures PathProblem("username", Some("\U{1F600}a")).None?
  {
    assert JsLength("a") == 1;
  }

  /** The validator message for one required string path with a minimum length, or none
      when the value passes. A required string must be present and non-empty. */
  function PathProblem(path: string, v: Option<string>): Option<string> {
    match v
    case None => Some("Path `" + path + "` is required.")
    case Some(s) =>
      if |s| == 0 then Some("Path `" + path + "` is required.")
      else if JsLength(s) < MinLength then
        Some("Path `" + path + "` (`" + s + "`) is shorter than the minimum allowed length (3).")
      else None
  }

  predicate SchemaValid(d: UserDraft) {
    && d.username.Some? && JsLength(d.username.value) >= MinLength
    && d.passwordHash.Some? && JsLength(d.passwordHash.value) >= MinLength
  }

  /** "path: message" for each failing path, in schema order. */
  function Problems(d: UserDraft): (r: seq<string>)
    ensures |r| == 0 <==> SchemaValid(d)
  {
    var u := match PathProblem("username", d.username)
             case None => [] case Some(m) => ["username: " + m];
    var p := match PathProblem("passwordHash", d.passwordHash)
             case None => [] case Some(m) => ["passwordHash: " + m];
    u + p
  }

  function Join(parts: seq<string>): string {
    if |parts| == 0 then ""
    else if |parts| == 1 then parts[0]
    else parts[0] + ", " + Join(parts[1..])
  }

  /** The ValidationError a failing save throws. */
  function ValidationError(d: UserDraft): Http.Error {
    Http.Error("ValidationError", "User validation failed: " + Join(Problems(d)))
  }

  /** The first stored user with this username, if any (`findOne({ username })`). */
  function FindByUsername(users: seq<User>, username: string): (r: Option<User>)
    ensures r.None? <==> forall i :: 0 <= i < |users| ==> users[i].username != username
    ensures r.Some? ==> r.value in users && r.value.username == username
  {
    if |users| == 0 then None
    else if users[0].username == username then Some(users[0])
    else FindByUsername(users[1..], username)
  }

  /** The code MongoDB puts at the head of a unique-index violation. */
  const DuplicateKeyCode := "E11000 duplicate key error"

  /** The error the unique index on `username` raises for a duplicate. */
  function DuplicateUsername(username: string): Http.Error {
    Http.Error("MongoServerError", DuplicateKeyCode + DuplicateKeyDetail(username))
  }

  function DuplicateKeyDetail(username: string): string {
    " collection: users index: username_1 dup key: { username: \"" + username + "\" }"
  }

  /** Saving a new user: schema validation first, then the unique index, then the insert
      with the fresh id `id` and no blogs. */
  function SaveUser(users: seq<User>, d: UserDraft, id: string): (r: Result<seq<User>, Http.Error>)
    ensures r.Ok? <==> SchemaValid(d) && FindByUsername(users, d.username.value).None?
    ensures !SchemaValid(d) ==> r == Err(ValidationError(d))
    ensures SchemaValid(d) && FindByUsername(users, d.username.value).Some? ==>
              r == Err(DuplicateUsername(d.username.value))
    ensures r.Ok? ==> r.value == users + [User(id, d.username.value, d.name, d.passwordHash.value, [])]
  {
    if !SchemaValid(d) then Err(ValidationError(d))
    else if FindByUsername(users, d.username.value).Some? then Err(DuplicateUsername(d.username.value))
    else Ok(users + [User(id, d.username.value, d.name, d.passwordHash.value, [])])
  }

  /** The schema's rules hold of every stored user. */
  predicate UsersValid(users: seq<User>) {
    && (forall i :: 0 <= i < |users| ==> JsLength(users[i].username) >= MinLength && JsLength(users[i].passwordHash) >= MinLength)
    && (forall i, j :: 0 <= i < j < |users| ==> users[i].username != users[j].username)
  }

  /** Saving keeps every stored user valid and every username unique. */
  lemma SaveUserKeepsRules(users: seq<User>, d: UserDraft, id: string)
    requires UsersValid(users)
    requires SaveUser(users, d, id).Ok?
    ensures UsersValid(SaveUser(users, d, id).value)
  {
    var r := SaveUser(users, d, id).value;
    forall i, j | 0 <= i < j < |r| ensures r[i].username != r[j].username {
      if j == |users| {
        assert users[i].username != d.username.value;
      }
    }
  }
}
