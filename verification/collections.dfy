/** The database as two collections in natural (insertion) order, and the lookups the
    handlers make. A query by `_id` returns the first document with that id. */
module Collections {
  import opened Wrappers
  import opened Models
  import Http

  datatype Store = Store(blogs: seq<Blog>, users: seq<User>)

  function BlogId(b: Blog): string { b.id }

  function UserId(u: User): string { u.id }

  /** Position of the first element whose key is `k`, or -1. */
  function Find<T>(s: seq<T>, key: T -> string, k: string): (r: int)
    ensures -1 <= r < |s|
    ensures r == -1 <==> forall i :: 0 <= i < |s| ==> key(s[i]) != k
    ensures r >= 0 ==> key(s[r]) == k && forall i :: 0 <= i < r ==> key(s[i]) != k
  {
    if |s| == 0 then -1
    else if key(s[0]) == k then 0
    else
      var r := Find(s[1..], key, k);
      if r == -1 then -1 else r + 1
  }

  /** No two elements share a key. */
  predicate UniqueKeys<T>(s: seq<T>, key: T -> string) {
    forall i, j :: 0 <= i < j < |s| ==> key(s[i]) != key(s[j])
  }

  /** With unique keys, the element found is the only one with that key. */
  lemma FindUnique<T>(s: seq<T>, key: T -> string, i: int)
    requires UniqueKeys(s, key) && 0 <= i < |s|
    ensures Find(s, key, key(s[i])) == i
  {
  }

  /** Appending an element whose key is new keeps the keys unique. */
  lemma AppendUnique<T>(s: seq<T>, key: T -> string, x: T)
    requires UniqueKeys(s, key)
    requires forall i :: 0 <= i < |s| ==> key(s[i]) != key(x)
    ensures UniqueKeys(s + [x], key)
  {
    var r := s + [x];
    forall i, j | 0 <= i < j < |r| ensures key(r[i]) != key(r[j]) {
      assert r[i] == s[i];
    }
  }

  /** `s` with the element at `i` removed. */
  function Without<T>(s: seq<T>, i: int): seq<T>
    requires 0 <= i < |s|
  {
    s[..i] + s[i + 1..]
  }

  /** Removing the element at `i` shifts every later element one place down. */
  lemma RemoveAt<T>(s: seq<T>, i: int)
    requires 0 <= i < |s|
    ensures |Without(s, i)| == |s| - 1
    ensures forall k :: 0 <= k < i ==> Without(s, i)[k] == s[k]
    ensures forall k :: i <= k < |s| - 1 ==> Without(s, i)[k] == s[k + 1]
  {
  }

  /** Removing an element keeps the keys unique, and with unique keys no other element
      carries the removed element's key. */
  lemma RemoveAtUnique<T>(s: seq<T>, key: T -> string, i: int)
    requires UniqueKeys(s, key) && 0 <= i < |s|
    ensures UniqueKeys(Without(s, i), key)
    ensures forall k :: 0 <= k < |s| - 1 ==> key(Without(s, i)[k]) != key(s[i])
  {
    RemoveAt(s, i);
  }

  /** What the database guarantees: ids are printed ObjectIds, unique per collection,
      and the user schema's rules hold. */
  predicate ValidStore(st: Store) {
    && (forall i :: 0 <= i < |st.blogs| ==> IsObjectId(st.blogs[i].id))
    && (forall i :: 0 <= i < |st.users| ==> IsObjectId(st.users[i].id))
    && UniqueKeys(st.blogs, BlogId)
    && UniqueKeys(st.users, UserId)
    && UsersValid(st.users)
  }

  /** Storing a blog with a fresh printed id keeps the store valid. */
  lemma AppendBlogKeepsValid(st: Store, b: Blog)
    requires ValidStore(st) && IsObjectId(b.id)
    requires forall i :: 0 <= i < |st.blogs| ==> st.blogs[i].id != b.id
    ensures ValidStore(st.(blogs := st.blogs + [b]))
  {
    var blogs := st.blogs + [b];
    AppendUnique(st.blogs, BlogId, b);
    forall i | 0 <= i < |blogs| ensures IsObjectId(blogs[i].id) {
      if i < |st.blogs| {
        assert blogs[i] == st.blogs[i];
      }
    }
  }

  /** Deleting the blog at `i` keeps the store valid. */
  lemma RemoveBlogKeepsValid(st: Store, i: int)
    requires ValidStore(st) && 0 <= i < |st.blogs|
    ensures ValidStore(st.(blogs := Without(st.blogs, i)))
  {
    RemoveAt(st.blogs, i);
    RemoveAtUnique(st.blogs, BlogId, i);
  }

  /** Replacing one user's blog list keeps the store valid. */
  lemma SetUserBlogsKeepsValid(st: Store, k: int, blogs: seq<string>)
    requires ValidStore(st) && 0 <= k < |st.users|
    ensures ValidStore(st.(users := st.users[k := st.users[k].(blogs := blogs)]))
  {
    var r := st.users[k := st.users[k].(blogs := blogs)];
    assert forall i :: 0 <= i < |r| ==> r[i].id == st.users[i].id && r[i].username == st.users[i].username
                                         && r[i].passwordHash == st.users[i].passwordHash;
  }

  /** `findById`: a CastError for a malformed id, else the first document with that id. */
  function FindUserById(users: seq<User>, id: string): (r: Result<Option<User>, Http.Error>)
    ensures r.Err? <==> !IsObjectIdText(id)
    ensures r.Ok? && r.value.Some? ==> r.value.value in users && r.value.value.id == CastObjectId(id).value
    ensures r.Ok? && r.value.None? ==> forall i :: 0 <= i < |users| ==> users[i].id != CastObjectId(id).value
  {
    match CastObjectId(id)
    case None => Err(CastError(id))
    case Some(oid) =>
      var j := Find(users, UserId, oid);
      if j == -1 then Ok(None) else Ok(Some(users[j]))
  }
}
