/** The blog-list aggregator: pure folds over a sequence of blog records. */
module ListHelper {
  import opened Wrappers
  import Extremum
  import PropertyOrder

  /** A blog record as the aggregator sees it. Absent fields are `None`; an `author`
      of `None` is an absent (`undefined`) author, and a `null` author is not modelled. */
  datatype Post = Post(title: Option<string>, author: Option<string>, url: Option<string>, likes: int)

  /** `{title, author, likes}`, the shape `favoriteBlog` returns. */
  datatype Favorite = Favorite(title: Option<string>, author: Option<string>, likes: int)

  /** `{author, blogs}`, the shape `mostBlogs` returns. */
  datatype AuthorBlogs = AuthorBlogs(author: string, blogs: int)

  /** `{author, likes}`, the shape `mostLikes` returns. */
  datatype AuthorLikes = AuthorLikes(author: string, likes: int)

  /** One `[key, value]` pair of `Object.entries`. */
  datatype Entry = Entry(key: string, value: int)

  function Likes(p: Post): int { p.likes }

  function One(p: Post): int { 1 }

  function Value(e: Entry): int { e.value }

  function Size(g: seq<Post>): int { |g| }

  /** `dummy`: one, whatever the list. */
  function Dummy(blogs: seq<Post>): int { 1 }

  lemma DummyIsOne(blogs: seq<Post>)
    ensures Dummy(blogs) == 1
  {
  }

  /* ---------------------------------------------------------------- totalLikes */

  /** `blogs.reduce((sum, blog) => sum + blog.likes, 0)`: a left fold, so the
      last blog is added to the fold of the ones before it. */
  function TotalLikes(blogs: seq<Post>): (r: int)
    ensures (forall i :: 0 <= i < |blogs| ==> blogs[i].likes >= 0) ==>
              0 <= r && forall i :: 0 <= i < |blogs| ==> blogs[i].likes <= r
  {
    if |blogs| == 0 then 0
    else TotalLikes(blogs[..|blogs| - 1]) + blogs[|blogs| - 1].likes
  }

  /** The total of a concatenation is the sum of the totals. */
  lemma {:induction false} TotalLikesAppend(a: seq<Post>, b: seq<Post>)
    ensures TotalLikes(a + b) == TotalLikes(a) + TotalLikes(b)
    decreases |b|
  {
    if |b| == 0 {
      assert a + b == a;
    } else {
      TotalLikesAppend(a, b[..|b| - 1]);
      assert (a + b)[..|a + b| - 1] == a + b[..|b| - 1];
    }
  }

  /** The total is the first blog's likes plus the total of the rest. */
  lemma TotalLikesCons(p: Post, rest: seq<Post>)
    ensures TotalLikes([p] + rest) == p.likes + TotalLikes(rest)
  {
    TotalLikesAppend([p], rest);
  }

  /** The empty list has no likes; one blog has its own; 5, 10 and 7 give 22. */
  lemma TotalLikesExamples(p: Post, t: Option<string>, a: Option<string>, u: Option<string>)
    ensures TotalLikes([]) == 0
    ensures TotalLikes([p]) == p.likes
    ensures TotalLikes([Post(t, a, u, 5), Post(t, a, u, 10), Post(t, a, u, 7)]) == 22
  {
    var b := [Post(t, a, u, 5), Post(t, a, u, 10), Post(t, a, u, 7)];
    assert b[..2][..1] == [b[0]];
    assert b[..2] == [b[0], b[1]];
  }

  /* -------------------------------------------------------------- favoriteBlog */

  function Summary(p: Post): Favorite {
    Favorite(p.title, p.author, p.likes)
  }

  /** `favoriteBlog`: null for an empty list; otherwise the `{title, author, likes}`
      of the blog with the most likes, the earliest one on a tie. */
  function FavoriteBlog(blogs: seq<Post>): (r: Option<Favorite>)
    ensures r.None? <==> |blogs| == 0
    ensures r.Some? ==> forall j :: 0 <= j < |blogs| ==> blogs[j].likes <= r.value.likes
    ensures r.Some? ==>
              exists i :: 0 <= i < |blogs| && r.value == Summary(blogs[i])
                          && forall j :: 0 <= j < i ==> blogs[j].likes < blogs[i].likes
  {
    if |blogs| == 0 then None
    else
      // the reduce starts from blogs[0] and visits every blog, blogs[0] included
      Extremum.ScanFindsFirstMax(blogs, Likes, 0, 0);
      var favorite := Extremum.Scan(blogs[0], blogs, Likes);
      Some(Summary(favorite))
  }

  /** The favourite is determined by the first maximal blog, whichever way it is found. */
  lemma FavoriteIsFirstMax(blogs: seq<Post>, i: int)
    requires Extremum.IsFirstMax(blogs, Likes, i)
    ensures FavoriteBlog(blogs) == Some(Summary(blogs[i]))
  {
    var r := FavoriteBlog(blogs);
    var k :| 0 <= k < |blogs| && r.value == Summary(blogs[k])
             && forall j :: 0 <= j < k ==> blogs[j].likes < blogs[k].likes;
    assert Extremum.IsFirstMax(blogs, Likes, k);
    Extremum.FirstMaxUnique(blogs, Likes, i, k);
  }

  /* ------------------------------------------------------------------ grouping */

  /** lodash `groupBy(blogs, 'author')` keys by the property's string value:
      a missing author becomes the key "undefined". */
  function Key(p: Post): (r: string)
    ensures p.author.Some? ==> r == p.author.value
    ensures r == "undefined" <==> p.author.None? || p.author == Some("undefined")
  {
    match p.author
    case None => "undefined"
    case Some(a) => a
  }

  /** `s` has no repeated element. */
  predicate Distinct(s: seq<string>) {
    forall i, j :: 0 <= i < j < |s| ==> s[i] != s[j]
  }

  /** The authors in order of first appearance: the order in which `groupBy`
      creates its keys. */
  function GroupKeys(posts: seq<Post>): (r: seq<string>)
    ensures Distinct(r)
    ensures forall k :: k in r <==> exists i :: 0 <= i < |posts| && Key(posts[i]) == k
  {
    if |posts| == 0 then []
    else
      var init := posts[..|posts| - 1];
      var k := Key(posts[|posts| - 1]);
      var before := GroupKeys(init);
      assert forall i :: 0 <= i < |init| ==> init[i] == posts[i];
      if k in before then before else before + [k]
  }

  /** The blogs whose author key is exactly `k`, in input order: one group of `groupBy`. */
  function Group(posts: seq<Post>, k: string): (r: seq<Post>)
    ensures forall p :: p in r <==> p in posts && Key(p) == k
    ensures |r| <= |posts|
  {
    if |posts| == 0 then []
    else
      var init := posts[..|posts| - 1];
      var last := posts[|posts| - 1];
      assert posts == init + [last];
      if Key(last) == k then Group(init, k) + [last] else Group(init, k)
  }

  /** A key that no blog carries has an empty group. */
  lemma {:induction false} GroupOfNonKey(posts: seq<Post>, k: string)
    requires k !in GroupKeys(posts)
    ensures Group(posts, k) == []
  {
    if |posts| > 0 {
      var init := posts[..|posts| - 1];
      assert Key(posts[|posts| - 1]) != k;
      assert forall i :: 0 <= i < |init| ==> init[i] == posts[i];
      GroupOfNonKey(init, k);
    }
  }

  /** The position of the first blog whose author key is `k`, or `|posts|` when none is. */
  function FirstAt(posts: seq<Post>, k: string): (r: nat)
    ensures r <= |posts|
    ensures r < |posts| ==> Key(posts[r]) == k
    ensures forall i :: 0 <= i < r ==> Key(posts[i]) != k
  {
    if |posts| == 0 then 0
    else if Key(posts[0]) == k then 0
    else 1 + FirstAt(posts[1..], k)
  }

  /** Appending a blog moves no key's first appearance, and gives a new key its own. */
  lemma FirstAtAppend(s: seq<Post>, x: Post, k: string)
    ensures FirstAt(s + [x], k) == if FirstAt(s, k) < |s| || Key(x) == k then FirstAt(s, k) else |s| + 1
  {
    assert forall i :: 0 <= i < |s| ==> (s + [x])[i] == s[i];
    assert (s + [x])[|s|] == x;
  }

  /** `groupBy` creates the keys in order of first appearance: every key is carried by
      some blog, and a key listed earlier first appears earlier. */
  lemma {:induction false} GroupKeysOrder(posts: seq<Post>)
    ensures forall i :: 0 <= i < |GroupKeys(posts)| ==> FirstAt(posts, GroupKeys(posts)[i]) < |posts|
    ensures forall i, j :: 0 <= i < j < |GroupKeys(posts)| ==>
              FirstAt(posts, GroupKeys(posts)[i]) < FirstAt(posts, GroupKeys(posts)[j])
  {
    if |posts| > 0 {
      var s := posts[..|posts| - 1];
      var x := posts[|posts| - 1];
      assert posts == s + [x];
      GroupKeysOrder(s);
      var before := GroupKeys(s);
      FirstAtKept(s, x, before);
      if Key(x) !in before {
        FirstAtNewKey(s, x);
        var r := GroupKeys(posts);
        assert r == before + [Key(x)];
        assert forall i :: 0 <= i < |before| ==> r[i] == before[i];
      }
    }
  }

  /** Keys that already appeared keep their first position when a blog is appended. */
  lemma FirstAtKept(s: seq<Post>, x: Post, ks: seq<string>)
    requires forall i :: 0 <= i < |ks| ==> FirstAt(s, ks[i]) < |s|
    ensures forall i :: 0 <= i < |ks| ==> FirstAt(s + [x], ks[i]) == FirstAt(s, ks[i])
  {
    forall i | 0 <= i < |ks| ensures FirstAt(s + [x], ks[i]) == FirstAt(s, ks[i]) {
      FirstAtAppend(s, x, ks[i]);
    }
  }

  /** A key first carried by the appended blog first appears at the end. */
  lemma FirstAtNewKey(s: seq<Post>, x: Post)
    requires Key(x) !in GroupKeys(s)
    ensures FirstAt(s + [x], Key(x)) == |s|
  {
    assert forall i :: 0 <= i < |s| ==> Key(s[i]) != Key(x);
    FirstAtAppend(s, x, Key(x));
  }

  /** The blogs whose author key is `k`, read front to back: a reference for `Group`,
      which reads the list back to front. */
  function Filter(posts: seq<Post>, k: string): seq<Post> {
    if |posts| == 0 then []
    else (if Key(posts[0]) == k then [posts[0]] else []) + Filter(posts[1..], k)
  }

  lemma {:induction false} FilterAppend(s: seq<Post>, x: Post, k: string)
    ensures Filter(s + [x], k) == Filter(s, k) + (if Key(x) == k then [x] else [])
  {
    var tail := if Key(x) == k then [x] else [];
    if |s| == 0 {
      assert s + [x] == [x];
      assert Filter([x], k) == tail + Filter([], k);
    } else {
      var h := if Key(s[0]) == k then [s[0]] else [];
      assert (s + [x])[0] == s[0];
      assert (s + [x])[1..] == s[1..] + [x];
      FilterAppend(s[1..], x, k);
      assert Filter(s + [x], k) == h + (Filter(s[1..], k) + tail);
      assert h + (Filter(s[1..], k) + tail) == (h + Filter(s[1..], k)) + tail;
    }
  }

  /** A group is the list filtered by author key, order kept: each blog of that author
      appears in it as often as in the list, in the same order. */
  lemma {:induction false} GroupIsFilter(posts: seq<Post>, k: string)
    ensures Group(posts, k) == Filter(posts, k)
  {
    if |posts| > 0 {
      var s := posts[..|posts| - 1];
      var x := posts[|posts| - 1];
      assert posts == s + [x];
      GroupIsFilter(s, k);
      FilterAppend(s, x, k);
    }
  }

  /** A blog occurs in its author's group exactly as often as in the list, and in no
      other group. */
  lemma {:induction false} GroupMultiplicity(posts: seq<Post>, k: string, p: Post)
    ensures multiset(Group(posts, k))[p] == if Key(p) == k then multiset(posts)[p] else 0
  {
    if |posts| > 0 {
      var s := posts[..|posts| - 1];
      var x := posts[|posts| - 1];
      assert posts == s + [x];
      GroupMultiplicity(s, k, p);
    }
  }

  /** The order `Object.entries` lists the mapped groups in: `groupBy` creates the keys
      by first appearance, `mapValues` re-creates them in the object's listing order,
      and `Object.entries` lists that object's keys. */
  function Listing(posts: seq<Post>): (r: seq<string>)
    ensures r == PropertyOrder.OwnKeys(GroupKeys(posts))
  {
    PropertyOrder.OwnKeysIdempotent(GroupKeys(posts));
    PropertyOrder.OwnKeys(PropertyOrder.OwnKeys(GroupKeys(posts)))
  }

  /** The listing holds exactly the authors. */
  lemma ListingMembers(posts: seq<Post>, k: string)
    ensures k in Listing(posts) <==> k in GroupKeys(posts)
  {
    PropertyOrder.OwnKeysMembers(PropertyOrder.OwnKeys(GroupKeys(posts)), k);
    PropertyOrder.OwnKeysMembers(GroupKeys(posts), k);
  }

  /** `Object.entries(_.mapValues(_.groupBy(posts, 'author'), f))`. */
  function Entries(posts: seq<Post>, f: seq<Post> -> int): (r: seq<Entry>)
    ensures |r| == |Listing(posts)|
    ensures forall i :: 0 <= i < |r| ==> r[i] == Entry(Listing(posts)[i], f(Group(posts, Listing(posts)[i])))
  {
    var ks := Listing(posts);
    seq(|ks|, i requires 0 <= i < |ks| => Entry(ks[i], f(Group(posts, ks[i]))))
  }

  /** `_.maxBy(Object.entries(...), ([, v]) => v)` for a non-empty list: the author whose
      group value is greatest, the first in listing order on a tie. */
  function TopEntry(posts: seq<Post>, f: seq<Post> -> int): (r: Option<Entry>)
    ensures r.None? <==> |posts| == 0
    ensures r.Some? ==> r.value.key in GroupKeys(posts) && r.value.value == f(Group(posts, r.value.key))
    ensures r.Some? ==> forall k :: k in GroupKeys(posts) ==> f(Group(posts, k)) <= r.value.value
    ensures r.Some? ==>
              exists i :: 0 <= i < |Listing(posts)| && Listing(posts)[i] == r.value.key
                          && forall j :: 0 <= j < i ==> f(Group(posts, Listing(posts)[j])) < r.value.value
  {
    if |posts| == 0 then None
    else
      ListingMembers(posts, Key(posts[0]));
      var es := Entries(posts, f);
      var top := Extremum.MaxBy(es, Value);
      var i :| Extremum.IsFirstMax(es, Value, i) && top.value == es[i];
      FirstMaxEntry(posts, f, i);
      top
  }

  /** What the first maximal entry of the listing says about the groups. */
  lemma FirstMaxEntry(posts: seq<Post>, f: seq<Post> -> int, i: int)
    requires Extremum.IsFirstMax(Entries(posts, f), Value, i)
    ensures var e := Entries(posts, f)[i];
            && 0 <= i < |Listing(posts)| && Listing(posts)[i] == e.key
            && e.key in GroupKeys(posts) && e.value == f(Group(posts, e.key))
            && (forall k :: k in GroupKeys(posts) ==> f(Group(posts, k)) <= e.value)
            && (forall j :: 0 <= j < i ==> f(Group(posts, Listing(posts)[j])) < e.value)
  {
    var es := Entries(posts, f);
    var ks := Listing(posts);
    ListingMembers(posts, es[i].key);
    forall k | k in GroupKeys(posts)
      ensures f(Group(posts, k)) <= es[i].value
    {
      ListingMembers(posts, k);
      var j :| 0 <= j < |ks| && ks[j] == k;
      assert Value(es[j]) <= Value(es[i]);
    }
    forall j | 0 <= j < i
      ensures f(Group(posts, ks[j])) < es[i].value
    {
      assert Value(es[j]) < Value(es[i]);
    }
  }

  /** Appending a blog adds it to its own author's group and to no other. */
  lemma GroupAppend(s: seq<Post>, x: Post, k: string)
    ensures Group(s + [x], k) == if Key(x) == k then Group(s, k) + [x] else Group(s, k)
  {
    assert (s + [x])[..|s|] == s;
  }

  /** `f` summed over the groups of the authors `ks`. */
  function SumOverGroups(posts: seq<Post>, ks: seq<string>, f: seq<Post> -> int): int {
    if |ks| == 0 then 0
    else SumOverGroups(posts, ks[..|ks| - 1], f) + f(Group(posts, ks[|ks| - 1]))
  }

  lemma {:induction false} SumOverGroupsStep(s: seq<Post>, x: Post, ks: seq<string>, f: seq<Post> -> int, d: int)
    requires Distinct(ks)
    requires forall k :: f(Group(s + [x], k)) == f(Group(s, k)) + (if Key(x) == k then d else 0)
    ensures SumOverGroups(s + [x], ks, f) == SumOverGroups(s, ks, f) + (if Key(x) in ks then d else 0)
  {
    if |ks| > 0 {
      var init := ks[..|ks| - 1];
      assert ks == init + [ks[|ks| - 1]];
      SumOverGroupsStep(s, x, init, f, d);
    }
  }

  /** For a measure that adds up blog by blog (size, total likes), the measures of the
      author groups add up to the measure of the whole list: every blog lies in exactly
      one group. */
  lemma {:induction false} GroupsPartition(posts: seq<Post>, f: seq<Post> -> int, w: Post -> int)
    requires f([]) == 0
    requires forall g: seq<Post>, x: Post :: f(g + [x]) == f(g) + w(x)
    ensures SumOverGroups(posts, GroupKeys(posts), f) == f(posts)
  {
    if |posts| > 0 {
      var s := posts[..|posts| - 1];
      var x := posts[|posts| - 1];
      assert posts == s + [x];
      GroupsPartition(s, f, w);
      GroupMeasureStep(s, x, f, w);
      SumOverGroupsStep(s, x, GroupKeys(s), f, w(x));
      if Key(x) !in GroupKeys(s) {
        var ks := GroupKeys(s) + [Key(x)];
        assert ks[..|ks| - 1] == GroupKeys(s);
        GroupOfNonKey(s, Key(x));
      }
    }
  }

  /** Appending a blog adds its measure to its own author's group measure only. */
  lemma GroupMeasureStep(s: seq<Post>, x: Post, f: seq<Post> -> int, w: Post -> int)
    requires f([]) == 0
    requires forall g: seq<Post>, x: Post :: f(g + [x]) == f(g) + w(x)
    ensures forall k :: f(Group(s + [x], k)) == f(Group(s, k)) + (if Key(x) == k then w(x) else 0)
  {
    forall k ensures f(Group(s + [x], k)) == f(Group(s, k)) + (if Key(x) == k then w(x) else 0) {
      GroupAppend(s, x, k);
    }
  }

  /** Group sizes add up to the number of blogs. */
  lemma GroupSizesSum(blogs: seq<Post>)
    ensures SumOverGroups(blogs, GroupKeys(blogs), Size) == |blogs|
  {
    GroupsPartition(blogs, Size, One);
  }

  /** The authors' like totals add up to the total likes of the list. */
  lemma GroupLikesSum(blogs: seq<Post>)
    ensures SumOverGroups(blogs, GroupKeys(blogs), TotalLikes) == TotalLikes(blogs)
  {
    forall g: seq<Post>, x: Post ensures TotalLikes(g + [x]) == TotalLikes(g) + Likes(x) {
      assert (g + [x])[..|g|] == g;
    }
    GroupsPartition(blogs, TotalLikes, Likes);
  }

  /* ----------------------------------------------------------------- mostBlogs */

  /** `mostBlogs`: null for an empty list; otherwise the author with the most blogs and
      that number, the first such author in listing order on a tie. */
  function MostBlogs(blogs: seq<Post>): (r: Option<AuthorBlogs>)
    ensures r.None? <==> |blogs| == 0
    ensures r.Some? ==> r.value.author in GroupKeys(blogs) && r.value.blogs == |Group(blogs, r.value.author)|
    ensures r.Some? ==> forall a :: |Group(blogs, a)| <= r.value.blogs
    ensures r.Some? ==>
              exists i :: 0 <= i < |Listing(blogs)| && Listing(blogs)[i] == r.value.author
                          && forall j :: 0 <= j < i ==> |Group(blogs, Listing(blogs)[j])| < r.value.blogs
  {
    match TopEntry(blogs, Size)
    case None => None
    case Some(e) =>
      forall a ensures |Group(blogs, a)| <= e.value {
        if a !in GroupKeys(blogs) { GroupOfNonKey(blogs, a); }
      }
      Some(AuthorBlogs(e.key, e.value))
  }

  /* ----------------------------------------------------------------- mostLikes */

  /** `mostLikes`: null for an empty list; otherwise the author whose blogs have the most
      likes in total and that total, the first such author in listing order on a tie.
      lodash `sumBy(group, 'likes')` adds the same numbers as TotalLikes. */
  function MostLikes(blogs: seq<Post>): (r: Option<AuthorLikes>)
    ensures r.None? <==> |blogs| == 0
    ensures r.Some? ==> r.value.author in GroupKeys(blogs) && r.value.likes == TotalLikes(Group(blogs, r.value.author))
    ensures r.Some? ==> forall a :: a in GroupKeys(blogs) ==> TotalLikes(Group(blogs, a)) <= r.value.likes
    ensures r.Some? ==>
              exists i :: 0 <= i < |Listing(blogs)| && Listing(blogs)[i] == r.value.author
                          && forall j :: 0 <= j < i ==> TotalLikes(Group(blogs, Listing(blogs)[j])) < r.value.likes
  {
    match TopEntry(blogs, TotalLikes)
    case None => None
    case Some(e) => Some(AuthorLikes(e.key, e.value))
  }

  /* ------------------------------------------------------------------ examples */

  /** Ties go to the earliest blog: of two blogs with 7 likes the first is the favourite. */
  lemma FavoriteTieExample(a: Post, b: Post)
    requires a.likes == b.likes
    ensures FavoriteBlog([a, b]) == Some(Summary(a))
  {
    FavoriteIsFirstMax([a, b], 0);
  }

  /** When the first listed author has as many blogs as any author, that author is
      `mostBlogs`'s answer. */
  lemma MostBlogsFirstListed(blogs: seq<Post>)
    requires |blogs| > 0
    requires var ks := Listing(blogs); |ks| > 0 && forall j :: 0 <= j < |ks| ==> |Group(blogs, ks[j])| <= |Group(blogs, ks[0])|
    ensures var k := Listing(blogs)[0]; MostBlogs(blogs) == Some(AuthorBlogs(k, |Group(blogs, k)|))
  {
    var ks := Listing(blogs);
    var r := MostBlogs(blogs).value;
    var i :| 0 <= i < |ks| && ks[i] == r.author
             && forall j :: 0 <= j < i ==> |Group(blogs, ks[j])| < r.blogs;
    // the chosen author has no more blogs than the first listed one, so no earlier
    // author can have strictly fewer: the choice is the first
    assert r.blogs == |Group(blogs, ks[i])| <= |Group(blogs, ks[0])|;
    assert i == 0;
  }

  /** With two authors with equally many blogs, the one listed first is `mostBlogs`'s answer. */
  lemma MostBlogsTwoTied(blogs: seq<Post>, a: string, b: string)
    requires |blogs| > 0 && Listing(blogs) == [a, b] && |Group(blogs, a)| == |Group(blogs, b)|
    ensures MostBlogs(blogs) == Some(AuthorBlogs(a, |Group(blogs, a)|))
  {
    MostBlogsFirstListed(blogs);
  }

  /** Tied authors in first-appearance order: "Ann" wrote first, so "Ann" wins. */
  lemma MostBlogsTieExample(posts: seq<Post>)
    requires |posts| == 2 && posts[0].author == Some("Ann") && posts[1].author == Some("Bob")
    ensures MostBlogs(posts) == Some(AuthorBlogs("Ann", 1))
  {
    PlainKeyGroups(posts);
    MostBlogsTwoTied(posts, "Ann", "Bob");
  }

  lemma PlainKeyGroups(posts: seq<Post>)
    requires |posts| == 2 && posts[0].author == Some("Ann") && posts[1].author == Some("Bob")
    ensures Listing(posts) == ["Ann", "Bob"]
    ensures |Group(posts, "Ann")| == 1 && |Group(posts, "Bob")| == 1
  {
    assert GroupKeys(posts) == ["Ann", "Bob"] by {
      assert posts[..1] == [posts[0]];
      assert [posts[0]][..0] == [];
      assert GroupKeys([posts[0]]) == ["Ann"];
    }
    assert Group(posts, "Ann") == [posts[0]] && Group(posts, "Bob") == [posts[1]] by {
      assert posts[..1] == [posts[0]];
      assert [posts[0]][..0] == [];
    }
    assert PropertyOrder.OwnKeys(["Ann", "Bob"]) == ["Ann", "Bob"] by {
      assert "Ann"[0] == 'A' && "Bob"[0] == 'B';
      PropertyOrder.OwnKeysPlain(["Ann", "Bob"]);
    }
  }

  /** An author whose name is an array index ("7") is listed before the others, so it
      wins a tie even though "Zoe" wrote first. */
  lemma MostBlogsIndexKeyExample(posts: seq<Post>)
    requires |posts| == 2 && posts[0].author == Some("Zoe") && posts[1].author == Some("7")
    ensures MostBlogs(posts) == Some(AuthorBlogs("7", 1))
  {
    IndexKeyGroups(posts);
    MostBlogsTwoTied(posts, "7", "Zoe");
  }

  lemma IndexKeyGroups(posts: seq<Post>)
    requires |posts| == 2 && posts[0].author == Some("Zoe") && posts[1].author == Some("7")
    ensures Listing(posts) == ["7", "Zoe"]
    ensures |Group(posts, "7")| == 1 && |Group(posts, "Zoe")| == 1
  {
    assert GroupKeys(posts) == ["Zoe", "7"] by {
      assert posts[..1] == [posts[0]];
      assert [posts[0]][..0] == [];
      assert GroupKeys([posts[0]]) == ["Zoe"];
    }
    assert Group(posts, "Zoe") == [posts[0]] && Group(posts, "7") == [posts[1]] by {
      assert posts[..1] == [posts[0]];
      assert [posts[0]][..0] == [];
    }
    assert PropertyOrder.OwnKeys(PropertyOrder.OwnKeys(["Zoe", "7"])) == ["7", "Zoe"] by {
      PropertyOrder.IndexKeyFirstExample();
      PropertyOrder.OwnKeysIdempotent(["Zoe", "7"]);
    }
  }
}
