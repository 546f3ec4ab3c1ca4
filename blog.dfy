/** The article loader: slug normalisation, requested-field projection of one
    article, and the date-descending collection of all articles.

    The articles directory is abstracted as a map from file name to the
    already-split file (front matter and markdown body); the directory
    listing is an input sequence of file names. */
module Blog {
  import opened Js

  /** One article file after the front matter has been split off. */
  datatype Article = Article(frontMatter: map<string, string>, body: string)

  /** The articles directory: file name to parsed file. */
  type Store = map<string, Article>

  /** What the loader returns for one article: field name to value. */
  type PostData = map<string, string>

  datatype LoadError = ArticleNotFound(path: string)

  predicate EndsWithMd(s: string)
  {
    |s| >= 3 && s[|s| - 3..] == ".md"
  }

  /** `slug.replace(/\.md$/, '')`: drops one trailing `.md`, if any. */
  function RealSlug(slug: string): string
  {
    if EndsWithMd(slug) then slug[..|slug| - 3] else slug
  }

  /** The file read for a slug. */
  function FilePath(slug: string): string
  {
    RealSlug(slug) + ".md"
  }

  /** Appending `.md` and normalising gives the slug back, whatever it is. */
  lemma RealSlugRoundTrip(s: string)
    ensures RealSlug(s + ".md") == s
  {
    assert (s + ".md")[..|s|] == s;
  }

  /** Only a single trailing `.md` is removed; the file read always ends in
      `.md` and names the same file whether or not the slug carried it. */
  lemma RealSlugStripsOnce(s: string)
    ensures EndsWithMd(s) ==> RealSlug(s) + ".md" == s
    ensures !EndsWithMd(s) ==> RealSlug(s) == s
    ensures FilePath(s + ".md") == s + ".md"
    ensures EndsWithMd(FilePath(s))
  {
    RealSlugRoundTrip(s);
    if EndsWithMd(s) {
      assert s == s[..|s| - 3] + s[|s| - 3..];
    }
    var p := FilePath(s);
    assert p[|p| - 3..] == ".md";
  }

  lemma RealSlugExamples()
    ensures RealSlug("a") == "a"
    ensures RealSlug("a.md") == "a"
    ensures RealSlug("a.md.md") == "a.md"
  {
    RealSlugRoundTrip("a");
    RealSlugRoundTrip("a.md");
  }

  /** The value one requested field receives, if any. The front-matter check
      runs last, so a truthy front-matter value wins over `slug` and
      `content`; a falsy one is never stored. */
  function Resolve(realSlug: string, a: Article, field: string): Option<string>
  {
    if field in a.frontMatter && Truthy(a.frontMatter[field]) then Some(a.frontMatter[field])
    else if field == "slug" then Some(realSlug)
    else if field == "content" then Some(a.body)
    else None
  }

  /** The declarative reading of the field loop: every requested field that
      resolves, with its value. */
  function Projection(realSlug: string, a: Article, fields: seq<string>): PostData
  {
    map f | f in fields && Resolve(realSlug, a, f).Some? :: Resolve(realSlug, a, f).value
  }

  /** `getPostBySlug` as a value: throws when the file is missing. */
  function LoadPost(store: Store, slug: string, fields: seq<string>): Result<PostData, LoadError>
  {
    if FilePath(slug) in store then Ok(Projection(RealSlug(slug), store[FilePath(slug)], fields))
    else Err(ArticleNotFound(FilePath(slug)))
  }

  /** Adding one field to the list changes the projection at that field only. */
  lemma ProjectionSnoc(realSlug: string, a: Article, fields: seq<string>, f: string)
    ensures Projection(realSlug, a, fields + [f]) ==
      if Resolve(realSlug, a, f).Some? then Projection(realSlug, a, fields)[f := Resolve(realSlug, a, f).value]
      else Projection(realSlug, a, fields)
  {
    var p, q := Projection(realSlug, a, fields + [f]), Projection(realSlug, a, fields);
    if Resolve(realSlug, a, f).Some? {
      assert p.Keys == q.Keys + {f};
    } else {
      assert p.Keys == q.Keys;
    }
  }

  /** `getPostBySlug(slug, fields)`: reads the file of the normalised slug and
      fills the result field by field, as the `forEach` does. */
  method GetPostBySlug(store: Store, slug: string, fields: seq<string>) returns (r: Result<PostData, LoadError>)
    ensures r == LoadPost(store, slug, fields)
  {
    var realSlug := RealSlug(slug);
    var fullPath := realSlug + ".md";
    if fullPath !in store {
      return Err(ArticleNotFound(fullPath));
    }
    var article := store[fullPath];
    var data, content := article.frontMatter, article.body;
    var items: PostData := map[];
    var i := 0;
    while i < |fields|
      invariant 0 <= i <= |fields|
      invariant items == Projection(realSlug, article, fields[..i])
    {
      var field := fields[i];
      if field == "slug" {
        items := items[field := realSlug];
      }
      if field == "content" {
        items := items[field := content];
      }
      if field in data && Truthy(data[field]) {
        items := items[field := data[field]];
      }
      ProjectionSnoc(realSlug, article, fields[..i], field);
      assert fields[..i + 1] == fields[..i] + [field];
      i := i + 1;
    }
    assert fields[..i] == fields;
    return Ok(items);
  }

  /** What the loader promises about one article: the error case, only
      requested keys, and the precedence of the three checks. */
  lemma LoadPostContract(store: Store, slug: string, fields: seq<string>)
    ensures LoadPost(store, slug, fields).Err? <==> FilePath(slug) !in store
    ensures LoadPost(store, slug, fields).Ok? ==>
      var p, a := LoadPost(store, slug, fields).value, store[FilePath(slug)];
      && (forall k :: k in p ==> k in fields)
      && ("slug" in fields ==>
            && "slug" in p
            && p["slug"] == if "slug" in a.frontMatter && Truthy(a.frontMatter["slug"]) then a.frontMatter["slug"] else RealSlug(slug))
      && ("content" in fields ==>
            && "content" in p
            && p["content"] == if "content" in a.frontMatter && Truthy(a.frontMatter["content"]) then a.frontMatter["content"] else a.body)
      && (forall f :: f in fields && f != "slug" && f != "content" ==>
            (f in p <==> f in a.frontMatter && Truthy(a.frontMatter[f])) && (f in p ==> p[f] == a.frontMatter[f]))
  {
  }

  /** Duplicates and order in the field list do not matter. */
  lemma ProjectionIgnoresOrder(realSlug: string, a: Article, fields1: seq<string>, fields2: seq<string>)
    requires forall f :: f in fields1 <==> f in fields2
    ensures Projection(realSlug, a, fields1) == Projection(realSlug, a, fields2)
  {
  }

  /** Every stored value other than `slug` and `content` is non-empty; in
      particular a present `date` is never the empty string. */
  lemma ProjectionOtherValuesTruthy(realSlug: string, a: Article, fields: seq<string>, k: string)
    requires k in Projection(realSlug, a, fields) && k != "slug" && k != "content"
    ensures Truthy(Projection(realSlug, a, fields)[k])
  {
  }

  /** Entry `i` is the first whose file is missing. */
  ghost predicate FirstFailure(store: Store, slugs: seq<string>, fields: seq<string>, i: int)
  {
    && 0 <= i < |slugs|
    && LoadPost(store, slugs[i], fields).Err?
    && forall j :: 0 <= j < i ==> LoadPost(store, slugs[j], fields).Ok?
  }

  /** Loads every listed slug in order, as the `map` in `getAllPosts` does;
      the first slug whose file is missing throws. */
  function LoadEach(store: Store, slugs: seq<string>, fields: seq<string>): (r: Result<seq<PostData>, LoadError>)
    ensures r.Ok? <==> forall i :: 0 <= i < |slugs| ==> LoadPost(store, slugs[i], fields).Ok?
    ensures r.Ok? ==> |r.value| == |slugs|
    ensures r.Ok? ==> forall i :: 0 <= i < |slugs| ==> LoadPost(store, slugs[i], fields) == Ok(r.value[i])
    ensures r.Err? ==> exists i :: FirstFailure(store, slugs, fields, i) && LoadPost(store, slugs[i], fields) == Err(r.error)
    decreases |slugs|
  {
    if slugs == [] then Ok([])
    else
      match LoadPost(store, slugs[0], fields)
      case Err(e) => Err(e)
      case Ok(p) =>
        match LoadEach(store, slugs[1..], fields)
        case Err(e) =>
          assert forall j :: 0 <= j < |slugs[1..]| ==> slugs[1..][j] == slugs[j + 1];
          Err(e)
        case Ok(ps) => Ok([p] + ps)
  }

  /** The sort key: `post.date ?? ''`. */
  function DateKey(p: PostData): string
  {
    if "date" in p then p["date"] else ""
  }

  /** No later post has a later date than an earlier one. */
  ghost predicate DateDescending(s: seq<PostData>)
  {
    forall i, j :: 0 <= i < j < |s| ==> !Less(DateKey(s[i]), DateKey(s[j]))
  }

  /** Places `p` into a date-descending sequence: before the first post whose
      date is lower (the comparator puts `post1` first when its date is
      greater, and after otherwise). */
  function InsertByDate(p: PostData, s: seq<PostData>): (r: seq<PostData>)
    ensures multiset(r) == multiset(s) + multiset{p}
    decreases |s|
  {
    if s == [] then [p]
    else if Less(DateKey(s[0]), DateKey(p)) then [p] + s
    else
      assert s == [s[0]] + s[1..];
      [s[0]] + InsertByDate(p, s[1..])
  }

  /** Inserting into a date-descending sequence keeps it date-descending. */
  lemma {:induction false} InsertByDateKeepsOrder(p: PostData, s: seq<PostData>)
    requires DateDescending(s)
    ensures DateDescending(InsertByDate(p, s))
    decreases |s|
  {
    if s == [] {
    } else if Less(DateKey(s[0]), DateKey(p)) {
      InsertFrontKeepsOrder(p, s);
    } else {
      DescendingTail(s);
      InsertByDateKeepsOrder(p, s[1..]);
      InsertBehindHeadKeepsOrder(p, s, InsertByDate(p, s[1..]));
    }
  }

  lemma DescendingTail(s: seq<PostData>)
    requires DateDescending(s) && s != []
    ensures DateDescending(s[1..])
  {
    forall i, j | 0 <= i < j < |s| - 1
      ensures !Less(DateKey(s[1..][i]), DateKey(s[1..][j]))
    {
      assert s[1..][i] == s[i + 1] && s[1..][j] == s[j + 1];
    }
  }

  lemma InsertFrontKeepsOrder(p: PostData, s: seq<PostData>)
    requires DateDescending(s) && s != [] && Less(DateKey(s[0]), DateKey(p))
    ensures DateDescending([p] + s)
  {
    forall j | 0 <= j < |s|
      ensures !Less(DateKey(p), DateKey(s[j]))
    {
      if Less(DateKey(p), DateKey(s[j])) {
        LessTransitive(DateKey(s[0]), DateKey(p), DateKey(s[j]));
        LessIrreflexive(DateKey(s[0]));
      }
    }
  }

  lemma InsertBehindHeadKeepsOrder(p: PostData, s: seq<PostData>, rest: seq<PostData>)
    requires DateDescending(s) && s != [] && !Less(DateKey(s[0]), DateKey(p))
    requires DateDescending(rest) && multiset(rest) == multiset(s[1..]) + multiset{p}
    ensures DateDescending([s[0]] + rest)
  {
    forall k | 0 <= k < |rest|
      ensures !Less(DateKey(s[0]), DateKey(rest[k]))
    {
      assert rest[k] in multiset(rest);
      if rest[k] != p {
        assert rest[k] in multiset(s[1..]);
        var m :| 0 <= m < |s[1..]| && s[1..][m] == rest[k];
        assert s[m + 1] == rest[k];
      }
    }
  }

  /** The date sort of `getAllPosts`: a post whose date key is greater comes
      first. The comparator answers 1 for equal dates both ways round, so the order of
      ties is left to the engine; this model keeps one such order. */
  function SortByDate(s: seq<PostData>): (r: seq<PostData>)
    ensures multiset(r) == multiset(s)
    ensures DateDescending(r)
    decreases |s|
  {
    if s == [] then []
    else
      assert s == [s[0]] + s[1..];
      var sorted := SortByDate(s[1..]);
      InsertByDateKeepsOrder(s[0], sorted);
      InsertByDate(s[0], sorted)
  }

  /** `getAllPosts(fields)` for the directory listing `listing`. */
  function GetAllPosts(store: Store, listing: seq<string>, fields: seq<string>): Result<seq<PostData>, LoadError>
  {
    match LoadEach(store, listing, fields)
    case Err(e) => Err(e)
    case Ok(posts) => Ok(SortByDate(posts))
  }

  /** One result per directory entry, each equal to that entry's
      `getPostBySlug`, in date-descending order. */
  lemma GetAllPostsContract(store: Store, listing: seq<string>, fields: seq<string>)
    ensures GetAllPosts(store, listing, fields).Ok? <==>
      forall i :: 0 <= i < |listing| ==> FilePath(listing[i]) in store
    ensures GetAllPosts(store, listing, fields).Ok? ==>
      var r := GetAllPosts(store, listing, fields).value;
      && |r| == |listing|
      && multiset(r) == multiset(seq(|listing|, i requires 0 <= i < |listing| => LoadPost(store, listing[i], fields).value))
      && DateDescending(r)
  {
    var e := LoadEach(store, listing, fields);
    if e.Ok? {
      var r := SortByDate(e.value);
      assert |r| == |multiset(r)| == |e.value|;
      assert e.value == seq(|listing|, i requires 0 <= i < |listing| => LoadPost(store, listing[i], fields).value);
    }
  }

  /** Undated posts come last: once a post has no `date`, no later post has one. */
  lemma {:induction false} UndatedPostsLast(store: Store, listing: seq<string>, fields: seq<string>, i: nat, j: nat)
    requires GetAllPosts(store, listing, fields).Ok?
    requires i < j < |GetAllPosts(store, listing, fields).value|
    requires "date" !in GetAllPosts(store, listing, fields).value[i]
    ensures "date" !in GetAllPosts(store, listing, fields).value[j]
  {
    var posts := LoadEach(store, listing, fields).value;
    var r := SortByDate(posts);
    assert r[j] in multiset(posts);
    var k :| 0 <= k < |posts| && posts[k] == r[j];
    var a := store[FilePath(listing[k])];
    if "date" in r[j] {
      ProjectionOtherValuesTruthy(RealSlug(listing[k]), a, fields, "date");
      EmptyIsLeast(DateKey(r[j]));
    }
  }

  /** Every collected post holds only requested keys, and holds `slug`
      whenever it was requested. */
  lemma GetAllPostsEntries(store: Store, listing: seq<string>, fields: seq<string>, p: PostData)
    requires GetAllPosts(store, listing, fields).Ok? && p in GetAllPosts(store, listing, fields).value
    ensures forall k :: k in p ==> k in fields
    ensures "slug" in fields ==> "slug" in p
  {
    var posts := LoadEach(store, listing, fields).value;
    assert GetAllPosts(store, listing, fields).value == SortByDate(posts);
    assert p in multiset(SortByDate(posts));
    assert p in multiset(posts);
    var i :| 0 <= i < |posts| && posts[i] == p;
    assert LoadPost(store, listing[i], fields) == Ok(p);
    LoadPostContract(store, listing[i], fields);
  }
}
