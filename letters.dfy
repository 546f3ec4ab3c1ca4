/** The letters page: which article fields it loads, the two featured
    letters, the all-letters list with its skip filter, and the letter count
    in the page description. */
module Letters {
  import opened Js
  import opened Blog

  /** Fields loaded for the all-letters list. */
  const AllPostsFields: seq<string> := ["date", "skip", "slug", "title"]

  /** Fields loaded for a featured letter. */
  const FeaturedParams: seq<string> := ["date", "slug", "title", "image", "content", "description"]

  /** The featured letters, in display order. */
  const FeaturedSlugs: seq<string> := ["test-unitaire-laravel", "honeypot-spam-protection"]

  datatype LettersProps = LettersProps(
    title: string,
    tagline: string,
    image: string,
    primaryColor: string,
    secondaryColor: string,
    featuredPosts: seq<PostData>,
    allPosts: seq<PostData>)

  /** `getStaticProps`: loads all posts, then the two featured ones directly
      (bypassing the sort); the first load that throws aborts the page. */
  function GetStaticProps(store: Store, listing: seq<string>): Result<LettersProps, LoadError>
  {
    match GetAllPosts(store, listing, AllPostsFields)
    case Err(e) => Err(e)
    case Ok(allPosts) =>
      match LoadPost(store, FeaturedSlugs[0], FeaturedParams)
      case Err(e) => Err(e)
      case Ok(first) =>
        match LoadPost(store, FeaturedSlugs[1], FeaturedParams)
        case Err(e) => Err(e)
        case Ok(second) =>
          Ok(LettersProps("Letters // Driss Nafii", "Stories. Updates. Guides.", "/static/images/articles-bw.jpg",
            "#ffff80", "#ff80bf", [first, second], allPosts))
  }

  /** The page builds exactly when every listed file and both featured files
      exist; the list has one entry per directory entry, date-descending,
      holding only the four list fields and always a slug; the featured
      posts are the two fixed slugs, in that order. */
  lemma GetStaticPropsContract(store: Store, listing: seq<string>)
    ensures GetStaticProps(store, listing).Ok? <==>
      && (forall i :: 0 <= i < |listing| ==> FilePath(listing[i]) in store)
      && FilePath(FeaturedSlugs[0]) in store
      && FilePath(FeaturedSlugs[1]) in store
    ensures GetStaticProps(store, listing).Ok? ==>
      var props := GetStaticProps(store, listing).value;
      && |props.allPosts| == |listing|
      && DateDescending(props.allPosts)
      && (forall p, k :: p in props.allPosts && k in p ==> k in AllPostsFields)
      && (forall p :: p in props.allPosts ==> "slug" in p)
      && props.featuredPosts == [
           LoadPost(store, FeaturedSlugs[0], FeaturedParams).value,
           LoadPost(store, FeaturedSlugs[1], FeaturedParams).value]
  {
    GetAllPostsContract(store, listing, AllPostsFields);
    LoadPostContract(store, FeaturedSlugs[0], FeaturedParams);
    LoadPostContract(store, FeaturedSlugs[1], FeaturedParams);
    if GetStaticProps(store, listing).Ok? {
      var all := GetStaticProps(store, listing).value.allPosts;
      forall p | p in all
        ensures (forall k :: k in p ==> k in AllPostsFields) && "slug" in p
      {
        GetAllPostsEntries(store, listing, AllPostsFields, p);
      }
    }
  }

  /** `${post.field}`: the value, or "undefined" when the key is missing. */
  function Interpolate(p: PostData, field: string): string
  {
    if field in p then p[field] else "undefined"
  }

  /** `post.field || ''`. */
  function OrEmpty(p: PostData, field: string): string
  {
    if field in p && Truthy(p[field]) then p[field] else ""
  }

  /** The article link: `/${post.slug}/`. */
  function Href(p: PostData): string
  {
    "/" + Interpolate(p, "slug") + "/"
  }

  datatype FeaturedArticle = FeaturedArticle(
    index: nat,
    href: string,
    title: string,
    description: string,
    image: string,
    content: string)

  /** `renderFeatured()`. */
  function RenderFeatured(posts: seq<PostData>): seq<FeaturedArticle>
  {
    seq(|posts|, i requires 0 <= i < |posts| =>
      FeaturedArticle(i, Href(posts[i]), OrEmpty(posts[i], "title"), OrEmpty(posts[i], "description"),
        OrEmpty(posts[i], "image"), OrEmpty(posts[i], "content")))
  }

  /** The front-matter value of a field when truthy, else the empty string. */
  function FrontMatterOrEmpty(a: Article, field: string): string
  {
    if field in a.frontMatter && Truthy(a.frontMatter[field]) then a.frontMatter[field] else ""
  }

  /** The card at position `i` when that post was loaded with the featured
      fields from article `a`. */
  lemma FeaturedCardOfProjection(posts: seq<PostData>, i: nat, realSlug: string, a: Article)
    requires i < |posts| && posts[i] == Projection(realSlug, a, FeaturedParams)
    ensures var card := RenderFeatured(posts)[i];
      && card.index == i
      && card.href == "/" + (if "slug" in a.frontMatter && Truthy(a.frontMatter["slug"])
                             then a.frontMatter["slug"] else realSlug) + "/"
      && card.title == FrontMatterOrEmpty(a, "title")
      && card.description == FrontMatterOrEmpty(a, "description")
      && card.image == FrontMatterOrEmpty(a, "image")
      && card.content == (if "content" in a.frontMatter && Truthy(a.frontMatter["content"])
                          then a.frontMatter["content"] else a.body)
  {
    assert "slug" in FeaturedParams && "content" in FeaturedParams;
    assert "title" in FeaturedParams && "description" in FeaturedParams && "image" in FeaturedParams;
  }

  lemma FeaturedPostLoaded(store: Store, listing: seq<string>, i: nat)
    requires GetStaticProps(store, listing).Ok? && i < 2
    ensures |GetStaticProps(store, listing).value.featuredPosts| == 2
    ensures GetStaticProps(store, listing).value.featuredPosts[i] ==
      Projection(RealSlug(FeaturedSlugs[i]), store[FilePath(FeaturedSlugs[i])], FeaturedParams)
  {
    GetStaticPropsContract(store, listing);
  }

  /** What a featured card shows, traced back to its file: the link is built
      from the slug (a truthy front-matter `slug` wins), `title`,
      `description` and `image` fall back to `''`, and `content` is the raw
      markdown body unless the front matter overrides it. */
  lemma FeaturedCardFromFile(store: Store, listing: seq<string>, i: nat)
    requires GetStaticProps(store, listing).Ok? && i < 2
    ensures |GetStaticProps(store, listing).value.featuredPosts| == 2
    ensures var card, a := RenderFeatured(GetStaticProps(store, listing).value.featuredPosts)[i],
                           store[FilePath(FeaturedSlugs[i])];
      && card.index == i
      && card.href == "/" + (if "slug" in a.frontMatter && Truthy(a.frontMatter["slug"])
                             then a.frontMatter["slug"] else RealSlug(FeaturedSlugs[i])) + "/"
      && card.title == FrontMatterOrEmpty(a, "title")
      && card.description == FrontMatterOrEmpty(a, "description")
      && card.image == FrontMatterOrEmpty(a, "image")
      && card.content == (if "content" in a.frontMatter && Truthy(a.frontMatter["content"])
                          then a.frontMatter["content"] else a.body)
  {
    FeaturedPostLoaded(store, listing, i);
    var posts := GetStaticProps(store, listing).value.featuredPosts;
    FeaturedCardOfProjection(posts, i, RealSlug(FeaturedSlugs[i]), store[FilePath(FeaturedSlugs[i])]);
  }

  /** One row of the all-letters list. */
  datatype ListItem = ListItem(index: nat, href: string, title: string, date: Option<string>)

  /** `if (!post.skip)`: a post is skipped when its `skip` value is truthy. */
  predicate Skipped(p: PostData)
  {
    "skip" in p && Truthy(p["skip"])
  }

  /** `renderAll()`: a row for each post not skipped, `null` for the others;
      the index is the position in the full list. */
  function RenderAll(posts: seq<PostData>): seq<Option<ListItem>>
  {
    seq(|posts|, i requires 0 <= i < |posts| =>
      if Skipped(posts[i]) then None
      else Some(ListItem(i, Href(posts[i]), OrEmpty(posts[i], "title"),
        if "date" in posts[i] then Some(posts[i]["date"]) else None)))
  }

  /** The rows React renders: the non-null children, in order. */
  function Shown(rows: seq<Option<ListItem>>): seq<ListItem>
    decreases |rows|
  {
    if rows == [] then []
    else
      var last := rows[|rows| - 1];
      Shown(rows[..|rows| - 1]) + (if last.Some? then [last.value] else [])
  }

  ghost predicate IndexedRows(rows: seq<Option<ListItem>>)
  {
    forall i :: 0 <= i < |rows| && rows[i].Some? ==> rows[i].value.index == i
  }

  /** Dropping the nulls keeps every row once, in increasing index order. */
  lemma {:induction false} ShownKeepsRowsInOrder(rows: seq<Option<ListItem>>)
    requires IndexedRows(rows)
    ensures forall k :: 0 <= k < |Shown(rows)| ==>
      Shown(rows)[k].index < |rows| && rows[Shown(rows)[k].index] == Some(Shown(rows)[k])
    ensures forall k1, k2 :: 0 <= k1 < k2 < |Shown(rows)| ==> Shown(rows)[k1].index < Shown(rows)[k2].index
    ensures forall i :: 0 <= i < |rows| && rows[i].Some? ==> rows[i].value in Shown(rows)
    decreases |rows|
  {
    if rows != [] {
      var n := |rows| - 1;
      var prefix := rows[..n];
      assert forall i :: 0 <= i < n ==> prefix[i] == rows[i];
      ShownKeepsRowsInOrder(prefix);
    }
  }

  /** The all-letters list shows exactly the posts that are not skipped,
      each linked to its slug, in the list's (date-descending) order, each
      indexed by its position in the full list. */
  lemma RenderAllContract(posts: seq<PostData>)
    ensures var shown := Shown(RenderAll(posts));
      && (forall k :: 0 <= k < |shown| ==>
            && shown[k].index < |posts|
            && !Skipped(posts[shown[k].index])
            && shown[k].href == Href(posts[shown[k].index]))
      && (forall k1, k2 :: 0 <= k1 < k2 < |shown| ==> shown[k1].index < shown[k2].index)
      && (forall i :: 0 <= i < |posts| && !Skipped(posts[i]) ==> exists k :: 0 <= k < |shown| && shown[k].index == i)
  {
    var rows := RenderAll(posts);
    ShownKeepsRowsInOrder(rows);
    var shown := Shown(rows);
    forall i | 0 <= i < |posts| && !Skipped(posts[i])
      ensures exists k :: 0 <= k < |shown| && shown[k].index == i
    {
      var k :| 0 <= k < |shown| && shown[k] == rows[i].value;
    }
  }

  function DescriptionText(count: nat): string
  {
    "Here you can find all the <strong>" + Decimal(count)
    + " letters</strong> I wrote. You can read about web development, software engineering, "
    + "and tech career in both English and Portuguese."
  }

  /** The description's count: `allPosts.length`. */
  function Description(props: LettersProps): string
  {
    DescriptionText(|props.allPosts|)
  }

  /** The count in the description is the number of directory entries,
      skipped letters included. */
  lemma DescriptionCountsEveryFile(store: Store, listing: seq<string>)
    requires GetStaticProps(store, listing).Ok?
    ensures Description(GetStaticProps(store, listing).value) == DescriptionText(|listing|)
  {
    GetStaticPropsContract(store, listing);
  }
}
