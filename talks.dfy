/** The list logic of the talks page: the featured selection (first matching
    talk per year), the talk total and the count in the page description. */
module Talks {
  import opened Js

  datatype Presentation = Presentation(title: string, url: string, video: Option<string>)

  datatype Talk = Talk(
    title: string,
    url: string,
    cover: string,
    date: string,
    location: string, // the `where` field
    attendees: Option<string>,
    presentations: seq<Presentation>)

  datatype TalkYear = TalkYear(year: string, summary: string, talks: seq<Talk>)

  /** The bundled talk table, newest year first. */
  const Items: seq<TalkYear> := [
    TalkYear("2025", "Internship and development projects", [
      Talk("AI Development with Runkuplus", "", "/static/images/confFigma.jpg", "2025-08-01",
        "Runkuplus, Agadir - Morocco", None, [Presentation("AI-powered call management platform", "", None)])
    ]),
    TalkYear("2024", "Training and learning", [
      Talk("YouCode Training", "", "/static/images/talk-epicweb.jpg", "2024-11-01",
        "YouCode | UM6P, Youssoufia - Morocco", None,
        [Presentation("Beginning Full-Stack web development training", "", None)]),
      Talk("Personal Projects", "", "/static/images/talk-epicweb.jpg", "2024-12-01",
        "Personal Projects", None, [Presentation("MyClinic, InTrack, YallaVamos", "", None)])
    ])
  ]

  /** The titles `renderFeatured` looks for. */
  const FeaturedTitles: seq<string> := ["Developer Experience", "Hands-on Figma for devs", "Pitch - Startup"]

  /** The talks of one year whose title is in the featured list, in order. */
  function FilterFeatured(ts: seq<Talk>, featured: seq<string>): (r: seq<Talk>)
    ensures |r| <= |ts|
    ensures forall t :: t in r ==> t in ts && t.title in featured
    ensures (r == []) <==> forall t :: t in ts ==> t.title !in featured
    decreases |ts|
  {
    if ts == [] then []
    else
      assert forall t :: t in ts ==> t == ts[0] || t in ts[1..];
      (if ts[0].title in featured then [ts[0]] else []) + FilterFeatured(ts[1..], featured)
  }

  /** `items.map(item => item.talks.filter(...))`. */
  function MatchingPerYear(items: seq<TalkYear>, featured: seq<string>): seq<seq<Talk>>
  {
    seq(|items|, i requires 0 <= i < |items| => FilterFeatured(items[i].talks, featured))
  }

  /** `.map(filter).filter(non-empty).map(item => item[0])`: the talks
      `renderFeatured` shows. */
  function FeaturedTalks(items: seq<TalkYear>, featured: seq<string>): seq<Talk>
  {
    Heads(DropEmpty(MatchingPerYear(items, featured)))
  }

  /** `groups.map(item => item[0])` over non-empty groups. */
  function Heads(groups: seq<seq<Talk>>): seq<Talk>
    requires forall k :: 0 <= k < |groups| ==> groups[k] != []
    decreases |groups|
  {
    if groups == [] then [] else [groups[0][0]] + Heads(groups[1..])
  }

  /** `ts[k]` has a featured title and no earlier talk does. */
  ghost predicate IsFirstMatchAt(ts: seq<Talk>, featured: seq<string>, k: int)
  {
    && 0 <= k < |ts|
    && ts[k].title in featured
    && forall j :: 0 <= j < k ==> ts[j].title !in featured
  }

  /** The first talk of a year whose title is featured, found by scanning. */
  function FirstMatch(ts: seq<Talk>, featured: seq<string>): (r: Option<Talk>)
    ensures r.None? <==> forall t :: t in ts ==> t.title !in featured
    ensures r.Some? ==> exists k :: IsFirstMatchAt(ts, featured, k) && ts[k] == r.value
    decreases |ts|
  {
    if ts == [] then None
    else if ts[0].title in featured then Some(ts[0])
    else
      var r := FirstMatch(ts[1..], featured);
      assert forall t :: t in ts ==> t == ts[0] || t in ts[1..];
      assert r.Some? ==> forall k :: IsFirstMatchAt(ts[1..], featured, k) ==> IsFirstMatchAt(ts, featured, k + 1);
      r
  }

  /** Reference reading of the featured list: for each year in data order,
      its first featured-title talk, if it has one. */
  function FirstMatchPerYear(items: seq<TalkYear>, featured: seq<string>): seq<Talk>
    decreases |items|
  {
    if items == [] then []
    else
      (match FirstMatch(items[0].talks, featured)
       case Some(t) => [t]
       case None => [])
      + FirstMatchPerYear(items[1..], featured)
  }

  /** The head of the filtered list is the first match. */
  lemma {:induction false} FilterHeadIsFirstMatch(ts: seq<Talk>, featured: seq<string>)
    ensures FilterFeatured(ts, featured) == [] <==> FirstMatch(ts, featured).None?
    ensures FilterFeatured(ts, featured) != [] ==>
      FilterFeatured(ts, featured)[0] == FirstMatch(ts, featured).value
    decreases |ts|
  {
    if ts != [] && ts[0].title !in featured {
      FilterHeadIsFirstMatch(ts[1..], featured);
    }
  }

  /** The featured talks are exactly one per year that has a featured title,
      the first such talk of that year, in year order. */
  lemma {:induction false} FeaturedIsFirstMatchPerYear(items: seq<TalkYear>, featured: seq<string>)
    ensures FeaturedTalks(items, featured) == FirstMatchPerYear(items, featured)
    decreases |items|
  {
    if items != [] {
      FeaturedIsFirstMatchPerYear(items[1..], featured);
      var groups := MatchingPerYear(items, featured);
      assert groups[1..] == MatchingPerYear(items[1..], featured);
      FilterHeadIsFirstMatch(items[0].talks, featured);
      var rest := DropEmpty(groups[1..]);
      if groups[0] == [] {
        assert DropEmpty(groups) == rest;
      } else {
        assert DropEmpty(groups) == [groups[0]] + rest;
        assert Heads([groups[0]] + rest) == [groups[0][0]] + Heads(rest);
      }
    }
  }

  /** At most one talk per year, so never more featured talks than years, and
      each one carries a featured title. */
  lemma {:induction false} FeaturedTalksBounded(items: seq<TalkYear>, featured: seq<string>)
    ensures |FeaturedTalks(items, featured)| <= |items|
    ensures forall t :: t in FeaturedTalks(items, featured) ==> t.title in featured
    decreases |items|
  {
    FeaturedIsFirstMatchPerYear(items, featured);
    if items != [] {
      FeaturedTalksBounded(items[1..], featured);
      FeaturedIsFirstMatchPerYear(items[1..], featured);
    }
  }

  /** Every talk, year by year, in data order. */
  function AllTalks(items: seq<TalkYear>): seq<Talk>
  {
    Flat(seq(|items|, i requires 0 <= i < |items| => items[i].talks))
  }

  /** `getTotalTalks()`: adds up each year's talk count; the total is the
      number of talks in the table. */
  method GetTotalTalks(items: seq<TalkYear>) returns (total: nat)
    ensures total == |AllTalks(items)|
  {
    total := 0;
    var i := 0;
    while i < |items|
      invariant 0 <= i <= |items|
      invariant total == |AllTalks(items[..i])|
    {
      total := total + |items[i].talks|;
      var groups := seq(i, k requires 0 <= k < i => items[..i][k].talks);
      assert seq(i + 1, k requires 0 <= k < i + 1 => items[..i + 1][k].talks) == groups + [items[i].talks];
      FlatSnoc(groups, items[i].talks);
      i := i + 1;
    }
    assert items[..i] == items;
  }

  function DescriptionText(total: nat): string
  {
    "I went my first conference in 2023 and felt in love with <strong>sharing knowledge</strong> publicly. "
    + "Since then, I have traveled to <strong>various places</strong> and gave more than <strong>"
    + Decimal(total)
    + " talks</strong>. Want me to speak at your event? Hit me up!"
  }

  /** The page description, whose count is the computed total. */
  method Description(items: seq<TalkYear>) returns (description: string)
    ensures description == DescriptionText(|AllTalks(items)|)
  {
    var total := GetTotalTalks(items);
    description := DescriptionText(total);
  }

  /** With the bundled table there are three talks. */
  lemma BundledTotal()
    ensures |AllTalks(Items)| == 3
  {
    var ts0, ts1 := Items[0].talks, Items[1].talks;
    assert seq(2, i requires 0 <= i < 2 => Items[i].talks) == [ts0, ts1];
    assert Flat([ts1]) == ts1;
  }

  /** With the bundled table no talk has a featured title, so the featured
      section is empty. */
  lemma BundledFeatured()
    ensures FeaturedTalks(Items, FeaturedTitles) == []
  {
    var ts0, ts1 := Items[0].talks, Items[1].talks;
    assert ts0[0].title !in FeaturedTitles;
    assert ts1[0].title !in FeaturedTitles && ts1[1].title !in FeaturedTitles;
    assert FirstMatch(ts0, FeaturedTitles).None?;
    assert FirstMatch(ts1, FeaturedTitles).None?;
    FeaturedIsFirstMatchPerYear(Items, FeaturedTitles);
    assert Items[1..][1..] == [];
  }
}
