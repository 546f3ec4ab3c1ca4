/** The list logic of the projects page: the featured selection, the
    all-projects view grouped by year, and the project total. */
module Projects {
  import opened Js

  datatype Project = Project(
    title: string,
    description: string,
    url: string,
    active: bool,
    icon: Option<string>,
    stats: Option<string>)

  datatype ProjectYear = ProjectYear(year: string, projects: seq<Project>)

  /** The bundled project table, newest year first. */
  const Items: seq<ProjectYear> := [
    ProjectYear("2025", [
      Project("MyClinic", "Full-stack web application dedicated to healthcare data management",
        "https://github.com/drissnafii/myclinic", true, Some("projects"), Some("React.js, Express.js, MongoDB, Redis")),
      Project("InTrack", "Personal financial management web application",
        "https://github.com/drissnafii/intrack", true, Some("investing"), Some("JavaScript, CSS, EJS, Express.js")),
      Project("YallaVamos", "A web guide for the 2030 FIFA World Cup in Morocco",
        "https://github.com/drissnafii/yallavamos", true, Some("home"), Some("PHP, Blade, PostgreSQL, Laravel 12"))
    ]),
    ProjectYear("2024", [
      Project("Personal Portfolio", "Personal portfolio website built with Next.js",
        "https://drissnafii.me", true, Some("about"), Some("Next.js, React, Stitches")),
      Project("Learning Projects", "Various projects completed during my training",
        "", false, None, Some("HTML, CSS, JavaScript"))
    ])
  ]

  /** The titles `renderFeatured` looks for. */
  const FeaturedTitles: seq<string> := ["MyClinic", "InTrack", "YallaVamos"]

  /** The projects of one year whose title is in the featured list, in order. */
  function FilterFeatured(ps: seq<Project>, featured: seq<string>): (r: seq<Project>)
    ensures |r| <= |ps|
    ensures forall p :: p in r ==> p in ps && p.title in featured
    ensures forall p :: p in ps && p.title in featured ==> p in r
    decreases |ps|
  {
    if ps == [] then []
    else
      assert forall p :: p in ps[1..] ==> p in ps;
      (if ps[0].title in featured then [ps[0]] else []) + FilterFeatured(ps[1..], featured)
  }

  lemma {:induction false} FilterFeaturedAppend(a: seq<Project>, b: seq<Project>, featured: seq<string>)
    ensures FilterFeatured(a + b, featured) == FilterFeatured(a, featured) + FilterFeatured(b, featured)
    decreases |a|
  {
    if a == [] {
      assert a + b == b;
    } else {
      assert (a + b)[0] == a[0] && (a + b)[1..] == a[1..] + b;
      FilterFeaturedAppend(a[1..], b, featured);
    }
  }

  /** Each year's project list, in data order. */
  function ProjectGroups(items: seq<ProjectYear>): seq<seq<Project>>
  {
    seq(|items|, i requires 0 <= i < |items| => items[i].projects)
  }

  /** Every project, year by year, in data order. */
  function AllProjects(items: seq<ProjectYear>): seq<Project>
  {
    Flat(ProjectGroups(items))
  }

  /** `items.map(item => item.projects.filter(...))`. */
  function MatchingPerYear(items: seq<ProjectYear>, featured: seq<string>): seq<seq<Project>>
  {
    seq(|items|, i requires 0 <= i < |items| => FilterFeatured(items[i].projects, featured))
  }

  /** `.map(filter).filter(non-empty).flat()`: the projects `renderFeatured` shows. */
  function FeaturedProjects(items: seq<ProjectYear>, featured: seq<string>): seq<Project>
  {
    Flat(DropEmpty(MatchingPerYear(items, featured)))
  }

  /** The featured selection is the all-projects list filtered by title: every
      matching project of every year is kept, in year order and then in-year
      order, and dropping the empty groups changes nothing. */
  lemma {:induction false} FeaturedIsFilterOfAll(items: seq<ProjectYear>, featured: seq<string>)
    ensures FeaturedProjects(items, featured) == FilterFeatured(AllProjects(items), featured)
    decreases |items|
  {
    FlatDropEmpty(MatchingPerYear(items, featured));
    if items != [] {
      FeaturedIsFilterOfAll(items[1..], featured);
      FlatDropEmpty(MatchingPerYear(items[1..], featured));
      assert MatchingPerYear(items, featured)[1..] == MatchingPerYear(items[1..], featured);
      assert ProjectGroups(items)[1..] == ProjectGroups(items[1..]);
      FilterFeaturedAppend(items[0].projects, AllProjects(items[1..]), featured);
    }
  }

  /** One featured card: the project and its position, used as key and index. */
  datatype FeaturedCard = FeaturedCard(index: nat, project: Project)

  /** `renderFeatured()`: the selection with each card's position as its index. */
  function RenderFeatured(items: seq<ProjectYear>, featured: seq<string>): seq<FeaturedCard>
  {
    var selection := FeaturedProjects(items, featured);
    seq(|selection|, i requires 0 <= i < |selection| => FeaturedCard(i, selection[i]))
  }

  /** The cards are the featured-title projects of the all-projects list, in
      order, each indexed by its position in the flattened list. */
  lemma RenderFeaturedContract(items: seq<ProjectYear>, featured: seq<string>)
    ensures var cards, all := RenderFeatured(items, featured), AllProjects(items);
      && |cards| == |FilterFeatured(all, featured)|
      && (forall i :: 0 <= i < |cards| ==>
            cards[i].index == i && cards[i].project == FilterFeatured(all, featured)[i])
      && (forall c :: c in cards ==> c.project.title in featured && c.project in all)
      && (forall p :: p in all && p.title in featured ==> exists c :: c in cards && c.project == p)
  {
    FeaturedIsFilterOfAll(items, featured);
    var cards, sel := RenderFeatured(items, featured), FeaturedProjects(items, featured);
    forall p | p in AllProjects(items) && p.title in featured
      ensures exists c :: c in cards && c.project == p
    {
      var i :| 0 <= i < |sel| && sel[i] == p;
      assert cards[i] in cards;
    }
  }

  /** A link of the all-projects view: the project's URL and its title as text. */
  datatype ProjectLink = ProjectLink(url: string, title: string)

  /** One year block of `renderAll()`: its key, heading and links. */
  datatype YearSection = YearSection(key: nat, year: string, links: seq<ProjectLink>)

  function Links(ps: seq<Project>): seq<ProjectLink>
  {
    seq(|ps|, j requires 0 <= j < |ps| => ProjectLink(ps[j].url, ps[j].title))
  }

  /** `renderAll()`: one section per year, in data order. */
  function RenderAll(items: seq<ProjectYear>): seq<YearSection>
  {
    seq(|items|, i requires 0 <= i < |items| => YearSection(i, items[i].year, Links(items[i].projects)))
  }

  function SectionLinks(sections: seq<YearSection>): seq<seq<ProjectLink>>
  {
    seq(|sections|, i requires 0 <= i < |sections| => sections[i].links)
  }

  /** The all-projects view shows exactly one link per project, grouped by
      year, in data order. */
  lemma {:induction false} RenderAllShowsEveryProject(items: seq<ProjectYear>)
    ensures Flat(SectionLinks(RenderAll(items))) == Links(AllProjects(items))
    decreases |items|
  {
    if items != [] {
      RenderAllShowsEveryProject(items[1..]);
      assert SectionLinks(RenderAll(items))[1..] == SectionLinks(RenderAll(items[1..]));
      assert ProjectGroups(items)[1..] == ProjectGroups(items[1..]);
      assert Links(items[0].projects + AllProjects(items[1..])) ==
        Links(items[0].projects) + Links(AllProjects(items[1..]));
    }
  }

  /** `getTotalProjects()`: adds up each year's project count. The total is
      the number of projects the all-projects view shows. */
  method GetTotalProjects(items: seq<ProjectYear>) returns (total: nat)
    ensures total == |AllProjects(items)|
  {
    total := 0;
    var i := 0;
    while i < |items|
      invariant 0 <= i <= |items|
      invariant total == |AllProjects(items[..i])|
    {
      total := total + |items[i].projects|;
      assert ProjectGroups(items[..i + 1]) == ProjectGroups(items[..i]) + [items[i].projects];
      FlatSnoc(ProjectGroups(items[..i]), items[i].projects);
      i := i + 1;
    }
    assert items[..i] == items;
  }

  /** The bundled table's projects: 2025's followed by 2024's. */
  lemma BundledAllProjects()
    ensures AllProjects(Items) == Items[0].projects + Items[1].projects
  {
    var ps0, ps1 := Items[0].projects, Items[1].projects;
    assert ProjectGroups(Items) == [ps0, ps1];
    assert Flat([ps1]) == ps1;
  }

  /** With the bundled table there are five projects. */
  lemma BundledTotal()
    ensures |AllProjects(Items)| == 5
  {
    BundledAllProjects();
  }

  /** With the bundled table the featured projects are exactly the three of
      2025, in order; none of 2024 matches. */
  lemma BundledFeatured()
    ensures FeaturedProjects(Items, FeaturedTitles) == Items[0].projects
  {
    var ps0, ps1 := Items[0].projects, Items[1].projects;
    BundledAllProjects();
    FeaturedIsFilterOfAll(Items, FeaturedTitles);
    FilterFeaturedAppend(ps0, ps1, FeaturedTitles);
    BundledFilter2024();
    BundledFilter2025();
    assert ps0 + [] == ps0;
  }

  lemma BundledFilter2024()
    ensures FilterFeatured(Items[1].projects, FeaturedTitles) == []
  {
    var ps1 := Items[1].projects;
    assert ps1[0].title !in FeaturedTitles && ps1[1].title !in FeaturedTitles;
    assert FilterFeatured(ps1[1..][1..], FeaturedTitles) == [];
    assert FilterFeatured(ps1[1..], FeaturedTitles) == [];
  }

  lemma BundledFilter2025()
    ensures FilterFeatured(Items[0].projects, FeaturedTitles) == Items[0].projects
  {
    var ps0 := Items[0].projects;
    assert ps0[0].title in FeaturedTitles && ps0[1].title in FeaturedTitles && ps0[2].title in FeaturedTitles;
    assert FilterFeatured(ps0[1..][1..][1..], FeaturedTitles) == [];
    assert FilterFeatured(ps0[1..][1..], FeaturedTitles) == ps0[1..][1..];
    assert FilterFeatured(ps0[1..], FeaturedTitles) == ps0[1..];
  }
}
