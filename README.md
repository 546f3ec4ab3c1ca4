# Portfolio site: article loader and page list logic

A Dafny model of the content side of a personal portfolio site built with Next.js. It covers:

- **Article loader** (`lib/blog.ts`). A slug is normalised by dropping one trailing `.md`. `getPostBySlug` reads the article's file and returns only the requested fields. The precedence is fixed: a truthy front-matter value wins over the normalised slug for `slug`, and over the markdown body for `content`. Falsy front-matter values are never stored. A missing file throws. `getAllPosts` loads every entry of the articles directory and sorts the results by `date`, newest first, with undated posts last.
- **Letters page** (`pages/letters.tsx`):
  - the fields loaded for the list and for the two featured letters, in `getStaticProps`;
  - the featured cards;
  - the all-letters list, which hides posts whose `skip` is truthy but keeps their index;
  - the letter count in the page description.
- **Projects page** (`pages/projects.tsx`):
  - the featured selection (filter by title per year, drop empty years, flatten, index);
  - the per-year all-projects view;
  - the project total.
- **Talks page** (`pages/talks.tsx`):
  - the featured selection, which is the first featured-title talk of each year;
  - the talk total and the count in the description.
- **About page** (`pages/about.tsx`): the job duration label (`N yrs M mos`) and the `Present` end label.

Modules and files:

| file | module | contents |
|---|---|---|
| `js.dfy` | `Js` | The JavaScript behaviour the pages rely on: `Option` and `Result`, string truthiness, the `<`/`>` order on strings, number-to-decimal text, `flat()`, and the drop-empty `filter`. |
| `blog.dfy` | `Blog` | The articles directory is modelled as a map from file name to the parsed file (front matter and body). The directory listing is an input sequence. `GetPostBySlug` is an imperative method proved equal to the declarative `LoadPost`. The sort is an insertion sort proved to be a permutation and date-descending. |
| `letters.dfy` | `Letters` | The letters page. |
| `projects.dfy` | `Projects` | The projects page, with the bundled project table of `data/projects.ts`. |
| `talks.dfy` | `Talks` | The talks page, with the bundled talk table of `data/talks.ts`. |
| `about.dfy` | `About` | The about page's duration and end labels. |

## Notes on the code

- A truthy front-matter `slug` or `content` overrides the value derived from the file name or the body, because the front-matter check runs last in the field loop. `Blog.Resolve` states this precedence.
- A requested field other than `slug` and `content` is left out when its front-matter value is falsy (for example the empty string), not only when it is absent.
- The sort comparator answers 1 for equal dates whichever way round they are passed, so the engine decides how posts with equal dates (and undated posts among themselves) are ordered. The model fixes one such order and proves what holds for every order: the result is a permutation of the loaded posts and is date-descending.

## Model

| member | source | states |
|---|---|---|
| Js.LessIrreflexive | lib/blog.ts:47 | No date string sorts strictly before itself. |
| Js.LessTransitive | lib/blog.ts:47 | String order is transitive. |
| Js.LessTotal | lib/blog.ts:47 | Any two different strings are ordered one way or the other. |
| Js.EmptyIsLeast | lib/blog.ts:47 | The empty string (the key of an undated post) sits below every non-empty string. |
| Js.Decimal | pages/letters.tsx:84 | Number interpolation yields at least one character, only digits, and no leading zero. |
| Js.DecimalRoundTrip | pages/letters.tsx:84 | Reading the printed digits back gives the number. |
| Js.DecimalInjective | pages/about.tsx:172 | Different numbers print differently. |
| Js.FlatSnoc | pages/projects.tsx:43 | Flattening groups with one group appended equals the flattened groups followed by that group. |
| Js.DropEmpty | pages/projects.tsx:38-42 | The drop-empty filter keeps exactly the non-empty groups of the input: every kept group comes from the input and is non-empty, every non-empty input group is kept, and the list never grows. |
| Js.FlatDropEmpty | pages/projects.tsx:38-43 | Dropping empty groups does not change the flattened list. |
| Blog.RealSlugRoundTrip | lib/blog.ts:19 | Normalising `s + ".md"` gives back `s`, for every `s`. |
| Blog.RealSlugStripsOnce | lib/blog.ts:19-20 | Only one trailing `.md` is removed and other slugs are unchanged. The file read always ends in `.md`, and a slug with or without `.md` names the same file. |
| Blog.RealSlugExamples | lib/blog.ts:19 | `a` becomes `a`, `a.md` becomes `a`, and `a.md.md` becomes `a.md`. |
| Blog.ProjectionSnoc | lib/blog.ts:26-38 | One more requested field changes the result at that field only. |
| Blog.GetPostBySlug | lib/blog.ts:18-41 | The field-by-field loop returns exactly `LoadPost`: the error for a missing file, else the declarative projection. |
| Blog.LoadPostContract | lib/blog.ts:18-41 | The load fails iff the file is missing, and the result holds only requested keys. A requested `slug` is always present: a truthy front-matter `slug`, else the normalised slug. A requested `content` is always present: a truthy front-matter `content`, else the body. Any other field is present iff its front-matter value is truthy, and then holds that value. |
| Blog.ProjectionIgnoresOrder | lib/blog.ts:26-38 | Field order and duplicate fields do not change the result. |
| Blog.ProjectionOtherValuesTruthy | lib/blog.ts:35-37 | Every stored field other than `slug` and `content` is non-empty, so a present `date` is never empty. |
| Blog.LoadEach | lib/blog.ts:45-46 | Loading the listing succeeds iff every entry loads. On success there is one result per entry, equal to that entry's load, in order. On failure the error is that of the first failing entry. |
| Blog.InsertByDate | lib/blog.ts:47 | Insertion adds exactly the one post (multiset). |
| Blog.InsertByDateKeepsOrder | lib/blog.ts:47 | Inserting into a date-descending list keeps it date-descending. |
| Blog.DescendingTail | lib/blog.ts:47 | The tail of a date-descending list is date-descending. |
| Blog.InsertFrontKeepsOrder | lib/blog.ts:47 | A post later than the head can be put in front, keeping the order. |
| Blog.InsertBehindHeadKeepsOrder | lib/blog.ts:47 | A head no earlier than every post of the rest keeps the order. |
| Blog.SortByDate | lib/blog.ts:47 | The sorted list is a permutation of its input and is date-descending. |
| Blog.GetAllPostsContract | lib/blog.ts:43-50 | Collecting succeeds iff every listed file exists. The result has one post per directory entry, is a permutation of the per-entry loads, and is date-descending. |
| Blog.UndatedPostsLast | lib/blog.ts:47 | Once a post without `date` appears, no later post has one. |
| Blog.GetAllPostsEntries | lib/blog.ts:43-50 | Every collected post holds only requested keys, and holds `slug` whenever it was requested. |
| Letters.GetStaticPropsContract | pages/letters.tsx:26-47 | The page builds iff every listed file and both featured files exist. `allPosts` has one entry per directory entry and is date-descending. Each entry holds only the four list fields and always holds `slug`. The featured posts are the two fixed slugs loaded with the featured fields, in that order. |
| Letters.FeaturedPostLoaded | pages/letters.tsx:29-34 | Featured letter `i` is the projection of the file of `FeaturedSlugs[i]` with the featured fields. |
| Letters.FeaturedCardOfProjection | pages/letters.tsx:50-64 | For a post loaded with the featured fields, the card is traced to the file. The card keeps its position as index. The href is `/slug/`, where a truthy front-matter `slug` wins. `title`, `description` and `image` fall back to the empty string. `content` is the body unless the front matter overrides it. |
| Letters.FeaturedCardFromFile | pages/letters.tsx:26-64 | The same facts for the two featured letters of the built page, traced to their files. |
| Letters.ShownKeepsRowsInOrder | pages/letters.tsx:66-81 | Dropping the null rows keeps every non-null row exactly once, in increasing index order. |
| Letters.RenderAllContract | pages/letters.tsx:66-81 | The all-letters list shows exactly the posts whose `skip` is not truthy, in list order. Each row links to `/slug/` and keeps the post's index in the full list. |
| Letters.DescriptionCountsEveryFile | pages/letters.tsx:84 | The description's count is the number of directory entries, skipped letters included. |
| Projects.FilterFeatured | pages/projects.tsx:36 | The title filter keeps only projects with a featured title, and keeps all of them. |
| Projects.FilterFeaturedAppend | pages/projects.tsx:36 | Filtering distributes over concatenation. |
| Projects.FeaturedIsFilterOfAll | pages/projects.tsx:34-43 | The featured selection equals the all-projects list filtered by title. The order is by year, then within each year, and dropping empty years changes nothing. |
| Projects.RenderFeaturedContract | pages/projects.tsx:31-47 | The cards are exactly the featured-title projects, in order, and each card is indexed by its position in the flattened list. |
| Projects.RenderAllShowsEveryProject | pages/projects.tsx:49-62 | The all-projects view shows one link per project, grouped by year, in data order. |
| Projects.GetTotalProjects | pages/projects.tsx:64-72 | The summing loop returns the number of projects in the all-projects list. |
| Projects.BundledAllProjects | data/projects.ts:15-65 | With the bundled data, all projects are the 2025 projects followed by the 2024 projects. |
| Projects.BundledTotal | data/projects.ts:15-65 | With the bundled data, the total is 5. |
| Projects.BundledFeatured | pages/projects.tsx:32 | With the bundled data, the featured projects are exactly the three of 2025. |
| Projects.BundledFilter2024 | pages/projects.tsx:32-36 | No 2024 project has a featured title. |
| Projects.BundledFilter2025 | pages/projects.tsx:32-36 | Every 2025 project has a featured title. |
| Talks.FilterFeatured | pages/talks.tsx:37 | The title filter keeps only featured-title talks, and is empty iff the year has none. |
| Talks.FirstMatch | pages/talks.tsx:37-45 | The scan finds no talk iff the year has no featured title. Otherwise it finds the talk at the first featured-title position. |
| Talks.FilterHeadIsFirstMatch | pages/talks.tsx:37-45 | The head of the filtered list is the first match, and the list is empty iff there is none. |
| Talks.FeaturedIsFirstMatchPerYear | pages/talks.tsx:35-46 | The featured talks are, for each year in order, its first featured-title talk, if any. |
| Talks.FeaturedTalksBounded | pages/talks.tsx:35-46 | There are never more featured talks than years, and each one has a featured title. |
| Talks.GetTotalTalks | pages/talks.tsx:63-71 | The summing loop returns the number of talks in the table. |
| Talks.Description | pages/talks.tsx:74 | The description carries the computed total. |
| Talks.BundledTotal | data/talks.ts:23-75 | With the bundled data, there are 3 talks. |
| Talks.BundledFeatured | pages/talks.tsx:33 | With the bundled data, no talk has a featured title, so the featured section is empty. |
| About.GetDuration | pages/about.tsx:169-177 | Years above 1 give `N yrs ` and years equal to 1 give `1 yr `; absent or zero years give no year part. The month part `M mos` follows, and months the library omits print as `undefined`. With months present, the result is the injective `DurationLabel`. |
| About.LeadingDigitsOf | pages/about.tsx:172-177 | A digit run followed by a non-digit has exactly that many leading digits. |
| About.DigitRunSplit | pages/about.tsx:172-177 | A digit run followed by text starting with a non-digit splits in only one way. |
| About.LabelShape | pages/about.tsx:169-177 | A label starts with the year or month count and has `y` or `m` two places after it. |
| About.YearPartInjective | pages/about.tsx:171-177 | Two labels with a year part are equal only for equal years and months. |
| About.DurationLabelInjective | pages/about.tsx:169-177 | Equal duration labels count the same years and months. |
| About.EndLabelPresent | pages/about.tsx:154 | An item without an end date (absent or empty) shows `Present`. Otherwise it shows its formatted end date. |

## Left out

- `convertMarkdownToHtml` (`lib/blog.ts:52-58`) is not modelled. It delegates to an external markdown and syntax-highlighting pipeline and is asynchronous.
- Reading the articles directory and files (`fs`, `path`) is not modelled. The listing and the file map are inputs. A store that cannot be read at all is not modelled.
- Front-matter parsing (`gray-matter`) is not modelled. Articles are given already split into front matter and body, so a malformed front-matter block is not an error case here.
- Front-matter values are strings. YAML typing (booleans, numbers, dates) is not modelled, so `skip: false` counts as truthy in the model.
- Field lookup is on the front matter's own keys. Keys inherited from the JavaScript object prototype, such as `constructor`, are not modelled.
- JavaScript compares strings by UTF-16 code units. The model compares by character, which agrees except for characters outside the Basic Multilingual Plane.
- The sort algorithm of the JavaScript engine is not modelled. Posts with equal dates may appear in another order than the model's, because the comparator leaves ties to the engine.
- Blog.GetPostBySlug: the default empty field list is not modelled. Callers always pass a list.
- The date library (`parseISO`, `format`, `intervalToDuration`) and the clock are not modelled. In `About.GetDuration`, years and months are inputs. In `About.EndLabel`, the formatted end date is an input.
- Page totals are JavaScript numbers. They are modelled as unbounded naturals, since counts of this size are exact in either.
- Rendering (React components, styling, meta tags), analytics, the contact form and the command bar are not modelled.
- The talks page's `renderAll` and the about page's career list layout are not modelled. Apart from the date formatting left out above, they only lay out the bundled data.
