/**
 The project list of components/neobrutalism/projects.tsx: the category and search filter
 that decides which project cards are shown, the reset of both filters, and the choice of
 a card's tilt and offset from its id.
 */
module Projects {
  import opened Wrappers
  import opened Text
  import opened Seqs
  import opened JsNumber

  datatype ProjectCategory = Frontend | Fullstack | Backend | Mobile

  /** The string the source stores for a category and compares the active filter against. */
  function CategoryName(c: ProjectCategory): string
  {
    match c
    case Frontend => "frontend"
    case Fullstack => "fullstack"
    case Backend => "backend"
    case Mobile => "mobile"
  }

  datatype Project = Project(
    id: int,
    title: string,
    description: string,
    image: string,
    technologies: seq<string>,
    category: ProjectCategory,
    liveUrl: Option<string>,
    githubUrl: Option<string>,
    featured: Option<bool>)

  /** The six demo projects, in display order. */
  const AllProjects: seq<Project> := [
    Project(1, "Neobrutalism Portfolio",
      "A personal portfolio website with neobrutalism design aesthetics, featuring interactive components and animations.",
      "/projects/portfolio.jpg", ["Next.js", "React", "TypeScript", "Tailwind CSS"], Frontend,
      Some("https://example.com"), Some("https://github.com/example/portfolio"), Some(true)),
    Project(2, "E-Commerce Platform",
      "A complete e-commerce solution with product management, cart functionality, and payment processing.",
      "/projects/ecommerce.jpg", ["Next.js", "React", "Node.js", "MongoDB", "Stripe"], Fullstack,
      Some("https://example.com/ecommerce"), Some("https://github.com/example/ecommerce"), Some(true)),
    Project(3, "Content Management System",
      "A headless CMS with a modern admin dashboard, role-based access control, and content modeling.",
      "/projects/cms.jpg", ["Express.js", "PostgreSQL", "GraphQL", "Docker"], Backend,
      None, Some("https://github.com/example/cms-backend"), None),
    Project(4, "Workout Tracker App",
      "A mobile application for tracking workouts, progress, and setting fitness goals.",
      "/projects/fitness.jpg", ["React Native", "Firebase", "Redux", "Expo"], Mobile,
      Some("https://apps.apple.com/example"), None, None),
    Project(5, "Task Management App",
      "A productivity tool for organizing tasks, projects, and teams with real-time collaboration.",
      "/projects/tasks.jpg", ["React", "TypeScript", "Node.js", "Socket.io"], Fullstack,
      Some("https://example.com/tasks"), Some("https://github.com/example/task-manager"), None),
    Project(6, "Weather Dashboard",
      "An interactive weather application with forecast data, location-based insights, and visualizations.",
      "/projects/weather.jpg", ["React", "D3.js", "OpenWeather API"], Frontend,
      Some("https://example.com/weather"), Some("https://github.com/example/weather-app"), None)
  ]

  /** The filter state: the selected category (`"all"` or a category name) and the search box. */
  datatype Filters = Filters(activeCategory: string, searchTerm: string)

  const AllCategories: string := "all"

  /** The filters on mount. */
  const InitialFilters: Filters := Filters(AllCategories, "")

  /** The term occurs, ignoring case, in the title, the description or one of the technologies. */
  predicate SearchHit(p: Project, term: string)
  {
    var t := Lower(term);
    || Includes(Lower(p.title), t)
    || Includes(Lower(p.description), t)
    || exists tech | tech in p.technologies :: Includes(Lower(tech), t)
  }

  /** The one-step description of a shown project: the category matches unless it is `"all"`,
      and the search term is found unless the search box is empty. */
  predicate Selected(p: Project, f: Filters)
  {
    && (f.activeCategory == AllCategories || CategoryName(p.category) == f.activeCategory)
    && (f.searchTerm == "" || SearchHit(p, f.searchTerm))
  }

  /** The effect hook that recomputes the shown projects: first by category, then by search. */
  function VisibleProjects(all: seq<Project>, f: Filters): (r: seq<Project>)
    ensures IsSubsequence(r, all)
    ensures forall p | p in r :: p in all && Selected(p, f)
    ensures forall p | p in all && Selected(p, f) :: p in r
  {
    var byCategory :=
      if f.activeCategory != AllCategories
      then Filter(all, (p: Project) => CategoryName(p.category) == f.activeCategory)
      else all;
    var bySearch :=
      if f.searchTerm != ""
      then Filter(byCategory, (p: Project) => SearchHit(p, f.searchTerm))
      else byCategory;
    SubsequenceReflexive(all);
    SubsequenceReflexive(byCategory);
    SubsequenceTransitive(bySearch, byCategory, all);
    bySearch
  }

  /** The two-stage filter is one filter with the one-step test. */
  lemma VisibleIsOneFilter(all: seq<Project>, f: Filters)
    ensures VisibleProjects(all, f) == Filter(all, (p: Project) => Selected(p, f))
  {
    var selected := (p: Project) => Selected(p, f);
    var inCategory := (p: Project) => CategoryName(p.category) == f.activeCategory;
    var found := (p: Project) => SearchHit(p, f.searchTerm);
    if f.activeCategory != AllCategories && f.searchTerm != "" {
      FilterTwice(all, inCategory, found, selected);
    } else if f.activeCategory != AllCategories {
      FilterSameTest(all, inCategory, selected);
    } else if f.searchTerm != "" {
      FilterSameTest(all, found, selected);
    } else {
      FilterAll(all, selected);
    }
  }

  /** The "Reset Filters" button: back to every category and an empty search. */
  function ResetFilters(f: Filters): (r: Filters)
    ensures forall p: Project :: Selected(p, r)
  {
    Filters(AllCategories, "")
  }

  /** After a reset every project is shown again, in its original order. */
  lemma ResetShowsAll(all: seq<Project>, f: Filters)
    ensures VisibleProjects(all, ResetFilters(f)) == all
  {
  }

  /** A search for the empty string, which the source skips, would also keep every project. */
  lemma EmptySearchFiltersNothing(p: Project)
    ensures SearchHit(p, "")
  {
    IncludesEmpty(Lower(p.title));
  }

  /** The tilt classes a card picks from by its id. */
  const Rotations: seq<string> := ["-rotate-3", "rotate-2", "-rotate-1", "rotate-1", "rotate-0"]

  /** The offset classes a card picks from by its id. */
  const Transforms: seq<string> := [
    "translate-x-2 -translate-y-1",
    "-translate-x-2 translate-y-1",
    "translate-x-0 translate-y-2",
    "-translate-x-1 -translate-y-2",
    "translate-x-3 translate-y-0",
    "translate-x-0 translate-y-0"
  ]

  /** The element at a JavaScript array index, `undefined` outside the array. */
  function At(s: seq<string>, i: int): (r: Option<string>)
    ensures r.Some? <==> 0 <= i < |s|
    ensures r.Some? ==> r.value == s[i]
  {
    if 0 <= i < |s| then Some(s[i]) else None
  }

  /** `getRandomRotation`: the tilt at `id % 5`. */
  function GetRandomRotation(id: int): (r: Option<string>)
    ensures r.Some? <==> id >= 0 || id % |Rotations| == 0
    ensures id >= 0 ==> r == Some(Rotations[id % |Rotations|])
  {
    At(Rotations, JsRem(id, |Rotations|))
  }

  /** `getRandomTransform`: the offset at `id % 6`. */
  function GetRandomTransform(id: int): (r: Option<string>)
    ensures r.Some? <==> id >= 0 || id % |Transforms| == 0
    ensures id >= 0 ==> r == Some(Transforms[id % |Transforms|])
  {
    At(Transforms, JsRem(id, |Transforms|))
  }

  /** Every demo project gets a tilt and an offset. */
  lemma EveryCardStyled()
    ensures forall p | p in AllProjects :: GetRandomRotation(p.id).Some? && GetRandomTransform(p.id).Some?
  {
  }
}
