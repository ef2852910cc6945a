/** A project of the manifest: its name, how it is fetched, and the two
    flags that steer ordering (`blocking`, `sticky`). */
module Projects {
  import opened Text
  import opened Raw
  import opened Sorting

  /** The fetch strategy chosen by the manifest's `provider`, with the
      parameters it is built from. What each strategy does (clone, checkout,
      download, copy) is outside this model. */
  datatype Fetcher =
    | GitFetcher(source: string, destination: string, rename: string, version: string)
    | SvnFetcher(source: string, destination: string, rename: string, version: string)
    | LocalFetcher(source: string, destination: string)
    | ArchiveFetcher(source: string, destination: string)

  /** What a fetch returned: nil, or an error. */
  datatype FetchOutcome = Fetched | FetchFailed(message: string)

  datatype Project = Project(name: string, fetcher: Fetcher, blocking: bool, sticky: bool)

  // ---------------------------------------------------------------------
  // Ordering

  /** `SortProject.Less`: is project `a` (at index i) less than `b` (index j)? */
  predicate ProjectLess(a: Project, b: Project)
  {
    if (a.sticky && b.sticky) || (!a.sticky && !b.sticky) then StrLess(a.name, b.name)
    else b.sticky
  }

  /** Non-sticky projects get the lower rank, so they come first. */
  function ProjectKey(p: Project): SortKey
  {
    SortKey(if p.sticky then 1 else 0, p.name)
  }

  lemma ProjectLessIsKeyLess(a: Project, b: Project)
    ensures ProjectLess(a, b) == KeyLess(ProjectKey(a), ProjectKey(b))
  {
  }

  /** How `SortProject.Less` decides: by name when both projects are sticky
      or both are not; otherwise the NON-sticky project is the smaller. No
      project is less than itself. */
  lemma ProjectLessCases(a: Project, b: Project)
    ensures a.sticky == b.sticky ==> ProjectLess(a, b) == StrLess(a.name, b.name)
    ensures a.sticky != b.sticky ==> (ProjectLess(a, b) <==> !a.sticky)
    ensures !ProjectLess(a, a)
  {
    StrLessIrreflexive(a.name);
  }

  /** `sort.Sort` on a `SortProject` slice. */
  function SortProjects(ps: seq<Project>): (r: seq<Project>)
    ensures multiset(r) == multiset(ps)
    ensures forall i, j :: 0 <= i < j < |r| ==> !ProjectLess(r[j], r[i])
  {
    var r := SortBy(ps, ProjectKey);
    assert forall i, j :: 0 <= i < j < |r| ==> !ProjectLess(r[j], r[i]) by {
      forall i, j | 0 <= i < j < |r| ensures !ProjectLess(r[j], r[i]) {
        ProjectLessIsKeyLess(r[j], r[i]);
      }
    }
    r
  }

  /** After sorting, every non-sticky project precedes every sticky one,
      and projects of equal stickiness appear in name order. */
  lemma SortedProjectsLayout(ps: seq<Project>)
    ensures var r := SortProjects(ps);
      forall i, j :: 0 <= i < j < |r| ==>
        && (r[i].sticky ==> r[j].sticky)
        && (r[i].sticky == r[j].sticky ==> !StrLess(r[j].name, r[i].name))
  {
    var r := SortProjects(ps);
    forall i, j | 0 <= i < j < |r| ensures r[i].sticky ==> r[j].sticky {
      assert !ProjectLess(r[j], r[i]);
    }
  }

  // ---------------------------------------------------------------------
  // Construction from a manifest entry

  /** `InferProjectName`: the rename when there is one, else the last
      `/`-separated segment of the source, else "No Name". */
  function InferProjectName(mp: Entry): (r: string)
    ensures |r| > 0
    ensures StrField(mp, "rename") != "" ==> r == StrField(mp, "rename")
    ensures var source := StrField(mp, "source");
      StrField(mp, "rename") == "" ==>
        if source == "" || source[|source| - 1] == '/' then r == "No Name"
        else IsTailAfterLast(source, '/', r)
  {
    var rename := StrField(mp, "rename");
    if rename != "" then rename
    else
      var source := StrField(mp, "source");
      LastSegmentSpec(source);
      var last := LastSegment(source);
      if last != "" then last else "No Name"
  }

  /** The entry's `provider` is the string `name`. */
  predicate ProviderIs(mp: Entry, name: string)
  {
    "provider" in mp && mp["provider"] == Str(name)
  }

  /** The provider switch of `NewProjectFromMap`. */
  function FetcherFor(mp: Entry): Fetcher
  {
    var source, destination := StrField(mp, "source"), StrField(mp, "destination");
    if ProviderIs(mp, "git") then
      GitFetcher(source, destination, StrField(mp, "rename"), StrField(mp, "version"))
    else if ProviderIs(mp, "svn") then
      SvnFetcher(source, destination, StrField(mp, "rename"), StrField(mp, "version"))
    else if ProviderIs(mp, "local") then
      LocalFetcher(source, destination)
    else
      ArchiveFetcher(source, destination)
  }

  /** "git", "svn" and "local" select their fetchers; every other provider,
      "zip", a non-string value or none at all, selects the archive
      fetcher. Every fetcher is built from the entry's source and
      destination. */
  lemma ProviderDispatch(mp: Entry)
    ensures FetcherFor(mp).GitFetcher? <==> ProviderIs(mp, "git")
    ensures FetcherFor(mp).SvnFetcher? <==> ProviderIs(mp, "svn")
    ensures FetcherFor(mp).LocalFetcher? <==> ProviderIs(mp, "local")
    ensures FetcherFor(mp).ArchiveFetcher? <==>
      !ProviderIs(mp, "git") && !ProviderIs(mp, "svn") && !ProviderIs(mp, "local")
    ensures FetcherFor(mp).source == StrField(mp, "source")
    ensures FetcherFor(mp).destination == StrField(mp, "destination")
  {
  }

  /** The project an entry describes. */
  function ProjectFromMap(mp: Entry): Project
  {
    Project(InferProjectName(mp), FetcherFor(mp), HasTag(mp, "blocking"), HasTag(mp, "sticky"))
  }

  /** `NewProjectFromMap`: the name is inferred, the fetcher chosen by
      provider, and the flags set by scanning the tag list. */
  method NewProjectFromMap(mp: Entry) returns (p: Project)
    ensures p == ProjectFromMap(mp)
    ensures p.blocking <==> "tags" in mp && mp["tags"].List? && Str("blocking") in mp["tags"].items
    ensures p.sticky <==> "tags" in mp && mp["tags"].List? && Str("sticky") in mp["tags"].items
  {
    var name := InferProjectName(mp);
    var fetcher := FetcherFor(mp);
    var blocking, sticky := false, false;
    if "tags" in mp && mp["tags"].List? {
      var tags := mp["tags"].items;
      var i := 0;
      while i < |tags|
        invariant 0 <= i <= |tags|
        invariant blocking <==> Str("blocking") in tags[..i]
        invariant sticky <==> Str("sticky") in tags[..i]
      {
        assert tags[..i + 1] == tags[..i] + [tags[i]];
        if tags[i] == Str("blocking") {
          blocking := true;
        } else if tags[i] == Str("sticky") {
          sticky := true;
        }
        i := i + 1;
      }
      assert tags[..|tags|] == tags;
    }
    p := Project(name, fetcher, blocking, sticky);
  }
}
