/** The orchestrator: fetching one project while reporting progress, the
    sequential phase of assembling all projects, and applying the patches. */
module Assembly {
  import opened Seqs
  import opened Optional
  import opened Projects
  import opened Patches
  import opened Manifests
  import opened ProgressTracker

  /** The state a fetch ends in: Success when the fetcher returned no
      error, Failed otherwise. */
  function Terminal(outcome: FetchOutcome): (q: ProjectState)
    ensures q == Success || q == Failed
    ensures q == Success <==> outcome.Fetched?
  {
    if outcome.Fetched? then Success else Failed
  }

  /** The entries after one update followed by a report. */
  function AfterStep(s: seq<Status>, p: Project, q: ProjectState): seq<Status>
  {
    SortStatuses(Upsert(s, Status(p, q)))
  }

  /** An update followed by a report keeps names distinct, adds the
      project's name, tracks it in the new state and leaves every other
      name as it was. */
  lemma StepTracks(s: seq<Status>, p: Project, q: ProjectState)
    requires UniqueNames(s)
    ensures var t := AfterStep(s, p, q);
      && UniqueNames(t)
      && NameSet(t) == NameSet(s) + {p.name}
      && Tracks(t, p.name, q)
      && (forall m, q' :: m != p.name ==> (Tracks(t, m, q') <==> Tracks(s, m, q')))
  {
    var u := Upsert(s, Status(p, q));
    UpsertKeepsNamesUnique(s, Status(p, q));
    UpsertTracks(s, Status(p, q));
    PermutationKeepsNames(u, SortStatuses(u));
    PermutationKeepsTracks(u, SortStatuses(u));
  }

  /** `Fetch`: mark the project Processing and report, run the fetch (its
      outcome is given), then mark it Success or Failed and report again. */
  method Fetch(proj: Project, outcome: FetchOutcome, prog: Progress)
    requires prog.Valid()
    modifies prog
    ensures prog.Valid()
    ensures var first := AfterStep(old(prog.statuses), proj, Processing);
      && prog.snapshots == old(prog.snapshots) + [first, prog.statuses]
      && prog.statuses == AfterStep(first, proj, Terminal(outcome))
    ensures |prog.log| == |old(prog.log)| + 2
  {
    ghost var snaps0 := prog.snapshots;
    prog.Add(proj, Processing);
    prog.Report();
    ghost var first := prog.statuses;
    if outcome.FetchFailed? {
      prog.Add(proj, Failed);
      prog.Report();
    } else {
      prog.Add(proj, Success);
      prog.Report();
    }
    AppendTwo(snaps0, first, prog.statuses);
  }

  /** What one `Fetch` does to the tracker, stated on the entries: the
      first report shows the project Processing, the second shows it in
      its terminal state, the project's name is added, and every other
      name keeps its state. */
  lemma FetchProtocol(s: seq<Status>, proj: Project, outcome: FetchOutcome)
    requires UniqueNames(s)
    ensures var first := AfterStep(s, proj, Processing);
      var second := AfterStep(first, proj, Terminal(outcome));
      && Tracks(first, proj.name, Processing)
      && Tracks(second, proj.name, Terminal(outcome))
      && !Tracks(second, proj.name, Processing)
      && UniqueNames(second)
      && NameSet(first) == NameSet(s) + {proj.name}
      && NameSet(second) == NameSet(s) + {proj.name}
      && (forall m, q :: m != proj.name ==> (Tracks(second, m, q) <==> Tracks(s, m, q)))
  {
    var first := AfterStep(s, proj, Processing);
    var second := AfterStep(first, proj, Terminal(outcome));
    StepTracks(s, proj, Processing);
    StepTracks(first, proj, Terminal(outcome));
    if Tracks(second, proj.name, Processing) {
      TracksOneState(second, proj.name, Processing, Terminal(outcome));
    }
  }

  /** The name is tracked in one of the two terminal states. */
  ghost predicate Settled(s: seq<Status>, name: string)
  {
    Tracks(s, name, Success) || Tracks(s, name, Failed)
  }

  /** The names of the blocking projects of a list. */
  function BlockingNames(ps: seq<Project>): set<string>
  {
    ProjectNames(Filter(ps, IsBlocking))
  }

  /** The reports sent while fetching `order` one project after another:
      two per project, the first showing it Processing and the second in
      the state its outcome gives; every report lists exactly `names`. */
  ghost predicate FetchReports(order: seq<Project>, outcomeOf: Project -> FetchOutcome,
                               snaps: seq<seq<Status>>, names: set<string>)
  {
    && |snaps| == 2 * |order|
    && (forall k :: 0 <= k < |order| ==>
          && Tracks(snaps[2 * k], order[k].name, Processing)
          && Tracks(snaps[2 * k + 1], order[k].name, Terminal(outcomeOf(order[k]))))
    && (forall k :: 0 <= k < |snaps| ==> NameSet(snaps[k]) == names)
  }

  /** The state of the tracker after the first `i` projects of `order`
      were fetched, starting from the queued entries `queued`. */
  ghost predicate BlockingPhase(order: seq<Project>, i: nat, outcomeOf: Project -> FetchOutcome,
                                queued: seq<Status>, names: set<string>,
                                s: seq<Status>, snaps: seq<seq<Status>>)
    requires i <= |order|
  {
    && UniqueNames(s)
    && NameSet(s) == names
    && FetchReports(order[..i], outcomeOf, snaps, names)
    && (forall k :: 0 <= k < i ==> Settled(s, order[k].name))
    && (forall m, q :: m !in ProjectNames(order[..i]) ==> (Tracks(s, m, q) <==> Tracks(queued, m, q)))
  }

  lemma FetchReportsSnoc(order: seq<Project>, i: nat, outcomeOf: Project -> FetchOutcome,
                         snaps: seq<seq<Status>>, names: set<string>,
                         first: seq<Status>, second: seq<Status>)
    requires i < |order|
    requires FetchReports(order[..i], outcomeOf, snaps, names)
    requires Tracks(first, order[i].name, Processing)
    requires Tracks(second, order[i].name, Terminal(outcomeOf(order[i])))
    requires NameSet(first) == names && NameSet(second) == names
    ensures FetchReports(order[..i + 1], outcomeOf, snaps + [first, second], names)
  {
    var o, o' := order[..i], order[..i + 1];
    var sn' := snaps + [first, second];
    forall k | 0 <= k < |o'|
      ensures Tracks(sn'[2 * k], o'[k].name, Processing)
      ensures Tracks(sn'[2 * k + 1], o'[k].name, Terminal(outcomeOf(o'[k])))
    {
      if k < i {
        assert o'[k] == o[k];
        assert sn'[2 * k] == snaps[2 * k] && sn'[2 * k + 1] == snaps[2 * k + 1];
      } else {
        assert o'[k] == order[i];
        assert sn'[2 * k] == first && sn'[2 * k + 1] == second;
      }
    }
    forall k | 0 <= k < |sn'| ensures NameSet(sn'[k]) == names {
      if k < |snaps| {
        assert sn'[k] == snaps[k];
      }
    }
  }

  lemma ProjectNamesPrefixStep(order: seq<Project>, i: nat)
    requires i < |order|
    ensures ProjectNames(order[..i + 1]) == ProjectNames(order[..i]) + {order[i].name}
  {
    assert order[..i + 1] == order[..i] + [order[i]];
    ProjectNamesSnoc(order[..i], order[i]);
  }

  /** Fetching the next project of `order` keeps the phase invariant. */
  lemma BlockingPhaseStep(order: seq<Project>, i: nat, outcomeOf: Project -> FetchOutcome,
                          queued: seq<Status>, names: set<string>,
                          s: seq<Status>, snaps: seq<seq<Status>>)
    requires i < |order| && order[i].name in names
    requires BlockingPhase(order, i, outcomeOf, queued, names, s, snaps)
    ensures var first := AfterStep(s, order[i], Processing);
      var second := AfterStep(first, order[i], Terminal(outcomeOf(order[i])));
      BlockingPhase(order, i + 1, outcomeOf, queued, names, second, snaps + [first, second])
  {
    var p := order[i];
    var first := AfterStep(s, p, Processing);
    var second := AfterStep(first, p, Terminal(outcomeOf(p)));
    FetchProtocol(s, p, outcomeOf(p));
    FetchReportsSnoc(order, i, outcomeOf, snaps, names, first, second);
    ProjectNamesPrefixStep(order, i);
    SettledStep(order, i, s, second, Terminal(outcomeOf(p)));
    UntouchedStep(ProjectNames(order[..i]), p.name, queued, s, second);
  }

  lemma SettledStep(order: seq<Project>, i: nat, s: seq<Status>, t: seq<Status>, q: ProjectState)
    requires i < |order| && (q == Success || q == Failed)
    requires forall k :: 0 <= k < i ==> Settled(s, order[k].name)
    requires Tracks(t, order[i].name, q)
    requires forall m, q' :: m != order[i].name ==> (Tracks(t, m, q') <==> Tracks(s, m, q'))
    ensures forall k :: 0 <= k < i + 1 ==> Settled(t, order[k].name)
  {
    forall k | 0 <= k < i + 1 ensures Settled(t, order[k].name) {
      if order[k].name != order[i].name {
        assert Settled(s, order[k].name);
      }
    }
  }

  lemma UntouchedStep(done: set<string>, n: string, queued: seq<Status>, s: seq<Status>, t: seq<Status>)
    requires forall m, q :: m !in done ==> (Tracks(s, m, q) <==> Tracks(queued, m, q))
    requires forall m, q :: m != n ==> (Tracks(t, m, q) <==> Tracks(s, m, q))
    ensures forall m, q :: m !in done + {n} ==> (Tracks(t, m, q) <==> Tracks(queued, m, q))
  {
  }

  /** Before any fetch, the tracker holds the queued entries and no report
      was sent. */
  lemma BlockingPhaseStart(order: seq<Project>, outcomeOf: Project -> FetchOutcome,
                           queued: seq<Status>, names: set<string>)
    requires UniqueNames(queued) && NameSet(queued) == names
    ensures BlockingPhase(order, 0, outcomeOf, queued, names, queued, [])
  {
    assert order[..0] == [];
    assert ProjectNames([]) == {};
  }

  /** Every project of an arrangement of the blocking projects has one of
      the manifest's names. */
  lemma OrderNamesKnown(projects: seq<Project>, order: seq<Project>)
    requires multiset(order) == multiset(Filter(projects, IsBlocking))
    ensures forall k :: 0 <= k < |order| ==> order[k].name in ProjectNames(projects)
  {
    forall k | 0 <= k < |order| ensures order[k].name in ProjectNames(projects) {
      assert order[k] in multiset(order);
    }
  }

  /** What the end of the blocking phase means for the projects of the
      manifest: blocking ones are settled, and those whose name no blocking
      project carries are still queued. */
  lemma BlockingPhaseDone(projects: seq<Project>, order: seq<Project>, outcomeOf: Project -> FetchOutcome,
                          queued: seq<Status>, s: seq<Status>, snaps: seq<seq<Status>>)
    requires multiset(order) == multiset(Filter(projects, IsBlocking))
    requires NameSet(queued) == ProjectNames(projects)
    requires forall x :: x in queued ==> x.state == Queued
    requires BlockingPhase(order, |order|, outcomeOf, queued, ProjectNames(projects), s, snaps)
    ensures FetchReports(order, outcomeOf, snaps, ProjectNames(projects))
    ensures forall p | p in projects && p.blocking :: Settled(s, p.name)
    ensures forall p | p in projects && p.name !in BlockingNames(projects) :: Tracks(s, p.name, Queued)
  {
    assert order[..|order|] == order;
    forall p | p in projects && p.blocking ensures Settled(s, p.name) {
      assert p in multiset(order);
      var k :| 0 <= k < |order| && order[k] == p;
    }
    forall p | p in projects && p.name !in BlockingNames(projects)
      ensures Tracks(s, p.name, Queued)
    {
      assert p.name !in ProjectNames(order) by {
        forall b | b in order ensures b.name != p.name {
          assert b in multiset(order);
          assert b in Filter(projects, IsBlocking);
        }
      }
      assert p.name in NameSet(queued);
    }
  }

  /** The tool: the loaded manifest and the directory projects go to. */
  class Tasc {
    var manifest: Manifest
    var destination: string

    constructor (manifest: Manifest, destination: string)
      ensures this.manifest == manifest && this.destination == destination
    {
      this.manifest := manifest;
      this.destination := destination;
    }

    /** The sequential part of `Assemble`: a new tracker queues every
        project, then the blocking projects are fetched one after another
        in `SortProject` order (`outcomeOf` gives each fetch's outcome), and
        finally the non-blocking projects are handed out, in `SortProject`
        order, to be fetched concurrently; `launched` is that list. */
    method Assemble(outcomeOf: Project -> FetchOutcome)
      returns (progress: Progress, launched: seq<Project>)
      ensures fresh(progress) && progress.Valid()
      ensures launched == SortProjects(Filter(manifest.projects, IsNonBlocking))
      ensures FetchReports(SortProjects(Filter(manifest.projects, IsBlocking)), outcomeOf,
                           progress.snapshots, ProjectNames(manifest.projects))
      ensures NameSet(progress.statuses) == ProjectNames(manifest.projects)
      ensures forall p | p in manifest.projects && p.blocking :: Settled(progress.statuses, p.name)
      ensures forall p | p in manifest.projects && p.name !in BlockingNames(manifest.projects) ::
        Tracks(progress.statuses, p.name, Queued)
    {
      progress := new Progress();
      progress.QueueProjects(manifest.projects);
      ghost var queued := progress.statuses;
      ghost var names := ProjectNames(manifest.projects);
      assert NameSet(queued) == names && forall x :: x in queued ==> x.state == Queued by {
        QueueFromEmpty(manifest.projects);
      }

      var sProjs, aProjs := manifest.BlockingProjects();

      sProjs := SortProjects(sProjs);
      BlockingPhaseStart(sProjs, outcomeOf, queued, names);
      OrderNamesKnown(manifest.projects, sProjs);
      var i := 0;
      while i < |sProjs|
        invariant 0 <= i <= |sProjs|
        invariant fresh(progress) && progress.Valid()
        invariant BlockingPhase(sProjs, i, outcomeOf, queued, names, progress.statuses, progress.snapshots)
      {
        assert sProjs[i].name in names;
        BlockingPhaseStep(sProjs, i, outcomeOf, queued, names, progress.statuses, progress.snapshots);
        Fetch(sProjs[i], outcomeOf(sProjs[i]), progress);
        i := i + 1;
      }
      BlockingPhaseDone(manifest.projects, sProjs, outcomeOf, queued, progress.statuses, progress.snapshots);

      // The non-blocking projects are handed, in this order, to goroutines
      // that fetch them concurrently; those fetches are not modelled.
      aProjs := SortProjects(aProjs);
      launched := aProjs;
    }

    /** `Patch`: every patch of the manifest is applied, in manifest order,
        and its result kept whether or not it failed; `outcome` gives the
        error each patcher returns. */
    method Patch(outcome: FilePatcher -> Option<string>) returns (results: seq<PatchResult>)
      ensures |results| == |manifest.patches|
      ensures forall i :: 0 <= i < |results| ==>
        results[i] == PatchResult(outcome(manifest.patches[i].patcher), manifest.patches[i].patcher)
    {
      results := [];
      var i := 0;
      while i < |manifest.patches|
        invariant 0 <= i <= |manifest.patches|
        invariant |results| == i
        invariant forall k :: 0 <= k < i ==>
          results[k] == PatchResult(outcome(manifest.patches[k].patcher), manifest.patches[k].patcher)
      {
        var patch := manifest.patches[i];
        var result := PatchResult(outcome(patch.patcher), patch.patcher);
        results := results + [result];
        i := i + 1;
      }
    }
  }
}
