/** The progress tracker: one status entry per project name, updated in
    place as projects are fetched, and a report table rendered from a
    sorted snapshot of the entries. */
module ProgressTracker {
  import opened Text
  import opened Sorting
  import opened Projects

  /** The lifecycle of a project's fetch. */
  datatype ProjectState = Queued | Processing | Success | Failed

  /** The state column of the report (`ProjectState.String`). */
  function StateName(s: ProjectState): string
  {
    match s
    case Queued => "queued"
    case Processing => "processing"
    case Success => "success"
    case Failed => "failed"
  }

  /** The four states are told apart in the report, and each name fits the
      ten-character state column. */
  lemma StateNamesDistinct(a: ProjectState, b: ProjectState)
    ensures a != b ==> StateName(a) != StateName(b)
    ensures 0 < |StateName(a)| <= 10
  {
  }

  /** The status of one project: the project it was first registered with
      and its current state. */
  datatype Status = Status(project: Project, state: ProjectState)

  // ---------------------------------------------------------------------
  // Ordering of the entries

  /** `SortStatus.Less`: is entry `a` (at index i) less than `b` (index j)? */
  predicate StatusLess(a: Status, b: Status)
  {
    if (a.project.sticky && b.project.sticky) || (!a.project.sticky && !b.project.sticky) then
      StrLess(a.project.name, b.project.name)
    else
      !b.project.sticky
  }

  /** Sticky entries get the lower rank, so they come first. */
  function StatusKey(st: Status): SortKey
  {
    SortKey(if st.project.sticky then 0 else 1, st.project.name)
  }

  lemma StatusLessIsKeyLess(a: Status, b: Status)
    ensures StatusLess(a, b) == KeyLess(StatusKey(a), StatusKey(b))
  {
  }

  /** How `SortStatus.Less` decides: by name when both entries are sticky or
      both are not, otherwise the sticky entry is the smaller; and no entry
      is less than itself. */
  lemma StatusLessCases(a: Status, b: Status)
    ensures a.project.sticky == b.project.sticky ==>
      StatusLess(a, b) == StrLess(a.project.name, b.project.name)
    ensures a.project.sticky != b.project.sticky ==> (StatusLess(a, b) <==> a.project.sticky)
    ensures !StatusLess(a, a)
  {
    StrLessIrreflexive(a.project.name);
  }

  /** The tracker's comparator and the project comparator disagree whenever
      stickiness differs: one puts the sticky project first, the other
      last. */
  lemma ComparatorsDisagreeOnStickiness(a: Status, b: Status)
    requires a.project.sticky != b.project.sticky
    ensures StatusLess(a, b) == !ProjectLess(a.project, b.project)
    ensures StatusLess(a, b) == ProjectLess(b.project, a.project)
  {
  }

  /** `sort.Sort(p.projectStatuses)`. */
  function SortStatuses(s: seq<Status>): (r: seq<Status>)
    ensures multiset(r) == multiset(s)
    ensures forall i, j :: 0 <= i < j < |r| ==> !StatusLess(r[j], r[i])
  {
    var r := SortBy(s, StatusKey);
    assert forall i, j :: 0 <= i < j < |r| ==> !StatusLess(r[j], r[i]) by {
      forall i, j | 0 <= i < j < |r| ensures !StatusLess(r[j], r[i]) {
        StatusLessIsKeyLess(r[j], r[i]);
      }
    }
    r
  }

  /** In the sorted entries every sticky entry precedes every non-sticky
      one, and entries of equal stickiness appear in name order. */
  lemma SortedStatusesLayout(s: seq<Status>)
    ensures var r := SortStatuses(s);
      forall i, j :: 0 <= i < j < |r| ==>
        && (r[j].project.sticky ==> r[i].project.sticky)
        && (r[i].project.sticky == r[j].project.sticky ==>
              !StrLess(r[j].project.name, r[i].project.name))
  {
    var r := SortStatuses(s);
    forall i, j | 0 <= i < j < |r|
      ensures r[j].project.sticky ==> r[i].project.sticky
    {
      assert !StatusLess(r[j], r[i]);
    }
  }

  /** With pairwise distinct names there is exactly one sorted order: any
      arrangement of the entries that `SortStatus.Less` calls sorted is
      the one `SortStatuses` gives, whatever sorting algorithm produced it. */
  lemma SortedOrderIsUnique(s: seq<Status>, t: seq<Status>)
    requires UniqueNames(s)
    requires multiset(t) == multiset(s)
    requires forall i, j :: 0 <= i < j < |t| ==> !StatusLess(t[j], t[i])
    ensures t == SortStatuses(s)
  {
    var r := SortStatuses(s);
    PermutationKeepsNames(s, r);
    assert Ordered(r, StatusKey) by {
      forall i, j | 0 <= i < j < |r| ensures !KeyLess(StatusKey(r[j]), StatusKey(r[i])) {
        StatusLessIsKeyLess(r[j], r[i]);
      }
    }
    assert Ordered(t, StatusKey) by {
      forall i, j | 0 <= i < j < |t| ensures !KeyLess(StatusKey(t[j]), StatusKey(t[i])) {
        StatusLessIsKeyLess(t[j], t[i]);
      }
    }
    OrderedPermutationUnique(r, t, StatusKey);
  }

  // ---------------------------------------------------------------------
  // Names

  /** No two entries carry the same project name. */
  ghost predicate UniqueNames(s: seq<Status>)
  {
    forall i, j :: 0 <= i < j < |s| ==> s[i].project.name != s[j].project.name
  }

  /** The project names that have an entry. */
  function NameSet(s: seq<Status>): set<string>
  {
    set x | x in s :: x.project.name
  }

  lemma NameSetSnoc(s: seq<Status>, x: Status)
    ensures NameSet(s + [x]) == NameSet(s) + {x.project.name}
  {
    assert forall y :: y in s + [x] <==> y in s || y == x;
  }

  lemma UniqueNamesSnoc(s: seq<Status>, x: Status)
    ensures UniqueNames(s + [x]) <==> UniqueNames(s) && x.project.name !in NameSet(s)
  {
    var t := s + [x];
    assert forall i :: 0 <= i < |s| ==> t[i] == s[i];
    assert t[|s|] == x;
  }

  /** Names are pairwise distinct exactly when there are as many distinct
      names as entries. */
  lemma {:induction false} UniqueNamesCardinality(s: seq<Status>)
    ensures |NameSet(s)| <= |s|
    ensures UniqueNames(s) <==> |NameSet(s)| == |s|
  {
    if |s| == 0 {
      assert NameSet(s) == {};
    } else {
      var init, x := s[..|s| - 1], s[|s| - 1];
      assert s == init + [x];
      UniqueNamesCardinality(init);
      NameSetSnoc(init, x);
      UniqueNamesSnoc(init, x);
    }
  }

  /** Reordering the entries keeps the set of names, and keeps them
      distinct. */
  lemma PermutationKeepsNames(s: seq<Status>, t: seq<Status>)
    requires multiset(t) == multiset(s)
    ensures NameSet(t) == NameSet(s)
    ensures UniqueNames(s) ==> UniqueNames(t)
  {
    assert forall x :: x in t <==> x in s by {
      forall x ensures x in t <==> x in s {
        assert x in t <==> x in multiset(t);
        assert x in s <==> x in multiset(s);
      }
    }
    assert |t| == |multiset(t)| == |s|;
    UniqueNamesCardinality(s);
    UniqueNamesCardinality(t);
  }

  /** Some entry is named `name`. */
  predicate HasName(s: seq<Status>, name: string)
  {
    exists i :: 0 <= i < |s| && s[i].project.name == name
  }

  /** Some entry is named `name` and is in state `state`. */
  ghost predicate Tracks(s: seq<Status>, name: string, state: ProjectState)
  {
    exists x :: x in s && x.project.name == name && x.state == state
  }

  /** With distinct names, a name is tracked in at most one state. */
  lemma TracksOneState(s: seq<Status>, name: string, q1: ProjectState, q2: ProjectState)
    requires UniqueNames(s)
    requires Tracks(s, name, q1) && Tracks(s, name, q2)
    ensures q1 == q2
  {
    var x :| x in s && x.project.name == name && x.state == q1;
    var y :| y in s && y.project.name == name && y.state == q2;
    var i :| 0 <= i < |s| && s[i] == x;
    var j :| 0 <= j < |s| && s[j] == y;
    assert i == j;
  }

  /** Reordering the entries does not change what is tracked. */
  lemma PermutationKeepsTracks(s: seq<Status>, t: seq<Status>)
    requires multiset(t) == multiset(s)
    ensures forall n, q :: Tracks(t, n, q) <==> Tracks(s, n, q)
  {
    assert forall x :: x in t <==> x in s by {
      forall x ensures x in t <==> x in s {
        assert x in t <==> x in multiset(t);
        assert x in s <==> x in multiset(s);
      }
    }
  }

  // ---------------------------------------------------------------------
  // Updating

  /** Every entry named `name` gets state `state`; its project is kept. */
  function SetState(s: seq<Status>, name: string, state: ProjectState): seq<Status>
  {
    seq(|s|, i requires 0 <= i < |s| =>
      if s[i].project.name == name then Status(s[i].project, state) else s[i])
  }

  /** What `AddStatus` does to the entries: overwrite the state of the
      entry with the same project name, or append the status when there is
      none. */
  function Upsert(s: seq<Status>, st: Status): seq<Status>
  {
    if HasName(s, st.project.name) then SetState(s, st.project.name, st.state)
    else s + [st]
  }

  /** A new name is appended as one entry carrying the given status. */
  lemma UpsertNewName(s: seq<Status>, st: Status)
    requires !HasName(s, st.project.name)
    ensures var r := Upsert(s, st);
      |r| == |s| + 1 && r[..|s|] == s && r[|s|] == st
  {
  }

  /** A known name keeps the length; the entry with that name takes the
      new state but keeps the project it was registered with, and every
      other entry is unchanged. */
  lemma UpsertExistingName(s: seq<Status>, st: Status)
    requires HasName(s, st.project.name)
    ensures var r := Upsert(s, st);
      && |r| == |s|
      && (forall i :: 0 <= i < |s| && s[i].project.name == st.project.name ==>
            r[i] == Status(s[i].project, st.state))
      && (forall i :: 0 <= i < |s| && s[i].project.name != st.project.name ==> r[i] == s[i])
  {
  }

  /** Upserting keeps names distinct and adds exactly the status's name. */
  lemma UpsertKeepsNamesUnique(s: seq<Status>, st: Status)
    requires UniqueNames(s)
    ensures UniqueNames(Upsert(s, st))
    ensures NameSet(Upsert(s, st)) == NameSet(s) + {st.project.name}
  {
    var n := st.project.name;
    var r := Upsert(s, st);
    if HasName(s, n) {
      assert forall i :: 0 <= i < |s| ==> r[i].project.name == s[i].project.name;
      assert forall x :: x in r ==> exists i :: 0 <= i < |r| && r[i] == x;
      assert NameSet(r) == NameSet(s) by {
        forall m | m in NameSet(s) ensures m in NameSet(r) {
          var x :| x in s && x.project.name == m;
          var i :| 0 <= i < |s| && s[i] == x;
          assert r[i] in r;
        }
      }
      var i :| 0 <= i < |s| && s[i].project.name == n;
      assert s[i] in s;
    } else {
      NameSetSnoc(s, st);
      UniqueNamesSnoc(s, st);
      assert n !in NameSet(s);
    }
  }

  /** After upserting, the status's name is tracked in the given state and
      every other name is tracked exactly as before. */
  lemma UpsertTracks(s: seq<Status>, st: Status)
    ensures Tracks(Upsert(s, st), st.project.name, st.state)
    ensures forall m, q :: m != st.project.name ==>
      (Tracks(Upsert(s, st), m, q) <==> Tracks(s, m, q))
  {
    var n := st.project.name;
    var r := Upsert(s, st);
    if HasName(s, n) {
      var i :| 0 <= i < |s| && s[i].project.name == n;
      assert r[i] in r;
      forall m, q | m != n ensures Tracks(r, m, q) <==> Tracks(s, m, q) {
        if Tracks(r, m, q) {
          var x :| x in r && x.project.name == m && x.state == q;
          var k :| 0 <= k < |r| && r[k] == x;
          assert s[k] in s;
        }
        if Tracks(s, m, q) {
          var x :| x in s && x.project.name == m && x.state == q;
          var k :| 0 <= k < |s| && s[k] == x;
          assert r[k] in r;
        }
      }
    } else {
      assert st in r;
    }
  }

  /** `QueueProjects`: register every project, in order, as queued. */
  function QueueAll(s: seq<Status>, ps: seq<Project>): seq<Status>
  {
    if |ps| == 0 then s
    else Upsert(QueueAll(s, ps[..|ps| - 1]), Status(ps[|ps| - 1], Queued))
  }

  /** The distinct names of a list of projects. */
  function ProjectNames(ps: seq<Project>): set<string>
  {
    set p | p in ps :: p.name
  }

  lemma ProjectNamesSnoc(ps: seq<Project>, p: Project)
    ensures ProjectNames(ps + [p]) == ProjectNames(ps) + {p.name}
  {
    assert forall q :: q in ps + [p] <==> q in ps || q == p;
  }

  /** Upserting a queued status keeps every entry queued. */
  lemma UpsertKeepsAllQueued(s: seq<Status>, st: Status)
    requires st.state == Queued
    requires forall x :: x in s ==> x.state == Queued
    ensures forall x :: x in Upsert(s, st) ==> x.state == Queued
  {
    var r := Upsert(s, st);
    if HasName(s, st.project.name) {
      forall x | x in r ensures x.state == Queued {
        var k :| 0 <= k < |r| && r[k] == x;
        assert s[k] in s;
      }
    }
  }

  /** Queueing a project list on an empty tracker gives one queued entry
      per distinct project name: duplicate names collapse into one. */
  lemma QueueFromEmpty(ps: seq<Project>)
    ensures var r := QueueAll([], ps);
      && UniqueNames(r)
      && NameSet(r) == ProjectNames(ps)
      && |r| == |ProjectNames(ps)|
      && (forall x :: x in r ==> x.state == Queued)
  {
    QueueFromEmptyNames(ps);
    UniqueNamesCardinality(QueueAll([], ps));
  }

  lemma {:induction false} QueueFromEmptyNames(ps: seq<Project>)
    ensures var r := QueueAll([], ps);
      && UniqueNames(r)
      && NameSet(r) == ProjectNames(ps)
      && (forall x :: x in r ==> x.state == Queued)
  {
    if |ps| > 0 {
      var init, p := ps[..|ps| - 1], ps[|ps| - 1];
      QueueFromEmptyNames(init);
      var r' := QueueAll([], init);
      var st := Status(p, Queued);
      assert QueueAll([], ps) == Upsert(r', st);
      UpsertKeepsNamesUnique(r', st);
      UpsertKeepsAllQueued(r', st);
      assert ps == init + [p];
      ProjectNamesSnoc(init, p);
    }
  }

  // ---------------------------------------------------------------------
  // The report

  /** The Blocking column of a row. */
  function BlockingLabel(st: Status): (r: string)
    ensures r == "BLOCKING" <==> st.project.blocking && st.state == Processing
    ensures r == "unblocked" <==> st.project.blocking && st.state != Processing
    ensures r == "No" <==> !st.project.blocking
    ensures |r| <= 9
  {
    if st.project.blocking && st.state == Processing then "BLOCKING"
    else if st.project.blocking then "unblocked"
    else "No"
  }

  /** The length, in code points, of the longest project name; 0 when there
      are no entries. */
  function MaxNameLength(s: seq<Status>): (r: nat)
    ensures forall x :: x in s ==> |x.project.name| <= r
    ensures |s| == 0 ==> r == 0
    ensures |s| > 0 ==> exists x :: x in s && |x.project.name| == r
  {
    if |s| == 0 then 0
    else
      var init, x := s[..|s| - 1], s[|s| - 1];
      assert s == init + [x];
      var m := MaxNameLength(init);
      if |x.project.name| > m then |x.project.name| else m
  }

  lemma MaxNameLengthStep(s: seq<Status>, i: nat)
    requires i < |s|
    ensures MaxNameLength(s[..i + 1]) ==
      if |s[i].project.name| > MaxNameLength(s[..i]) then |s[i].project.name| else MaxNameLength(s[..i])
  {
    assert s[..i + 1][..i] == s[..i];
  }

  /** The longest name does not depend on the order of the entries. */
  lemma MaxNameLengthPermutation(s: seq<Status>, t: seq<Status>)
    requires multiset(t) == multiset(s)
    ensures MaxNameLength(t) == MaxNameLength(s)
  {
    assert forall x :: x in t <==> x in s by {
      forall x ensures x in t <==> x in s {
        assert x in t <==> x in multiset(t);
        assert x in s <==> x in multiset(s);
      }
    }
    assert |t| == |multiset(t)| == |s|;
  }

  /** One table row: `| %-<w>s | %-9s | %10s |`. */
  function Row(name: string, flag: string, state: string, w: nat): string
  {
    "| " + PadRight(name, w) + " | " + PadRight(flag, 9) + " | " + PadLeft(state, 10) + " |\n"
  }

  /** The row under the header: `w` dashes, then the fixed dashes. */
  function SeparatorRow(w: nat): string
  {
    "| " + PadRight(Repeat('-', w), w) + " | " + PadRight("---------", 9) + "   "
      + PadLeft("----------", 10) + " |\n"
  }

  /** The line above and below the table. */
  function CapLine(w: nat): string
  {
    "__" + Repeat('_', w) + "___________________________\n"
  }

  /** The row of one entry: its name, its Blocking label and its state. */
  function EntryRow(st: Status, w: nat): string
  {
    Row(st.project.name, BlockingLabel(st), StateName(st.state), w)
  }

  function EntryRows(s: seq<Status>, w: nat): (rows: seq<string>)
    ensures |rows| == |s|
  {
    seq(|s|, i requires 0 <= i < |s| => EntryRow(s[i], w))
  }

  /** The header and the separator, the first two rows of the table. */
  function TableHead(w: nat): seq<string>
  {
    [Row("Projects", "Blocking", "Status", w), SeparatorRow(w)]
  }

  /** The lines of the report on (already sorted) entries `s`. */
  function ReportLines(s: seq<Status>): seq<string>
  {
    var w := MaxNameLength(s);
    [CapLine(w)] + (TableHead(w) + EntryRows(s, w)) + [CapLine(w)]
  }

  /** The report string sent for display. */
  function ReportText(s: seq<Status>): string
  {
    Concat(ReportLines(s))
  }

  /** The report is a cap line, the header, the separator, exactly one row
      per entry in the given order, and the same cap line again. */
  lemma ReportShape(s: seq<Status>)
    ensures var lines, w := ReportLines(s), MaxNameLength(s);
      && |lines| == |s| + 4
      && lines[0] == CapLine(w) && lines[|s| + 3] == CapLine(w)
      && lines[1] == Row("Projects", "Blocking", "Status", w)
      && lines[2] == SeparatorRow(w)
      && (forall i :: 0 <= i < |s| ==> lines[i + 3] == EntryRow(s[i], w))
  {
    var w := MaxNameLength(s);
    var head, rows, lines := TableHead(w), EntryRows(s, w), ReportLines(s);
    assert lines == [CapLine(w)] + (head + rows) + [CapLine(w)];
    Framed(CapLine(w), head, rows, lines);
    assert head[0] == Row("Projects", "Blocking", "Status", w);
    assert head[1] == SeparatorRow(w);
    forall i | 0 <= i < |s| ensures lines[i + 3] == EntryRow(s[i], w) {
      assert lines[i + 3] == rows[i];
    }
  }

  /** Positions in a sequence `l` framed by `a`, with the two elements of
      `h` after the opening `a`, then `r`. */
  lemma Framed<T>(a: T, h: seq<T>, r: seq<T>, l: seq<T>)
    requires |h| == 2 && l == [a] + (h + r) + [a]
    ensures |l| == |r| + 4 && l[0] == a && l[1] == h[0] && l[2] == h[1] && l[|r| + 3] == a
    ensures forall i :: 0 <= i < |r| ==> l[i + 3] == r[i]
  {
  }

  /** The width of a row: the three columns at their minimum widths (or
      wider when the text is longer), plus eleven characters of borders. */
  lemma RowWidth(name: string, flag: string, state: string, w: nat)
    ensures |Row(name, flag, state, w)| ==
      (if |name| < w then w else |name|) + (if |flag| < 9 then 9 else |flag|)
        + (if |state| < 10 then 10 else |state|) + 11
  {
  }

  /** Column widths follow the longest name: the dashes of the separator
      and the underscores of the cap number exactly that many, and every
      entry row, the separator and the cap line have the same width. The
      header row matches them only when the longest name has at least as
      many code points as the word "Projects". */
  lemma ReportAligned(s: seq<Status>)
    ensures var w := MaxNameLength(s);
      && |Repeat('-', w)| == w && |Repeat('_', w)| == w
      && |CapLine(w)| == w + 30
      && |SeparatorRow(w)| == w + 30
      && (forall i :: 0 <= i < |s| ==> |EntryRow(s[i], w)| == w + 30)
      && (|Row("Projects", "Blocking", "Status", w)| == w + 30 <==> w >= 8)
  {
    var w := MaxNameLength(s);
    forall i | 0 <= i < |s| ensures |EntryRow(s[i], w)| == w + 30 {
      assert s[i] in s;
      StateNamesDistinct(s[i].state, s[i].state);
      RowWidth(s[i].project.name, BlockingLabel(s[i]), StateName(s[i].state), w);
    }
    RowWidth("Projects", "Blocking", "Status", w);
  }

  /** The report text is the cap line, the concatenated header and entry
      rows, and the cap line again. */
  lemma ReportTextSplit(s: seq<Status>)
    ensures var w := MaxNameLength(s);
      ReportText(s) == CapLine(w) + Concat(TableHead(w) + EntryRows(s, w)) + CapLine(w)
  {
    var w := MaxNameLength(s);
    ConcatFramed(CapLine(w), TableHead(w) + EntryRows(s, w), ReportLines(s));
  }

  lemma HeadText(w: nat)
    ensures Concat(TableHead(w)) == Row("Projects", "Blocking", "Status", w) + SeparatorRow(w)
  {
    var header := Row("Projects", "Blocking", "Status", w);
    assert TableHead(w) == [header] + [SeparatorRow(w)];
    ConcatSnoc([header], SeparatorRow(w));
    ConcatSingle(header);
  }

  /** One more entry row extends the report text by that row. */
  lemma RowStep(report: string, rows: seq<string>, j: nat, row: string, next: string,
                st: Status, flag: string, w: nat)
    requires j < |rows| && rows[j] == EntryRow(st, w)
    requires report == Concat(rows[..j])
    requires flag == BlockingLabel(st)
    requires row == Row(st.project.name, flag, StateName(st.state), w)
    requires next == report + row
    ensures next == Concat(rows[..j + 1])
  {
    ConcatPrefixStep(rows, j);
  }

  /** The row loop of the report: one row per entry, in order, with the
      entry's Blocking label and state. */
  method TableRows(sorted: seq<Status>, length: nat) returns (text: string)
    ensures text == Concat(EntryRows(sorted, length))
  {
    ghost var rows := EntryRows(sorted, length);
    ConcatPrefixEnds(rows);
    text := "";
    var j := 0;
    while j < |sorted|
      invariant 0 <= j <= |sorted|
      invariant text == Concat(rows[..j])
    {
      var status := sorted[j];
      var blocking := "No";
      if status.project.blocking && status.state == Processing {
        blocking := "BLOCKING";
      } else if status.project.blocking && status.state != Processing {
        blocking := "unblocked";
      }
      var row := Row(status.project.name, blocking, StateName(status.state), length);
      var next := text + row;
      RowStep(text, rows, j, row, next, status, blocking, length);
      text := next;
      j := j + 1;
    }
  }

  /** The report assembled from its parts is the rendering of the entries. */
  lemma ReportFromParts(s: seq<Status>, w: nat, dashes: string, underscores: string,
                        header: string, sep: string, rows: string, cap: string)
    requires w == MaxNameLength(s)
    requires dashes == Repeat('-', w) && underscores == Repeat('_', w)
    requires header == Row("Projects", "Blocking", "Status", w)
    requires sep == "| " + PadRight(dashes, w) + " | " + PadRight("---------", 9)
      + "   " + PadLeft("----------", 10) + " |\n"
    requires rows == Concat(EntryRows(s, w))
    requires cap == "__" + underscores + "___________________________\n"
    ensures cap + (header + sep + rows) + cap == ReportText(s)
  {
    ReportTextSplit(s);
    HeadText(w);
    ConcatAppend(TableHead(w), EntryRows(s, w));
  }

  /** Every report sent is the rendering of the snapshot taken for it. */
  ghost predicate Rendered(log: seq<string>, snapshots: seq<seq<Status>>)
  {
    && |log| == |snapshots|
    && (forall k :: 0 <= k < |log| ==> log[k] == ReportText(snapshots[k]))
  }

  lemma RenderedSnoc(log: seq<string>, snapshots: seq<seq<Status>>, s: seq<Status>)
    requires Rendered(log, snapshots)
    ensures Rendered(log + [ReportText(s)], snapshots + [s])
  {
  }

  /** The tracker. `statuses` is the list of entries; `log` stands for the
      channel the reports are sent on, and `snapshots` records the sorted
      entries each report was rendered from. */
  class Progress {
    var statuses: seq<Status>
    ghost var log: seq<string>
    ghost var snapshots: seq<seq<Status>>

    /** Names are distinct, and every report sent is the rendering of the
        snapshot taken for it. */
    ghost predicate Valid()
      reads this
    {
      UniqueNames(statuses) && Rendered(log, snapshots)
    }

    /** `NewProgress`: an empty tracker. */
    constructor ()
      ensures Valid()
      ensures statuses == [] && log == [] && snapshots == []
    {
      statuses := [];
      log := [];
      snapshots := [];
    }

    /** Update the state of the entry named like `status`'s project, or
        append `status` when there is no such entry. */
    method AddStatus(status: Status)
      requires Valid()
      modifies this
      ensures Valid()
      ensures statuses == Upsert(old(statuses), status)
      ensures log == old(log) && snapshots == old(snapshots)
    {
      ghost var s0 := statuses;
      var name := status.project.name;
      var found := false;
      var i := 0;
      while i < |statuses|
        invariant 0 <= i <= |statuses| == |s0|
        invariant found <==> exists k :: 0 <= k < i && s0[k].project.name == name
        invariant forall k :: 0 <= k < i ==>
          statuses[k] == (if s0[k].project.name == name then Status(s0[k].project, status.state) else s0[k])
        invariant forall k :: i <= k < |s0| ==> statuses[k] == s0[k]
        invariant log == old(log) && snapshots == old(snapshots)
      {
        if statuses[i].project.name == name {
          statuses := statuses[i := Status(statuses[i].project, status.state)];
          found := true;
        }
        i := i + 1;
      }
      if !found {
        statuses := statuses + [status];
      }
      UpsertKeepsNamesUnique(s0, status);
    }

    /** `Add`: record `state` for `project`. */
    method Add(project: Project, state: ProjectState)
      requires Valid()
      modifies this
      ensures Valid()
      ensures statuses == Upsert(old(statuses), Status(project, state))
      ensures log == old(log) && snapshots == old(snapshots)
    {
      AddStatus(Status(project, state));
    }

    /** Register every project of the list as queued. */
    method QueueProjects(projects: seq<Project>)
      requires Valid()
      modifies this
      ensures Valid()
      ensures statuses == QueueAll(old(statuses), projects)
      ensures log == old(log) && snapshots == old(snapshots)
    {
      var i := 0;
      while i < |projects|
        invariant 0 <= i <= |projects|
        invariant Valid()
        invariant statuses == QueueAll(old(statuses), projects[..i])
        invariant log == old(log) && snapshots == old(snapshots)
      {
        assert projects[..i + 1][..i] == projects[..i];
        AddStatus(Status(projects[i], Queued));
        i := i + 1;
      }
      assert projects[..|projects|] == projects;
    }

    /** The length of the longest project name, in code points. */
    method LongestProjectNameLength() returns (length: nat)
      ensures length == MaxNameLength(statuses)
    {
      length := 0;
      var i := 0;
      while i < |statuses|
        invariant 0 <= i <= |statuses|
        invariant length == MaxNameLength(statuses[..i])
      {
        MaxNameLengthStep(statuses, i);
        var l := |statuses[i].project.name|;
        if l > length {
          length := l;
        }
        i := i + 1;
      }
      assert statuses[..|statuses|] == statuses;
    }

    /** Sort the entries and send the rendered table. */
    method Report()
      requires Valid()
      modifies this
      ensures Valid()
      ensures statuses == SortStatuses(old(statuses))
      ensures snapshots == old(snapshots) + [statuses]
      ensures log == old(log) + [ReportText(statuses)]
    {
      var length := LongestProjectNameLength();

      var sepString, capString := "", "";
      var i := 0;
      while i < length
        invariant 0 <= i <= length
        invariant sepString == Repeat('-', i) && capString == Repeat('_', i)
      {
        sepString := sepString + "-";
        capString := capString + "_";
        i := i + 1;
      }
      var cap := "__" + capString + "___________________________\n";

      var report := Row("Projects", "Blocking", "Status", length);
      var sep := "| " + PadRight(sepString, length) + " | " + PadRight("---------", 9)
        + "   " + PadLeft("----------", 10) + " |\n";
      ghost var header := report;
      report := report + sep;

      ghost var s0 := statuses;
      statuses := SortStatuses(statuses);
      var rows := TableRows(statuses, length);
      report := report + rows;
      report := cap + report + cap;
      MaxNameLengthPermutation(s0, statuses);
      ReportFromParts(statuses, length, sepString, capString, header, sep, rows, cap);
      assert UniqueNames(statuses) by { PermutationKeepsNames(s0, statuses); }
      RenderedSnoc(log, snapshots, statuses);
      log := log + [report];
      snapshots := snapshots + [statuses];
    }
  }
}
