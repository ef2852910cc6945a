# tasc: a verified model of the assembly core

tasc assembles a source tree from a YAML manifest. The manifest lists
projects (each fetched by git, svn, a local copy or an archive download)
and patches (each applied with the `patch` command). Before decoding,
every `{param}` placeholder in the manifest text is replaced by its value.
While fetching, a progress tracker keeps one status entry per project name
and sends a rendered table after every update. Projects tagged `blocking`
are fetched first, one at a time in sorted order. The others are then
launched concurrently. Finally every patch is applied and its result kept.

This project models that core in Dafny:

- `optional.dfy` (`Optional`): the option type.
- `text.dfy` (`Text`): Go's `strings.Split`, `strings.Join` and
  `strings.Replace` for a non-empty separator; the last `/` segment of a
  path; Go's string `<`; `fmt` padding.
- `seqs.dfy` (`Seqs`): order-preserving filtering, the shape of the
  append-in-a-loop filters.
- `sorting.dfy` (`Sorting`): `sort.Sort` as insertion sort on a two-part key.
- `raw.dfy` (`Raw`): the loosely typed values the YAML decoder produces.
- `project.dfy` (`Projects`): projects, their comparator, name inference
  and construction from a manifest entry.
- `progress.dfy` (`ProgressTracker`): the tracker, a class over a
  `seq<Status>` whose reports are appended to a ghost log. The log sits
  beside ghost snapshots of the sorted entries each report was rendered
  from.
- `patch.dfy` (`Patches`): patches and the success/failure split of their
  results.
- `manifest.dfy` (`Manifests`): the manifest class, the blocking split,
  decoding of entries, and parameter substitution with its errors.
- `tasc.dfy` (`Assembly`): `Fetch`, the sequential part of `Assemble`,
  and `Tasc.Patch`.

The two comparators are deliberately modelled as the code has them, and
they disagree. `SortStatus.Less` (progress.go:61) puts sticky entries
first. `SortProject.Less` (project.go:31) puts non-sticky projects first.
`ProgressTracker.ComparatorsDisagreeOnStickiness` states the difference.

## Model

| member | source | states |
|---|---|---|
| ProgressTracker.StateName | progress.go:25-40 | the state column text: "queued", "processing", "success", "failed" |
| ProgressTracker.StatusLess | progress.go:53-62 | `SortStatus.Less`: by name when both or neither are sticky, otherwise true exactly when the right-hand entry is not sticky |
| ProgressTracker.SetState | progress.go:89-95 | every entry carrying the name takes the new state and keeps the project it was registered with |
| ProgressTracker.Upsert | progress.go:85-103 | the entries after `AddStatus`: the state is set when the name is present, otherwise the status is appended |
| ProgressTracker.QueueAll | progress.go:113-118 | the entries after upserting every project of the list as queued, in list order |
| ProgressTracker.Row | progress.go:139-140 | one table row: the name padded right to `w`, the label padded right to 9, the state padded left to 10, between bar borders, then a newline |
| ProgressTracker.SeparatorRow | progress.go:143-153 | the separator row: `w` dashes, nine dashes and ten dashes in the separator format |
| ProgressTracker.CapLine | progress.go:146-150 | the cap line: two underscores, `w` underscores, 27 underscores and a newline |
| ProgressTracker.ReportLines | progress.go:150-170 | the cap line, the header row, the separator row, one row per entry, and the cap line, with `w` the longest name length |
| ProgressTracker.ReportText | progress.go:134-170 | the report string: the lines of the table concatenated |
| Projects.ProjectLess | project.go:23-32 | `SortProject.Less`: by name when both or neither are sticky, otherwise true exactly when the right-hand project is sticky |
| Projects.FetcherFor | project.go:54-84 | the provider switch: git, svn, local, and the archive fetcher for everything else |
| Projects.ProjectFromMap | project.go:51-105 | the project an entry describes: the inferred name, the provider's fetcher and the two tag flags |
| Manifests.Entries | manifest.go:65-71 | the entries under a top-level key, none when the key is missing |
| Manifests.Substitute | manifest.go:89-92 | the text after replacing each parameter's placeholder by its value, parameter by parameter in order |
| Assembly.AfterStep | tasc.go:18-22 | the entries after one `Add` followed by `Report`: the upsert, sorted |
| Text.Replace | manifest.go:91 | `strings.Replace(s, pat, rep, -1)`: every leftmost non-overlapping occurrence of the pattern becomes the replacement |
| Text.Join | manifest.go:91 | `strings.Join`, the partner by which `Replace` is characterised |
| Text.StrLess | progress.go:58 | Go's `<` on strings, compared code point by code point |
| Text.LastSegment | project.go:42-44 | `tokens[len(tokens)-1]` of `strings.Split(s, "/")` |
| Raw.StrField | project.go:36 | `v, _ := mp[key].(string)`: the string under the key, or "" when it is missing or not a string |
| Raw.HasTag | project.go:87-102 | the tags value is a list holding the given string |
| ProgressTracker.StateNamesDistinct | progress.go:25-40 | the four states render as four different strings, each non-empty and at most ten characters (the width of the state column) |
| ProgressTracker.StatusLessIsKeyLess | progress.go:53-62 | `SortStatus.Less` is the lexicographic order on (0 for sticky / 1 for not, name) |
| ProgressTracker.StatusLessCases | progress.go:53-62 | entries of equal stickiness compare by name; when stickiness differs the sticky entry is the smaller; no entry is less than itself |
| ProgressTracker.ComparatorsDisagreeOnStickiness | progress.go:61 | when stickiness differs, `SortStatus.Less` gives the opposite answer to `SortProject.Less` on the same projects |
| ProgressTracker.SortStatuses | progress.go:155 | the sorted entries are a permutation of the input (as a multiset) and no entry is less than one before it |
| ProgressTracker.SortedStatusesLayout | progress.go:155 | after sorting, every sticky entry precedes every non-sticky one, and entries of equal stickiness appear in name order |
| ProgressTracker.SortedOrderIsUnique | progress.go:155 | with distinct names, any permutation ordered by `SortStatus.Less` equals the modelled sort result, whatever algorithm produced it |
| ProgressTracker.NameSetSnoc | progress.go:99 | appending an entry adds exactly its name to the set of names |
| ProgressTracker.UniqueNamesSnoc | progress.go:97-100 | appending keeps names distinct exactly when the new name was absent |
| ProgressTracker.UniqueNamesCardinality | progress.go:85-103 | names are pairwise distinct exactly when the number of distinct names equals the number of entries |
| ProgressTracker.PermutationKeepsNames | progress.go:155 | reordering keeps the set of names and keeps them distinct |
| ProgressTracker.TracksOneState | progress.go:85-103 | with distinct names, a name is tracked in at most one state |
| ProgressTracker.PermutationKeepsTracks | progress.go:155 | reordering does not change which name is in which state |
| ProgressTracker.UpsertNewName | progress.go:97-100 | for a name not present: the length grows by one, the old entries are kept as a prefix, and the new last entry is the given status |
| ProgressTracker.UpsertExistingName | progress.go:89-95 | for a present name: the length is unchanged, the entry with that name takes the new state and keeps its project, and every other entry is unchanged |
| ProgressTracker.UpsertKeepsNamesUnique | progress.go:85-103 | the upsert keeps names pairwise distinct and adds exactly the status's name |
| ProgressTracker.UpsertTracks | progress.go:85-103 | after the upsert the name is tracked in the given state and every other name keeps exactly its states |
| ProgressTracker.ProjectNamesSnoc | progress.go:113-118 | one more project adds exactly its name to the project names |
| ProgressTracker.UpsertKeepsAllQueued | progress.go:115-116 | upserting a queued status into all-queued entries leaves them all queued |
| ProgressTracker.QueueFromEmpty | progress.go:113-118 | queueing a list on an empty tracker gives distinct names, exactly the projects' names, one entry per distinct name (duplicates collapse), all queued |
| ProgressTracker.QueueFromEmptyNames | progress.go:113-118 | the induction behind `QueueFromEmpty`: distinct names, exactly the projects' names, all queued |
| ProgressTracker.BlockingLabel | progress.go:157-164 | the label is "BLOCKING" iff the project is blocking and Processing, "unblocked" iff blocking in any other state, and "No" iff not blocking |
| ProgressTracker.MaxNameLength | progress.go:121-131 | the result bounds every name's length, is reached by some entry, and is 0 when there are no entries |
| ProgressTracker.MaxNameLengthStep | progress.go:123-127 | one more entry raises the maximum exactly when its name is longer |
| ProgressTracker.MaxNameLengthPermutation | progress.go:136-155 | the longest name does not depend on the order of the entries, so measuring before sorting is sound |
| ProgressTracker.ReportShape | progress.go:150-170 | the report is the cap line, the header row, the separator, exactly one row per entry in sorted order, and the same cap line again |
| ProgressTracker.RowWidth | progress.go:139-140 | a row is as wide as its three columns (name at least the longest-name width, label at least 9, state at least 10) plus 11 border characters |
| ProgressTracker.ReportAligned | progress.go:146-153 | the dashes and underscores number exactly the longest-name length; cap, separator and every entry row share one width; the header row matches it only when the longest name has at least 8 code points |
| ProgressTracker.ReportTextSplit | progress.go:170 | the report text is the cap line, the concatenated table rows and the cap line again |
| ProgressTracker.HeadText | progress.go:152-153 | the table starts with the header row followed by the separator row |
| ProgressTracker.RowStep | progress.go:166 | appending the next entry's row extends the text of the rows so far by that entry's row |
| ProgressTracker.TableRows | progress.go:156-167 | the row loop produces the concatenation of one row per sorted entry, with the label and state of that entry |
| ProgressTracker.ReportFromParts | progress.go:146-170 | the cap, header, separator and rows as `Report` builds them make up the rendering of the entries |
| ProgressTracker.RenderedSnoc | progress.go:171 | sending the rendering of a snapshot keeps every sent report equal to the rendering of its snapshot |
| ProgressTracker.Progress.constructor | progress.go:75-81 | a new tracker has no entries and has sent nothing |
| ProgressTracker.Progress.AddStatus | progress.go:85-103 | the entries become the upsert of the status (distinct names kept); nothing is sent |
| ProgressTracker.Progress.Add | progress.go:106-110 | `Add` is `AddStatus` of the project in that state |
| ProgressTracker.Progress.QueueProjects | progress.go:113-118 | every project is upserted as queued, in list order; nothing is sent |
| ProgressTracker.Progress.LongestProjectNameLength | progress.go:121-131 | the loop returns the maximum name length in code points |
| ProgressTracker.Progress.Report | progress.go:134-172 | the entries are sorted in place, and exactly one report is sent: the rendering of the sorted entries, recorded with its snapshot |
| Projects.ProjectLessIsKeyLess | project.go:23-32 | `SortProject.Less` is the lexicographic order on (0 for non-sticky / 1 for sticky, name) |
| Projects.ProjectLessCases | project.go:23-32 | projects of equal stickiness compare by name; when stickiness differs the non-sticky one is the smaller; no project is less than itself |
| Projects.SortProjects | project.go:23-32 | the sorted projects are a permutation of the input and no project is less than one before it |
| Projects.SortedProjectsLayout | project.go:23-32 | after sorting, every non-sticky project precedes every sticky one, and projects of equal stickiness appear in name order |
| Projects.InferProjectName | project.go:35-48 | the name is the rename when non-empty; else the part after the last `/` of the source when that is non-empty; else "No Name"; it is never empty |
| Projects.ProviderDispatch | project.go:54-84 | "git", "svn" and "local" select their fetchers and every other provider (including "zip" or none) the archive fetcher; each fetcher gets the entry's source and destination |
| Projects.NewProjectFromMap | project.go:51-105 | the project is named by `InferProjectName`, its fetcher is chosen by provider, and `blocking`/`sticky` are set iff the tags value is a list containing that string |
| Manifests.SubstitutionStep | manifest.go:91 | one replacement cuts the text at every placeholder occurrence (the pieces contain none and rejoin to the text) and joins the pieces with the value |
| Manifests.SubstituteWithoutTokens | manifest.go:89-92 | text containing no parameter's placeholder is unchanged by the substitution |
| Manifests.SubstituteIdentity | manifest.go:89-92 | parameters whose value is their own placeholder leave the text unchanged |
| Manifests.ProjectsOfStep | manifest.go:65-68 | one more entry appends its project |
| Manifests.PatchesOfStep | manifest.go:71-74 | one more entry appends its patch |
| Manifests.BlockingPartition | manifest.go:39-52 | the blocking and non-blocking selections hold every project exactly once between them, the lengths add up, and each selection distributes over concatenation, so order is kept |
| Manifests.Manifest.constructor | manifest.go:33-36 | a new manifest has no projects and no patches |
| Manifests.Manifest.BlockingProjects | manifest.go:39-52 | the first result is exactly the blocking projects and the second exactly the others, each in manifest order |
| Manifests.Manifest.UnmarshalYAML | manifest.go:56-77 | a decoder error is returned with nothing changed; otherwise one project per "projects" entry and one patch per "patches" entry are appended, in entry order |
| Manifests.Manifest.Load | manifest.go:80-101 | a read failure gives `LoadError("Error loading")`; otherwise the parameters are substituted in order, and a decode failure gives `ParseError("Error parsing")` with nothing changed; otherwise no error and the decoded entries are appended |
| Patches.PatchFromMap | patcher/patch.go:12-30 | the name is the part after the last `/` of the source, empty iff the source is empty or ends in `/`; every type gives a file patcher with the entry's source and destination |
| Patches.GetSuccess | patcher/patch.go:42-52 | exactly the results without an error are selected |
| Patches.GetFailed | patcher/patch.go:55-65 | exactly the results with an error are selected |
| Patches.SelectionKeepsOrder | patcher/patch.go:42-65 | both selections distribute over concatenation (original order is kept) and select a single result exactly when it lacks (has) an error |
| Patches.SuccessFailedPartition | patcher/patch.go:42-65 | the two lists are disjoint, their lengths add up to the input's, together they hold every result as often as the input does, and no results give two empty lists |
| Assembly.Terminal | tasc.go:19-23 | a fetch ends in Success iff the fetcher returned no error, else in Failed |
| Assembly.StepTracks | tasc.go:18 | an update followed by a report keeps names distinct, adds the project's name, tracks it in the new state and leaves every other name as it was |
| Assembly.Fetch | tasc.go:17-24 | two updates with a report after each: the first snapshot is after marking Processing, the second after marking the outcome's terminal state; exactly two reports are sent |
| Assembly.FetchProtocol | tasc.go:17-24 | the first report shows the project Processing, the second shows it Success or Failed by outcome (and no longer Processing), and every other name keeps its state |
| Assembly.FetchReportsSnoc | tasc.go:39-41 | the reports of one more fetch extend the report sequence of the blocking phase |
| Assembly.ProjectNamesPrefixStep | tasc.go:39-41 | one more fetched project adds its name to the fetched names |
| Assembly.BlockingPhaseStep | tasc.go:39-41 | fetching the next blocking project keeps the phase invariant: its reports come next, it is settled, and names not yet fetched are untouched |
| Assembly.SettledStep | tasc.go:39-41 | projects already fetched stay settled, and the new one is settled |
| Assembly.UntouchedStep | tasc.go:39-41 | names not yet fetched keep the states they had when queued |
| Assembly.BlockingPhaseStart | tasc.go:28-29 | before the first fetch the tracker holds the queued entries and no report was sent |
| Assembly.OrderNamesKnown | tasc.go:35-38 | each sorted blocking project carries a name of the manifest |
| Assembly.BlockingPhaseDone | tasc.go:35-41 | after the loop, the reports are two per blocking project in sorted order, every blocking project is settled, and every project not sharing a blocking project's name is still queued |
| Assembly.Tasc.constructor | tasc.go:11-14 | the tool holds the given manifest and destination |
| Assembly.Tasc.Assemble | tasc.go:27-55 | all projects are queued first; the blocking ones are fetched in `SortProject` order with two reports each and end settled; every project whose name no blocking project carries is still queued; the non-blocking projects are then handed out in `SortProject` order |
| Assembly.Tasc.Patch | tasc.go:58-67 | exactly one result per manifest patch, in manifest order, whatever earlier patches returned |
| Text.Split | project.go:42 | splitting gives at least one piece |
| Text.ReplaceIsJoinOfSplit | manifest.go:91 | replacing every occurrence equals splitting at the pattern and joining with the replacement |
| Text.JoinSplitRoundTrip | manifest.go:91 | joining the pieces with the separator gives the text back |
| Text.SplitPiecesAvoidSeparator | manifest.go:91 | no piece contains the separator |
| Text.ReplaceBySelf | manifest.go:91 | replacing a pattern by itself changes nothing |
| Text.ReplaceAbsent | manifest.go:91 | text not containing the pattern is unchanged |
| Text.SplitLastPiece | project.go:42-44 | the last piece of a split at one character is the part after its last occurrence |
| Text.LastSegmentSpec | patcher/patch.go:19-20 | the last `/` segment is the suffix after the final `/` (all of the text when there is none), empty iff the text is empty or ends in `/` |
| Text.StrLessIrreflexive | progress.go:58 | no string is less than itself |
| Text.StrLessTransitive | progress.go:58 | string order is transitive |
| Text.StrLessTotal | progress.go:58 | two different strings are ordered one way round |
| Text.StrLessAsymmetric | progress.go:58 | no two strings are each less than the other |
| Text.Repeat | progress.go:146-149 | `n` copies of the character |
| Text.PadRight | progress.go:139 | `%-Ns` pads on the right with spaces to N code points, keeping longer text whole |
| Text.PadLeft | progress.go:139 | `%Ns` pads on the left with spaces to N code points, keeping longer text whole |
| Text.ConcatAppend | progress.go:166 | concatenating two lists of lines concatenates their texts |
| Sorting.KeyLessIrreflexive | progress.go:53-62 | no key is less than itself |
| Sorting.KeyLessAsymmetric | progress.go:53-62 | no two keys are each less than the other |
| Sorting.KeyLessTotal | progress.go:53-62 | two different keys are ordered one way round |
| Sorting.NotLessTransitive | progress.go:53-62 | "not less than" is transitive |
| Sorting.Insert | progress.go:155 | insertion adds one element to the multiset and keeps an ordered list ordered |
| Sorting.SortBy | progress.go:155 | the result is an ordered permutation of the input |
| Sorting.OrderedPermutationUnique | progress.go:155 | with distinct keys there is only one ordered permutation |
| Seqs.Filter | manifest.go:43-49 | the selection holds exactly the elements of the input that pass the test |
| Seqs.FilterAppend | manifest.go:43-49 | the selection of a concatenation is the concatenation of the selections |
| Seqs.FilterPartition | manifest.go:43-49 | selecting by a test and by its negation splits the input: the lengths and the multisets add up |

## Left out

- The fetchers (git clone and checkout, `svn co`, HTTP download with
  archive extraction, recursive copy) are I/O. A fetch is an abstract
  outcome, `Fetched` or `FetchFailed`, given by a function of the project.
  Two projects with equal fields therefore get the same outcome.
- fetcher/gitfetcher.go:53-56 panics when the checkout fails, while a
  clone failure is an ordinary error. A panic is not modelled.
- tasc.go:19 calls the fetcher with the destination and the wait group,
  while the interface at fetcher/fetcher.go:7 takes only a base directory.
  The model abstracts the call away, so the mismatch plays no part.
- Running the external `patch` command (patcher/filepatcher.go) is left
  out. A patcher's error is a function of the patcher.
- main.go (flags, JSON parameters, the terminal writer, printing of patch
  counts) is not part of this model.
- Reading the manifest file and YAML decoding are parameters of `Load`:
  the file's content or `None`, and a decode function. Decoded data is
  modelled as maps from keys to strings, lists or other values.
- Go iterates a parameter map in an unspecified order. The model takes
  the parameters as a sequence, substituted in that order.
- Concurrency is left out:
  - the goroutines that fetch the non-blocking projects;
  - the wait group and the closing of the channel (tasc.go:31-32, 51-54);
  - the tracker's mutex;
  - the blocking of a channel send.
  The tracker is single-threaded, and each send appends to a ghost log.
  `Assemble` returns the order in which the non-blocking projects are
  launched; their fetches are not modelled.
- Projects.NewProjectFromMap: a `tags` key that holds null makes
  project.go:89 panic (`reflect.TypeOf` of nil has no kind). The model
  reads null like any other non-list value and gives a project without
  tags.
- Manifests.Manifest.Load: because of that panic, a manifest with a null
  `tags` value crashes the Go program, while the model returns no error.
- Assembly.Tasc.Assemble: `destination` is not passed to the abstract
  fetch.
- Sorting.SortBy: Go's `sort.Sort` is not stable and is not insertion sort
  on long inputs. With distinct names the sorted order is unique
  (`ProgressTracker.SortedOrderIsUnique`), so this matters only for ties
  between project lists with duplicate names.
- Text.StrLess: Go compares strings bytewise. The model compares code
  points, which agrees on valid UTF-8; invalid UTF-8 is not modelled.
- The `%-Ns`/`%Ns` padding counts code points, as `fmt` does for strings.
  `fmt`'s other verbs and flags are not modelled.
