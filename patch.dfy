/** Patches named in the manifest, and the split of patch results into
    successes and failures. */
module Patches {
  import opened Text
  import opened Raw
  import opened Seqs
  import opened Optional

  /** A patch applied with the external `patch` command: the patch file and
      the directory it is applied to. Running the command is outside this
      model. */
  datatype FilePatcher = FilePatcher(source: string, destination: string)

  datatype Patch = Patch(name: string, patcher: FilePatcher)

  /** `NewPatchFromMap`: the patch is named after the last `/`-separated
      segment of its source, which is empty when the source is empty or
      ends in `/`. Every `type`, known or not, selects the file patcher. */
  function PatchFromMap(mp: Entry): (p: Patch)
    ensures p.patcher == FilePatcher(StrField(mp, "source"), StrField(mp, "destination"))
    ensures IsTailAfterLast(StrField(mp, "source"), '/', p.name)
    ensures var source := StrField(mp, "source");
      p.name == "" <==> source == "" || source[|source| - 1] == '/'
  {
    var source := StrField(mp, "source");
    LastSegmentSpec(source);
    Patch(LastSegment(source), FilePatcher(source, StrField(mp, "destination")))
  }

  /** What applying one patch gave: the error, if any, and the patcher. */
  datatype PatchResult = PatchResult(error: Option<string>, patcher: FilePatcher)

  predicate NoError(r: PatchResult)
  {
    r.error.None?
  }

  predicate HasError(r: PatchResult)
  {
    r.error.Some?
  }

  /** `PatchResults.GetSuccess`: the results without an error. */
  function GetSuccess(results: seq<PatchResult>): (r: seq<PatchResult>)
    ensures |r| <= |results|
    ensures forall x | x in r :: x in results && x.error.None?
    ensures forall x | x in results && x.error.None? :: x in r
  {
    Filter(results, NoError)
  }

  /** `PatchResults.GetFailed`: the results with an error. */
  function GetFailed(results: seq<PatchResult>): (r: seq<PatchResult>)
    ensures |r| <= |results|
    ensures forall x | x in r :: x in results && x.error.Some?
    ensures forall x | x in results && x.error.Some? :: x in r
  {
    Filter(results, HasError)
  }

  /** Both selections keep the original relative order: the selection of
      a concatenation is the concatenation of the selections, and a single
      result is selected exactly when it has (or lacks) an error. */
  lemma SelectionKeepsOrder(a: seq<PatchResult>, b: seq<PatchResult>, x: PatchResult)
    ensures GetSuccess(a + b) == GetSuccess(a) + GetSuccess(b)
    ensures GetFailed(a + b) == GetFailed(a) + GetFailed(b)
    ensures GetSuccess([x]) == (if x.error.None? then [x] else [])
    ensures GetFailed([x]) == (if x.error.Some? then [x] else [])
  {
    FilterAppend(a, b, NoError);
    FilterAppend(a, b, HasError);
    FilterSingleton(x, NoError);
    FilterSingleton(x, HasError);
  }

  /** Every result lands in exactly one of the two lists: the lists are
      disjoint, their lengths add up to the number of results, and together
      they hold each result as many times as the input does. No results
      give two empty lists. */
  lemma SuccessFailedPartition(results: seq<PatchResult>)
    ensures |GetSuccess(results)| + |GetFailed(results)| == |results|
    ensures multiset(GetSuccess(results)) + multiset(GetFailed(results)) == multiset(results)
    ensures forall x | x in GetSuccess(results) :: x !in GetFailed(results)
    ensures results == [] ==> GetSuccess(results) == [] && GetFailed(results) == []
  {
    FilterPartition(results, NoError, HasError);
  }
}
