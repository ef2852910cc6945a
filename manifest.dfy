/** The manifest: the projects to fetch and the patches to apply, loaded
    from a YAML text after `{param}` placeholders are filled in. */
module Manifests {
  import opened Text
  import opened Raw
  import opened Seqs
  import opened Optional
  import opened Projects
  import opened Patches

  /** What the YAML decoder produces for a manifest: lists of entries under
      top-level keys ("projects", "patches"). */
  type RawManifest = map<string, seq<Entry>>

  /** The entries under `key`; a missing key reads as an empty list. */
  function Entries(raw: RawManifest, key: string): seq<Entry>
  {
    if key in raw then raw[key] else []
  }

  /** The two error results of `Load`. */
  datatype ManifestError = LoadError(msg: string) | ParseError(msg: string)

  // ---------------------------------------------------------------------
  // Parameter substitution

  /** The placeholder of a parameter: its name in braces. */
  function Token(param: string): (t: string)
    ensures |t| == |param| + 2 && t[0] == '{' && t[|t| - 1] == '}'
    ensures t[1..|t| - 1] == param
  {
    "{" + param + "}"
  }

  /** The text after replacing, parameter by parameter in the given order,
      every placeholder with the parameter's value. */
  function Substitute(text: string, params: seq<(string, string)>): string
  {
    if |params| == 0 then text
    else
      var (param, value) := params[|params| - 1];
      Replace(Substitute(text, params[..|params| - 1]), Token(param), value)
  }

  /** One substitution step cuts the text at every occurrence of the
      placeholder (the pieces hold no placeholder and rejoin to the text)
      and joins the pieces with the value. */
  lemma SubstitutionStep(text: string, param: string, value: string)
    ensures var parts := Split(text, Token(param));
      && Replace(text, Token(param), value) == Join(parts, value)
      && Join(parts, Token(param)) == text
      && (forall i :: 0 <= i < |parts| ==> !Contains(parts[i], Token(param)))
  {
    ReplaceIsJoinOfSplit(text, Token(param), value);
    JoinSplitRoundTrip(text, Token(param));
    SplitPiecesAvoidSeparator(text, Token(param));
  }

  /** Text in which no parameter's placeholder occurs is left unchanged. */
  lemma {:induction false} SubstituteWithoutTokens(text: string, params: seq<(string, string)>)
    requires forall i :: 0 <= i < |params| ==> !Contains(text, Token(params[i].0))
    ensures Substitute(text, params) == text
  {
    if |params| > 0 {
      var (param, value) := params[|params| - 1];
      SubstituteWithoutTokens(text, params[..|params| - 1]);
      ReplaceAbsent(text, Token(param), value);
    }
  }

  /** A parameter whose value is its own placeholder changes nothing. */
  lemma {:induction false} SubstituteIdentity(text: string, params: seq<(string, string)>)
    requires forall i :: 0 <= i < |params| ==> params[i].1 == Token(params[i].0)
    ensures Substitute(text, params) == text
  {
    if |params| > 0 {
      var (param, value) := params[|params| - 1];
      SubstituteIdentity(text, params[..|params| - 1]);
      ReplaceBySelf(text, Token(param));
    }
  }

  // ---------------------------------------------------------------------
  // Entries to records

  /** One project per entry, in entry order. */
  function ProjectsOf(entries: seq<Entry>): (ps: seq<Project>)
    ensures |ps| == |entries|
    ensures forall i :: 0 <= i < |entries| ==> ps[i] == ProjectFromMap(entries[i])
  {
    seq(|entries|, i requires 0 <= i < |entries| => ProjectFromMap(entries[i]))
  }

  /** One patch per entry, in entry order. */
  function PatchesOf(entries: seq<Entry>): (ps: seq<Patch>)
    ensures |ps| == |entries|
    ensures forall i :: 0 <= i < |entries| ==> ps[i] == PatchFromMap(entries[i])
  {
    seq(|entries|, i requires 0 <= i < |entries| => PatchFromMap(entries[i]))
  }

  lemma ProjectsOfStep(entries: seq<Entry>, i: nat)
    requires i < |entries|
    ensures ProjectsOf(entries[..i + 1]) == ProjectsOf(entries[..i]) + [ProjectFromMap(entries[i])]
  {
    assert ProjectsOf(entries[..i + 1])[i] == ProjectFromMap(entries[i]);
  }

  lemma PatchesOfStep(entries: seq<Entry>, j: nat)
    requires j < |entries|
    ensures PatchesOf(entries[..j + 1]) == PatchesOf(entries[..j]) + [PatchFromMap(entries[j])]
  {
    assert PatchesOf(entries[..j + 1])[j] == PatchFromMap(entries[j]);
  }

  predicate IsBlocking(p: Project)
  {
    p.blocking
  }

  predicate IsNonBlocking(p: Project)
  {
    !p.blocking
  }

  /** The blocking and non-blocking selections split a project list: every
      project is in exactly one of them, lengths add up, and both keep the
      order of the list. */
  lemma BlockingPartition(ps: seq<Project>, qs: seq<Project>)
    ensures |Filter(ps, IsBlocking)| + |Filter(ps, IsNonBlocking)| == |ps|
    ensures multiset(Filter(ps, IsBlocking)) + multiset(Filter(ps, IsNonBlocking)) == multiset(ps)
    ensures forall p | p in Filter(ps, IsBlocking) :: p.blocking
    ensures forall p | p in Filter(ps, IsNonBlocking) :: !p.blocking
    ensures Filter(ps + qs, IsBlocking) == Filter(ps, IsBlocking) + Filter(qs, IsBlocking)
    ensures Filter(ps + qs, IsNonBlocking) == Filter(ps, IsNonBlocking) + Filter(qs, IsNonBlocking)
  {
    FilterPartition(ps, IsBlocking, IsNonBlocking);
    FilterAppend(ps, qs, IsBlocking);
    FilterAppend(ps, qs, IsNonBlocking);
  }

  /** The manifest: projects and patches, filled by decoding. */
  class Manifest {
    var projects: seq<Project>
    var patches: seq<Patch>

    constructor ()
      ensures projects == [] && patches == []
    {
      projects := [];
      patches := [];
    }

    /** The blocking projects and the non-blocking ones, each in manifest
        order. */
    method BlockingProjects() returns (blocking: seq<Project>, nonBlocking: seq<Project>)
      ensures blocking == Filter(projects, IsBlocking)
      ensures nonBlocking == Filter(projects, IsNonBlocking)
    {
      blocking, nonBlocking := [], [];
      var i := 0;
      while i < |projects|
        invariant 0 <= i <= |projects|
        invariant blocking == Filter(projects[..i], IsBlocking)
        invariant nonBlocking == Filter(projects[..i], IsNonBlocking)
      {
        var project := projects[i];
        assert projects[..i + 1][..i] == projects[..i];
        if project.blocking {
          blocking := blocking + [project];
        } else {
          nonBlocking := nonBlocking + [project];
        }
        i := i + 1;
      }
      assert projects[..|projects|] == projects;
    }

    /** `UnmarshalYAML`: when the decoder fails, its error is returned and
        nothing changes; otherwise one project per "projects" entry and one
        patch per "patches" entry are appended, in entry order. */
    method UnmarshalYAML(decoded: Option<RawManifest>) returns (ok: bool)
      modifies this
      ensures ok <==> decoded.Some?
      ensures !ok ==> projects == old(projects) && patches == old(patches)
      ensures ok ==> projects == old(projects) + ProjectsOf(Entries(decoded.value, "projects"))
      ensures ok ==> patches == old(patches) + PatchesOf(Entries(decoded.value, "patches"))
    {
      if decoded.None? {
        return false;
      }
      var f := decoded.value;

      var prs := Entries(f, "projects");
      var i := 0;
      while i < |prs|
        invariant 0 <= i <= |prs|
        invariant projects == old(projects) + ProjectsOf(prs[..i])
        invariant patches == old(patches)
      {
        var project := NewProjectFromMap(prs[i]);
        ProjectsOfStep(prs, i);
        projects := projects + [project];
        i := i + 1;
      }
      assert prs[..|prs|] == prs;
      assert projects == old(projects) + ProjectsOf(prs);

      var pas := Entries(f, "patches");
      var j := 0;
      while j < |pas|
        invariant 0 <= j <= |pas|
        invariant projects == old(projects) + ProjectsOf(prs)
        invariant patches == old(patches) + PatchesOf(pas[..j])
      {
        var patch := PatchFromMap(pas[j]);
        PatchesOfStep(pas, j);
        patches := patches + [patch];
        j := j + 1;
      }
      assert pas[..|pas|] == pas;
      return true;
    }

    /** `Load`: `file` is the content read from the manifest file (None
        when reading failed); `params` are substituted in order; `decode`
        stands for the YAML decoder (None when the text does not parse as
        a manifest). */
    method Load(file: Option<string>, params: seq<(string, string)>,
                decode: string -> Option<RawManifest>)
      returns (err: Option<ManifestError>)
      modifies this
      ensures file.None? ==> err == Some(LoadError("Error loading"))
      ensures file.Some? && decode(Substitute(file.value, params)).None? ==>
        err == Some(ParseError("Error parsing"))
      ensures file.Some? && decode(Substitute(file.value, params)).Some? ==> err.None?
      ensures err.None? ==>
        var raw := decode(Substitute(file.value, params)).value;
        && projects == old(projects) + ProjectsOf(Entries(raw, "projects"))
        && patches == old(patches) + PatchesOf(Entries(raw, "patches"))
      ensures err.Some? ==> projects == old(projects) && patches == old(patches)
    {
      if file.None? {
        return Some(LoadError("Error loading"));
      }

      var ms := file.value;
      var i := 0;
      while i < |params|
        invariant 0 <= i <= |params|
        invariant ms == Substitute(file.value, params[..i])
      {
        var (param, value) := params[i];
        assert params[..i + 1][..i] == params[..i];
        ms := Replace(ms, Token(param), value);
        i := i + 1;
      }
      assert params[..|params|] == params;

      var ok := UnmarshalYAML(decode(ms));
      if !ok {
        return Some(ParseError("Error parsing"));
      }
      return None;
    }
  }
}
