/** Small string library: the pieces of Go's `strings` and `fmt` that the
    assembly tool relies on (splitting, joining, replacing, ordering and
    padding). Strings are sequences of Unicode code points. */
module Text {

  /** `pat` occurs in `s` starting at index `k`. */
  predicate OccursAt(s: string, pat: string, k: int)
  {
    0 <= k && k + |pat| <= |s| && s[k..k + |pat|] == pat
  }

  /** `pat` occurs somewhere in `s`. */
  predicate Contains(s: string, pat: string)
  {
    exists k :: 0 <= k <= |s| && OccursAt(s, pat, k)
  }

  /** Go's `strings.Split(s, sep)` for a non-empty separator: the pieces of
      `s` between leftmost non-overlapping occurrences of `sep`. */
  function Split(s: string, sep: string): (parts: seq<string>)
    requires |sep| > 0
    ensures |parts| > 0
    decreases |s|
  {
    if |s| < |sep| then [s]
    else if s[..|sep|] == sep then [""] + Split(s[|sep|..], sep)
    else
      var rest := Split(s[1..], sep);
      [[s[0]] + rest[0]] + rest[1..]
  }

  /** Go's `strings.Join(parts, glue)`. */
  function Join(parts: seq<string>, glue: string): string
    requires |parts| > 0
  {
    if |parts| == 1 then parts[0] else parts[0] + glue + Join(parts[1..], glue)
  }

  /** Go's `strings.Replace(s, pat, rep, -1)` for a non-empty pattern:
      every leftmost non-overlapping occurrence of `pat` becomes `rep`. */
  function Replace(s: string, pat: string, rep: string): string
    requires |pat| > 0
    decreases |s|
  {
    if |s| < |pat| then s
    else if s[..|pat|] == pat then rep + Replace(s[|pat|..], pat, rep)
    else [s[0]] + Replace(s[1..], pat, rep)
  }

  /** Replacing agrees with splitting at the pattern and joining with the
      replacement. */
  lemma {:induction false} ReplaceIsJoinOfSplit(s: string, pat: string, rep: string)
    requires |pat| > 0
    ensures Replace(s, pat, rep) == Join(Split(s, pat), rep)
    decreases |s|
  {
    if |s| < |pat| {
    } else if s[..|pat|] == pat {
      ReplaceIsJoinOfSplit(s[|pat|..], pat, rep);
      JoinEmptyHead(Split(s[|pat|..], pat), rep);
    } else {
      ReplaceIsJoinOfSplit(s[1..], pat, rep);
      JoinExtendedHead(s[0], Split(s[1..], pat), rep);
    }
  }

  /** Joining after an empty first piece starts with the glue. */
  lemma JoinEmptyHead(rest: seq<string>, glue: string)
    requires |rest| > 0
    ensures Join([""] + rest, glue) == glue + Join(rest, glue)
  {
    assert ([""] + rest)[1..] == rest;
  }

  /** Joining after a character is put in front of the first piece starts
      with that character. */
  lemma JoinExtendedHead(c: char, rest: seq<string>, glue: string)
    requires |rest| > 0
    ensures Join([[c] + rest[0]] + rest[1..], glue) == [c] + Join(rest, glue)
  {
    if |rest| > 1 {
      assert ([[c] + rest[0]] + rest[1..])[1..] == rest[1..];
      assert [c] + rest[0] + glue + Join(rest[1..], glue)
          == [c] + (rest[0] + glue + Join(rest[1..], glue));
    }
  }

  /** Replacing a pattern by itself changes nothing. */
  lemma {:induction false} ReplaceBySelf(s: string, pat: string)
    requires |pat| > 0
    ensures Replace(s, pat, pat) == s
    decreases |s|
  {
    if |s| < |pat| {
    } else if s[..|pat|] == pat {
      ReplaceBySelf(s[|pat|..], pat);
      assert s == s[..|pat|] + s[|pat|..];
    } else {
      ReplaceBySelf(s[1..], pat);
      assert s == [s[0]] + s[1..];
    }
  }

  /** Round trip: joining the pieces of a split with the separator gives
      back the original text. */
  lemma JoinSplitRoundTrip(s: string, sep: string)
    requires |sep| > 0
    ensures Join(Split(s, sep), sep) == s
  {
    ReplaceIsJoinOfSplit(s, sep, sep);
    ReplaceBySelf(s, sep);
  }

  /** The first piece of a split is a prefix of the text. */
  lemma {:induction false} SplitFirstIsPrefix(s: string, sep: string)
    requires |sep| > 0
    ensures |Split(s, sep)[0]| <= |s| && Split(s, sep)[0] == s[..|Split(s, sep)[0]|]
    decreases |s|
  {
    var parts := Split(s, sep);
    if |s| < |sep| {
      assert parts == [s];
    } else if s[..|sep|] == sep {
      assert parts[0] == "";
    } else {
      var rest := Split(s[1..], sep);
      SplitFirstIsPrefix(s[1..], sep);
      var r := rest[0];
      assert parts[0] == [s[0]] + r;
      assert s[..|r| + 1] == [s[0]] + s[1..][..|r|];
    }
  }

  /** When the text does not start with the separator, the first piece
      (its first character followed by the first piece of the rest) does
      not contain the separator either. */
  lemma FirstPieceAvoidsSeparator(s: string, sep: string, r: string)
    requires 0 < |sep| <= |s| && s[..|sep|] != sep
    requires |r| < |s| && r == s[1..][..|r|]
    requires !Contains(r, sep)
    ensures !Contains([s[0]] + r, sep)
  {
    var first := [s[0]] + r;
    assert first == s[..|first|];
    forall k | 0 <= k <= |first| ensures !OccursAt(first, sep, k) {
      if k + |sep| <= |first| {
        if k == 0 {
          assert first[..|sep|] == s[..|sep|];
        } else {
          assert !OccursAt(r, sep, k - 1);
          assert first[k..k + |sep|] == r[k - 1..k - 1 + |sep|];
        }
      }
    }
  }

  /** No piece of a split contains the separator: splitting cuts at every
      occurrence. */
  lemma {:induction false} SplitPiecesAvoidSeparator(s: string, sep: string)
    requires |sep| > 0
    ensures forall i :: 0 <= i < |Split(s, sep)| ==> !Contains(Split(s, sep)[i], sep)
    decreases |s|
  {
    var parts := Split(s, sep);
    if |s| < |sep| {
      assert parts == [s];
      assert !Contains(s, sep);
    } else if s[..|sep|] == sep {
      var rest := Split(s[|sep|..], sep);
      SplitPiecesAvoidSeparator(s[|sep|..], sep);
      assert parts == [""] + rest;
      forall i | 0 <= i < |parts| ensures !Contains(parts[i], sep) {
        if i > 0 {
          assert parts[i] == rest[i - 1];
        }
      }
    } else {
      var rest := Split(s[1..], sep);
      SplitPiecesAvoidSeparator(s[1..], sep);
      SplitFirstIsPrefix(s[1..], sep);
      FirstPieceAvoidsSeparator(s, sep, rest[0]);
      assert parts == [[s[0]] + rest[0]] + rest[1..];
      forall i | 0 <= i < |parts| ensures !Contains(parts[i], sep) {
        if i > 0 {
          assert parts[i] == rest[i];
        }
      }
    }
  }

  /** Replacing leaves a text that does not contain the pattern unchanged. */
  lemma {:induction false} ReplaceAbsent(s: string, pat: string, rep: string)
    requires |pat| > 0
    requires !Contains(s, pat)
    ensures Replace(s, pat, rep) == s
    decreases |s|
  {
    if |s| < |pat| {
    } else {
      assert !OccursAt(s, pat, 0);
      assert s[..|pat|] != pat;
      forall k | OccursAt(s[1..], pat, k) ensures false {
        assert s[1..][k..k + |pat|] == s[k + 1..k + 1 + |pat|];
        assert OccursAt(s, pat, k + 1);
      }
      ReplaceAbsent(s[1..], pat, rep);
      assert s == [s[0]] + s[1..];
    }
  }

  /** `r` is the part of `s` after its last `c`: a suffix of `s` free of `c`
      that is either all of `s` or directly preceded by `c`. */
  ghost predicate IsTailAfterLast(s: string, c: char, r: string)
  {
    && |r| <= |s|
    && r == s[|s| - |r|..]
    && c !in r
    && (|r| == |s| || s[|s| - |r| - 1] == c)
  }

  /** Facts about the last piece of splitting at a single character, proved
      together by induction. */
  lemma {:induction false} SplitLastPiece(s: string, c: char)
    ensures var parts := Split(s, [c]);
      && IsTailAfterLast(s, c, parts[|parts| - 1])
      && (|parts| == 1 ==> parts[0] == s)
      && (|parts| > 1 ==> |parts[|parts| - 1]| < |s|)
    decreases |s|
  {
    if |s| > 0 {
      var rest := Split(s[1..], [c]);
      SplitLastPiece(s[1..], c);
      SplitUnfold(s, [c]);
      if s[0] == c {
        TailAfterSeparator(s, c, rest, Split(s, [c]));
      } else {
        TailAfterOrdinaryChar(s, c, rest, Split(s, [c]));
      }
    }
  }

  /** One step of splitting at a one-character separator. */
  lemma SplitUnfold(s: string, sep: string)
    requires |s| > 0 && |sep| == 1
    ensures s[0] == sep[0] ==> Split(s, sep) == [""] + Split(s[1..], sep)
    ensures s[0] != sep[0] ==>
      Split(s, sep) == [[s[0]] + Split(s[1..], sep)[0]] + Split(s[1..], sep)[1..]
  {
    if s[0] == sep[0] {
      assert s[..1] == sep;
    } else {
      assert s[..1] != sep;
    }
  }

  /** The inductive step of SplitLastPiece when `s` starts with `c`. */
  lemma TailAfterSeparator(s: string, c: char, rest: seq<string>, parts: seq<string>)
    requires |s| > 0 && s[0] == c && |rest| > 0
    requires parts == [""] + rest
    requires IsTailAfterLast(s[1..], c, rest[|rest| - 1])
    ensures IsTailAfterLast(s, c, parts[|parts| - 1])
    ensures |parts| > 1 && |parts[|parts| - 1]| < |s|
  {
    var r := rest[|rest| - 1];
    assert parts[|parts| - 1] == r;
    assert s[1..][|s| - 1 - |r|..] == s[|s| - |r|..];
    if |r| < |s| - 1 {
      assert s[1..][|s| - 1 - |r| - 1] == s[|s| - |r| - 1];
    }
  }

  /** The inductive step of SplitLastPiece when `s` starts with another
      character. */
  lemma TailAfterOrdinaryChar(s: string, c: char, rest: seq<string>, parts: seq<string>)
    requires |s| > 0 && s[0] != c && |rest| > 0
    requires parts == [[s[0]] + rest[0]] + rest[1..]
    requires IsTailAfterLast(s[1..], c, rest[|rest| - 1])
    requires |rest| == 1 ==> rest[0] == s[1..]
    requires |rest| > 1 ==> |rest[|rest| - 1]| < |s| - 1
    ensures IsTailAfterLast(s, c, parts[|parts| - 1])
    ensures |parts| == 1 ==> parts[0] == s
    ensures |parts| > 1 ==> |parts[|parts| - 1]| < |s|
  {
    if |rest| == 1 {
      assert parts[0] == [s[0]] + s[1..] == s;
    } else {
      var r := rest[|rest| - 1];
      assert parts[|parts| - 1] == r;
      assert s[1..][|s| - 1 - |r|..] == s[|s| - |r|..];
      assert s[1..][|s| - 1 - |r| - 1] == s[|s| - |r| - 1];
    }
  }

  /** The part after the last `c` is empty exactly when `s` is empty or ends
      in `c`. */
  lemma TailAfterLastEmpty(s: string, c: char, r: string)
    requires IsTailAfterLast(s, c, r)
    ensures r == "" <==> (s == "" || s[|s| - 1] == c)
  {
    if r != "" && s != "" {
      assert r[|r| - 1] == s[|s| - 1];
    }
  }

  /** The last `/`-separated segment of a path, as
      `tokens := strings.Split(s, "/"); tokens[len(tokens)-1]`. */
  function LastSegment(s: string): string
  {
    var tokens := Split(s, "/");
    tokens[|tokens| - 1]
  }

  /** The last segment is the part after the final `/` (all of `s` when it
      has none), and it is empty exactly when `s` is empty or ends in `/`. */
  lemma LastSegmentSpec(s: string)
    ensures IsTailAfterLast(s, '/', LastSegment(s))
    ensures LastSegment(s) == "" <==> (s == "" || s[|s| - 1] == '/')
  {
    SplitLastPiece(s, '/');
    TailAfterLastEmpty(s, '/', LastSegment(s));
  }

  /** Go's `<` on strings. Go compares bytes; for valid UTF-8 that is the
      same as comparing code points lexicographically, which is what this
      does. */
  function StrLess(a: string, b: string): bool
  {
    if |b| == 0 then false
    else if |a| == 0 then true
    else if a[0] != b[0] then a[0] < b[0]
    else StrLess(a[1..], b[1..])
  }

  lemma {:induction false} StrLessIrreflexive(a: string)
    ensures !StrLess(a, a)
  {
    if |a| > 0 {
      StrLessIrreflexive(a[1..]);
    }
  }

  lemma {:induction false} StrLessTransitive(a: string, b: string, c: string)
    requires StrLess(a, b) && StrLess(b, c)
    ensures StrLess(a, c)
  {
    if |a| > 0 && a[0] == b[0] && b[0] == c[0] {
      StrLessTransitive(a[1..], b[1..], c[1..]);
    }
  }

  /** Any two different strings are ordered one way round. */
  lemma {:induction false} StrLessTotal(a: string, b: string)
    ensures a == b || StrLess(a, b) || StrLess(b, a)
  {
    if |a| > 0 && |b| > 0 && a[0] == b[0] {
      StrLessTotal(a[1..], b[1..]);
      if a[1..] == b[1..] {
        assert a == [a[0]] + a[1..] && b == [b[0]] + b[1..];
      }
    }
  }

  lemma {:induction false} StrLessAsymmetric(a: string, b: string)
    ensures !(StrLess(a, b) && StrLess(b, a))
  {
    if StrLess(a, b) && StrLess(b, a) {
      StrLessTransitive(a, b, a);
      StrLessIrreflexive(a);
    }
  }

  /** `n` copies of `c`, built one character at a time. */
  function Repeat(c: char, n: nat): (r: string)
    ensures |r| == n
    ensures forall i :: 0 <= i < n ==> r[i] == c
  {
    if n == 0 then "" else Repeat(c, n - 1) + [c]
  }

  /** `fmt`'s `%-<w>s`: pad on the right with spaces to `w` code points;
      longer text is not cut. */
  function PadRight(s: string, w: nat): (r: string)
    ensures |r| == if |s| < w then w else |s|
    ensures r[..|s|] == s
    ensures forall i :: |s| <= i < |r| ==> r[i] == ' '
  {
    if |s| < w then s + Repeat(' ', w - |s|) else s
  }

  /** `fmt`'s `%<w>s`: pad on the left with spaces to `w` code points. */
  function PadLeft(s: string, w: nat): (r: string)
    ensures |r| == if |s| < w then w else |s|
    ensures r[|r| - |s|..] == s
    ensures forall i :: 0 <= i < |r| - |s| ==> r[i] == ' '
  {
    if |s| < w then Repeat(' ', w - |s|) + s else s
  }

  /** Concatenation of a list of lines, last line last. */
  function Concat(lines: seq<string>): string
  {
    if |lines| == 0 then "" else Concat(lines[..|lines| - 1]) + lines[|lines| - 1]
  }

  lemma {:induction false} ConcatAppend(a: seq<string>, b: seq<string>)
    ensures Concat(a + b) == Concat(a) + Concat(b)
    decreases |b|
  {
    if |b| > 0 {
      ConcatAppend(a, b[..|b| - 1]);
      assert (a + b)[..|a + b| - 1] == a + b[..|b| - 1];
    } else {
      assert a + b == a;
    }
  }

  lemma ConcatSnoc(a: seq<string>, x: string)
    ensures Concat(a + [x]) == Concat(a) + x
  {
    assert (a + [x])[..|a|] == a;
  }

  lemma ConcatSingle(x: string)
    ensures Concat([x]) == x
  {
    assert [x][..0] == [];
  }

  /** One more line of `lines` joins the concatenation of a prefix. */
  lemma ConcatPrefixStep(lines: seq<string>, j: nat)
    requires j < |lines|
    ensures Concat(lines[..j + 1]) == Concat(lines[..j]) + lines[j]
  {
    assert lines[..j + 1] == lines[..j] + [lines[j]];
    ConcatSnoc(lines[..j], lines[j]);
  }

  /** The empty and the full prefix of `lines`. */
  lemma ConcatPrefixEnds(lines: seq<string>)
    ensures Concat(lines[..0]) == ""
    ensures Concat(lines[..|lines|]) == Concat(lines)
  {
    assert lines[..|lines|] == lines;
  }

  /** Lines framed by the same line `a` concatenate to `a`, the body, `a`. */
  lemma ConcatFramed(a: string, body: seq<string>, lines: seq<string>)
    requires lines == [a] + body + [a]
    ensures Concat(lines) == a + Concat(body) + a
  {
    ConcatAppend([a], body);
    ConcatSnoc([a] + body, a);
    ConcatSingle(a);
  }
}
