/** Repository-relative paths: normalisation, the two scope checks, and overlap.

  Unicode normalisation is a parameter `nfc`.
*/
module Paths {
  import opened Framing
  import opened Text

  function Segments(path: string): (segments: seq<string>)
    ensures |segments| >= 1
  {
    Split(path, '/')
  }

  // ---------- the two scope checks ----------

  /** Segment by segment: the grant's segments begin the path's. */
  predicate Covers(grant: string, path: string) {
    Segments(grant) <= Segments(path)
  }

  /** As text: the path equals the grant or extends it after a slash. */
  predicate IsWithin(grant: string, path: string) {
    path == grant || (grant <= path && |path| > |grant| && path[|grant|] == '/')
  }

  /** The pieces of a text that begins with `c` and goes on with these pieces. */
  function Begun(c: char, pieces: seq<string>): seq<string>
    requires |pieces| >= 1
  {
    if c == '/' then [""] + pieces else [[c] + pieces[0]] + pieces[1..]
  }

  lemma BegunAppend(c: char, l: seq<string>, r: seq<string>)
    requires |l| >= 1
    ensures Begun(c, l + r) == Begun(c, l) + r
  {
  }

  lemma {:induction false} SplitAppend(left: string, right: string)
    ensures Segments(left + "/" + right) == Segments(left) + Segments(right)
  {
    var text := left + "/" + right;
    if left == "" {
      assert text[1..] == right;
    } else {
      assert text[1..] == left[1..] + "/" + right && text[0] == left[0];
      SplitAppend(left[1..], right);
      BegunAppend(left[0], Segments(left[1..]), Segments(right));
    }
  }

  lemma {:induction false} JoinAppend(left: seq<string>, right: seq<string>)
    requires |left| >= 1 && |right| >= 1
    ensures Join(left + right, '/') == Join(left, '/') + "/" + Join(right, '/')
  {
    if |left| == 1 {
      assert (left + right)[1..] == right;
    } else {
      assert (left + right)[1..] == left[1..] + right;
      JoinAppend(left[1..], right);
    }
  }

  /** The two scope checks agree on all strings. */
  lemma CoverageAgrees(grant: string, path: string)
    ensures Covers(grant, path) <==> IsWithin(grant, path)
  {
    var g, p := Segments(grant), Segments(path);
    JoinSplit(grant, '/');
    JoinSplit(path, '/');
    if Covers(grant, path) && |g| < |p| {
      var rest := p[|g|..];
      assert p == g + rest;
      JoinAppend(g, rest);
    } else if Covers(grant, path) {
      assert p == g;
    }
    if IsWithin(grant, path) && path != grant {
      var rest := path[|grant| + 1..];
      assert path == grant + "/" + rest;
      SplitAppend(grant, rest);
    }
  }

  /** The writer's check: one granted prefix covers the path. */
  predicate Permits(prefixes: seq<string>, path: string) {
    exists i :: 0 <= i < |prefixes| && Covers(prefixes[i], path)
  }

  predicate SomeWithin(granted: seq<string>, path: string) {
    exists i :: 0 <= i < |granted| && IsWithin(granted[i], path)
  }

  /** The Candidate's check over a whole write set: the first path outside the grant, if any. */
  method WriteSetWithinGrant(granted: seq<string>, actual: seq<string>) returns (r: Result<(), string>)
    ensures r.Ok? <==> forall i :: 0 <= i < |actual| ==> Permits(granted, actual[i])
    ensures r.Err? ==> exists n ::
      0 <= n < |actual| && r.error == actual[n] && !Permits(granted, actual[n])
      && forall i :: 0 <= i < n ==> Permits(granted, actual[i])
  {
    for n := 0 to |actual|
      invariant forall i :: 0 <= i < n ==> Permits(granted, actual[i])
    {
      PermitsAgrees(granted, actual[n]);
      if !SomeWithin(granted, actual[n]) {
        return Err(actual[n]);
      }
    }
    return Ok(());
  }

  /** Every path the writer admits passes the write-set check, and no other does. */
  lemma PermitsAgrees(prefixes: seq<string>, path: string)
    ensures Permits(prefixes, path) <==> SomeWithin(prefixes, path)
  {
    forall i | 0 <= i < |prefixes| ensures Covers(prefixes[i], path) <==> IsWithin(prefixes[i], path) {
      CoverageAgrees(prefixes[i], path);
    }
  }

  // ---------- normalisation ----------

  predicate IsGit(segment: string) {
    && |segment| == 4 && segment[0] == '.' && segment[1] in {'g', 'G'} && segment[2] in {'i', 'I'}
    && segment[3] in {'t', 'T'}
  }

  predicate SegmentAdmitted(segment: string) {
    && segment != "" && segment != "." && segment != ".." && !IsGit(segment) && ':' !in segment
    && segment[|segment| - 1] != '.' && segment[|segment| - 1] != ' '
  }

  /** A path with no escape: relative, and every segment plain. */
  predicate Normal(path: string) {
    && path != "" && path[0] != '/' && '\\' !in path && '\0' !in path
    && forall i :: 0 <= i < |Segments(path)| ==> SegmentAdmitted(Segments(path)[i])
  }

  function LowerChar(c: char): char {
    if 'A' <= c <= 'Z' then c - 'A' + 'a' else c
  }

  /** The text with ASCII capitals in lower case. */
  function Lower(text: string): string {
    seq(|text|, i requires 0 <= i < |text| => LowerChar(text[i]))
  }

  lemma GitInAnyCase(segment: string)
    ensures IsGit(segment) <==> Lower(segment) == ".git"
  {
    if Lower(segment) == ".git" {
      var low := Lower(segment);
      assert low[0] == '.' && low[1] == 'g' && low[2] == 'i' && low[3] == 't';
    }
  }

  /** What no segment may be: empty, a dot, two dots, `.git` in any case, with a colon, or with a
      dot or a space at its end. */
  predicate Forbidden(s: string) {
    s in ["", ".", ".."] || Lower(s) == ".git" || ':' in s || s[|s| - 1] in {'.', ' '}
  }

  lemma SegmentAdmittedExactly(s: string)
    ensures SegmentAdmitted(s) <==> !Forbidden(s)
  {
    GitInAnyCase(s);
  }

  /** Relative, without backslash and NUL, and free of forbidden segments. */
  ghost predicate EscapeFree(path: string) {
    path != "" && path[0] != '/' && '\\' !in path && '\0' !in path && forall s :: s in Segments(path) ==> !Forbidden(s)
  }

  lemma NormalExactly(path: string)
    ensures Normal(path) <==> EscapeFree(path)
  {
    var segments := Segments(path);
    forall s | s in segments ensures SegmentAdmitted(s) <==> !Forbidden(s) {
      SegmentAdmittedExactly(s);
    }
    assert forall i :: 0 <= i < |segments| ==> segments[i] in segments;
  }

  /** Normalise a path.  Exactly the escape-free paths are accepted, and rebuilding the
      text from its checked segments gives the normalised text back. */
  method NormalizeRelPath(nfc: string -> string, raw: string) returns (r: Result<string, ()>)
    ensures r == if Normal(nfc(raw)) then Ok(nfc(raw)) else Err(())
    ensures r.Ok? <==> EscapeFree(nfc(raw))
  {
    var normalized := nfc(raw);
    NormalExactly(normalized);
    if normalized == "" || normalized[0] == '/' || '\\' in normalized || '\0' in normalized {
      return Err(());
    }
    var segments := Segments(normalized);
    var parts: seq<string> := [];
    for n := 0 to |segments|
      invariant parts == segments[..n]
      invariant forall i :: 0 <= i < n ==> SegmentAdmitted(segments[i])
    {
      if !SegmentAdmitted(segments[n]) {
        return Err(());
      }
      parts := parts + [segments[n]];
    }
    assert parts == segments;
    JoinSplit(normalized, '/');
    return Ok(Join(parts, '/'));
  }

  // ---------- overlap ----------

  predicate Overlap(a: string, b: string) {
    IsWithin(a, b) || IsWithin(b, a)
  }

  /** No path equals, contains or lies inside another. */
  ghost predicate Antichain(paths: seq<string>) {
    forall i, j :: 0 <= i < j < |paths| ==> !Overlap(paths[i], paths[j])
  }

  /** Paths overlap exactly when one's segments begin the other's. */
  lemma OverlapIsPrefix(a: string, b: string)
    ensures Overlap(a, b) <==> Segments(a) <= Segments(b) || Segments(b) <= Segments(a)
  {
    CoverageAgrees(a, b);
    CoverageAgrees(b, a);
  }

  predicate SomeOverlap(seen: seq<string>, path: string) {
    exists i :: 0 <= i < |seen| && Overlap(seen[i], path)
  }

  lemma AntichainExtends(seen: seq<string>, path: string)
    ensures Antichain(seen + [path]) <==> Antichain(seen) && !SomeOverlap(seen, path)
  {
    var all := seen + [path];
    if Antichain(all) {
      forall i, j | 0 <= i < j < |seen| ensures !Overlap(seen[i], seen[j]) {
        assert !Overlap(all[i], all[j]);
      }
      forall i | 0 <= i < |seen| ensures !Overlap(seen[i], path) {
        assert !Overlap(all[i], all[|seen|]);
      }
    }
  }

  /** The path comes after one that it overlaps. */
  predicate ComesLate(paths: seq<string>, p: string) {
    exists j :: 0 <= j < |paths| && paths[j] == p && SomeOverlap(paths[..j], p)
  }

  /** Exactly the paths that come after one they overlap are reported. */
  ghost predicate Reported(collisions: seq<string>, seen: seq<string>) {
    forall p :: p in collisions <==> ComesLate(seen, p)
  }

  lemma ReportedExtends(collisions: seq<string>, seen: seq<string>, path: string)
    requires Reported(collisions, seen)
    ensures Reported(if SomeOverlap(seen, path) then collisions + [path] else collisions, seen + [path])
  {
    var all := seen + [path];
    forall p ensures ComesLate(all, p) <==> ComesLate(seen, p) || (p == path && SomeOverlap(seen, path)) {
      if ComesLate(all, p) {
        var j :| 0 <= j < |all| && all[j] == p && SomeOverlap(all[..j], p);
        if j < |seen| {
          assert all[..j] == seen[..j];
        } else {
          assert all[..j] == seen;
        }
      }
      if ComesLate(seen, p) {
        var j :| 0 <= j < |seen| && seen[j] == p && SomeOverlap(seen[..j], p);
        assert all[..j] == seen[..j] && all[j] == p;
      }
      if p == path && SomeOverlap(seen, path) {
        assert all[..|seen|] == seen && all[|seen|] == p;
      }
    }
  }

  function Concat(intents: seq<seq<string>>): seq<string> {
    if intents == [] then [] else Concat(intents[..|intents| - 1]) + intents[|intents| - 1]
  }

  /** Forecast collisions between intents.  The forecast is empty exactly when all the paths
      together form an antichain. */
  method ForecastConflicts(intents: seq<seq<string>>) returns (collisions: seq<string>)
    ensures collisions == [] <==> Antichain(Concat(intents))
    ensures Reported(collisions, Concat(intents))
  {
    var seen: seq<string> := [];
    collisions := [];
    for i := 0 to |intents|
      invariant seen == Concat(intents[..i])
      invariant collisions == [] <==> Antichain(seen)
      invariant Reported(collisions, seen)
    {
      ghost var before := seen;
      for k := 0 to |intents[i]|
        invariant seen == before + intents[i][..k]
        invariant collisions == [] <==> Antichain(seen)
        invariant Reported(collisions, seen)
      {
        AntichainExtends(seen, intents[i][k]);
        ReportedExtends(collisions, seen, intents[i][k]);
        if SomeOverlap(seen, intents[i][k]) {
          collisions := collisions + [intents[i][k]];
        }
        seen := seen + [intents[i][k]];
      }
      assert intents[i][..|intents[i]|] == intents[i];
      assert intents[..i + 1][..i] == intents[..i];
    }
    assert intents[..|intents|] == intents;
  }
}
