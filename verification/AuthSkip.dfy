/**
 Paths that skip authentication: the list is normalized once, and every request
 path is matched against it by text.
 */
module AuthSkip {
  import opened Wrappers
  import opened Text
  import opened Paths

  // ---- by segments -----------------------------------------------------------------

  /**
   What an entry means: the same segments as the path, or, when its last segment
   is "*", any path strictly below the others ("*" alone: any path).
   */
  ghost predicate Skips(entry: string, path: string)
  {
    SkipsSegments(Segments(entry), Segments(path))
  }

  ghost predicate SkipsSegments(e: seq<string>, p: seq<string>)
  {
    || e == p
    || (e != [] && e[|e| - 1] == "*" && (|e| == 1 || e[..|e| - 1] < p))
  }

  // ---- the stored list -------------------------------------------------------------

  predicate HasWildcardSuffix(s: string)
  {
    |s| >= 2 && s[|s| - 1] == '*' && s[|s| - 2] == '/'
  }

  lemma NothingIsTheRoot()
    ensures Segments("") == [] && Normalized("") == "/"
  {
    assert Fields("", '/') == [""];
  }

  /** normalize_auth_skip_paths for one entry, after the '%' check. */
  method NormalizeEntry(entry: string) returns (r: string)
    ensures r == Normalized(entry)
  {
    hide Fields, Resolve, Join, FindFrom;
    if HasWildcardSuffix(entry) {
      var prefix := entry[..|entry| - 2];
      WildcardSegments(prefix);
      assert entry == prefix + "/*";
      if |entry| == 2 {
        NothingIsTheRoot();
        return "/*";
      }
      var normalizedPrefix := NormalizePath(prefix);
      SegmentsAreClean(prefix);
      RenderLength(Segments(prefix));
      if normalizedPrefix == "/" { return "/*"; }
      return normalizedPrefix + "/*";
    }
    r := NormalizePath(entry);
  }

  // A trailing slash and star adds the segment "*" and nothing else.
  lemma WildcardSegments(prefix: string)
    ensures Segments(prefix + "/*") == Segments(prefix) + ["*"]
    ensures Normalized(prefix + "/*") == Normalized(prefix) + (if Segments(prefix) == [] then "*" else "/*")
  {
    FieldsConcat(prefix, "*");
    assert prefix + "/" + "*" == prefix + "/*";
    FirstOccurrence("*", '/', 1);
    assert Fields("*", '/') == ["*"];
    var fs := Fields(prefix, '/');
    assert (fs + ["*"])[..|fs|] == fs;
    RenderPush(Segments(prefix), "*");
  }

  /** normalize_auth_skip_paths: refused exactly when an entry holds '%'. */
  method NormalizeAuthSkipPaths(raw: seq<string>) returns (r: Result<seq<string>>)
    ensures r.Ok? <==> forall i :: 0 <= i < |raw| ==> '%' !in raw[i]
    ensures r.Ok? ==> |r.value| == |raw| && forall i :: 0 <= i < |raw| ==> r.value[i] == Normalized(raw[i])
  {
    var out: seq<string> := [];
    for n := 0 to |raw|
      invariant |out| == n && forall i :: 0 <= i < n ==> '%' !in raw[i] && out[i] == Normalized(raw[i])
    {
      if '%' in raw[n] { return Rejected; }
      var entry := NormalizeEntry(raw[n]);
      out := out + [entry];
    }
    return Ok(out);
  }

  // ---- the match by text -------------------------------------------------------------

  /** What should_skip_auth compares for one stored entry. */
  predicate TextMatch(skip: string, normalized: string)
  {
    skip == normalized || (HasWildcardSuffix(skip) && skip[..|skip| - 1] <= normalized)
  }

  /** should_skip_auth. */
  method ShouldSkipAuth(stored: seq<string>, path: string) returns (skip: bool)
    ensures skip <==> exists i :: 0 <= i < |stored| && TextMatch(stored[i], Normalized(path))
  {
    if stored == [] { return false; }
    var normalized := NormalizePath(path);
    for n := 0 to |stored|
      invariant forall i :: 0 <= i < n ==> !TextMatch(stored[i], Normalized(path))
    {
      var entry := stored[n];
      if entry == normalized { return true; }
      if HasWildcardSuffix(entry) && entry[..|entry| - 1] <= normalized { return true; }
    }
    return false;
  }

  // Only a last segment "*" makes a rendered path end in a slash and a star.
  lemma SuffixIsSegment(e: seq<string>)
    requires AllClean(e)
    ensures HasWildcardSuffix(Render(e)) <==> e != [] && e[|e| - 1] == "*"
    ensures HasWildcardSuffix(Render(e)) ==>
      Render(e)[..|Render(e)| - 1] == Render(e[..|e| - 1]) + if |e| == 1 then "" else "/"
  {
    if e != [] {
      var n := |e| - 1;
      var last := e[n];
      assert e == e[..n] + [last];
      RenderPush(e[..n], last);
      var s := Render(e);
      assert s[|s| - |last|..] == last;
      if |last| >= 2 {
        assert s[|s| - 2] == last[|last| - 2];
        assert last[|last| - 2] in last;
      } else {
        assert s[|s| - 1] == last[0];
      }
    }
  }

  /** A textual prefix that ends in '/' is a proper prefix of segments. */
  lemma PrefixIsSegments(e: seq<string>, p: seq<string>)
    requires AllClean(e) && AllClean(p) && e != []
    ensures Render(e) + "/" <= Render(p) <==> e < p
  {
    hide Join, Clean;
    if e < p {
      var q := p[|e|..];
      assert p == e + q;
      JoinConcat(e, q, '/');
    }
    if Render(e) + "/" <= Render(p) { PrefixBySegments(e, p, Render(p)[|Render(e)| + 1..]); }
  }

  lemma PrefixBySegments(e: seq<string>, p: seq<string>, w: string)
    requires AllClean(e) && AllClean(p) && e != [] && Render(p) == Render(e) + "/" + w
    ensures e < p
  {
    hide *;
    FieldsConcat(Render(e), w);
    FieldsOfRender(e);
    FieldsOfRender(p);
    var fs := Fields(w, '/');
    assert |[""] + e + fs| >= 3;
    assert p == Fields(Render(p), '/')[1..] == ([""] + e + fs)[1..] == e + fs;
  }

  lemma TextMatchIsSegments(e: seq<string>, p: seq<string>)
    requires AllClean(e) && AllClean(p)
    ensures TextMatch(Render(e), Render(p)) <==> SkipsSegments(e, p)
  {
    SuffixIsSegment(e);
    assert Render(e) == Render(p) <==> e == p by {
      SegmentsOfRender(e);
      SegmentsOfRender(p);
    }
    if |e| >= 2 {
      PrefixIsSegments(e[..|e| - 1], p);
    } else if |e| == 1 {
      assert e[..0] == [] && Render([]) == "/";
      assert Render([]) <= Render(p);
    }
  }

  // ---- main result ---------------------------------------------------------------------

  /** From raw list to answer: authentication is skipped exactly for the paths some entry means. */
  method SkipDecision(raw: seq<string>, path: string) returns (r: Result<bool>)
    ensures r.Rejected? <==> exists i :: 0 <= i < |raw| && '%' in raw[i]
    ensures r.Ok? ==> (r.value <==> exists i :: 0 <= i < |raw| && Skips(raw[i], path))
  {
    var stored := NormalizeAuthSkipPaths(raw);
    if stored.Rejected? { return Rejected; }
    var skip := ShouldSkipAuth(stored.value, path);
    SegmentsAreClean(path);
    forall i | 0 <= i < |raw|
      ensures TextMatch(stored.value[i], Normalized(path)) <==> Skips(raw[i], path)
    {
      SegmentsAreClean(raw[i]);
      TextMatchIsSegments(Segments(raw[i]), Segments(path));
    }
    return Ok(skip);
  }

  /**
   The path a request is dispatched under is at once the route key, what the skip
   check compares, and the segments of the URL as it came in.
   */
  lemma AuthAndRoutingAgree(url: string, entry: string)
    ensures var path := Normalized(Standardized(url));
            LookupKey(path) == path && Normalized(path) == path && (Skips(entry, path) <==> Skips(entry, url))
  {
    StandardizeThenNormalize(url);
    NormalizedIsKey(Standardized(url));
    NormalizeIdempotent(Standardized(url));
    SegmentsAreClean(url);
    SegmentsOfRender(Segments(url));
  }
}
