/**
 Request paths: dot-segment removal in a buffer with an offset stack
 (`normalize_path`), slash clean-up (`standardize_url`), and the canonical key
 under which routes are stored and looked up.
 */
module Paths {
  import opened Text

  // ---- the segment stack -------------------------------------------------------

  /** Empty and "." segments are dropped, ".." drops the segment before it, if any. */
  function Step(stack: seq<string>, seg: string): (r: seq<string>)
  {
    if seg == "" || seg == "." then stack
    else if seg == ".." then (if stack == [] then [] else stack[..|stack| - 1])
    else stack + [seg]
  }

  function Resolve(segs: seq<string>): (stack: seq<string>)
  {
    if segs == [] then [] else Step(Resolve(segs[..|segs| - 1]), segs[|segs| - 1])
  }

  /** An absolute path of the given segments. */
  function Render(stack: seq<string>): (path: string)
    ensures path != "" && path[0] == '/'
  {
    "/" + Join(stack, '/')
  }

  /** The segments a path comes down to. */
  function Segments(path: string): (stack: seq<string>)
  {
    Resolve(Fields(path, '/'))
  }

  function Normalized(path: string): (r: string)
  {
    Render(Segments(path))
  }

  /** Segments that resolution leaves alone. */
  predicate Clean(s: string) { s != "" && s != "." && s != ".." && '/' !in s }

  ghost predicate AllClean(ss: seq<string>) { forall i :: 0 <= i < |ss| ==> Clean(ss[i]) }

  lemma {:induction false} ResolveIsClean(segs: seq<string>)
    requires SepFree(segs, '/')
    ensures AllClean(Resolve(segs))
  {
    if segs != [] { ResolveIsClean(segs[..|segs| - 1]); }
  }

  lemma SegmentsAreClean(path: string)
    ensures AllClean(Segments(path))
  {
    FieldsSepFree(path, '/');
    ResolveIsClean(Fields(path, '/'));
  }

  // ---- the buffer --------------------------------------------------------------

  lemma RenderPush(stack: seq<string>, seg: string)
    ensures Render(stack + [seg]) == Render(stack) + (if stack == [] then "" else "/") + seg
  {
    if stack == [] {
      assert stack + [seg] == [seg];
    } else {
      JoinConcat(stack, [seg], '/');
    }
  }

  /** The buffer of a clean stack is longer than "/" exactly when a segment is on it. */
  lemma RenderLength(stack: seq<string>)
    requires AllClean(stack)
    ensures |Render(stack)| > 1 <==> stack != []
  {
    if stack != [] {
      var n := |stack| - 1;
      RenderPush(stack[..n], stack[n]);
      assert stack == stack[..n] + [stack[n]];
    }
  }

  /** The scan stands at `start` with the segments `done` behind it; past the end, those are all. */
  ghost predicate Progress(path: string, start: nat, done: seq<string>)
  {
    if start <= |path| then Scanned(path, '/', start, done) else Fields(path, '/') == done
  }

  /** One turn of the scan. */
  lemma TakeSegment(path: string, start: nat, done: seq<string>)
    requires start <= |path| && Progress(path, start, done)
    ensures var end := FindFrom(path, '/', start);
            var seg := path[start..end];
            && '/' !in seg
            && Resolve(done + [seg]) == Step(Resolve(done), seg)
            && Progress(path, end + 1, done + [seg])
  {
    var end := FindFrom(path, '/', start);
    var seg := path[start..end];
    assert (done + [seg])[..|done|] == done;
    if end < |path| {
      ScanStep(path, '/', start, done);
    } else {
      ScanLast(path, '/', start, done);
    }
  }

  lemma ScanEnds(path: string, start: nat, done: seq<string>)
    requires start >= |path| && Progress(path, start, done)
    ensures Segments(path) == Resolve(done)
  {
    if start == |path| {
      assert path[start..] == "";
      assert (done + [""])[..|done|] == done;
    }
  }

  /** Truncating to the last mark takes the last segment off. */
  lemma PopSegment(stack: seq<string>)
    requires stack != []
    ensures var front := stack[..|stack| - 1]; Render(front) <= Render(stack)
  {
    var n := |stack| - 1;
    RenderPush(stack[..n], stack[n]);
    assert stack == stack[..n] + [stack[n]];
  }

  /** The marks are the lengths the buffer had before each segment. */
  ghost predicate Marked(marks: seq<nat>, stack: seq<string>)
  {
    |marks| == |stack| && forall k :: 0 <= k < |marks| ==> marks[k] == |Render(stack[..k])|
  }

  lemma MarkedPop(marks: seq<nat>, stack: seq<string>)
    requires Marked(marks, stack) && stack != []
    ensures Marked(marks[..|marks| - 1], stack[..|stack| - 1])
  {
    var n := |stack| - 1;
    assert forall k :: 0 <= k < n ==> stack[..n][..k] == stack[..k];
  }

  lemma MarkedPush(marks: seq<nat>, stack: seq<string>, seg: string)
    requires Marked(marks, stack)
    ensures Marked(marks + [|Render(stack)|], stack + [seg])
  {
    assert forall k :: 0 <= k <= |stack| ==> (stack + [seg])[..k] == stack[..k];
    assert stack[..|stack|] == stack;
  }

  /** What the loop does with one segment: nothing, truncate to the last mark, or append. */
  method TakeIntoBuffer(out: string, segMarks: seq<nat>, seg: string, ghost stack: seq<string>)
    returns (out': string, segMarks': seq<nat>)
    requires AllClean(stack) && out == Render(stack) && Marked(segMarks, stack) && '/' !in seg
    ensures out' == Render(Step(stack, seg)) && Marked(segMarks', Step(stack, seg)) && AllClean(Step(stack, seg))
  {
    hide Render, Marked;
    out', segMarks' := out, segMarks;
    if seg == "" || seg == "." { return; }
    MarkedLast(segMarks, stack);
    if seg == ".." {
      if segMarks != [] {
        MarkedPop(segMarks, stack);
        PopSegment(stack);
        out' := out[..segMarks[|segMarks| - 1]];
        segMarks' := segMarks[..|segMarks| - 1];
      }
      return;
    }
    RenderPush(stack, seg);
    RenderLength(stack);
    MarkedPush(segMarks, stack, seg);
    segMarks' := segMarks + [|out|];
    if |out| > 1 { out' := out' + "/"; }
    out' := out' + seg;
  }

  lemma ScanStarts(path: string)
    ensures Progress(path, 0, []) && Resolve([]) == [] && Render([]) == "/" && AllClean([]) && Marked([], [])
    ensures path != "" && path[0] == '/' ==> FindFrom(path, '/', 0) == 0
  {
    assert path[0..] == path;
    if path != "" && path[0] == '/' { FirstOccurrence(path, '/', 0); }
  }

  /** normalize_path. */
  method NormalizePath(path: string) returns (out: string)
    ensures out == Normalized(path)
  {
    hide Progress, Fields, Resolve, Render, Marked, FindFrom, Join, AllClean;
    out := "/";
    var segMarks: seq<nat> := [];
    var start := 0;
    ghost var done: seq<string> := [];
    ScanStarts(path);
    if path != "" && path[0] == '/' {
      TakeSegment(path, 0, []);
      done := [] + [path[0..0]];
      start := 1;
    }
    while start < |path|
      invariant 0 <= start <= |path| + 1
      invariant Progress(path, start, done)
      invariant AllClean(Resolve(done)) && out == Render(Resolve(done)) && Marked(segMarks, Resolve(done))
    {
      var end := FindFrom(path, '/', start);
      var seg := path[start..end];
      TakeSegment(path, start, done);
      out, segMarks := TakeIntoBuffer(out, segMarks, seg, Resolve(done));
      done := done + [seg];
      start := end + 1;
    }
    ScanEnds(path, start, done);
  }

  lemma MarkedLast(marks: seq<nat>, stack: seq<string>)
    requires Marked(marks, stack)
    ensures |marks| == |stack|
    ensures stack != [] ==> marks[|marks| - 1] == |Render(stack[..|stack| - 1])|
  {
  }

  // ---- idempotence ---------------------------------------------------------------

  lemma {:induction false} ResolveClean(stack: seq<string>)
    requires AllClean(stack)
    ensures Resolve(stack) == stack
  {
    if stack != [] {
      var n := |stack| - 1;
      ResolveClean(stack[..n]);
      assert Resolve(stack) == Step(stack[..n], stack[n]);
    }
  }

  lemma {:induction false} ResolveFrom(lead: string, segs: seq<string>)
    requires lead == "" || lead == "."
    ensures Resolve([lead] + segs) == Resolve(segs)
  {
    if segs == [] {
      assert ([lead] + segs)[..0] == [];
    } else {
      var n := |segs| - 1;
      assert ([lead] + segs)[..|segs|] == [lead] + segs[..n];
      ResolveFrom(lead, segs[..n]);
    }
  }

  /** The rendering of clean segments splits into them. */
  lemma FieldsOfRender(stack: seq<string>)
    requires AllClean(stack)
    ensures Fields(Render(stack), '/') == [""] + if stack == [] then [""] else stack
  {
    FieldsCons('/', Join(stack, '/'));
    assert Render(stack) == ['/'] + Join(stack, '/');
    if stack == [] { assert Fields("", '/') == [""]; } else { FieldsOfJoin(stack, '/'); }
  }

  /** Reading back a rendered stack of clean segments. */
  lemma SegmentsOfRender(stack: seq<string>)
    requires AllClean(stack)
    ensures Segments(Render(stack)) == stack
  {
    FieldsOfRender(stack);
    ResolveFrom("", if stack == [] then [""] else stack);
    if stack == [] {
      ResolveFrom("", []);
      assert [""] + [] == [""];
    } else {
      ResolveClean(stack);
    }
  }

  /** Normalizing twice is normalizing once. */
  lemma NormalizeIdempotent(path: string)
    ensures Normalized(Normalized(path)) == Normalized(path)
  {
    SegmentsAreClean(path);
    SegmentsOfRender(Segments(path));
  }

  /** Equal results exactly for equal segments. */
  lemma NormalizedBySegments(p: string, q: string)
    ensures Normalized(p) == Normalized(q) <==> Segments(p) == Segments(q)
  {
    SegmentsAreClean(p);
    SegmentsAreClean(q);
    SegmentsOfRender(Segments(p));
    SegmentsOfRender(Segments(q));
  }

  /** Fields of two texts around a separator. */
  lemma FieldsConcat(v: string, w: string)
    ensures Fields(v + "/" + w, '/') == Fields(v, '/') + Fields(w, '/')
  {
    var fs := Fields(v, '/') + Fields(w, '/');
    FieldsSepFree(v, '/');
    FieldsSepFree(w, '/');
    JoinOfFields(v, '/');
    JoinOfFields(w, '/');
    JoinConcat(Fields(v, '/'), Fields(w, '/'), '/');
    FieldsOfJoin(fs, '/');
  }

  /** One more segment: an empty one and "." add nothing, ".." takes the last one back, any other comes last. */
  lemma SegmentsMore(path: string, seg: string)
    requires '/' !in seg
    ensures var before := Segments(path);
            Segments(path + "/" + seg) == if seg == "" || seg == "." then before
                                          else if seg != ".." then before + [seg]
                                          else if before == [] then [] else before[..|before| - 1]
  {
    var fs := Fields(path, '/');
    FieldsConcat(path, seg);
    FirstOccurrence(seg, '/', |seg|);
    assert Fields(seg, '/') == [seg];
    assert (fs + [seg])[..|fs|] == fs;
  }

  /** ".." undoes the segment before it, and is dropped at the root. */
  lemma DotDotUndoes(path: string, seg: string)
    requires Clean(seg)
    ensures Segments(path + "/" + seg + "/..") == Segments(path)
              && Normalized(path + "/" + seg + "/..") == Normalized(path)
    ensures Segments(path) == [] ==> Segments(path + "/..") == []
  {
    hide Segments, Render;
    SegmentsMore(path, seg);
    assert path + "/" + seg + "/.." == (path + "/" + seg) + "/" + "..";
    SegmentsMore(path + "/" + seg, "..");
    assert path + "/.." == path + "/" + "..";
    SegmentsMore(path, "..");
  }

  // ---- standardize_url -----------------------------------------------------------

  /** std::unique on slashes: a '/' right after a '/' is dropped. */
  function CollapseSlashes(s: string): (r: string)
  {
    if |s| < 2 then s
    else if s[0] == '/' && s[1] == '/' then CollapseSlashes(s[1..])
    else [s[0]] + CollapseSlashes(s[1..])
  }

  function Standardized(url: string): (r: string)
  {
    var s := CollapseSlashes(url);
    if |s| > 1 && s[|s| - 1] == '/' then s[..|s| - 1] else s
  }

  /** standardize_url. */
  method StandardizeUrl(url: string) returns (result: string)
    ensures result == Standardized(url)
  {
    if url == "" { return url; }
    result := [url[0]];
    assert url[0..] == url;
    for i := 1 to |url|
      invariant Collapsed(url, result, i - 1)
    {
      CollapseTurn(url, result, i - 1);
      if !(result[|result| - 1] == '/' && url[i] == '/') {
        result := result + [url[i]];
      }
    }
    CollapseExit(url, result);
    hide CollapseSlashes, Collapsed;
    if |result| > 1 && result[|result| - 1] == '/' {
      result := result[..|result| - 1];
    }
  }

  /** `result` is what the characters up to and including `i` leave. */
  ghost predicate Collapsed(url: string, result: string, i: nat)
  {
    && i < |url| && result != "" && result[|result| - 1] == url[i]
    && CollapseSlashes(url) == result[..|result| - 1] + CollapseSlashes(url[i..])
  }

  lemma CollapseExit(url: string, result: string)
    requires url != "" && Collapsed(url, result, |url| - 1)
    ensures CollapseSlashes(url) == result
  {
    assert url[|url| - 1..] == [url[|url| - 1]];
  }

  lemma CollapseTurn(url: string, result: string, i: nat)
    requires Collapsed(url, result, i) && i + 1 < |url|
    ensures Collapsed(url, if url[i] == '/' && url[i + 1] == '/' then result else result + [url[i + 1]], i + 1)
  {
    assert url[i..][1..] == url[i + 1..];
    if !(url[i] == '/' && url[i + 1] == '/') {
      assert (result + [url[i + 1]])[..|result|] == result;
      assert result == result[..|result| - 1] + [url[i]];
    }
  }

  /** Fields, one character at a time from the front. */
  lemma FieldsCons(c: char, s: string)
    ensures var fs := Fields(s, '/');
            Fields([c] + s, '/') == if c == '/' then [""] + fs else [[c] + fs[0]] + fs[1..]
  {
    var t := [c] + s;
    if c == '/' {
      FirstOccurrence(t, '/', 0);
      assert t[..0] == "" && t[1..] == s;
    } else {
      var i := FindFrom(s, '/', 0);
      assert forall k :: 1 <= k < |t| ==> t[k] == s[k - 1];
      FirstOccurrence(t, '/', i + 1);
      assert t[..i + 1] == [c] + s[..i];
      if i < |s| { assert t[i + 2..] == s[i + 1..]; } else { assert s[..i] == s; }
    }
  }

  /** Same first field, same non-empty fields after it. */
  ghost predicate SameFields(fs: seq<string>, gs: seq<string>)
  {
    fs != [] && gs != [] && fs[0] == gs[0] && NonEmpty(fs[1..]) == NonEmpty(gs[1..])
  }

  lemma SameFieldsCons(c: char, fs: seq<string>, gs: seq<string>)
    requires SameFields(fs, gs)
    ensures SameFields([""] + fs, [""] + gs) && SameFields([[c] + fs[0]] + fs[1..], [[c] + gs[0]] + gs[1..])
    ensures NonEmpty(fs) == NonEmpty(gs)
  {
    assert fs == [fs[0]] + fs[1..] && gs == [gs[0]] + gs[1..];
    NonEmptyConcat([fs[0]], fs[1..]);
    NonEmptyConcat([gs[0]], gs[1..]);
    assert ([""] + fs)[1..] == fs && ([""] + gs)[1..] == gs;
    assert ([[c] + fs[0]] + fs[1..])[1..] == fs[1..] && ([[c] + gs[0]] + gs[1..])[1..] == gs[1..];
  }

  lemma {:induction false} CollapseKeepsFields(s: string)
    ensures SameFields(Fields(s, '/'), Fields(CollapseSlashes(s), '/'))
  {
    if |s| >= 2 {
      var t := s[1..];
      assert s == [s[0]] + t;
      FieldsCons(s[0], t);
      FieldsCons(s[0], CollapseSlashes(t));
      CollapseKeepsFields(t);
      SameFieldsCons(s[0], Fields(t, '/'), Fields(CollapseSlashes(t), '/'));
      if s[0] == '/' && s[1] == '/' {
        assert t == ['/'] + t[1..];
        FieldsCons('/', t[1..]);
        assert ([""] + Fields(t, '/'))[1..] == Fields(t, '/');
        assert Fields(t, '/')[0] == "";
        assert NonEmpty(Fields(t, '/')) == NonEmpty(Fields(t, '/')[1..]);
      }
    }
  }

  lemma {:induction false} ResolveNonEmpty(segs: seq<string>)
    ensures Resolve(NonEmpty(segs)) == Resolve(segs)
  {
    if segs != [] {
      var n := |segs| - 1;
      ResolveNonEmpty(segs[..n]);
      assert segs == segs[..n] + [segs[n]];
      NonEmptyConcat(segs[..n], [segs[n]]);
      var r := NonEmpty(segs[..n]);
      if segs[n] == "" {
        assert NonEmpty([segs[n]]) == [];
        assert r + [] == r;
      } else {
        assert (r + [segs[n]])[..|r|] == r;
      }
    }
  }

  lemma FieldsTrailing(s: string)
    ensures Fields(s + "/", '/') == Fields(s, '/') + [""]
  {
    var fs := Fields(s, '/');
    FieldsSepFree(s, '/');
    JoinOfFields(s, '/');
    JoinConcat(fs, [""], '/');
    assert Join(fs + [""], '/') == s + "/";
    FieldsOfJoin(fs + [""], '/');
  }

  /** Dropping a trailing slash changes no segment. */
  lemma TrailingSlash(s: string)
    ensures Segments(s + "/") == Segments(s)
  {
    var fs := Fields(s, '/');
    FieldsTrailing(s);
    assert (fs + [""])[..|fs|] == fs;
  }

  lemma CollapseKeepsSegments(url: string)
    ensures Segments(CollapseSlashes(url)) == Segments(url)
  {
    hide Fields, NonEmpty, Resolve, CollapseSlashes, SameFields;
    var fs, gs := Fields(url, '/'), Fields(CollapseSlashes(url), '/');
    CollapseKeepsFields(url);
    SameFieldsCons('/', fs, gs);
    ResolveNonEmpty(fs);
    ResolveNonEmpty(gs);
  }

  /** Slash clean-up before normalization changes nothing. */
  lemma StandardizeThenNormalize(url: string)
    ensures Segments(Standardized(url)) == Segments(url)
    ensures Normalized(Standardized(url)) == Normalized(url)
  {
    hide Segments, CollapseSlashes, Render;
    var s := CollapseSlashes(url);
    CollapseKeepsSegments(url);
    if |s| > 1 && s[|s| - 1] == '/' {
      TrailingSlash(s[..|s| - 1]);
      assert s[..|s| - 1] + "/" == s;
    }
  }

  predicate NoDoubleSlash(s: string) { forall i :: 0 <= i < |s| - 1 ==> !(s[i] == '/' && s[i + 1] == '/') }

  lemma {:induction false} CollapseShape(s: string)
    ensures var r := CollapseSlashes(s);
            NoDoubleSlash(r) && (r == "" <==> s == "") && (s != "" ==> r[0] == s[0]) && (NoDoubleSlash(s) ==> r == s)
  {
    if |s| >= 2 {
      var t := s[1..];
      CollapseShape(t);
      assert t[0] == s[1];
      assert NoDoubleSlash(s) ==> NoDoubleSlash(t) && !(s[0] == '/' && s[1] == '/');
    }
  }

  /** What is left has no two slashes together and none at its end, keeps its first character, and is left alone. */
  lemma StandardizedShape(url: string)
    ensures var r := Standardized(url);
            && NoDoubleSlash(r) && (|r| > 1 ==> r[|r| - 1] != '/') && (r == "" <==> url == "")
            && (url != "" ==> r[0] == url[0]) && Standardized(r) == r && PathTokens(r) == PathTokens(url)
  {
    hide CollapseSlashes, PathTokens;
    CollapseShape(url);
    var s, r := CollapseSlashes(url), Standardized(url);
    CollapseShape(r);
    CollapseKeepsTokens(url);
    if |s| > 1 && s[|s| - 1] == '/' {
      TrailingSlashTokens(s[..|s| - 1]);
      assert s[..|s| - 1] + "/" == s;
      var i := |s| - 2;
      assert s[i + 1] == '/' && s[i] != '/';
    }
  }

  lemma CollapseKeepsTokens(url: string)
    ensures PathTokens(CollapseSlashes(url)) == PathTokens(url)
  {
    hide PathTokens, CollapseSlashes, SameFields, Fields, NonEmpty;
    var fs, gs := Fields(url, '/'), Fields(CollapseSlashes(url), '/');
    CollapseKeepsFields(url);
    SameFieldsCons('/', fs, gs);
    TokensAreNonEmptyFields(url);
    TokensAreNonEmptyFields(CollapseSlashes(url));
  }

  // ---- the route key ---------------------------------------------------------------

  /** canonicalize_lookup_path: one leading '/', and no trailing '/' on anything longer. */
  function LookupKey(path: string): (key: string)
  {
    if path == "" then "/"
    else
      var leading := path[0] == '/';
      var trailing := |path| > 1 && path[|path| - 1] == '/';
      (if leading then "" else "/") + if trailing then path[..|path| - 1] else path
  }

  /**
   normalize_url_complete, which registration runs: the trailing '/' goes first, then the leading one comes.
   On an empty URL it reads a character before the start; `stray` stands for whatever is there.
   */
  function EndpointKey(url: string, stray: char): (key: string)
  {
    var last := if url == "" then stray else url[|url| - 1];
    var s := if last == '/' && url != "" then url[..|url| - 1] else url;
    if s == "" || s[0] != '/' then "/" + s else s
  }

  /** A path is found under one key, with or without a slash at either end. */
  lemma KeyIgnoresOuterSlashes(w: string)
    requires w != "" && w[0] != '/' && w[|w| - 1] != '/'
    ensures LookupKey(w) == "/" + w && LookupKey("/" + w) == "/" + w
    ensures LookupKey(w + "/") == "/" + w && LookupKey("/" + w + "/") == "/" + w
    ensures LookupKey("") == "/" && LookupKey("/") == "/"
  {
    var p, q, r := "/" + w, w + "/", "/" + w + "/";
    assert q[..|w|] == w && r[..|w| + 1] == p && q[0] == w[0] && p[|w|] == w[|w| - 1];
    assert "" + p == p && "" + "/" == "/";
  }

  /** Registration and lookup agree on the key of every path, whatever the stray character is. */
  lemma SameKey(path: string, stray: char)
    ensures EndpointKey(path, stray) == LookupKey(path)
  {
    if path == "/" { assert path[..0] == ""; }
  }

  /** The non-empty segments of a path, as registration splits it. */
  function PathTokens(path: string): (ts: seq<string>) { Tokens(path, '/', true) }

  lemma TokensAreNonEmptyFields(path: string)
    ensures PathTokens(path) == NonEmpty(Fields(path, '/'))
  {
    var fs := Fields(path, '/');
    var n := |fs| - 1;
    if fs[n] == "" {
      assert fs == fs[..n] + [""];
      NonEmptyConcat(fs[..n], [""]);
    }
  }

  lemma LeadingSlashTokens(body: string)
    ensures PathTokens("/" + body) == PathTokens(body)
  {
    TokensAreNonEmptyFields(body);
    TokensAreNonEmptyFields("/" + body);
    FieldsCons('/', body);
    hide Fields, PathTokens;
    NonEmptyConcat([""], Fields(body, '/'));
  }

  lemma TrailingSlashTokens(body: string)
    ensures PathTokens(body + "/") == PathTokens(body)
  {
    TokensAreNonEmptyFields(body);
    TokensAreNonEmptyFields(body + "/");
    FieldsTrailing(body);
    hide Fields, PathTokens;
    NonEmptyConcat(Fields(body, '/'), [""]);
  }

  /** The tokens of two paths put together are theirs, in order. */
  lemma TokensOfBoth(x: string, y: string)
    ensures PathTokens(x + "/" + y) == PathTokens(x) + PathTokens(y)
  {
    var fs, gs := Fields(x, '/'), Fields(y, '/');
    TokensAreNonEmptyFields(x);
    TokensAreNonEmptyFields(y);
    TokensAreNonEmptyFields(x + "/" + y);
    FieldsSepFree(x, '/');
    FieldsSepFree(y, '/');
    JoinOfFields(x, '/');
    JoinOfFields(y, '/');
    hide PathTokens, Fields;
    JoinConcat(fs, gs, '/');
    FieldsOfJoin(fs + gs, '/');
    NonEmptyConcat(fs, gs);
  }

  lemma TokenOfWord(w: string)
    requires w != "" && '/' !in w
    ensures PathTokens(w) == [w]
  {
    FirstOccurrence(w, '/', |w|);
    TokensAreNonEmptyFields(w);
    assert [w][1..] == [];
  }

  /** Making a path canonical changes none of its tokens. */
  lemma KeyTokens(path: string)
    ensures PathTokens(LookupKey(path)) == PathTokens(path)
  {
    hide PathTokens;
    var body := if |path| > 1 && path[|path| - 1] == '/' then path[..|path| - 1] else path;
    LeadingSlashTokens(body);
    TrailingSlashTokens(body);
    assert path == body || path == body + "/";
    assert LookupKey(path) == body || LookupKey(path) == "/" + body;
  }

  /** The normalized request path is its own lookup key. */
  lemma NormalizedIsKey(path: string)
    ensures LookupKey(Normalized(path)) == Normalized(path)
  {
    var stack := Segments(path);
    SegmentsAreClean(path);
    if stack != [] {
      var n := |stack| - 1;
      assert stack == stack[..n] + [stack[n]];
      RenderPush(stack[..n], stack[n]);
      var last := stack[n];
      assert last[|last| - 1] in last;
    }
  }
}
