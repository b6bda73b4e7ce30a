/**
 The registered endpoint: canonical key, parameter names, and the regex text its pattern stands for.
 */
module Endpoint {
  import opened Wrappers
  import opened Text
  import opened Paths
  import opened SegmentTrie

  datatype Endpoint = Endpoint(key: string, normalized: string, params: seq<string>, pieces: seq<string>,
                               positions: seq<nat>, compiled: bool)

  predicate IsParam(part: string) { part == "" || part[0] == '{' }

  predicate WellFormedParam(part: string) { |part| >= 3 && part[0] == '{' && part[|part| - 1] == '}' }

  predicate WellFormed(parts: seq<string>)
  {
    forall i :: 0 <= i < |parts| ==> IsParam(parts[i]) ==> WellFormedParam(parts[i])
  }

  /** What a part contributes to the regex. */
  function PartPattern(part: string): (r: string)
  {
    if !IsParam(part) then part
    else if IsWild(part) && FindFrom(part, '|', 0) < |part| then WildConstraint(part)
    else "([^\\/]+)"
  }

  function PartPatterns(parts: seq<string>): (r: seq<string>)
    ensures |r| == |parts|
  {
    seq(|parts|, i requires 0 <= i < |parts| => PartPattern(parts[i]))
  }

  /** The names of the parameters, in order. */
  function ParamNames(parts: seq<string>): (names: seq<string>)
    requires WellFormed(parts)
  {
    if parts == [] then []
    else
      var n := |parts| - 1;
      assert WellFormed(parts[..n]);
      ParamNames(parts[..n]) + if IsParam(parts[n]) then [WildName(parts[n])] else []
  }

  function ParamPositions(parts: seq<string>): (ps: seq<nat>)
  {
    if parts == [] then []
    else
      var n := |parts| - 1;
      ParamPositions(parts[..n]) + if IsParam(parts[n]) then [n] else []
  }

  /**
   `names` and `ps` list the parameters among `parts`: each with its name and position, in order, and nothing else.
   */
  ghost predicate ListsParams(parts: seq<string>, names: seq<string>, ps: seq<nat>)
  {
    && |names| == |ps| && (forall i, j :: 0 <= i < j < |ps| ==> ps[i] < ps[j])
    && (forall i :: 0 <= i < |ps| ==> ps[i] < |parts| && Named(parts[ps[i]], names[i]))
    && (forall k :: 0 <= k < |parts| && IsParam(parts[k]) ==> k in ps)
  }

  predicate Named(part: string, name: string) { IsParam(part) && IsWild(part) && name == WildName(part) }

  lemma ListsMore(parts: seq<string>, names: seq<string>, ps: seq<nat>, part: string)
    requires ListsParams(parts, names, ps) && (IsParam(part) ==> WellFormedParam(part))
    ensures IsParam(part) ==> ListsParams(parts + [part], names + [WildName(part)], ps + [|parts|])
    ensures !IsParam(part) ==> ListsParams(parts + [part], names, ps)
  {
    assert IsParam(part) ==> Named(part, WildName(part));
    var all := parts + [part];
    assert forall k :: 0 <= k < |parts| ==> all[k] == parts[k];
    hide WildName, IsWild, IsParam;
  }

  lemma {:induction false} ParamsExactly(parts: seq<string>)
    requires WellFormed(parts)
    ensures ListsParams(parts, ParamNames(parts), ParamPositions(parts))
  {
    hide WildName, IsWild, IsParam, WellFormedParam, ListsParams;
    if parts == [] {
      NoParams();
    } else {
      var n := |parts| - 1;
      assert WellFormed(parts[..n]);
      ParamsExactly(parts[..n]);
      assert parts == parts[..n] + [parts[n]];
      ListsMore(parts[..n], ParamNames(parts[..n]), ParamPositions(parts[..n]), parts[n]);
      assert ParamNames(parts[..n]) + [] == ParamNames(parts[..n]);
      assert ParamPositions(parts[..n]) + [] == ParamPositions(parts[..n]);
    }
  }

  lemma NoParams()
    ensures ListsParams([], [], [])
  {
  }

  /** A literal stands for itself, a parameter for one segment of any text, and a constrained one for its constraint. */
  lemma PatternsMean(literal: string, name: string, constraint: string)
    requires literal != "" && literal[0] != '{' && '|' !in name
    ensures PartPattern(literal) == literal && PartPattern("{" + name + "}") == "([^\\/]+)"
    ensures PartPattern("{" + name + "|" + constraint + "}") == constraint
  {
    var plain, bound := "{" + name + "}", "{" + name + "|" + constraint + "}";
    assert forall i :: 0 <= i < |name| ==> plain[i + 1] == name[i] && bound[i + 1] == name[i];
    FirstOccurrence(plain, '|', |plain|);
    FirstOccurrence(bound, '|', |name| + 1);
    assert bound[|name| + 2..|bound| - 1] == constraint;
  }

  function Seed(useRegex: bool): (s: string) { if useRegex then "^/" else "/" }

  /** A first literal that starts with '^' brings its own anchor. */
  function Lead(parts: seq<string>, useRegex: bool): (s: string)
  {
    if parts != [] && !IsParam(parts[0]) && parts[0][0] == '^' then "" else Seed(useRegex)
  }

  function NormalizedUrl(parts: seq<string>, useRegex: bool): (s: string)
  {
    Lead(parts, useRegex) + Join(PartPatterns(parts), '/')
  }

  /** What the constructor's loop grows. */
  datatype Draft = Draft(normalized: string, params: seq<string>, pieces: seq<string>, positions: seq<nat>)

  function DraftOf(parts: seq<string>, useRegex: bool): (d: Draft)
    requires WellFormed(parts)
  {
    Draft(NormalizedUrl(parts, useRegex), ParamNames(parts), parts, ParamPositions(parts))
  }

  lemma NormalizedStep(parts: seq<string>, i: nat, useRegex: bool)
    requires i < |parts|
    ensures NormalizedUrl(parts[..i + 1], useRegex)
         == if i == 0 then Lead(parts[..1], useRegex) + PartPattern(parts[0])
            else NormalizedUrl(parts[..i], useRegex) + "/" + PartPattern(parts[i])
  {
    var before, last := PartPatterns(parts[..i]), PartPattern(parts[i]);
    assert PartPatterns(parts[..i + 1]) == before + [last];
    if i == 0 {
      assert before + [last] == [last];
    } else {
      JoinConcat(before, [last], '/');
      assert Lead(parts[..i], useRegex) == Lead(parts[..i + 1], useRegex);
      var lead := Lead(parts[..i], useRegex);
      assert lead + (Join(before, '/') + "/" + last) == (lead + Join(before, '/')) + "/" + last;
    }
  }

  /** The draft with one more part, the `i`-th. */
  function Grown(d: Draft, part: string, i: nat): (r: Draft)
    requires IsParam(part) ==> WellFormedParam(part)
  {
    var before := if i > 0 then d.normalized + "/" else if !IsParam(part) && part[0] == '^' then "" else d.normalized;
    Draft(before + PartPattern(part),
          d.params + if IsParam(part) then [WildName(part)] else [],
          d.pieces + [part],
          d.positions + if IsParam(part) then [i] else [])
  }

  lemma ParamsStep(parts: seq<string>, part: string)
    requires WellFormed(parts) && (IsParam(part) ==> WellFormedParam(part))
    ensures WellFormed(parts + [part])
    ensures ParamNames(parts + [part]) == ParamNames(parts) + if IsParam(part) then [WildName(part)] else []
    ensures ParamPositions(parts + [part]) == ParamPositions(parts) + if IsParam(part) then [|parts|] else []
  {
    assert (parts + [part])[..|parts|] == parts;
  }

  lemma DraftStep(parts: seq<string>, i: nat, useRegex: bool)
    requires i < |parts| && WellFormed(parts[..i]) && (IsParam(parts[i]) ==> WellFormedParam(parts[i]))
    ensures WellFormed(parts[..i + 1])
    ensures DraftOf(parts[..i + 1], useRegex) == Grown(DraftOf(parts[..i], useRegex), parts[i], i)
  {
    NormalizedStep(parts, i, useRegex);
    assert i == 0 ==> NormalizedUrl(parts[..0], useRegex) == Seed(useRegex) + "" == Seed(useRegex);
    hide NormalizedUrl, PartPattern, WildName, WellFormedParam, WellFormed, ParamNames, ParamPositions;
    assert parts[..i + 1] == parts[..i] + [parts[i]];
    ParamsStep(parts[..i], parts[i]);
  }

  /** process_url_part during registration; nothing when the part is malformed. */
  method ProcessPart(d: Draft, part: string, i: nat) returns (r: Option<Draft>)
    ensures r == if IsParam(part) && !WellFormedParam(part) then None else Some(Grown(d, part, i))
  {
    if part != "" && part[0] != '{' {
      var normalized := if i == 0 then (if part[0] == '^' then "" else d.normalized) + part
                        else d.normalized + "/" + part;
      assert d.params + [] == d.params && d.positions + [] == d.positions;
      return Some(d.(normalized := normalized, pieces := d.pieces + [part]));
    }
    if |part| < 3 || part[0] != '{' || part[|part| - 1] != '}' { return None; }
    var bar := FindFrom(part, '|', 0);
    var name := if bar < |part| then part[1..bar] else part[1..|part| - 1];
    var pattern := if bar < |part| then part[bar + 1..|part| - 1] else "([^\\/]+)";
    assert d.normalized + "" == d.normalized;
    r := Some(Draft(d.normalized + (if i == 0 then "" else "/") + pattern, d.params + [name],
                    d.pieces + [part], d.positions + [i]));
  }

  method ProcessParts(parts: seq<string>, useRegex: bool) returns (r: Option<Draft>)
    ensures r == if WellFormed(parts) then Some(DraftOf(parts, useRegex)) else None
  {
    var d := Draft(if useRegex then "^/" else "/", [], [], []);
    var i := 0;
    assert parts[..0] == [];
    assert Seed(useRegex) + "" == Seed(useRegex);
    assert d == DraftOf(parts[..0], useRegex);
    hide DraftOf, Grown, WellFormedParam;
    while i < |parts|
      invariant i <= |parts| && WellFormed(parts[..i]) && d == DraftOf(parts[..i], useRegex)
    {
      var next := ProcessPart(d, parts[i], i);
      if next.None? { return None; }
      DraftStep(parts, i, useRegex);
      d, i := next.value, i + 1;
    }
    assert parts[..|parts|] == parts;
    r := Some(d);
  }

  /** The endpoint of a registration URL, or nothing when the URL is malformed or its regex does not compile. */
  function EndpointOf(url: string, useRegex: bool, re: Regexes): (r: Result<Endpoint>)
  {
    var parts := Tokens(url, '/', true);
    if !WellFormed(parts) then Rejected
    else
      var normalized := NormalizedUrl(parts, useRegex) + if useRegex then "$" else "";
      if useRegex && !re.valid(normalized) then Rejected
      else Ok(Endpoint(LookupKey(url), normalized, ParamNames(parts), parts, ParamPositions(parts), useRegex))
  }

  ghost predicate Literals(segs: seq<string>)
  {
    forall i :: 0 <= i < |segs| ==> segs[i] != "" && segs[i][0] != '{' && '/' !in segs[i]
  }

  lemma {:induction false} LiteralsKept(segs: seq<string>)
    requires Literals(segs)
    ensures NonEmpty(segs) == segs
  {
    if segs != [] { LiteralsKept(segs[1..]); }
  }

  lemma {:induction false} LiteralsHaveNoParams(segs: seq<string>)
    requires Literals(segs)
    ensures WellFormed(segs) && ParamNames(segs) == [] && ParamPositions(segs) == []
  {
    hide WildName, IsWild;
    if segs != [] { LiteralsHaveNoParams(segs[..|segs| - 1]); }
  }

  lemma LiteralPatterns(segs: seq<string>)
    requires Literals(segs)
    ensures PartPatterns(segs) == segs
  {
    hide WildConstraint, FindFrom;
  }

  lemma {:induction false} JoinEnds(segs: seq<string>)
    requires segs != [] && Literals(segs)
    ensures var s := Join(segs, '/'); s != "" && s[|s| - 1] != '/'
  {
    if |segs| == 1 {
      assert segs[0][|segs[0]| - 1] in segs[0];
    } else {
      JoinEnds(segs[1..]);
    }
  }

  lemma TokensOfPath(segs: seq<string>)
    requires segs != [] && Literals(segs)
    ensures PathTokens("/" + Join(segs, '/')) == segs
  {
    hide PathTokens, Fields, Join, NonEmpty;
    FieldsOfJoin(segs, '/');
    TokensAreNonEmptyFields(Join(segs, '/'));
    LeadingSlashTokens(Join(segs, '/'));
    LiteralsKept(segs);
  }

  lemma KeyOfPath(s: string)
    requires s != "" && s[|s| - 1] != '/'
    ensures LookupKey("/" + s) == "/" + s
  {
    assert "" + ("/" + s) == "/" + s;
  }

  /**
   A path of literals stands for itself: its regex is that path, anchored at both ends, unless it brings its own '^'.
   */
  lemma LiteralEndpoint(segs: seq<string>, re: Regexes)
    requires segs != [] && Literals(segs)
    ensures var body := Join(segs, '/');
            var url, own := "/" + body, "^" <= segs[0];
            var anchored := (if own then body else "^" + url) + "$";
            && EndpointOf(url, false, re) == Ok(Endpoint(url, if own then body else url, [], segs, [], false))
            && EndpointOf(url, true, re) == if !re.valid(anchored) then Rejected
                                            else Ok(Endpoint(url, anchored, [], segs, [], true))
  {
    hide Join, LookupKey, ParamNames, ParamPositions, WellFormed, PartPatterns, Tokens;
    var s := Join(segs, '/');
    TokensOfPath(segs);
    JoinEnds(segs);
    KeyOfPath(s);
    LiteralsHaveNoParams(segs);
    LiteralPatterns(segs);
    assert "^/" + s + "$" == "^" + ("/" + s) + "$" && "/" + s + "" == "/" + s && "" + s + "" == s && "" + s == s;
  }

  /** http_endpoint's registration constructor. */
  method MakeEndpoint(url: string, useRegex: bool, re: Regexes, stray: char) returns (r: Result<Endpoint>)
    ensures r == EndpointOf(url, useRegex, re)
  {
    SameKey(url, stray);
    var last := if url == "" then stray else url[|url| - 1];
    var key := if last == '/' then url[..if url == "" then 0 else |url| - 1] else url;
    key := if key == "" || key[0] != '/' then "/" + key else key;
    var parts := StringSplit(url, '/', true);
    var d := ProcessParts(parts, useRegex);
    if d.None? { return Rejected; }
    var normalized := d.value.normalized;
    assert normalized + "" == normalized;
    if useRegex {
      normalized := normalized + "$";
      if !re.valid(normalized) { return Rejected; }
    }
    r := Ok(Endpoint(key, normalized, d.value.params, d.value.pieces, d.value.positions, useRegex));
  }
}
