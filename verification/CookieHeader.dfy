/**
 The `Cookie` request header: the walker that splits it into name and value
 pairs, against the text a client joins them into (section 4.2.1 of RFC 6265).
 */
module CookieHeader {
  import opened Wrappers
  import opened Text

  datatype Pair = Pair(name: string, value: string)

  // ---- what the setters accept ---------------------------------------------------

  predicate NameByte(c: char) { c > ' ' && c != '\U{7f}' && c != ';' && c != '=' }

  /** validate_name: an empty name passes here and is refused when the cookie is rendered. */
  predicate ValidName(s: string) { forall i :: 0 <= i < |s| ==> NameByte(s[i]) }

  predicate Forbidden(c: char) { c == '\r' || c == '\n' || c == '\0' }

  /** validate_value. */
  predicate ValidValue(s: string) { forall i :: 0 <= i < |s| ==> !Forbidden(s[i]) && s[i] != ';' }

  // ---- one entry -----------------------------------------------------------------

  predicate Blank(c: char) { c == ' ' || c == '\t' }

  function TrimFront(s: string): (r: string)
    ensures r == [] || !Blank(r[0])
  {
    if s != "" && Blank(s[0]) then TrimFront(s[1..]) else s
  }

  function TrimBack(s: string): (r: string)
    ensures r <= s && (r == [] || !Blank(r[|r| - 1]))
  {
    if s != "" && Blank(s[|s| - 1]) then TrimBack(s[..|s| - 1]) else s
  }

  predicate Blanks(s: string) { forall i :: 0 <= i < |s| ==> s[i] == ' ' || s[i] == '\t' }

  predicate NotBlank(c: char) { c != ' ' && c != '\t' }

  /** Blanks at both ends go and nothing else does. */
  lemma {:induction false} TrimmedFront(s: string) returns (front: string)
    ensures s == front + TrimFront(s) && Blanks(front) && (TrimFront(s) != "" ==> NotBlank(TrimFront(s)[0]))
  {
    if s != "" && Blank(s[0]) {
      var rest := TrimmedFront(s[1..]);
      front := [s[0]] + rest;
    } else {
      front := "";
    }
  }

  lemma {:induction false} TrimmedBack(s: string) returns (back: string)
    ensures s == TrimBack(s) + back && Blanks(back)
    ensures TrimBack(s) != "" ==> NotBlank(TrimBack(s)[|TrimBack(s)| - 1])
  {
    if s != "" && Blank(s[|s| - 1]) {
      var rest := TrimmedBack(s[..|s| - 1]);
      back := rest + [s[|s| - 1]];
    } else {
      back := "";
    }
  }

  lemma {:induction false} BlanksTrimmed(blanks: string, s: string)
    requires Blanks(blanks)
    ensures TrimFront(blanks + s) == TrimFront(s) && TrimBack(s + blanks) == TrimBack(s)
  {
    if blanks == "" {
      assert blanks + s == s && s + blanks == s;
    } else {
      var n := |blanks| - 1;
      assert (blanks + s)[1..] == blanks[1..] + s && (s + blanks)[..|s + blanks| - 1] == s + blanks[..n];
      BlanksTrimmed(blanks[1..], s);
      BlanksTrimmed(blanks[..n], s);
    }
  }

  /** trim_ws. */
  method TrimWs(s: string) returns (r: string)
    ensures exists front, back :: Blanks(front) && Blanks(back) && s == front + r + back
    ensures r != "" ==> NotBlank(r[0]) && NotBlank(r[|r| - 1])
    ensures r == TrimBack(TrimFront(s))
  {
    ghost var front := TrimmedFront(s);
    ghost var back := TrimmedBack(TrimFront(s));
    assert s == front + TrimBack(TrimFront(s)) + back;
    r := s;
    while r != "" && Blank(r[0])
      invariant TrimFront(r) == TrimFront(s)
      decreases |r|
    {
      r := r[1..];
    }
    while r != "" && Blank(r[|r| - 1])
      invariant TrimBack(r) == TrimBack(TrimFront(s))
      decreases |r|
    {
      r := r[..|r| - 1];
    }
  }

  predicate Quoted(v: string) { |v| >= 2 && v[0] == '"' && v[|v| - 1] == '"' }

  function Unquote(v: string): (r: string)
  {
    if Quoted(v) then v[1..|v| - 1] else v
  }

  /** What an entry of the header stands for, if anything. */
  function TokenPair(tok: string): (r: Option<Pair>)
  {
    var t := TrimBack(TrimFront(tok));
    var eq := FindFrom(t, '=', 0);
    if eq == |t| || eq == 0 then None
    else
      var name := TrimBack(TrimFront(t[..eq]));
      if name == "" then None else Some(Pair(name, Unquote(t[eq + 1..])))
  }

  /** parse_cookie_token. */
  method ParseCookieToken(tok: string) returns (r: Option<Pair>)
    ensures r == TokenPair(tok)
  {
    hide TrimFront, TrimBack;
    var t := TrimWs(tok);
    if t == "" { return None; }
    var eq := FindFrom(t, '=', 0);
    if eq == |t| || eq == 0 { return None; }
    var name, value := t[..eq], t[eq + 1..];
    if |value| >= 2 && value[0] == '"' && value[|value| - 1] == '"' {
      value := value[1..|value| - 1];
    }
    name := TrimWs(name);
    if name == "" { return None; }
    return Some(Pair(name, value));
  }

  // ---- the header ------------------------------------------------------------------

  function Pairs(tokens: seq<string>): (r: seq<Pair>)
  {
    if tokens == [] then []
    else
      var rest := Pairs(tokens[1..]);
      match TokenPair(tokens[0])
      case None => rest
      case Some(p) => [p] + rest
  }

  function ParsedHeader(header: string): (r: seq<Pair>)
  {
    Pairs(Fields(header, ';'))
  }

  lemma {:induction false} PairsConcat(a: seq<string>, b: seq<string>)
    ensures Pairs(a + b) == Pairs(a) + Pairs(b)
  {
    if a == [] {
      assert a + b == b;
    } else {
      assert (a + b)[1..] == a[1..] + b;
      PairsConcat(a[1..], b);
    }
  }

  /** The pairs found before `pos` are those of the fields scanned so far. */
  ghost predicate Walked(header: string, pos: nat, done: seq<string>, out: seq<Pair>)
  {
    Scanned(header, ';', pos, done) && out == Pairs(done)
  }

  function Found(tok: string): (r: seq<Pair>)
  {
    match TokenPair(tok)
    case None => []
    case Some(p) => [p]
  }

  lemma PairsSnoc(done: seq<string>, tok: string)
    ensures Pairs(done + [tok]) == Pairs(done) + Found(tok)
  {
    hide TokenPair;
    PairsConcat(done, [tok]);
    assert [tok][1..] == [];
  }

  lemma WalkStep(header: string, pos: nat, done: seq<string>, out: seq<Pair>)
    requires Walked(header, pos, done, out)
    ensures var end := FindFrom(header, ';', pos);
            var tok := header[pos..end];
            if end == |header| then ParsedHeader(header) == out + Found(tok)
            else Walked(header, end + 1, done + [tok], out + Found(tok))
  {
    hide Fields, Pairs, Found, TokenPair;
    var end := FindFrom(header, ';', pos);
    PairsSnoc(done, header[pos..end]);
    if end < |header| { ScanStep(header, ';', pos, done); } else { ScanLast(header, ';', pos, done); }
  }

  lemma WalkStart(header: string)
    ensures Walked(header, 0, [], [])
  {
    assert header[0..] == header;
  }

  lemma NothingReceived()
    ensures ParsedHeader("") == []
  {
    assert Fields("", ';') == [""] && [""][1..] == [];
  }

  /** parse_cookie_header. */
  method ParseCookieHeader(header: string) returns (out: seq<Pair>)
    ensures out == ParsedHeader(header)
  {
    hide Fields, Pairs, TokenPair, Walked, ParsedHeader, FindFrom;
    out := [];
    if header == "" {
      NothingReceived();
      return;
    }
    var pos := 0;
    ghost var done: seq<string> := [];
    WalkStart(header);
    while pos <= |header|
      invariant 0 <= pos <= |header| && Walked(header, pos, done, out)
      decreases |header| - pos
    {
      var end := FindFrom(header, ';', pos);
      WalkStep(header, pos, done, out);
      assert out + [] == out;
      var parsed := ParseCookieToken(header[pos..end]);
      if parsed.Some? { out := out + [parsed.value]; }
      if end == |header| { return; }
      done := done + [header[pos..end]];
      pos := end + 1;
    }
  }

  // ---- the client's text -----------------------------------------------------------

  function PairText(p: Pair): (s: string)
  {
    p.name + "=" + p.value
  }

  /** name=value pairs with "; " between them. */
  function HeaderText(ps: seq<Pair>): (s: string)
  {
    if ps == [] then ""
    else if |ps| == 1 then PairText(ps[0])
    else PairText(ps[0]) + "; " + HeaderText(ps[1..])
  }

  ghost predicate Settable(p: Pair)
  {
    p.name != "" && ValidName(p.name) && ValidValue(p.value)
  }

  /** The value that arrives: trailing blanks and one pair of outer quotes are lost. */
  function Received(p: Pair): (r: Pair)
  {
    Pair(p.name, Unquote(TrimBack(p.value)))
  }

  lemma {:induction false} TrimBackAfter(front: string, v: string)
    requires front != "" && !Blank(front[|front| - 1])
    ensures TrimBack(front + v) == front + TrimBack(v)
  {
    if v == "" {
      assert front + v == front;
    } else if Blank(v[|v| - 1]) {
      assert (front + v)[..|front + v| - 1] == front + v[..|v| - 1];
      TrimBackAfter(front, v[..|v| - 1]);
    }
  }

  lemma NameStays(name: string)
    requires name != "" && ValidName(name)
    ensures TrimFront(name) == name && TrimBack(name) == name
  {
    assert NameByte(name[0]) && NameByte(name[|name| - 1]);
  }

  lemma FrontStays(p: Pair, lead: string)
    requires Settable(p) && (lead == "" || lead == " ")
    ensures TrimFront(lead + PairText(p)) == PairText(p)
  {
    var text := PairText(p);
    var tok := lead + text;
    assert NameByte(p.name[0]) && text[0] == p.name[0];
    assert TrimFront(text) == text;
    if lead == " " { assert tok[1..] == text; } else { assert tok == text; }
  }

  lemma TrimmedPair(p: Pair, lead: string)
    requires Settable(p) && (lead == "" || lead == " ")
    ensures TrimBack(TrimFront(lead + PairText(p))) == p.name + "=" + TrimBack(p.value)
  {
    hide TrimFront, TrimBack, Settable;
    FrontStays(p, lead);
    TrimBackAfter(p.name + "=", p.value);
  }

  lemma SplitAtName(name: string, rest: string)
    requires ValidName(name)
    ensures var t := name + "=" + rest;
            FindFrom(t, '=', 0) == |name| && t[..|name|] == name && t[|name| + 1..] == rest
  {
    var t := name + "=" + rest;
    assert forall k :: 0 <= k < |name| ==> t[k] == name[k] && NameByte(name[k]);
    FirstOccurrence(t, '=', |name|);
  }

  /** An entry is read as its pair, with or without a blank in front. */
  lemma TokenOfPair(p: Pair, lead: string)
    requires Settable(p) && (lead == "" || lead == " ")
    ensures TokenPair(lead + PairText(p)) == Some(Received(p))
  {
    hide TrimFront, TrimBack, FindFrom, Unquote, PairText, ValidName, ValidValue;
    TrimmedPair(p, lead);
    SplitAtName(p.name, TrimBack(p.value));
    NameStays(p.name);
  }

  /** Blanks around an entry, and between its name and the equals sign, do not count; behind that sign they do. */
  lemma BlanksAroundName(a: string, name: string, b: string, value: string, c: string)
    requires Blanks(a) && Blanks(b) && Blanks(c) && name != "" && ValidName(name)
    requires value != "" && NotBlank(value[|value| - 1])
    ensures TokenPair(a + name + b + "=" + value + c) == Some(Pair(name, Unquote(value)))
  {
    hide TrimFront, TrimBack, FindFrom, Unquote;
    var inner := name + b + "=" + value;
    assert a + name + b + "=" + value + c == a + (inner + c);
    BlanksTrimmed(a, inner + c);
    EndsStay(inner + c, inner);
    BlanksTrimmed(c, inner);
    NameEnds(name);
    assert inner[0] == name[0] && inner[|inner| - 1] == value[|value| - 1];
    EndsStay(inner, inner);
    SplitAtBlank(name, b, value);
    NameStays(name);
    BlanksTrimmed(b, name);
    EndsStay(name + b, name);
  }

  lemma NameEnds(name: string)
    requires name != "" && ValidName(name)
    ensures NotBlank(name[0])
  {
    assert NameByte(name[0]);
  }

  /** A text that starts like `s`, with no blank there, keeps its front; one that ends in no blank its back. */
  lemma EndsStay(t: string, s: string)
    requires s != "" && s <= t
    ensures NotBlank(s[0]) ==> TrimFront(t) == t
    ensures NotBlank(s[|s| - 1]) ==> TrimBack(s) == s
  {
  }

  lemma SplitAtBlank(name: string, b: string, value: string)
    requires Blanks(b) && ValidName(name)
    ensures var t := name + b + "=" + value;
            FindFrom(t, '=', 0) == |name + b| && t[..|name + b|] == name + b && t[|name + b| + 1..] == value
  {
    var t := name + b + "=" + value;
    assert forall k :: 0 <= k < |name| ==> t[k] == name[k] && NameByte(name[k]);
    assert forall k :: 0 <= k < |b| ==> t[|name| + k] == b[k];
    assert forall k :: |name| <= k < |name + b| ==> t[k] == b[k - |name|];
    FirstOccurrence(t, '=', |name + b|);
  }

  /** An entry is dropped exactly when it has no equals sign or nothing but blanks before the first one. */
  lemma DroppedExactly(tok: string)
    ensures TokenPair(tok).None? <==> '=' !in tok || Blanks(tok[..FindFrom(tok, '=', 0)])
  {
    hide TrimFront, TrimBack, Unquote, FindFrom, Blanks;
    var front := TrimmedFront(tok);
    var back := TrimmedBack(TrimFront(tok));
    var t := TrimBack(TrimFront(tok));
    var eq := FindFrom(t, '=', 0);
    assert tok == front + t + back;
    NoEquals(front);
    NoEquals(back);
    FirstInside(front, t, back);
    if eq < |t| {
      BlankOrNot(t[..eq]);
      BlanksOfBoth(front, t[..eq]);
      BlanksOfBoth("", "");
    }
  }

  lemma NoEquals(s: string)
    requires Blanks(s)
    ensures '=' !in s
  {
  }

  lemma BlanksOfBoth(a: string, b: string)
    requires Blanks(a)
    ensures Blanks(a + b) <==> Blanks(b)
    ensures Blanks("")
  {
    if Blanks(a + b) {
      forall i | 0 <= i < |b| ensures b[i] == ' ' || b[i] == '\t' { assert (a + b)[|a| + i] == b[i]; }
    }
  }

  lemma Regroup(front: string, m: string, r: string, back: string)
    ensures front + (m + ['='] + r) + back == (front + m) + ['='] + (r + back)
  {
  }

  lemma NoneInside(front: string, t: string, back: string)
    requires '=' !in front && '=' !in t && '=' !in back
    ensures '=' !in front + t + back
  {
  }

  lemma CutAt(t: string, eq: nat)
    requires eq < |t| && t[eq] == '='
    ensures t == t[..eq] + ['='] + t[eq + 1..]
  {
  }

  /** The first equals sign of a text is that of its middle when there is none around it. */
  lemma FirstInside(front: string, t: string, back: string)
    requires '=' !in front && '=' !in back
    ensures var s, eq := front + t + back, FindFrom(t, '=', 0);
            && ('=' in s <==> eq < |t|)
            && (eq < |t| ==> FindFrom(s, '=', 0) == |front| + eq && s[..|front| + eq] == front + t[..eq])
  {
    hide FindFrom;
    var eq := FindFrom(t, '=', 0);
    if eq == |t| {
      NoneInside(front, t, back);
    } else {
      var m, r := t[..eq], t[eq + 1..];
      CutAt(t, eq);
      Regroup(front, m, r, back);
      NoEqualsBefore(front, t, eq);
      FirstAfter(front + m, r + back);
    }
  }

  lemma NoEqualsBefore(front: string, t: string, eq: nat)
    requires '=' !in front && eq <= |t| && forall k :: 0 <= k < eq ==> t[k] != '='
    ensures '=' !in front + t[..eq]
  {
  }

  lemma FirstAfter(lead: string, rest: string)
    requires '=' !in lead
    ensures var s := lead + ['='] + rest; '=' in s && FindFrom(s, '=', 0) == |lead| && s[..|lead|] == lead
  {
    var s := lead + ['='] + rest;
    assert forall k :: 0 <= k < |lead| ==> s[k] == lead[k];
    assert s[|lead|] == '=';
    FirstOccurrence(s, '=', |lead|);
  }

  lemma BlankOrNot(s: string)
    ensures TrimBack(TrimFront(s)) == "" <==> Blanks(s)
  {
    var front := TrimmedFront(s);
    var back := TrimmedBack(TrimFront(s));
    var t := TrimBack(TrimFront(s));
    hide TrimFront, TrimBack;
    assert s == front + t + back;
    if t != "" { assert s[|front|] == t[0] && TrimFront(s)[0] == t[0]; }
  }

  lemma SemicolonFree(p: Pair)
    requires Settable(p)
    ensures ';' !in PairText(p)
  {
    assert forall k :: 0 <= k < |p.name| ==> NameByte(p.name[k]);
  }

  /** The fields of the client's text: the pairs, each after the first behind a blank. */
  function Entries(ps: seq<Pair>, lead: string): (r: seq<string>)
    ensures |r| == |ps|
  {
    if ps == [] then [] else [lead + PairText(ps[0])] + Entries(ps[1..], " ")
  }

  lemma {:induction false} EntriesSepFree(ps: seq<Pair>, lead: string)
    requires (forall i :: 0 <= i < |ps| ==> Settable(ps[i])) && ';' !in lead
    ensures SepFree(Entries(ps, lead), ';')
  {
    hide Settable, PairText;
    if ps != [] {
      SemicolonFree(ps[0]);
      EntriesSepFree(ps[1..], " ");
    }
  }

  lemma Around(lead: string, pair: string, rest: string)
    ensures lead + pair + [';'] + (" " + rest) == lead + (pair + "; " + rest)
  {
  }

  lemma {:induction false} TextOfEntries(ps: seq<Pair>, lead: string)
    requires ps != []
    ensures Join(Entries(ps, lead), ';') == lead + HeaderText(ps)
  {
    hide PairText;
    var rest := ps[1..];
    if |ps| > 1 {
      TextOfEntries(rest, " ");
      assert Entries(ps, lead)[1..] == Entries(rest, " ");
      Around(lead, PairText(ps[0]), HeaderText(rest));
    } else {
      assert rest == [] && Entries(ps, lead) == [lead + PairText(ps[0])];
    }
  }

  function AllReceived(ps: seq<Pair>): (r: seq<Pair>)
    ensures |r| == |ps| && forall i :: 0 <= i < |ps| ==> r[i] == Received(ps[i])
  {
    if ps == [] then [] else [Received(ps[0])] + AllReceived(ps[1..])
  }

  lemma {:induction false} PairsOfEntries(ps: seq<Pair>, lead: string)
    requires (forall i :: 0 <= i < |ps| ==> Settable(ps[i])) && (lead == "" || lead == " ")
    ensures Pairs(Entries(ps, lead)) == AllReceived(ps)
  {
    if ps != [] {
      TokenOfPair(ps[0], lead);
      PairsOfEntries(ps[1..], " ");
      assert Entries(ps, lead)[1..] == Entries(ps[1..], " ");
    }
  }

  lemma SomeArrive(ps: seq<Pair>)
    requires ps != [] && forall i :: 0 <= i < |ps| ==> Settable(ps[i])
    ensures ParsedHeader(HeaderText(ps)) == AllReceived(ps)
  {
    hide Pairs, Fields, HeaderText, Entries, Settable, Join, AllReceived;
    TextOfEntries(ps, "");
    EntriesSepFree(ps, "");
    FieldsOfJoin(Entries(ps, ""), ';');
    assert "" + HeaderText(ps) == HeaderText(ps);
    PairsOfEntries(ps, "");
  }

  /** What arrives, for every list of settable cookies. */
  lemma HeaderArrives(ps: seq<Pair>)
    requires forall i :: 0 <= i < |ps| ==> Settable(ps[i])
    ensures ParsedHeader(HeaderText(ps)) == AllReceived(ps)
  {
    if ps == [] {
      assert Fields("", ';') == [""] && [""][1..] == [];
    } else {
      SomeArrive(ps);
    }
  }

  /** A value that survives the trip. */
  predicate Survives(v: string)
  {
    (v == "" || !Blank(v[|v| - 1])) && !Quoted(v)
  }

  lemma ValueArrives(v: string)
    ensures Unquote(TrimBack(v)) == v <==> Survives(v)
  {
    if v != "" && Blank(v[|v| - 1]) {
      assert |TrimBack(v)| < |v|;
      assert |Unquote(TrimBack(v))| <= |TrimBack(v)|;
    } else {
      assert TrimBack(v) == v;
    }
  }

  /**
   The same list comes back, in order, exactly when no value ends in a blank and
   none is wrapped in double quotes.
   */
  lemma HeaderRoundTrip(ps: seq<Pair>)
    requires forall i :: 0 <= i < |ps| ==> Settable(ps[i])
    ensures ParsedHeader(HeaderText(ps)) == ps <==> forall i :: 0 <= i < |ps| ==> Survives(ps[i].value)
  {
    HeaderArrives(ps);
    forall i | 0 <= i < |ps|
      ensures AllReceived(ps)[i] == ps[i] <==> Survives(ps[i].value)
    {
      ValueArrives(ps[i].value);
    }
  }
}
