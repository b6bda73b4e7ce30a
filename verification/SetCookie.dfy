/**
 The `Set-Cookie` response header: what the setters accept, what is rendered in
 the fixed order of section 4.1 of RFC 6265, and that the text can be decoded.
 */
module SetCookie {
  import opened Wrappers
  import opened Text
  import opened CookieHeader

  datatype SameSite = Unset | Strict | Lax | NoRestriction

  datatype Cookie = Cookie(
    name: string, value: string, domain: string, path: string,
    expires: Option<int>, maxAge: Option<int>, secure: bool, httpOnly: bool, sameSite: SameSite)

  const Fresh := Cookie("", "", "", "", None, None, false, false, Unset)

  // ---- setters -----------------------------------------------------------------------

  datatype Setter =
    | Name(text: string) | Value(text: string) | Domain(text: string) | Path(text: string)
    | Expires(seconds: int) | MaxAge(seconds: int) | Secure(flag: bool) | HttpOnly(flag: bool) | Site(mode: SameSite)

  /** validate_attr_param. */
  predicate ValidAttribute(s: string)
  {
    forall i :: 0 <= i < |s| ==> !Forbidden(s[i]) && s[i] != ';' && s[i] != ','
  }

  predicate Accepts(s: Setter)
  {
    match s
    case Name(v) => ValidName(v)
    case Value(v) => ValidValue(v)
    case Domain(v) => ValidAttribute(v)
    case Path(v) => ValidAttribute(v)
    case _ => true
  }

  /** What the setters accept, byte by byte. */
  lemma AcceptedBytes(s: Setter)
    ensures s.Name? ==> (Accepts(s) <==> forall i :: 0 <= i < |s.text| ==>
              s.text[i] > ' ' && s.text[i] != '\U{7f}' && s.text[i] != ';' && s.text[i] != '=')
    ensures s.Value? ==> (Accepts(s) <==> forall i :: 0 <= i < |s.text| ==> !LineBreak(s.text[i]) && s.text[i] != ';')
    ensures s.Domain? || s.Path? ==> (Accepts(s) <==> forall i :: 0 <= i < |s.text| ==>
              !LineBreak(s.text[i]) && s.text[i] != ';' && s.text[i] != ',')
    ensures !s.Name? && !s.Value? && !s.Domain? && !s.Path? ==> Accepts(s)
  {
    match s {
      case Name(v) => assert Accepts(s) <==> forall i :: 0 <= i < |v| ==> NameByte(v[i]);
      case Value(v) => assert Accepts(s) <==> forall i :: 0 <= i < |v| ==> !Forbidden(v[i]) && v[i] != ';';
      case Domain(v) => assert Accepts(s) <==> ValidAttribute(v);
      case Path(v) => assert Accepts(s) <==> ValidAttribute(v);
      case _ =>
    }
  }

  /** A refused setter throws before it changes anything. */
  function Apply(c: Cookie, s: Setter): (r: Cookie)
  {
    if !Accepts(s) then c
    else
      match s
      case Name(v) => c.(name := v)
      case Value(v) => c.(value := v)
      case Domain(v) => c.(domain := v)
      case Path(v) => c.(path := v)
      case Expires(t) => c.(expires := Some(t))
      case MaxAge(t) => c.(maxAge := Some(t))
      case Secure(f) => c.(secure := f)
      case HttpOnly(f) => c.(httpOnly := f)
      case Site(m) => c.(sameSite := m)
  }

  function Built(ss: seq<Setter>): (c: Cookie)
  {
    if ss == [] then Fresh else Apply(Built(ss[..|ss| - 1]), ss[|ss| - 1])
  }

  /** The field a setter writes has its argument. */
  predicate Holds(c: Cookie, s: Setter)
  {
    match s
    case Name(v) => c.name == v
    case Value(v) => c.value == v
    case Domain(v) => c.domain == v
    case Path(v) => c.path == v
    case Expires(t) => c.expires == Some(t)
    case MaxAge(t) => c.maxAge == Some(t)
    case Secure(f) => c.secure == f
    case HttpOnly(f) => c.httpOnly == f
    case Site(m) => c.sameSite == m
  }

  class CookieObject {
    var cookie: Cookie

    constructor ()
      ensures cookie == Fresh
    {
      cookie := Fresh;
    }

    /** with_* and the validating mutators behind them: one field takes the argument, or nothing changes at all. */
    method With(s: Setter) returns (accepted: bool)
      modifies this
      ensures accepted == Accepts(s)
      ensures accepted ==> Holds(cookie, s)
      ensures forall kind: Setter :: !accepted || !SameKind(s, kind) ==> Only(cookie, kind) == Only(old(cookie), kind)
    {
      accepted := Accepts(s);
      if !accepted { return; }
      match s
      case Name(v) => cookie := cookie.(name := v);
      case Value(v) => cookie := cookie.(value := v);
      case Domain(v) => cookie := cookie.(domain := v);
      case Path(v) => cookie := cookie.(path := v);
      case Expires(t) => cookie := cookie.(expires := Some(t));
      case MaxAge(t) => cookie := cookie.(maxAge := Some(t));
      case Secure(f) => cookie := cookie.(secure := f);
      case HttpOnly(f) => cookie := cookie.(httpOnly := f);
      case Site(m) => cookie := cookie.(sameSite := m);
    }

    /** Any run of setters on one object, and the header it is sent as: refused exactly when no name was left. */
    method SendAs(ss: seq<Setter>, stamp: string) returns (r: Option<string>)
      requires cookie == Fresh && ';' !in stamp
      modifies this
      ensures cookie == Built(ss)
      ensures r.Some? <==> cookie.name != ""
      ensures r.Some? ==> Decode(r.value) == Some(Meaning(cookie, stamp))
    {
      hide Only, Accepts, SameKind, Holds, Apply, Decode, HeaderValue;
      for i := 0 to |ss|
        invariant cookie == Built(ss[..i])
      {
        ghost var before := cookie;
        var accepted := With(ss[i]);
        WithIsApply(before, cookie, ss[i]);
        assert ss[..i + 1][..i] == ss[..i] && ss[..i + 1][i] == ss[i];
      }
      assert ss[..|ss|] == ss;
      BuiltIsValid(ss);
      BuiltCookieDecodes(ss, stamp);
      r := ToSetCookieHeader(cookie, stamp);
    }
  }

  ghost predicate FieldsValid(c: Cookie)
  {
    ValidName(c.name) && ValidValue(c.value) && ValidAttribute(c.domain) && ValidAttribute(c.path)
  }

  lemma {:induction false} BuiltIsValid(ss: seq<Setter>)
    ensures FieldsValid(Built(ss))
  {
    if ss != [] { BuiltIsValid(ss[..|ss| - 1]); }
  }

  /** The setters of one kind, in order. */
  function OfKind(ss: seq<Setter>, kind: Setter): (r: seq<Setter>)
  {
    if ss == [] then []
    else OfKind(ss[..|ss| - 1], kind) + if SameKind(ss[|ss| - 1], kind) then [ss[|ss| - 1]] else []
  }

  predicate SameKind(a: Setter, b: Setter)
  {
    match a
    case Name(_) => b.Name?
    case Value(_) => b.Value?
    case Domain(_) => b.Domain?
    case Path(_) => b.Path?
    case Expires(_) => b.Expires?
    case MaxAge(_) => b.MaxAge?
    case Secure(_) => b.Secure?
    case HttpOnly(_) => b.HttpOnly?
    case Site(_) => b.Site?
  }

  /** The field a kind of setter writes, with every other field as in a fresh cookie. */
  function Only(c: Cookie, kind: Setter): (r: Cookie)
  {
    match kind
    case Name(_) => Fresh.(name := c.name)
    case Value(_) => Fresh.(value := c.value)
    case Domain(_) => Fresh.(domain := c.domain)
    case Path(_) => Fresh.(path := c.path)
    case Expires(_) => Fresh.(expires := c.expires)
    case MaxAge(_) => Fresh.(maxAge := c.maxAge)
    case Secure(_) => Fresh.(secure := c.secure)
    case HttpOnly(_) => Fresh.(httpOnly := c.httpOnly)
    case Site(_) => Fresh.(sameSite := c.sameSite)
  }

  lemma ApplyOnly(c: Cookie, s: Setter, kind: Setter)
    ensures Only(Apply(c, s), kind) == if SameKind(s, kind) then Apply(Only(c, kind), s) else Only(c, kind)
  {
    hide Accepts;
  }

  lemma {:induction false} FieldByKind(ss: seq<Setter>, kind: Setter)
    ensures Built(OfKind(ss, kind)) == Only(Built(ss), kind)
  {
    hide Only, Apply, SameKind;
    if ss == [] {
      OnlyFresh(kind);
    } else {
      var n := |ss| - 1;
      FieldByKind(ss[..n], kind);
      ApplyOnly(Built(ss[..n]), ss[n], kind);
      var r := OfKind(ss[..n], kind);
      if SameKind(ss[n], kind) { assert (r + [ss[n]])[..|r|] == r; } else { assert r + [] == r; }
    }
  }

  lemma OnlyFresh(kind: Setter)
    ensures Only(Fresh, kind) == Fresh
  {
  }

  lemma FieldsDetermine(c: Cookie, d: Cookie)
    requires forall kind: Setter :: Only(c, kind) == Only(d, kind)
    ensures c == d
  {
    assert Only(c, Name("")) == Only(d, Name("")) && Only(c, Value("")) == Only(d, Value(""));
    assert Only(c, Domain("")) == Only(d, Domain("")) && Only(c, Path("")) == Only(d, Path(""));
    assert Only(c, Expires(0)) == Only(d, Expires(0)) && Only(c, MaxAge(0)) == Only(d, MaxAge(0));
    assert Only(c, Secure(true)) == Only(d, Secure(true)) && Only(c, HttpOnly(true)) == Only(d, HttpOnly(true));
    assert Only(c, Site(Unset)) == Only(d, Site(Unset));
  }

  lemma WithIsApply(c: Cookie, d: Cookie, s: Setter)
    requires Accepts(s) ==> Holds(d, s)
    requires forall kind: Setter :: !Accepts(s) || !SameKind(s, kind) ==> Only(d, kind) == Only(c, kind)
    ensures d == Apply(c, s)
  {
    hide Accepts;
    forall kind: Setter ensures Only(d, kind) == Only(Apply(c, s), kind) { ApplyOnly(c, s, kind); }
    FieldsDetermine(d, Apply(c, s));
  }

  /** Two setter runs that agree kind by kind build the same cookie, however the kinds are interleaved. */
  lemma SetterOrderIsIrrelevant(ss: seq<Setter>, ts: seq<Setter>)
    requires forall kind: Setter :: OfKind(ss, kind) == OfKind(ts, kind)
    ensures Built(ss) == Built(ts)
  {
    hide *;
    forall kind: Setter ensures Only(Built(ss), kind) == Only(Built(ts), kind) {
      FieldByKind(ss, kind);
      FieldByKind(ts, kind);
      assert OfKind(ss, kind) == OfKind(ts, kind);
    }
    FieldsDetermine(Built(ss), Built(ts));
  }

  // ---- integers as text ----------------------------------------------------------------

  function DigitText(d: nat): (c: char)
    requires d < 10
    ensures '0' <= c <= '9' && c as nat == '0' as nat + d
  {
    ('0' as nat + d) as char
  }

  /** std::to_string. */
  function NatText(n: nat): (s: string)
    ensures s != "" && forall i :: 0 <= i < |s| ==> '0' <= s[i] <= '9'
  {
    if n < 10 then [DigitText(n)] else NatText(n / 10) + [DigitText(n % 10)]
  }

  function IntText(n: int): (s: string)
  {
    if n < 0 then "-" + NatText(-n) else NatText(n)
  }

  function NatOf(s: string): (n: int)
  {
    if s == "" then 0 else NatOf(s[..|s| - 1]) * 10 + (s[|s| - 1] as int - '0' as int)
  }

  function IntOf(s: string): (n: int)
  {
    if s != "" && s[0] == '-' then -NatOf(s[1..]) else NatOf(s)
  }

  lemma {:induction false} NatTextRoundTrip(n: nat)
    ensures NatOf(NatText(n)) == n
  {
    if n >= 10 {
      NatTextRoundTrip(n / 10);
      var s := NatText(n);
      assert s[..|s| - 1] == NatText(n / 10);
    } else {
      assert NatOf("") == 0;
      assert NatText(n)[..0] == "";
    }
  }

  lemma IntTextRoundTrip(n: int)
    ensures IntOf(IntText(n)) == n && ';' !in IntText(n)
  {
    if n < 0 {
      NatTextRoundTrip(-n);
      assert IntText(n)[1..] == NatText(-n);
    } else {
      NatTextRoundTrip(n);
    }
  }

  // ---- rendering -------------------------------------------------------------------------

  function SiteText(m: SameSite): (s: string)
    ensures ';' !in s
  {
    match m
    case Unset => ""
    case Strict => "Strict"
    case Lax => "Lax"
    case NoRestriction => "None"
  }

  /** Browsers refuse SameSite=None without Secure, so it is added. */
  predicate EffectiveSecure(c: Cookie) { c.secure || c.sameSite.NoRestriction? }

  function When(b: bool, t: string): (r: seq<string>) { if b then [t] else [] }

  function AgeText(c: Cookie): (s: string) { if c.maxAge.Some? then IntText(c.maxAge.value) else "" }

  // The attributes from each kind on, in their fixed order.
  function FromSite(c: Cookie): (r: seq<string>) { When(!c.sameSite.Unset?, " SameSite=" + SiteText(c.sameSite)) }
  function FromHttpOnly(c: Cookie): (r: seq<string>) { When(c.httpOnly, " HttpOnly") + FromSite(c) }
  function FromSecure(c: Cookie): (r: seq<string>) { When(EffectiveSecure(c), " Secure") + FromHttpOnly(c) }
  function FromPath(c: Cookie): (r: seq<string>) { When(c.path != "", " Path=" + c.path) + FromSecure(c) }
  function FromDomain(c: Cookie): (r: seq<string>) { When(c.domain != "", " Domain=" + c.domain) + FromPath(c) }
  function FromMaxAge(c: Cookie): (r: seq<string>) { When(c.maxAge.Some?, " Max-Age=" + AgeText(c)) + FromDomain(c) }
  function Attributes(c: Cookie, stamp: string): (r: seq<string>)
  {
    When(c.expires.Some?, " Expires=" + stamp) + FromMaxAge(c)
  }

  function Head(c: Cookie): (s: string) { c.name + "=" + c.value }

  /** The header value: the pair, then the attributes, with ';' between them; `stamp` is the expiry as date text. */
  function HeaderValue(c: Cookie, stamp: string): (s: string)
  {
    Join([Head(c)] + Attributes(c, stamp), ';')
  }

  /** With every attribute set: all of them, in the documented order. */
  lemma FullHeader(c: Cookie, stamp: string)
    requires c.expires.Some? && c.maxAge.Some? && c.domain != "" && c.path != "" && c.httpOnly
    requires c.sameSite.NoRestriction? || (c.secure && !c.sameSite.Unset?)
    ensures HeaderValue(c, stamp) ==
            Join([c.name + "=" + c.value, " Expires=" + stamp, " Max-Age=" + IntText(c.maxAge.value),
                  " Domain=" + c.domain, " Path=" + c.path, " Secure", " HttpOnly",
                  " SameSite=" + SiteText(c.sameSite)],
                 ';')
  {
    hide Join, SiteText, IntText;
    var site, age := " SameSite=" + SiteText(c.sameSite), " Max-Age=" + IntText(c.maxAge.value);
    assert FromSecure(c) == [" Secure", " HttpOnly", site];
    assert FromDomain(c) == [" Domain=" + c.domain, " Path=" + c.path, " Secure", " HttpOnly", site];
    assert [Head(c)] + Attributes(c, stamp) == [c.name + "=" + c.value, " Expires=" + stamp, age] + FromDomain(c);
    assert [Head(c)] + Attributes(c, stamp) ==
           [c.name + "=" + c.value, " Expires=" + stamp, age, " Domain=" + c.domain, " Path=" + c.path, " Secure",
            " HttpOnly", site];
  }

  /** One conditional append of "; " and an attribute. */
  method AppendIf(out: string, b: bool, attr: string, ghost ts: seq<string>)
    returns (out': string, ghost ts': seq<string>)
    requires ts != [] && out == Join(ts, ';')
    ensures ts' == ts + When(b, " " + attr) && out' == Join(ts', ';')
  {
    out', ts' := out, ts + When(b, " " + attr);
    if b {
      out' := out' + "; " + attr;
      JoinConcat(ts, [" " + attr], ';');
      assert Join(ts, ';') + [';'] + (" " + attr) == out + "; " + attr;
    } else {
      assert ts' == ts;
    }
  }

  /** append_time_attributes. */
  method AppendTime(out: string, c: Cookie, stamp: string, ghost ts: seq<string>)
    returns (out': string, ghost ts': seq<string>)
    requires ts != [] && out == Join(ts, ';')
    ensures ts' == ts + When(c.expires.Some?, " Expires=" + stamp) + When(c.maxAge.Some?, " Max-Age=" + AgeText(c))
    ensures out' == Join(ts', ';')
  {
    hide Join, When;
    assert " " + ("Expires=" + stamp) == " Expires=" + stamp
        && " " + ("Max-Age=" + AgeText(c)) == " Max-Age=" + AgeText(c);
    out', ts' := AppendIf(out, c.expires.Some?, "Expires=" + stamp, ts);
    out', ts' := AppendIf(out', c.maxAge.Some?, "Max-Age=" + AgeText(c), ts');
  }

  /** append_target_attributes. */
  method AppendTarget(out: string, c: Cookie, ghost ts: seq<string>) returns (out': string, ghost ts': seq<string>)
    requires ts != [] && out == Join(ts, ';')
    ensures ts' == ts + When(c.domain != "", " Domain=" + c.domain) + When(c.path != "", " Path=" + c.path)
    ensures out' == Join(ts', ';')
  {
    hide Join, When;
    assert " " + ("Domain=" + c.domain) == " Domain=" + c.domain && " " + ("Path=" + c.path) == " Path=" + c.path;
    out', ts' := AppendIf(out, c.domain != "", "Domain=" + c.domain, ts);
    out', ts' := AppendIf(out', c.path != "", "Path=" + c.path, ts');
  }

  /** append_flag_attributes, then the SameSite text. */
  method AppendFlags(out: string, c: Cookie, ghost ts: seq<string>) returns (out': string, ghost ts': seq<string>)
    requires ts != [] && out == Join(ts, ';')
    ensures ts' == ts + When(EffectiveSecure(c), " Secure") + When(c.httpOnly, " HttpOnly") + FromSite(c)
    ensures out' == Join(ts', ';')
  {
    hide Join, When;
    assert " " + "Secure" == " Secure" && " " + "HttpOnly" == " HttpOnly";
    assert " " + ("SameSite=" + SiteText(c.sameSite)) == " SameSite=" + SiteText(c.sameSite);
    out', ts' := AppendIf(out, EffectiveSecure(c), "Secure", ts);
    out', ts' := AppendIf(out', c.httpOnly, "HttpOnly", ts');
    out', ts' := AppendIf(out', !c.sameSite.Unset?, "SameSite=" + SiteText(c.sameSite), ts');
  }

  /** to_set_cookie_header: refused without a name or with bytes the setters refuse. */
  method ToSetCookieHeader(c: Cookie, stamp: string) returns (r: Option<string>)
    ensures r.Some? <==> c.name != "" && ValidName(c.name) && ValidValue(c.value)
    ensures r.Some? ==> r.value == HeaderValue(c, stamp)
  {
    if c.name == "" || !ValidName(c.name) || !ValidValue(c.value) { return None; }
    var out := c.name + "=" + c.value;
    ghost var ts := [Head(c)];
    hide Join, When, ValidName, ValidValue, Head;
    assert Join(ts, ';') == out by { OneToken(c); }
    out, ts := AppendTime(out, c, stamp, ts);
    out, ts := AppendTarget(out, c, ts);
    out, ts := AppendFlags(out, c, ts);
    InOrder([Head(c)], When(c.expires.Some?, " Expires=" + stamp), When(c.maxAge.Some?, " Max-Age=" + AgeText(c)),
            When(c.domain != "", " Domain=" + c.domain), When(c.path != "", " Path=" + c.path),
            When(EffectiveSecure(c), " Secure"), When(c.httpOnly, " HttpOnly"), FromSite(c));
    return Some(out);
  }

  lemma InOrder(h: seq<string>, a: seq<string>, b: seq<string>, c: seq<string>, d: seq<string>,
                e: seq<string>, f: seq<string>, g: seq<string>)
    ensures h + a + b + c + d + e + f + g == h + (a + (b + (c + (d + (e + (f + g))))))
  {
    var r := h + a + b + c + d;
    assert r + e + f + g == r + (e + (f + g));
    var q := h + a + b;
    assert q + c + d + (e + (f + g)) == q + (c + (d + (e + (f + g))));
    assert h + a + b + (c + (d + (e + (f + g)))) == h + (a + (b + (c + (d + (e + (f + g))))));
  }

  lemma OneToken(c: Cookie)
    ensures Join([Head(c)], ';') == c.name + "=" + c.value
  {
  }

  // ---- decoding --------------------------------------------------------------------------

  datatype Decoded = Decoded(
    name: string, value: string, expires: Option<string>, maxAge: Option<int>,
    domain: string, path: string, secure: bool, httpOnly: bool, sameSite: SameSite)

  /** The text behind `key` if the next attribute has that key, and what is left. */
  function TakeValue(ts: seq<string>, key: string): (r: (Option<string>, seq<string>))
  {
    if ts != [] && key <= ts[0] then (Some(ts[0][|key|..]), ts[1..]) else (None, ts)
  }

  function TakeFlag(ts: seq<string>, key: string): (r: (bool, seq<string>))
  {
    if ts != [] && ts[0] == key then (true, ts[1..]) else (false, ts)
  }

  function OrBlank(o: Option<string>): string { if o.Some? then o.value else "" }

  /** The three tokens a browser knows; anything else, or nothing, leaves the mode unset. */
  function SiteOf(o: Option<string>): (m: SameSite)
  {
    if o == Some("Strict") then Strict
    else if o == Some("Lax") then Lax
    else if o == Some("None") then NoRestriction
    else Unset
  }

  lemma SiteReadsBack(m: SameSite)
    ensures SiteOf(if m.Unset? then None else Some(SiteText(m))) == m
  {
    assert "Lax" != "Strict" && "None" != "Strict" && "None" != "Lax" by {
      assert |"Lax"| == 3 && |"Strict"| == 6 && |"None"| == 4;
    }
  }

  /** Split on ';', the pair at its first '=', then each attribute in turn; nothing may be left. */
  function Decode(text: string): (r: Option<Decoded>)
  {
    var tokens := Fields(text, ';');
    var eq := FindFrom(tokens[0], '=', 0);
    var expires := TakeValue(tokens[1..], " Expires=");
    var maxAge := TakeValue(expires.1, " Max-Age=");
    var domain := TakeValue(maxAge.1, " Domain=");
    var path := TakeValue(domain.1, " Path=");
    var secure := TakeFlag(path.1, " Secure");
    var httpOnly := TakeFlag(secure.1, " HttpOnly");
    var site := TakeValue(httpOnly.1, " SameSite=");
    if eq == |tokens[0]| || site.1 != [] then None
    else Some(Decoded(tokens[0][..eq], tokens[0][eq + 1..], expires.0,
                      if maxAge.0.Some? then Some(IntOf(maxAge.0.value)) else None,
                      OrBlank(domain.0), OrBlank(path.0), secure.0, httpOnly.0, SiteOf(site.0)))
  }

  /** The first attribute of `ts`, if any, has one of these letters after its blank. */
  ghost predicate StartsWith(ts: seq<string>, letters: set<char>)
  {
    ts == [] || (|ts[0]| >= 3 && ts[0][1] in letters)
  }

  lemma StartsWithMore(b: bool, key: string, v: string, rest: seq<string>, letters: set<char>)
    requires StartsWith(rest, letters) && |key| >= 3
    ensures StartsWith(When(b, key + v) + rest, letters + {key[1]})
  {
    if b { assert (When(b, key + v) + rest)[0] == key + v; } else { assert When(b, key + v) + rest == rest; }
  }

  /** SameSite and Secure start with the same letter; the next one tells them apart. */
  lemma FlagsInOrder(c: Cookie)
    ensures FromSite(c) != [] ==> FromSite(c)[0] != " HttpOnly"
    ensures FromHttpOnly(c) != [] ==> FromHttpOnly(c)[0] != " Secure"
    ensures StartsWith(FromHttpOnly(c), {'S', 'H'})
  {
    var k := " SameSite=";
    assert |k| >= 3 && k[1] == 'S' && k[2] == 'a';
    assert " Secure"[2] == 'e' && " HttpOnly"[1] == 'H' && " Secure"[1] == 'S';
    assert StartsWith(FromSite(c), {'S'});
    StartsWithMore(c.httpOnly, " HttpOnly", "", FromSite(c), {'S'});
    assert " HttpOnly" + "" == " HttpOnly";
    assert {'S'} + {'H'} == {'S', 'H'};
    assert c.httpOnly ==> FromHttpOnly(c)[0] == " HttpOnly";
    assert !c.httpOnly ==> FromHttpOnly(c) == FromSite(c);
  }

  lemma SecureInOrder(c: Cookie)
    ensures StartsWith(FromSecure(c), {'S', 'H'})
  {
    FlagsInOrder(c);
    StartsWithMore(EffectiveSecure(c), " Secure", "", FromHttpOnly(c), {'S', 'H'});
    assert " Secure" + "" == " Secure";
    assert {'S', 'H'} + {'S'} == {'S', 'H'};
  }

  /** No key occurs after its place in the order. */
  lemma KeysInOrder(c: Cookie)
    ensures StartsWith(FromSecure(c), {'S', 'H'}) && StartsWith(FromPath(c), {'S', 'H'} + {'P'})
    ensures StartsWith(FromDomain(c), {'S', 'H'} + {'P'} + {'D'})
              && StartsWith(FromMaxAge(c), {'S', 'H'} + {'P'} + {'D'} + {'M'})
  {
    SecureInOrder(c);
    hide When, StartsWith, AgeText, EffectiveSecure, FromSecure;
    StartsWithMore(c.path != "", " Path=", c.path, FromSecure(c), {'S', 'H'});
    StartsWithMore(c.domain != "", " Domain=", c.domain, FromPath(c), {'S', 'H'} + {'P'});
    StartsWithMore(c.maxAge.Some?, " Max-Age=", AgeText(c), FromDomain(c), {'S', 'H'} + {'P'} + {'D'});
  }

  /** Taking a key that is there if `b` and cannot be next otherwise. */
  lemma TakeOptional(b: bool, key: string, v: string, rest: seq<string>, letters: set<char>)
    requires |key| >= 2 && StartsWith(rest, letters) && key[1] !in letters
    ensures TakeValue(When(b, key + v) + rest, key) == (if b then Some(v) else None, rest)
  {
    if b {
      assert (When(b, key + v) + rest)[0] == key + v;
      assert (When(b, key + v) + rest)[1..] == rest;
      assert (key + v)[|key|..] == v;
    } else {
      assert When(b, key + v) + rest == rest;
    }
  }

  lemma TakeLast(b: bool, key: string, v: string)
    ensures TakeValue(When(b, key + v), key) == (if b then Some(v) else None, [])
  {
    if b {
      assert (key + v)[|key|..] == v && When(b, key + v)[1..] == [];
    }
  }

  lemma TakeOptionalFlag(b: bool, key: string, rest: seq<string>)
    requires rest == [] || rest[0] != key
    ensures TakeFlag(When(b, key) + rest, key) == (b, rest)
  {
    if b { assert (When(b, key) + rest)[1..] == rest; } else { assert When(b, key) + rest == rest; }
  }

  lemma SepFreeMore(b: bool, t: string, rest: seq<string>)
    requires SepFree(rest, ';') && (b ==> ';' !in t)
    ensures SepFree(When(b, t) + rest, ';')
  {
  }

  lemma FlagsSepFree(c: Cookie)
    ensures SepFree(FromSecure(c), ';')
  {
    SepFreeMore(c.httpOnly, " HttpOnly", FromSite(c));
    SepFreeMore(EffectiveSecure(c), " Secure", FromHttpOnly(c));
  }

  lemma TargetSepFree(c: Cookie)
    requires FieldsValid(c)
    ensures SepFree(FromMaxAge(c), ';')
  {
    FlagsSepFree(c);
    assert c.maxAge.Some? ==> ';' !in " Max-Age=" + AgeText(c) by {
      if c.maxAge.Some? { IntTextRoundTrip(c.maxAge.value); }
    }
    assert ';' !in " Path=" + c.path && ';' !in " Domain=" + c.domain;
    hide When, FieldsValid, AgeText, EffectiveSecure, FromSecure, SepFree;
    SepFreeMore(c.path != "", " Path=" + c.path, FromSecure(c));
    SepFreeMore(c.domain != "", " Domain=" + c.domain, FromPath(c));
    SepFreeMore(c.maxAge.Some?, " Max-Age=" + AgeText(c), FromDomain(c));
  }

  lemma AttributesSepFree(c: Cookie, stamp: string)
    requires FieldsValid(c) && ';' !in stamp
    ensures SepFree([Head(c)] + Attributes(c, stamp), ';')
  {
    TargetSepFree(c);
    assert ';' !in Head(c) by {
      assert ';' !in c.name by { assert forall i :: 0 <= i < |c.name| ==> NameByte(c.name[i]); }
    }
    assert ';' !in " Expires=" + stamp;
    hide When, FieldsValid, FromMaxAge, Head;
    SepFreeMore(c.expires.Some?, " Expires=" + stamp, FromMaxAge(c));
  }

  /** What the text says, in terms of the cookie. */
  function Meaning(c: Cookie, stamp: string): (d: Decoded)
  {
    Decoded(c.name, c.value, if c.expires.Some? then Some(stamp) else None, c.maxAge,
            c.domain, c.path, c.secure || c.sameSite == NoRestriction, c.httpOnly,
            c.sameSite)
  }

  lemma TokensOfHeader(c: Cookie, stamp: string)
    requires FieldsValid(c) && ';' !in stamp
    ensures Fields(HeaderValue(c, stamp), ';') == [Head(c)] + Attributes(c, stamp)
  {
    hide Attributes, Head, FieldsValid;
    AttributesSepFree(c, stamp);
    FieldsOfJoin([Head(c)] + Attributes(c, stamp), ';');
  }

  lemma HeadSplits(c: Cookie)
    requires FieldsValid(c)
    ensures FindFrom(Head(c), '=', 0) == |c.name| < |Head(c)|
    ensures Head(c)[..|c.name|] == c.name && Head(c)[|c.name| + 1..] == c.value
  {
    var h := Head(c);
    assert forall k :: 0 <= k < |c.name| ==> h[k] == c.name[k] && NameByte(c.name[k]);
    FirstOccurrence(h, '=', |c.name|);
  }

  lemma TakeFlags(c: Cookie)
    ensures TakeFlag(FromSecure(c), " Secure") == (EffectiveSecure(c), FromHttpOnly(c))
    ensures TakeFlag(FromHttpOnly(c), " HttpOnly") == (c.httpOnly, FromSite(c))
    ensures TakeValue(FromSite(c), " SameSite=") == (if c.sameSite.Unset? then None else Some(SiteText(c.sameSite)), [])
  {
    FlagsInOrder(c);
    TakeOptionalFlag(EffectiveSecure(c), " Secure", FromHttpOnly(c));
    TakeOptionalFlag(c.httpOnly, " HttpOnly", FromSite(c));
    TakeLast(!c.sameSite.Unset?, " SameSite=", SiteText(c.sameSite));
  }

  /** Taking the attributes one after the other recovers each. */
  lemma TakeValues(c: Cookie, stamp: string)
    ensures TakeValue(Attributes(c, stamp), " Expires=")
              == (if c.expires.Some? then Some(stamp) else None, FromMaxAge(c))
    ensures TakeValue(FromMaxAge(c), " Max-Age=") == (if c.maxAge.Some? then Some(AgeText(c)) else None, FromDomain(c))
    ensures TakeValue(FromDomain(c), " Domain=") == (if c.domain != "" then Some(c.domain) else None, FromPath(c))
    ensures TakeValue(FromPath(c), " Path=") == (if c.path != "" then Some(c.path) else None, FromSecure(c))
  {
    KeysInOrder(c);
    hide When, TakeValue, AgeText, FromSecure, StartsWith;
    TakeOptional(c.expires.Some?, " Expires=", stamp, FromMaxAge(c), {'S', 'H'} + {'P'} + {'D'} + {'M'});
    TakeOptional(c.maxAge.Some?, " Max-Age=", AgeText(c), FromDomain(c), {'S', 'H'} + {'P'} + {'D'});
    TakeOptional(c.domain != "", " Domain=", c.domain, FromPath(c), {'S', 'H'} + {'P'});
    TakeOptional(c.path != "", " Path=", c.path, FromSecure(c), {'S', 'H'});
  }

  lemma EffectivelySecure(c: Cookie)
    ensures EffectiveSecure(c) <==> c.secure || c.sameSite == NoRestriction
  {
  }

  /** Decoding the header value gives back every field, with the Secure flag as it takes effect. */
  lemma HeaderDecodes(c: Cookie, stamp: string)
    requires FieldsValid(c) && ';' !in stamp
    ensures Decode(HeaderValue(c, stamp)) == Some(Meaning(c, stamp))
  {
    hide FieldsValid, Fields, Head, Attributes, FromMaxAge, FromDomain, FromPath, FromSecure, FromHttpOnly, FromSite,
         TakeValue, TakeFlag, FindFrom, HeaderValue, IntOf, IntText, EffectiveSecure, SiteOf, SiteText;
    TokensOfHeader(c, stamp);
    HeadSplits(c);
    TakeValues(c, stamp);
    TakeFlags(c);
    SiteReadsBack(c.sameSite);
    EffectivelySecure(c);
    var tokens := [Head(c)] + Attributes(c, stamp);
    assert tokens[1..] == Attributes(c, stamp) && tokens[0] == Head(c);
    if c.maxAge.Some? { IntTextRoundTrip(c.maxAge.value); }
  }

  /** From setters to wire and back, for every run of setters that leaves a name. */
  lemma BuiltCookieDecodes(ss: seq<Setter>, stamp: string)
    requires ';' !in stamp
    ensures Decode(HeaderValue(Built(ss), stamp)) == Some(Meaning(Built(ss), stamp))
  {
    BuiltIsValid(ss);
    HeaderDecodes(Built(ss), stamp);
  }

  // ---- one header line -------------------------------------------------------------------

  lemma {:induction false} JoinLacks(fs: seq<string>, c: char)
    requires c != ';' && forall i :: 0 <= i < |fs| ==> c !in fs[i]
    ensures c !in Join(fs, ';')
  {
    if |fs| > 1 {
      JoinLacks(fs[1..], c);
      assert c !in fs[0];
    }
  }

  ghost predicate Lacks(fs: seq<string>, c: char) { forall i :: 0 <= i < |fs| ==> c !in fs[i] }

  lemma LacksMore(b: bool, t: string, rest: seq<string>, c: char)
    requires Lacks(rest, c) && (b ==> c !in t)
    ensures Lacks(When(b, t) + rest, c)
  {
  }

  predicate LineBreak(c: char) { c == '\r' || c == '\n' || c == '\0' }

  lemma IntTextLacks(n: int, c: char)
    requires LineBreak(c)
    ensures c !in IntText(n)
  {
  }

  lemma FlagsLack(c: Cookie, x: char)
    requires LineBreak(x)
    ensures Lacks(FromSecure(c), x)
  {
    assert x !in SiteText(c.sameSite) && x !in " SameSite=" && x !in " HttpOnly" && x !in " Secure";
    hide When;
    assert x !in " SameSite=" + SiteText(c.sameSite);
    LacksMore(!c.sameSite.Unset?, " SameSite=" + SiteText(c.sameSite), [], x);
    assert When(!c.sameSite.Unset?, " SameSite=" + SiteText(c.sameSite)) + [] == FromSite(c);
    LacksMore(c.httpOnly, " HttpOnly", FromSite(c), x);
    LacksMore(EffectiveSecure(c), " Secure", FromHttpOnly(c), x);
  }

  lemma AttributesLack(c: Cookie, stamp: string, x: char)
    requires FieldsValid(c) && LineBreak(x) && x !in stamp
    ensures Lacks([Head(c)] + Attributes(c, stamp), x)
  {
    FlagsLack(c, x);
    FieldsLack(c, x);
    if c.maxAge.Some? { IntTextLacks(c.maxAge.value, x); }
    assert x !in " Path=" + c.path && x !in " Domain=" + c.domain && x !in " Max-Age=" + AgeText(c);
    assert x !in " Expires=" + stamp;
    hide When, FieldsValid, AgeText, FromSecure, Head;
    LacksMore(c.path != "", " Path=" + c.path, FromSecure(c), x);
    LacksMore(c.domain != "", " Domain=" + c.domain, FromPath(c), x);
    LacksMore(c.maxAge.Some?, " Max-Age=" + AgeText(c), FromDomain(c), x);
    LacksMore(c.expires.Some?, " Expires=" + stamp, FromMaxAge(c), x);
  }

  lemma FieldsLack(c: Cookie, x: char)
    requires FieldsValid(c) && LineBreak(x)
    ensures x !in c.path && x !in c.domain && x !in Head(c)
  {
    assert x !in c.name by { assert forall i :: 0 <= i < |c.name| ==> NameByte(c.name[i]); }
    assert x !in c.value by { assert forall i :: 0 <= i < |c.value| ==> !Forbidden(c.value[i]); }
  }

  /** Whatever the setters were given, the header is one line: no CR, no LF and no NUL gets into it. */
  lemma HeaderIsOneLine(ss: seq<Setter>, stamp: string, x: char)
    requires LineBreak(x) && x !in stamp
    ensures x !in HeaderValue(Built(ss), stamp)
  {
    hide FieldsValid, Attributes, Head, Join;
    BuiltIsValid(ss);
    AttributesLack(Built(ss), stamp, x);
    JoinLacks([Head(Built(ss))] + Attributes(Built(ss), stamp), x);
  }
}
