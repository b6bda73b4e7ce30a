/**
 Parsing of address text with wildcards into sixteen octets and a mask of
 significant octets (`ip_representation`'s string constructor).
 */
module IpParser {
  import opened Wrappers
  import opened Text

  // ---- strtol ------------------------------------------------------------

  /** The C string a text holds: everything before its first NUL. */
  function CString(s: string): (r: string)
    ensures r <= s && forall k :: 0 <= k < |r| ==> r[k] != '\0'
  {
    s[..FindFrom(s, '\0', 0)]
  }

  predicate IsSpace(c: char) { c == ' ' || '\t' <= c <= '\r' }

  /** The digit's value, or 16 for a character that is no digit in any base here. */
  function DigitValue(c: char): (v: nat)
    ensures v <= 16
  {
    if '0' <= c <= '9' then c as nat - '0' as nat
    else if 'a' <= c <= 'f' then c as nat - 'a' as nat + 10
    else if 'A' <= c <= 'F' then c as nat - 'A' as nat + 10
    else 16
  }

  function SkipSpaces(s: string): (n: nat)
    ensures n <= |s|
  {
    if s != "" && IsSpace(s[0]) then 1 + SkipSpaces(s[1..]) else 0
  }

  /** The value of the longest run of digits at the front of `s`, after `acc`, and its length. */
  function Digits(s: string, base: nat, acc: nat): (r: (nat, nat))
    ensures r.1 <= |s|
    decreases |s|
  {
    if s != "" && DigitValue(s[0]) < base then
      var (v, n) := Digits(s[1..], base, acc * base + DigitValue(s[0]));
      (v, n + 1)
    else (acc, 0)
  }

  /** strtol on a C string: the value and how many characters it used, both 0 without a conversion. */
  function Strtol(s: string, base: nat): (r: (int, nat))
    ensures r.1 <= |s|
  {
    var i := SkipSpaces(s);
    var signed := i < |s| && (s[i] == '-' || s[i] == '+');
    var j := if signed then i + 1 else i;
    var prefixed := base == 16 && j + 2 < |s| && s[j] == '0' && (s[j + 1] == 'x' || s[j + 1] == 'X')
                    && DigitValue(s[j + 2]) < 16;
    var k := if prefixed then j + 2 else j;
    var (v, n) := Digits(s[k..], base, 0);
    if n == 0 then (0, 0) else (if signed && s[i] == '-' then 0 - v as int else v as int, k + n)
  }

  /** A two-character half of a group; every character must be used. The cast keeps the low eight bits. */
  function HexOctet(half: string): (r: Result<nat>)
    ensures r.Ok? ==> r.value < 256
  {
    var s := CString(half);
    var (v, used) := Strtol(s, 16);
    if used < |s| then Rejected else Ok(v % 256)
  }

  /** A decimal part; characters after the number are ignored. */
  function DecimalOctet(part: string): (r: Result<nat>)
    ensures r.Ok? ==> r.value < 256
  {
    var v := Strtol(CString(part), 10).0;
    if 0 <= v <= 255 then Ok(v) else Rejected
  }

  // ---- the parsed state ----------------------------------------------------

  /**
   `octets` and `mask` of the representation, the write position `y`, and the
   positions whose octet or mask bit was set so far, in order.
   */
  datatype Parsed = Parsed(octets: seq<nat>, mask: seq<bool>, y: nat, written: seq<nat>)

  ghost predicate Shaped(st: Parsed)
  {
    |st.octets| == 16 && |st.mask| == 16 && forall i :: 0 <= i < 16 ==> st.octets[i] < 256
  }

  function ZeroOctets(n: nat): seq<nat> { seq(n, _ => 0) }

  /** `n` consecutive positions. */
  function Span(from: nat, n: nat): (r: seq<nat>)
    ensures |r| == n
  {
    if n == 0 then [] else Span(from, n - 1) + [from + n - 1]
  }

  function FullMask(): (m: seq<bool>)
    ensures |m| == 16
  {
    seq(16, _ => true)
  }

  /** All octets zero and significant. */
  function Blank(): (st: Parsed)
    ensures Shaped(st)
  {
    Parsed(ZeroOctets(16), FullMask(), 0, [])
  }

  /** Two octets at `y`. */
  function WriteGroup(st: Parsed, hi: nat, lo: nat): (r: Parsed)
    requires Shaped(st) && st.y + 2 <= 16 && hi < 256 && lo < 256
    ensures Shaped(r)
  {
    Parsed(st.octets[st.y := hi][st.y + 1 := lo], st.mask, st.y + 2, st.written + Span(st.y, 2))
  }

  /** "*": both octets at `y` become insignificant. */
  function MaskGroup(st: Parsed): (r: Parsed)
    requires Shaped(st) && st.y + 2 <= 16
    ensures Shaped(r)
  {
    Parsed(st.octets, st.mask[st.y := false][st.y + 1 := false], st.y + 2, st.written + Span(st.y, 2))
  }

  /** The empty placeholder: `omitted` zero groups. */
  function ZeroGroups(st: Parsed, omitted: nat): (r: Parsed)
    requires Shaped(st) && st.y + 2 * omitted <= 16
    ensures Shaped(r)
  {
    var z := st.y + 2 * omitted;
    Parsed(st.octets[..st.y] + ZeroOctets(2 * omitted) + st.octets[z..], st.mask, z,
           st.written + Span(st.y, 2 * omitted))
  }

  /** One dotted part at octet `12 + k`. */
  function QuadPart(part: string, k: nat, st: Parsed): (r: Result<Parsed>)
    requires Shaped(st) && k < 4
    ensures r.Ok? ==> Shaped(r.value) && r.value.y == st.y && r.value.written == st.written + [12 + k]
  {
    var log := st.written + [12 + k];
    if part == "*" then Ok(st.(mask := st.mask[12 + k := false], written := log))
    else
      match DecimalOctet(part)
      case Rejected => Rejected
      case Ok(v) => Ok(st.(octets := st.octets[12 + k := v], written := log))
  }

  /** Dotted parts from the `k`-th on, written at octets 12 to 15. */
  function QuadFrom(parts: seq<string>, k: nat, st: Parsed): (r: Result<Parsed>)
    requires Shaped(st) && |parts| == 4 && k <= 4
    ensures r.Ok? ==> Shaped(r.value) && r.value.y == st.y
    decreases 4 - k
  {
    if k == 4 then Ok(st)
    else
      match QuadPart(parts[k], k, st)
      case Rejected => Rejected
      case Ok(next) => QuadFrom(parts, k + 1, next)
  }

  /** parse_ipv4, and the part of parse_nested_ipv4 after its checks. */
  function ParseQuad(text: string, st: Parsed): (r: Result<Parsed>)
    requires Shaped(st)
    ensures r.Ok? ==> Shaped(r.value) && r.value.y == st.y
  {
    var parts := Tokens(text, '.', true);
    if |parts| != 4 then Rejected else QuadFrom(parts, 0, st)
  }

  /** Octets 0 to 9 are zero, 10 and 11 are 0x00 or 0xFF. */
  predicate MappedPrefix(octets: seq<nat>)
    requires |octets| == 16
  {
    octets[..10] == ZeroOctets(10) && (octets[10] == 0 || octets[10] == 255) && (octets[11] == 0 || octets[11] == 255)
  }

  predicate HasDot(s: string) { FindFrom(s, '.', 0) < |s| }

  function PadGroup(part: string): (r: string)
    requires |part| <= 4
    ensures |r| == 4
  {
    seq(4 - |part|, _ => '0') + part
  }

  /** A token of one to four characters as a hexadecimal group. */
  function ParseGroup(part: string, st: Parsed): (r: Result<Parsed>)
    requires Shaped(st) && st.y + 2 <= 16 && |part| <= 4
    ensures r.Ok? ==> Shaped(r.value) && r.value.y == st.y + 2
  {
    var s := PadGroup(part);
    var hi, lo := HexOctet(s[..2]), HexOctet(s[2..]);
    if hi.Rejected? || lo.Rejected? then Rejected else Ok(WriteGroup(st, hi.value, lo.value))
  }

  // ---- omitted groups ------------------------------------------------------

  function EmptyCount(parts: seq<string>): (n: nat)
    ensures n <= |parts|
  {
    if parts == [] then 0 else (if parts[0] == "" then 1 else 0) + EmptyCount(parts[1..])
  }

  /**
   compute_ipv6_omitted_segments: how many zero groups the empty token stands
   for, and the tokens without the second empty token of a leading "::".
   */
  function Omission(parts: seq<string>): (r: Result<(seq<string>, nat)>)
    requires 1 <= |parts| <= 8
  {
    var omitted := 9 - |parts|;
    if EmptyCount(parts) <= 1 then Ok((parts, omitted))
    else if !(EmptyCount(parts) == 2 && parts[0] == "" && parts[1] == "") then Rejected
    else Ok((parts[1..], omitted - (if HasDot(parts[|parts| - 1]) then 1 else 0) + 1))
  }

  /** Groups the tokens stand for when each non-empty token is one group. */
  function Weight(parts: seq<string>, omitted: nat): (n: nat)
  {
    if parts == [] then 0 else (if parts[0] == "" then omitted else 1) + Weight(parts[1..], omitted)
  }

  lemma {:induction false} WeightByCount(parts: seq<string>, omitted: nat)
    requires EmptyCount(parts) <= 1
    ensures Weight(parts, omitted) == if EmptyCount(parts) == 0 then |parts| else |parts| - 1 + omitted
  {
    if parts != [] { WeightByCount(parts[1..], omitted); }
  }

  /** The tokens never stand for more than eight groups. */
  lemma {:induction false} OmissionWeight(parts: seq<string>)
    requires 1 <= |parts| <= 8 && Omission(parts).Ok?
    ensures Weight(Omission(parts).value.0, Omission(parts).value.1) ==
            if EmptyCount(parts) == 0 then |parts|
            else if EmptyCount(parts) == 1 || !HasDot(parts[|parts| - 1]) then 8
            else 7
  {
    var (rest, omitted) := Omission(parts).value;
    assert EmptyCount(rest) <= 1;
    WeightByCount(rest, omitted);
  }

  // ---- the token loop ------------------------------------------------------

  /** apply_ipv6_part for the first of the tokens that are left. */
  function ApplyPart(parts: seq<string>, omitted: nat, st: Parsed): (r: Result<Parsed>)
    requires parts != [] && Shaped(st) && st.y + 2 * Weight(parts, omitted) <= 16
    ensures r.Ok? ==> Shaped(r.value) && r.value.y + 2 * Weight(parts[1..], omitted) <= 16
  {
    var part := parts[0];
    if part == "*" then Ok(MaskGroup(st))
    else if part == "" then Ok(ZeroGroups(st, omitted))
    else if |part| <= 4 then ParseGroup(part, st)
    else if !HasDot(part) || st.y != 12 || |parts| != 1 || !MappedPrefix(st.octets) then Rejected
    else ParseQuad(part, st)
  }

  /** The loop over the tokens. */
  function ParseParts(parts: seq<string>, omitted: nat, st: Parsed): (r: Result<Parsed>)
    requires Shaped(st) && st.y + 2 * Weight(parts, omitted) <= 16
    ensures r.Ok? ==> Shaped(r.value)
    decreases |parts|
  {
    if parts == [] then Ok(st)
    else
      match ApplyPart(parts, omitted, st)
      case Rejected => Rejected
      case Ok(next) => ParseParts(parts[1..], omitted, next)
  }

  function ParseIpv6(ip: string): (r: Result<Parsed>)
    requires FindFrom(ip, ':', 0) < |ip|
    ensures r.Ok? ==> Shaped(r.value)
  {
    var parts := Tokens(ip, ':', false);
    assert |parts| >= 1 by { SomeToken(ip); }
    if |parts| > 8 then Rejected
    else
      match Omission(parts)
      case Rejected => Rejected
      case Ok(split) =>
        assert Weight(split.0, split.1) <= 8 by { OmissionWeight(parts); }
        ParseParts(split.0, split.1, Blank())
  }

  lemma SomeToken(ip: string)
    requires FindFrom(ip, ':', 0) < |ip|
    ensures |Tokens(ip, ':', false)| >= 1
  {
    var i := FindFrom(ip, ':', 0);
    assert |Fields(ip, ':')| == 1 + |Fields(ip[i + 1..], ':')|;
  }

  /** The string constructor. */
  function ParseAddress(ip: string): (r: Result<Parsed>)
    ensures r.Ok? ==> Shaped(r.value)
  {
    if FindFrom(ip, ':', 0) < |ip| then ParseIpv6(ip) else ParseQuad(ip, Blank())
  }

  // ---- which positions are written ------------------------------------------

  lemma {:induction false} SpanConcat(from: nat, m: nat, n: nat)
    ensures Span(from, m) + Span(from + m, n) == Span(from, m + n)
  {
    if n > 0 {
      SpanConcat(from, m, n - 1);
      assert Span(from, m) + Span(from + m, n) == (Span(from, m) + Span(from + m, n - 1)) + [from + m + n - 1];
    }
  }

  lemma SpanFirst(from: nat, n: nat)
    requires n > 0
    ensures Span(from, n) == [from] + Span(from + 1, n - 1)
  {
    SpanConcat(from, 1, n - 1);
    assert Span(from, 1) == Span(from, 0) + [from];
  }

  lemma {:induction false} QuadWrites(parts: seq<string>, k: nat, st: Parsed)
    requires Shaped(st) && |parts| == 4 && k <= 4 && QuadFrom(parts, k, st).Ok?
    ensures QuadFrom(parts, k, st).value.written == st.written + Span(12 + k, 4 - k)
    decreases 4 - k
  {
    hide QuadPart, Span, Shaped;
    if k < 4 {
      var next := QuadPart(parts[k], k, st).value;
      QuadWrites(parts, k + 1, next);
      SpanFirst(12 + k, 4 - k);
      assert (st.written + [12 + k]) + Span(12 + k + 1, 4 - k - 1)
          == st.written + ([12 + k] + Span(12 + k + 1, 4 - k - 1));
    }
  }

  /** How many positions a token writes. */
  function Extent(part: string, omitted: nat): nat
  {
    if part == "" then 2 * omitted else if |part| <= 4 then 2 else 4
  }

  lemma ApplyWrites(parts: seq<string>, omitted: nat, st: Parsed)
    requires parts != [] && Shaped(st) && st.y + 2 * Weight(parts, omitted) <= 16
    requires ApplyPart(parts, omitted, st).Ok?
    ensures ApplyPart(parts, omitted, st).value.written == st.written + Span(st.y, Extent(parts[0], omitted))
  {
    if |parts[0]| > 4 { QuadWrites(Tokens(parts[0], '.', true), 0, st); }
  }

  /** Where an accepted token list stops writing: a trailing dotted quad always ends at 16. */
  function EndOf(parts: seq<string>, omitted: nat, y: nat): nat
  {
    if parts != [] && |parts[|parts| - 1]| > 4 then 16 else y + 2 * Weight(parts, omitted)
  }

  /** Every position is written once, in order. */
  lemma {:induction false} PartsWrite(parts: seq<string>, omitted: nat, st: Parsed)
    requires Shaped(st) && st.y + 2 * Weight(parts, omitted) <= 16 && st.written == Span(0, st.y)
    requires ParseParts(parts, omitted, st).Ok?
    ensures ParseParts(parts, omitted, st).value.written == Span(0, EndOf(parts, omitted, st.y))
    decreases |parts|
  {
    if parts != [] {
      var next := ApplyPart(parts, omitted, st).value;
      assert next.written == Span(0, st.y + Extent(parts[0], omitted)) by {
        ApplyWrites(parts, omitted, st);
        SpanConcat(0, st.y, Extent(parts[0], omitted));
      }
      if |parts[0]| <= 4 {
        PartsWrite(parts[1..], omitted, next);
      } else {
        assert parts[1..] == [];
      }
    }
  }

  /** Octet and mask bit `i` are as before. */
  predicate SameAt(before: Parsed, after: Parsed, i: nat)
    requires Shaped(before) && Shaped(after) && i < 16
  {
    after.octets[i] == before.octets[i] && after.mask[i] == before.mask[i]
  }

  /** Positions from the end on keep what they had. */
  lemma {:induction false} PartsKeep(parts: seq<string>, omitted: nat, st: Parsed, i: nat)
    requires Shaped(st) && st.y + 2 * Weight(parts, omitted) <= 16
    requires ParseParts(parts, omitted, st).Ok? && EndOf(parts, omitted, st.y) <= i < 16
    ensures SameAt(st, ParseParts(parts, omitted, st).value, i)
    decreases |parts|
  {
    if parts != [] {
      var next := ApplyPart(parts, omitted, st).value;
      assert |parts[0]| <= 4;
      assert SameAt(st, next, i);
      PartsKeep(parts[1..], omitted, next, i);
    }
  }

  /** A last token with a dot that is still too short to be a dotted quad. */
  predicate ShortDotted(part: string) { |part| <= 4 && HasDot(part) }

  /**
   Whatever text is accepted, positions are written once each, in order from
   0, never past 15, and the others keep their initial octet and mask bit. A
   text with an empty token fills all sixteen unless it starts with "::" and
   its last token is a dotted text of at most four characters.
   */
  lemma {:induction false} Ipv6Coverage(ip: string)
    requires FindFrom(ip, ':', 0) < |ip| && ParseIpv6(ip).Ok?
    ensures var parts := Tokens(ip, ':', false);
            var st := ParseIpv6(ip).value;
            var n := |st.written|;
            && n <= 16 && st.written == Span(0, n)
            && (forall i :: n <= i < 16 ==> SameAt(Blank(), st, i))
            && (EmptyCount(parts) > 0 ==>
                  (n == 16 <==> !(EmptyCount(parts) == 2 && ShortDotted(parts[|parts| - 1]))))
  {
    var parts := Tokens(ip, ':', false);
    SomeToken(ip);
    OmissionWeight(parts);
    var (rest, omitted) := Omission(parts).value;
    PartsWrite(rest, omitted, Blank());
    assert rest[|rest| - 1] == parts[|parts| - 1];
    forall i | |ParseIpv6(ip).value.written| <= i < 16
      ensures SameAt(Blank(), ParseIpv6(ip).value, i)
    {
      PartsKeep(rest, omitted, Blank(), i);
    }
  }

  /** Without NUL characters such a short dotted token is never a group. */
  lemma ShortDottedRejected(part: string, st: Parsed)
    requires Shaped(st) && st.y + 2 <= 16 && ShortDotted(part) && forall k :: 0 <= k < |part| ==> part[k] != '\0'
    ensures ParseGroup(part, st).Rejected?
  {
    var s := PadGroup(part);
    var d := 4 - |part| + FindFrom(part, '.', 0);
    assert s[d] == '.';
    assert forall k :: 0 <= k < 4 ==> s[k] != '\0';
    if d < 2 { DottedHalf(s[..2], d); } else { DottedHalf(s[2..], d - 2); }
  }

  lemma DottedHalf(half: string, d: nat)
    requires |half| == 2 && d < 2 && half[d] == '.' && half[0] != '\0' && half[1] != '\0'
    ensures HexOctet(half).Rejected?
  {
    FirstOccurrence(half, '\0', 2);
    assert CString(half) == half;
    var tail := half[1..];
    assert tail == [half[1]] && half[2..] == [];
    assert Digits(half[2..], 16, 0).1 == 0;
    assert Digits(tail, 16, DigitValue(half[0])).1 <= if d == 1 then 0 else 1;
  }

  lemma {:induction false} ShortDottedEnd(parts: seq<string>, omitted: nat, st: Parsed)
    requires Shaped(st) && st.y + 2 * Weight(parts, omitted) <= 16
    requires parts != [] && ShortDotted(parts[|parts| - 1]) && '\0' !in parts[|parts| - 1]
    ensures ParseParts(parts, omitted, st).Rejected?
    decreases |parts|
  {
    if |parts| == 1 {
      ShortDottedRejected(parts[0], st);
    } else if ApplyPart(parts, omitted, st).Ok? {
      ShortDottedEnd(parts[1..], omitted, ApplyPart(parts, omitted, st).value);
    }
  }

  /** For text without NUL, an accepted text with an empty token fills all sixteen positions exactly once. */
  lemma {:induction false} Ipv6CoverageWithoutNul(ip: string)
    requires FindFrom(ip, ':', 0) < |ip| && '\0' !in ip
    requires ParseIpv6(ip).Ok? && EmptyCount(Tokens(ip, ':', false)) > 0
    ensures ParseIpv6(ip).value.written == Span(0, 16)
  {
    var parts := Tokens(ip, ':', false);
    Ipv6Coverage(ip);
    SomeToken(ip);
    var last := parts[|parts| - 1];
    if EmptyCount(parts) == 2 && ShortDotted(last) {
      if '\0' in last { FieldChars(ip, ':', last, '\0'); }
      OmissionWeight(parts);
      ShortDottedEnd(Omission(parts).value.0, Omission(parts).value.1, Blank());
      assert false;
    }
  }

  lemma NulTokens()
    ensures FindFrom("::\0.\0\0", ':', 0) == 0
    ensures Tokens("::\0.\0\0", ':', false) == ["", "", "\0.\0\0"]
  {
    var ip := "::\0.\0\0";
    FirstOccurrence(ip, ':', 0);
    FirstOccurrence(":\0.\0\0", ':', 0);
    FirstOccurrence("\0.\0\0", ':', 4);
    assert ip[..0] == "" && ip[1..] == ":\0.\0\0";
    assert ":\0.\0\0"[..0] == "" && ":\0.\0\0"[1..] == "\0.\0\0";
    assert Fields("\0.\0\0", ':') == ["\0.\0\0"];
    assert Fields(":\0.\0\0", ':') == ["", "\0.\0\0"];
  }

  lemma NulHalf(half: string)
    requires half != "" && half[0] == '\0'
    ensures HexOctet(half) == Ok(0)
  {
    FirstOccurrence(half, '\0', 0);
    assert CString(half) == "";
  }

  lemma NulOmission(token: string)
    requires token == "\0.\0\0"
    ensures Omission(["", "", token]) == Ok((["", token], 6))
  {
    FirstOccurrence(token, '.', 1);
    assert ["", "", token][1..] == ["", token];
    assert ["", token][1..] == [token];
    assert EmptyCount([token]) == 0;
    assert EmptyCount(["", token]) == 1;
    assert EmptyCount(["", "", token]) == 2;
  }

  lemma NulGroup(token: string) returns (end: Parsed)
    requires token == "\0.\0\0"
    ensures ParseGroup(token, ZeroGroups(Blank(), 6)) == Ok(end) && |end.written| == 14
    ensures HasDot(token)
  {
    FirstOccurrence(token, '.', 1);
    assert PadGroup(token) == token;
    NulHalf(token[..2]);
    NulHalf(token[2..]);
    end := ParseGroup(token, ZeroGroups(Blank(), 6)).value;
  }

  lemma NulParts(token: string, end: Parsed)
    requires token == "\0.\0\0" && ParseGroup(token, ZeroGroups(Blank(), 6)) == Ok(end)
    ensures Weight(["", token], 6) <= 8 && ParseParts(["", token], 6, Blank()) == Ok(end)
  {
    var st := ZeroGroups(Blank(), 6);
    assert ParseParts([token], 6, st) == Ok(end) by {
      assert [token][1..] == [];
      assert ApplyPart([token], 6, st) == Ok(end);
    }
    assert ["", token][1..] == [token];
    assert ApplyPart(["", token], 6, Blank()) == Ok(st);
  }

  /** With NUL it need not: "::" and a four-character token of a dot among NULs is accepted with 14 positions. */
  lemma NulTokenLeavesTwoOctets()
    ensures FindFrom("::\0.\0\0", ':', 0) < 6
    ensures ParseIpv6("::\0.\0\0").Ok? && |ParseIpv6("::\0.\0\0").value.written| == 14
  {
    var token := "\0.\0\0";
    NulTokens();
    NulOmission(token);
    var end := NulGroup(token);
    hide Tokens, Omission, ParseGroup, Blank, ZeroGroups;
    NulParts(token, end);
  }
}
