/**
 The address printer and the address parser were written apart; reading back
 any canonical text gives the sixteen octets it was printed from.
 */
module Ipv6RoundTrip {
  import opened Wrappers
  import opened Text
  import opened Ipv6Text
  import opened IpParser

  // ---- numerals ----------------------------------------------------------

  lemma DigitCharValue(d: nat)
    requires d < 16
    ensures DigitValue(DigitChar(d)) == d && !IsSpace(DigitChar(d))
    ensures DigitChar(d) !in ".:*+-" && DigitChar(d) != '\0'
  {
  }

  lemma HexDigits(g: nat)
    requires g < 65536
    ensures Hex(g) ==
            if g < 16 then [DigitChar(g)]
            else if g < 256 then [DigitChar(g / 16), DigitChar(g % 16)]
            else if g < 4096 then [DigitChar(g / 256), DigitChar(g / 16 % 16), DigitChar(g % 16)]
            else [DigitChar(g / 4096), DigitChar(g / 256 % 16), DigitChar(g / 16 % 16), DigitChar(g % 16)]
  {
    assert g / 16 / 16 == g / 256;
    assert g / 256 / 16 == g / 4096;
    if g >= 256 { assert Hex(g / 16) == Hex(g / 256) + [DigitChar(g / 16 % 16)]; }
    if g >= 4096 { assert Hex(g / 256) == Hex(g / 4096) + [DigitChar(g / 256 % 16)]; }
  }

  lemma ZeroDigit()
    ensures DigitChar(0) == '0'
  {
  }

  /** A hexadecimal group with its leading zeros back. */
  lemma PadHex(g: nat)
    requires g < 65536
    ensures PadGroup(Hex(g)) ==
            [DigitChar(g / 4096), DigitChar(g / 256 % 16), DigitChar(g / 16 % 16), DigitChar(g % 16)]
  {
    hide Hex, DigitChar;
    HexDigits(g);
    ZeroDigit();
    if g < 16 {
      assert g / 16 == 0 && g / 256 == 0 && g / 4096 == 0 && g % 16 == g;
    } else if g < 256 {
      assert g / 256 == 0 && g / 4096 == 0 && g / 16 % 16 == g / 16;
    } else if g < 4096 {
      assert g / 4096 == 0 && g / 256 % 16 == g / 256;
    }
  }

  lemma HexPair(hi: nat, lo: nat)
    requires hi < 16 && lo < 16
    ensures HexOctet([DigitChar(hi), DigitChar(lo)]) == Ok(hi * 16 + lo)
  {
    var s := [DigitChar(hi), DigitChar(lo)];
    DigitCharValue(hi);
    DigitCharValue(lo);
    FirstOccurrence(s, '\0', 2);
    assert CString(s) == s;
    assert s[0..] == s && s[1..] == [DigitChar(lo)] && s[1..][1..] == [];
    assert Digits([], 16, hi * 16 + lo) == (hi * 16 + lo, 0);
    assert Digits(s[1..], 16, hi) == (hi * 16 + lo, 1);
    assert Digits(s, 16, 0) == (hi * 16 + lo, 2);
  }

  /** The four digits of a padded group, two for each octet. */
  lemma PaddedDigits(hi: nat, lo: nat) returns (a: nat, b: nat, c: nat, d: nat)
    requires hi < 256 && lo < 256
    ensures a < 16 && b < 16 && c < 16 && d < 16
    ensures PadGroup(Hex(hi * 256 + lo)) == [DigitChar(a), DigitChar(b), DigitChar(c), DigitChar(d)]
    ensures a * 16 + b == hi && c * 16 + d == lo
  {
    var g := hi * 256 + lo;
    PadHex(g);
    a, b, c, d := g / 4096, g / 256 % 16, g / 16 % 16, g % 16;
    assert g / 256 / 16 == g / 4096;
    assert g / 16 / 16 == g / 256;
  }

  lemma ParsePadded(part: string, a: nat, b: nat, c: nat, d: nat, st: Parsed)
    requires |part| <= 4 && a < 16 && b < 16 && c < 16 && d < 16 && Shaped(st) && st.y + 2 <= 16
    requires PadGroup(part) == [DigitChar(a), DigitChar(b), DigitChar(c), DigitChar(d)]
    ensures ParseGroup(part, st) == Ok(WriteGroup(st, a * 16 + b, c * 16 + d))
  {
    var s := PadGroup(part);
    assert s[..2] == [DigitChar(a), DigitChar(b)];
    assert s[2..] == [DigitChar(c), DigitChar(d)];
    HexPair(a, b);
    HexPair(c, d);
  }

  /** A printed group is read back as its two octets. */
  lemma ParsePrintedGroup(hi: nat, lo: nat, st: Parsed)
    requires hi < 256 && lo < 256 && Shaped(st) && st.y + 2 <= 16
    ensures ParseGroup(Hex(hi * 256 + lo), st) == Ok(WriteGroup(st, hi, lo))
  {
    hide Hex, DigitChar;
    var a, b, c, d := PaddedDigits(hi, lo);
    ParsePadded(Hex(hi * 256 + lo), a, b, c, d, st);
  }

  /** Digits only, none of the characters that delimit or extend tokens. */
  ghost predicate Plain(s: string)
  {
    forall k :: 0 <= k < |s| ==> exists d: nat :: d < 16 && s[k] == DigitChar(d)
  }

  lemma PlainHas(s: string, k: nat)
    requires Plain(s) && k < |s|
    ensures s[k] != '.' && s[k] != ':' && s[k] != '*' && s[k] != '\0' && s[k] != '-' && s[k] != '+' && !IsSpace(s[k])
  {
    var d: nat :| d < 16 && s[k] == DigitChar(d);
    DigitCharValue(d);
  }

  lemma PrintedIsPlain(n: nat)
    requires n < 65536
    ensures Plain(Hex(n)) && (n < 256 ==> Plain(Decimal(n)))
  {
    HexDigits(n);
  }

  /** A printed decimal octet is read back. */
  lemma ParsePrintedDecimal(n: nat)
    requires n < 256
    ensures DecimalOctet(Decimal(n)) == Ok(n)
  {
    var s := Decimal(n);
    PrintedIsPlain(n);
    forall k | 0 <= k < |s| ensures s[k] != '\0' { PlainHas(s, k); }
    FirstOccurrence(s, '\0', |s|);
    assert CString(s) == s;
    PlainHas(s, 0);
    assert s[0..] == s;
    DecimalDigits(n);
  }

  lemma DigitsStep(d: nat, rest: string, acc: nat)
    requires d < 10
    ensures var (v, n) := Digits(rest, 10, acc * 10 + d); Digits([DigitChar(d)] + rest, 10, acc) == (v, n + 1)
  {
    DigitCharValue(d);
    hide DigitValue, DigitChar;
    var s := [DigitChar(d)] + rest;
    assert s[1..] == rest && s[0] == DigitChar(d);
  }

  lemma LastDigit(d: nat, acc: nat)
    requires d < 10
    ensures Digits([DigitChar(d)], 10, acc) == (acc * 10 + d, 1)
  {
    DigitsStep(d, "", acc);
    assert [DigitChar(d)] + "" == [DigitChar(d)];
  }

  lemma TwoDigits(c: nat, d: nat, acc: nat)
    requires c < 10 && d < 10
    ensures Digits([DigitChar(c), DigitChar(d)], 10, acc) == ((acc * 10 + c) * 10 + d, 2)
  {
    hide *;
    LastDigit(d, acc * 10 + c);
    DigitsStep(c, [DigitChar(d)], acc);
    assert [DigitChar(c)] + [DigitChar(d)] == [DigitChar(c), DigitChar(d)];
  }

  lemma ThreeDigits(b: nat, c: nat, d: nat)
    requires b < 10 && c < 10 && d < 10
    ensures Digits([DigitChar(b), DigitChar(c), DigitChar(d)], 10, 0) == ((b * 10 + c) * 10 + d, 3)
  {
    hide *;
    TwoDigits(c, d, b);
    DigitsStep(b, [DigitChar(c), DigitChar(d)], 0);
    assert [DigitChar(b)] + [DigitChar(c), DigitChar(d)] == [DigitChar(b), DigitChar(c), DigitChar(d)];
  }

  lemma DecimalDigits(n: nat)
    requires n < 256
    ensures Digits(Decimal(n), 10, 0) == (n, |Decimal(n)|)
  {
    hide Digits, DigitChar;
    if n < 10 {
      LastDigit(n, 0);
    } else if n < 100 {
      TwoDigits(n / 10, n % 10, 0);
    } else {
      ThreeDigits(n / 100, n / 10 % 10, n % 10);
    }
  }

  // ---- the token loop ------------------------------------------------------

  /** What has been written so far is the front of `a`, all of it significant. */
  ghost predicate Agrees(a: Address, st: Parsed)
  {
    && Shaped(st) && st.y <= 16 && st.y % 2 == 0
    && st.mask == FullMask() && forall i :: 0 <= i < st.y ==> st.octets[i] == a[i]
  }

  /** The parse succeeded with exactly the octets of `a`, all of them significant. */
  ghost predicate Reads(a: Address, r: Result<Parsed>)
  {
    r.Ok? && r.value.octets == a && r.value.mask == FullMask()
  }

  lemma ParseStep(parts: seq<string>, omitted: nat, st: Parsed, next: Parsed)
    requires parts != [] && Shaped(st) && st.y + 2 * Weight(parts, omitted) <= 16
    requires ApplyPart(parts, omitted, st) == Ok(next)
    ensures next.y + 2 * Weight(parts[1..], omitted) <= 16
    ensures ParseParts(parts, omitted, st) == ParseParts(parts[1..], omitted, next)
  {
  }

  lemma ApplyEmpty(parts: seq<string>, omitted: nat, st: Parsed)
    requires parts != [] && parts[0] == "" && Shaped(st) && st.y + 2 * Weight(parts, omitted) <= 16
    ensures ApplyPart(parts, omitted, st) == Ok(ZeroGroups(st, omitted))
  {
  }

  lemma ApplyGroup(parts: seq<string>, omitted: nat, st: Parsed)
    requires parts != [] && 1 <= |parts[0]| <= 4 && parts[0] != "*"
    requires Shaped(st) && st.y + 2 * Weight(parts, omitted) <= 16
    ensures ApplyPart(parts, omitted, st) == ParseGroup(parts[0], st)
  {
  }

  lemma ApplyPrinted(a: Address, st: Parsed, parts: seq<string>, omitted: nat)
    requires Agrees(a, st) && st.y < 16 && parts != [] && parts[0] == Hexes(GroupsOf(a))[st.y / 2]
    requires st.y + 2 + 2 * Weight(parts[1..], omitted) <= 16
    ensures Weight(parts, omitted) == 1 + Weight(parts[1..], omitted)
    ensures ApplyPart(parts, omitted, st) == Ok(WriteGroup(st, a[st.y], a[st.y + 1]))
  {
    hide DigitChar, ApplyPart, ParseGroup;
    var g := a[st.y] * 256 + a[st.y + 1];
    assert GroupsOf(a)[st.y / 2] == g;
    ParsePrintedGroup(a[st.y], a[st.y + 1], st);
    PrintedIsPlain(g);
    PlainHas(Hex(g), 0);
    ApplyGroup(parts, omitted, st);
  }

  /** A run of printed groups moves the parser over exactly those groups. */
  lemma {:induction false} ParseRun(a: Address, st: Parsed, k: nat, tail: seq<string>, omitted: nat)
    returns (next: Parsed)
    requires Agrees(a, st) && st.y <= 2 * k <= 16
    requires 2 * k + 2 * Weight(tail, omitted) <= 16
    ensures Agrees(a, next) && next.y == 2 * k
    ensures var parts := Hexes(GroupsOf(a))[st.y / 2..k] + tail;
            && st.y + 2 * Weight(parts, omitted) <= 16
            && ParseParts(parts, omitted, st) == ParseParts(tail, omitted, next)
    decreases 16 - st.y
  {
    hide Hex, DigitChar, ParseParts, ApplyPart, Weight;
    var i := st.y / 2;
    var hs := Hexes(GroupsOf(a));
    var parts := hs[i..k] + tail;
    if i == k {
      assert parts == tail;
      return st;
    }
    var mid := WriteGroup(st, a[2 * i], a[2 * i + 1]);
    next := ParseRun(a, mid, k, tail, omitted);
    assert parts[1..] == hs[i + 1..k] + tail;
    ApplyPrinted(a, st, parts, omitted);
    ParseStep(parts, omitted, st, mid);
  }

  /** The empty token moves the parser over zero groups. */
  lemma ZeroGroupOctets(a: Address, i: nat)
    requires i < 16 && GroupsOf(a)[i / 2] == 0
    ensures a[i] == 0
  {
    assert GroupsOf(a)[i / 2] == a[2 * (i / 2)] * 256 + a[2 * (i / 2) + 1];
  }

  lemma ZerosAgree(a: Address, st: Parsed, len: nat)
    requires Agrees(a, st) && st.y + 2 * len <= 16
    requires forall k :: st.y / 2 <= k < st.y / 2 + len ==> GroupsOf(a)[k] == 0
    ensures Agrees(a, ZeroGroups(st, len))
  {
    hide GroupsOf, Span;
    var r := ZeroGroups(st, len);
    forall i | 0 <= i < r.y ensures r.octets[i] == a[i] {
      if i >= st.y { ZeroGroupOctets(a, i); }
    }
  }

  // ---- the tokens of a canonical text ----------------------------------------

  /** Printed group texts: no token is empty or holds a delimiter. */
  ghost predicate GroupTexts(hs: seq<string>)
  {
    forall i :: 0 <= i < |hs| ==> hs[i] != "" && ':' !in hs[i] && '.' !in hs[i]
  }

  lemma PrintedGroupTexts(g: Groups)
    ensures GroupTexts(Hexes(g))
  {
    forall i | 0 <= i < 8
      ensures ':' !in Hex(g[i]) && '.' !in Hex(g[i])
    {
      PrintedIsPlain(g[i]);
      forall k | 0 <= k < |Hex(g[i])| ensures Hex(g[i])[k] != ':' && Hex(g[i])[k] != '.' { PlainHas(Hex(g[i]), k); }
    }
  }

  lemma {:induction false} NoEmpty(hs: seq<string>, tail: seq<string>)
    requires GroupTexts(hs)
    ensures EmptyCount(hs + tail) == EmptyCount(tail)
  {
    if hs == [] {
      assert hs + tail == tail;
    } else {
      assert (hs + tail)[1..] == hs[1..] + tail;
      NoEmpty(hs[1..], tail);
    }
  }

  function OrEmpty(fs: seq<string>): (r: seq<string>)
  {
    if fs == [] then [""] else fs
  }

  lemma CollapsedJoin(front: seq<string>, back: seq<string>)
    ensures Join(OrEmpty(front) + ([""] + OrEmpty(back)), ':') == Join(front, ':') + "::" + Join(back, ':')
  {
    var f, b := OrEmpty(front), OrEmpty(back);
    JoinConcat(f, [""] + b, ':');
    assert ([""] + b)[1..] == b;
    assert Join(f, ':') == Join(front, ':') && Join(b, ':') == Join(back, ':');
    assert Join([""] + b, ':') == [':'] + Join(b, ':');
  }

  /** The tokens of a collapsed text: "::" is an empty token, and two where the text starts with it. */
  lemma CollapsedTokens(front: seq<string>, back: seq<string>)
    requires GroupTexts(front) && GroupTexts(back)
    ensures Tokens(Join(front, ':') + "::" + Join(back, ':'), ':', false) == OrEmpty(front) + [""] + back
  {
    var fields := OrEmpty(front) + ([""] + OrEmpty(back));
    CollapsedJoin(front, back);
    assert SepFree(fields, ':');
    FieldsOfJoin(fields, ':');
    DropAfter(OrEmpty(front), back);
  }

  lemma DropAfter(f: seq<string>, back: seq<string>)
    requires GroupTexts(back)
    ensures DropTrailingEmpty(f + ([""] + OrEmpty(back))) == f + [""] + back
  {
    var fields := f + ([""] + OrEmpty(back));
    if back == [] {
      assert fields[..|fields| - 1] == f + [""];
    } else {
      assert fields[|fields| - 1] == back[|back| - 1];
    }
  }

  /** The parser finds the length of the run again. */
  lemma OneEmpty(back: seq<string>)
    requires GroupTexts(back)
    ensures EmptyCount([""] + back) == 1
  {
    NoEmpty(back, []);
    assert back + [] == back;
    assert ([""] + back)[1..] == back;
  }

  lemma LeadingOmission(back: seq<string>, len: nat)
    requires GroupTexts(back) && len >= 2 && len + |back| == 8
    ensures Omission(["", ""] + back) == Ok(([""] + back, len))
  {
    var parts := ["", ""] + back;
    OneEmpty(back);
    assert parts[1..] == [""] + back;
    assert EmptyCount(parts) == 2;
    assert !HasDot(parts[|parts| - 1]);
    hide EmptyCount, HasDot;
  }

  lemma InnerOmission(front: seq<string>, back: seq<string>, len: nat)
    requires GroupTexts(front) && GroupTexts(back) && front != [] && len >= 2 && |front| + len + |back| == 8
    ensures Omission(front + [""] + back) == Ok((front + [""] + back, len))
  {
    hide EmptyCount, HasDot, GroupTexts;
    assert front + [""] + back == front + ([""] + back);
    OneEmpty(back);
    NoEmpty(front, [""] + back);
  }

  lemma CollapsedOmission(front: seq<string>, back: seq<string>, len: nat)
    requires GroupTexts(front) && GroupTexts(back) && len >= 2 && |front| + len + |back| == 8
    ensures Omission(OrEmpty(front) + [""] + back) == Ok((front + [""] + back, len))
  {
    hide EmptyCount, HasDot, GroupTexts, Omission;
    if front == [] {
      LeadingOmission(back, len);
      assert OrEmpty(front) + [""] + back == ["", ""] + back && front + [""] + back == [""] + back;
    } else {
      InnerOmission(front, back, len);
    }
  }

  lemma {:induction false} WeightOfTail(back: seq<string>, len: nat)
    requires GroupTexts(back)
    ensures Weight([""] + back, len) == len + |back| && Weight(back, len) == |back|
  {
    assert ([""] + back)[1..] == back;
    NoEmpty(back, []);
    assert back + [] == back;
    WeightByCount(back, len);
  }

  /** Groups `s` up to `e` are zero. */
  ghost predicate ZeroGap(a: Address, s: nat, e: nat)
  {
    s + 2 <= e <= 8 && forall k :: s <= k < e ==> GroupsOf(a)[k] == 0
  }

  /** The empty token stands for the gap. */
  lemma GapStep(back: seq<string>, len: nat, mid: Parsed)
    requires GroupTexts(back) && Shaped(mid) && mid.y + 2 * (len + |back|) <= 16
    ensures Weight([""] + back, len) == len + |back| && Weight(back, len) == |back|
    ensures ParseParts([""] + back, len, mid) == ParseParts(back, len, ZeroGroups(mid, len))
  {
    WeightOfTail(back, len);
    assert ([""] + back)[1..] == back;
    assert ApplyPart([""] + back, len, mid) == Ok(ZeroGroups(mid, len));
    hide *;
    ParseStep([""] + back, len, mid, ZeroGroups(mid, len));
  }

  /** The tokens up to the last group complete the address. */
  lemma ParseToEnd(a: Address, st: Parsed, back: seq<string>, omitted: nat)
    requires Agrees(a, st) && back == Hexes(GroupsOf(a))[st.y / 2..]
    ensures st.y + 2 * Weight(back, omitted) <= 16 && Reads(a, ParseParts(back, omitted, st))
  {
    hide Hex, DigitChar;
    assert Hexes(GroupsOf(a))[st.y / 2..8] + [] == back;
    var end := ParseRun(a, st, 8, [], omitted);
    hide Hexes, GroupsOf;
    assert end.octets == a;
  }

  /** The token loop from the empty token on. */
  lemma ParseFromGap(a: Address, s: nat, e: nat, mid: Parsed, back: seq<string>)
    requires ZeroGap(a, s, e) && Agrees(a, mid) && mid.y == 2 * s
    requires back == Hexes(GroupsOf(a))[e..] && GroupTexts(back)
    ensures Weight([""] + back, e - s) <= 8 - s
    ensures Reads(a, ParseParts([""] + back, e - s, mid))
  {
    hide Hex, DigitChar, Weight, ParseParts, GroupTexts;
    var z := ZeroGroups(mid, e - s);
    assert z.y / 2 == e;
    ZerosAgree(a, mid, e - s);
    hide *;
    GapStep(back, e - s, mid);
    ParseToEnd(a, z, back, e - s);
  }

  /** The token loop over a collapsed text. */
  lemma ParseCollapsedTokens(a: Address, s: nat, e: nat, front: seq<string>, back: seq<string>)
    requires ZeroGap(a, s, e)
    requires front == Hexes(GroupsOf(a))[..s] && back == Hexes(GroupsOf(a))[e..] && GroupTexts(back)
    ensures Weight(front + ([""] + back), e - s) <= 8
    ensures Reads(a, ParseParts(front + ([""] + back), e - s, Blank()))
  {
    hide Hex, DigitChar;
    WeightOfTail(back, e - s);
    assert Hexes(GroupsOf(a))[0..s] == front;
    var mid := ParseRun(a, Blank(), s, [""] + back, e - s);
    ParseFromGap(a, s, e, mid, back);
  }

  /** From the tokens of a text to its parse. */
  lemma ParseByTokens(ip: string, i: nat, parts: seq<string>, rest: seq<string>, omitted: nat)
    requires i < |ip| && ip[i] == ':' && Tokens(ip, ':', false) == parts && 1 <= |parts| <= 8
    requires Omission(parts) == Ok((rest, omitted))
    ensures Weight(rest, omitted) <= 8 && ParseAddress(ip) == ParseParts(rest, omitted, Blank())
  {
    OmissionWeight(parts);
    assert FindFrom(ip, ':', 0) < |ip|;
  }

  lemma GroupTextsAround(a: Address, s: nat, e: nat)
    requires ZeroGap(a, s, e)
    ensures s + 2 <= e <= 8
    ensures GroupTexts(Hexes(GroupsOf(a))[..s]) && GroupTexts(Hexes(GroupsOf(a))[e..])
  {
    hide Hex, DigitChar;
    PrintedGroupTexts(GroupsOf(a));
  }

  /** Parsing a collapsed text. */
  lemma CollapsedText(front: seq<string>, back: seq<string>)
    requires |front| + |back| <= 6
    ensures var text := Join(front, ':') + "::" + Join(back, ':');
            |Join(front, ':')| < |text| && text[|Join(front, ':')|] == ':'
    ensures 1 <= |OrEmpty(front) + [""] + back| <= 8
    ensures front + ([""] + back) == front + [""] + back
  {
    hide Join;
  }

  lemma ParseCollapsed(a: Address, s: nat, e: nat, front: seq<string>, back: seq<string>)
    requires ZeroGap(a, s, e) && front == Hexes(GroupsOf(a))[..s] && back == Hexes(GroupsOf(a))[e..]
    ensures Reads(a, ParseAddress(Join(front, ':') + "::" + Join(back, ':')))
  {
    hide *;
    GroupTextsAround(a, s, e);
    CollapsedTokens(front, back);
    CollapsedOmission(front, back, e - s);
    CollapsedText(front, back);
    ParseByTokens(Join(front, ':') + "::" + Join(back, ':'), |Join(front, ':')|,
                  OrEmpty(front) + [""] + back, front + [""] + back, e - s);
    ParseCollapsedTokens(a, s, e, front, back);
  }

  /** Parsing a text with all eight groups. */
  lemma ParseFull(a: Address)
    ensures Reads(a, ParseAddress(Join(Hexes(GroupsOf(a)), ':')))
  {
    hide Hex, DigitChar;
    var hs := Hexes(GroupsOf(a));
    PrintedGroupTexts(GroupsOf(a));
    FieldsOfJoin(hs, ':');
    NoEmpty(hs, []);
    assert hs + [] == hs && hs[0..] == hs;
    ParseByTokens(Join(hs, ':'), |hs[0]|, hs, hs, 1);
    ParseToEnd(a, Blank(), hs, 1);
  }

  // ---- the mapped form -------------------------------------------------------

  lemma DotFree(n: nat)
    requires n < 256
    ensures '.' !in Decimal(n) && ':' !in Decimal(n) && Decimal(n) != "*"
  {
    PrintedIsPlain(n);
    forall k | 0 <= k < |Decimal(n)| ensures Decimal(n)[k] != '.' && Decimal(n)[k] != ':' && Decimal(n)[k] != '*' {
      PlainHas(Decimal(n), k);
    }
  }

  lemma QuadTokens(a: nat, b: nat, c: nat, d: nat)
    requires a < 256 && b < 256 && c < 256 && d < 256
    ensures Tokens(DottedQuad(a, b, c, d), '.', true) == [Decimal(a), Decimal(b), Decimal(c), Decimal(d)]
  {
    var parts := [Decimal(a), Decimal(b), Decimal(c), Decimal(d)];
    DotFree(a);
    DotFree(b);
    DotFree(c);
    DotFree(d);
    assert parts[1..][1..] == parts[2..] && parts[2..][1..] == parts[3..];
    assert Join(parts[3..], '.') == Decimal(d);
    assert Join(parts[2..], '.') == Decimal(c) + "." + Decimal(d);
    assert Join(parts[1..], '.') == Decimal(b) + "." + Join(parts[2..], '.');
    assert Join(parts, '.') == DottedQuad(a, b, c, d);
    FieldsOfJoin(parts, '.');
    assert NonEmpty(parts[3..]) == parts[3..];
    assert NonEmpty(parts[2..]) == parts[2..];
    assert NonEmpty(parts[1..]) == parts[1..];
  }

  lemma {:induction false} ParsePrintedQuad(a: Address, parts: seq<string>, k: nat, st: Parsed)
    requires |parts| == 4 && k <= 4 && Shaped(st) && st.mask == FullMask()
    requires forall i :: 0 <= i < 4 ==> parts[i] == Decimal(a[12 + i])
    requires forall i :: 0 <= i < 12 + k ==> st.octets[i] == a[i]
    ensures Reads(a, QuadFrom(parts, k, st))
    decreases 4 - k
  {
    hide Decimal, DigitChar;
    if k < 4 {
      DotFree(a[12 + k]);
      ParsePrintedDecimal(a[12 + k]);
      ParsePrintedQuad(a, parts, k + 1, QuadPart(parts[k], k, st).value);
    } else {
      assert st.octets == a;
    }
  }

  lemma MappedTokens(quad: string)
    requires ':' !in quad && |quad| > 4 && HasDot(quad)
    ensures Tokens("::ffff:" + quad, ':', false) == ["", "", "ffff", quad]
    ensures Omission(["", "", "ffff", quad]) == Ok((["", "ffff", quad], 5))
  {
    var parts := ["", "", "ffff", quad];
    assert parts[1..][1..] == parts[2..] && parts[2..][1..] == parts[3..];
    assert Join(parts[3..], ':') == quad;
    assert Join(parts[2..], ':') == "ffff:" + quad;
    assert Join(parts[1..], ':') == ":ffff:" + quad;
    assert Join(parts, ':') == "::ffff:" + quad;
    FieldsOfJoin(parts, ':');
    assert EmptyCount(parts[3..]) == 0 && EmptyCount(parts[2..]) == 0 && EmptyCount(parts[1..]) == 1;
  }

  /** The state in front of the dotted quad: five zero groups and ffff. */
  ghost function MappedFront(): (st: Parsed)
    ensures Shaped(st) && st.y == 12 && st.mask == FullMask() && MappedPrefix(st.octets)
    ensures forall i :: 0 <= i < 12 ==> st.octets[i] == if i < 10 then 0 else 255
  {
    WriteGroup(ZeroGroups(Blank(), 5), 255, 255)
  }

  lemma MappedWeights(quad: string)
    requires quad != ""
    ensures Weight(["", "ffff", quad], 5) == 7 && Weight(["ffff", quad], 5) == 2 && Weight([quad], 5) == 1
    ensures ["", "ffff", quad][1..] == ["ffff", quad] && ["ffff", quad][1..] == [quad]
  {
    assert ["", "ffff", quad][1..] == ["ffff", quad] && ["ffff", quad][1..] == [quad] && [quad][1..] == [];
    assert Weight([quad], 5) == 1;
    assert Weight(["ffff", quad], 5) == 2;
  }

  lemma ParseMappedFront(quad: string)
    requires quad != ""
    ensures Weight(["", "ffff", quad], 5) == 7 && Weight([quad], 5) == 1
    ensures ParseParts(["", "ffff", quad], 5, Blank()) == ParseParts([quad], 5, MappedFront())
  {
    var z := ZeroGroups(Blank(), 5);
    assert z.y == 10 && MappedFront() == WriteGroup(z, 255, 255);
    assert PadGroup("ffff") == "ffff" && DigitChar(15) == 'f';
    hide *;
    MappedWeights(quad);
    ApplyEmpty(["", "ffff", quad], 5, Blank());
    ParseStep(["", "ffff", quad], 5, Blank(), z);
    ParsePadded("ffff", 15, 15, 15, 15, z);
    ApplyGroup(["ffff", quad], 5, z);
    ParseStep(["ffff", quad], 5, z, MappedFront());
  }

  lemma QuadShape(a: nat, b: nat, c: nat, d: nat)
    requires a < 256 && b < 256 && c < 256 && d < 256
    ensures |DottedQuad(a, b, c, d)| > 4 && HasDot(DottedQuad(a, b, c, d)) && ':' !in DottedQuad(a, b, c, d)
  {
    DotFree(a);
    DotFree(b);
    DotFree(c);
    DotFree(d);
    assert DottedQuad(a, b, c, d)[|Decimal(a)|] == '.';
  }

  lemma ApplyQuad(quad: string, st: Parsed)
    requires |quad| > 4 && HasDot(quad)
    requires Shaped(st) && st.y == 12 && MappedPrefix(st.octets)
    ensures Weight([quad], 5) == 1
    ensures ParseParts([quad], 5, st) == ParseQuad(quad, st)
  {
    assert [quad][1..] == [] && Weight([quad], 5) == 1;
    hide ParseQuad, MappedPrefix, HasDot;
    assert ApplyPart([quad], 5, st) == ParseQuad(quad, st);
  }

  /** The dotted quad at the end. */
  lemma ParsePrintedQuadText(a: Address, st: Parsed)
    requires Shaped(st) && st.mask == FullMask() && forall i :: 0 <= i < 12 ==> st.octets[i] == a[i]
    ensures Reads(a, ParseQuad(DottedQuad(a[12], a[13], a[14], a[15]), st))
  {
    hide Decimal, DottedQuad, DigitChar;
    var parts := [Decimal(a[12]), Decimal(a[13]), Decimal(a[14]), Decimal(a[15])];
    QuadTokens(a[12], a[13], a[14], a[15]);
    hide Tokens, FullMask, QuadFrom, Reads;
    ParsePrintedQuad(a, parts, 0, st);
  }

  lemma MappedOctets(a: Address)
    requires IsIpv4Mapped(GroupsOf(a))
    ensures forall i :: 0 <= i < 12 ==> MappedFront().octets[i] == a[i]
  {
    var g := GroupsOf(a);
    assert g[0] == 0 && g[1] == 0 && g[2] == 0 && g[3] == 0 && g[4] == 0 && g[5] == 0xffff;
    hide MappedFront, GroupsOf;
    forall i | 0 <= i < 12 ensures a[i] == if i < 10 then 0 else 255 {
      assert g[i / 2] == a[2 * (i / 2)] * 256 + a[2 * (i / 2) + 1];
    }
  }

  lemma ParseMapped(a: Address)
    requires IsIpv4Mapped(GroupsOf(a))
    ensures Reads(a, ParseAddress("::ffff:" + DottedQuad(a[12], a[13], a[14], a[15])))
  {
    var quad := DottedQuad(a[12], a[13], a[14], a[15]);
    MappedOctets(a);
    hide *;
    QuadShape(a[12], a[13], a[14], a[15]);
    MappedTokens(quad);
    ParseByTokens("::ffff:" + quad, 0, ["", "", "ffff", quad], ["", "ffff", quad], 5);
    ParseMappedFront(quad);
    ApplyQuad(quad, MappedFront());
    ParsePrintedQuadText(a, MappedFront());
  }

  // ---- main result -------------------------------------------------------------

  /** Every canonical text is read back as exactly the address it stands for, with nothing masked out. */
  lemma RoundTrip(a: Address, text: string)
    requires IsCanonical(a, text)
    ensures ParseAddress(text).Ok?
    ensures ParseAddress(text).value.octets == a && ParseAddress(text).value.mask == FullMask()
  {
    hide Hex, DigitChar, ParseAddress, GroupsOf, FullMask;
    var g := GroupsOf(a);
    if IsIpv4Mapped(g) {
      ParseMapped(a);
    } else {
      var run :| IsCollapse(g, run) && text == Collapsed(g, run);
      if run.len == 0 {
        ParseFull(a);
      } else {
        var s, e := run.start, run.start + run.len;
        ParseCollapsed(a, s, e, Hexes(g)[..s], Hexes(g)[e..]);
      }
    }
  }

  /** So no two addresses share a canonical text, and each has only one. */
  lemma CanonicalIsInjective(a: Address, b: Address, s: string, t: string)
    requires IsCanonical(a, s) && IsCanonical(b, t)
    ensures a == b <==> s == t
  {
    if s == t {
      RoundTrip(a, s);
      RoundTrip(b, t);
    } else if a == b && !IsIpv4Mapped(GroupsOf(a)) {
      var r :| IsCollapse(GroupsOf(a), r) && s == Collapsed(GroupsOf(a), r);
      var q :| IsCollapse(GroupsOf(a), q) && t == Collapsed(GroupsOf(a), q);
      CollapseIsUnique(GroupsOf(a), r, q);
    }
  }
}
