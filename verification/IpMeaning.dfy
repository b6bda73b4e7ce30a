/**
 What an accepted address text means: which octets it fixes, to which numbers, and which it leaves
 open; and so which addresses an entry made from it covers.
 */
module IpMeaning {
  import opened Wrappers
  import opened Text
  import opened IpParser
  import IpOrder

  // ---- numbers ---------------------------------------------------------------------------

  predicate AllDigits(s: string, base: nat) { forall i :: 0 <= i < |s| ==> DigitValue(s[i]) < base }

  /** A digit text read from its last digit. */
  function NumberOf(s: string, base: nat): (n: nat)
  {
    if s == "" then 0 else NumberOf(s[..|s| - 1], base) * base + DigitValue(s[|s| - 1])
  }

  /** The digits, both cases. */
  lemma DigitsMean(d: nat)
    requires d < 16
    ensures DigitValue("0123456789abcdef"[d]) == d && DigitValue("0123456789ABCDEF"[d]) == d
  {
  }

  function NumberAfter(acc: nat, s: string, base: nat): (n: nat)
  {
    if s == "" then acc else NumberAfter(acc, s[..|s| - 1], base) * base + DigitValue(s[|s| - 1])
  }

  lemma {:induction false} NumberAfterFirst(acc: nat, c: char, s: string, base: nat)
    ensures NumberAfter(acc, [c] + s, base) == NumberAfter(acc * base + DigitValue(c), s, base)
  {
    var t := [c] + s;
    if s == "" {
      assert t[..0] == "" && t == [c];
      assert NumberAfter(acc, "", base) == acc;
    } else {
      assert t[..|t| - 1] == [c] + s[..|s| - 1];
      NumberAfterFirst(acc, c, s[..|s| - 1], base);
    }
  }

  lemma {:induction false} NumberAfterNothing(s: string, base: nat)
    ensures NumberAfter(0, s, base) == NumberOf(s, base)
  {
    if s != "" { NumberAfterNothing(s[..|s| - 1], base); }
  }

  /** The run of digits at the front is the longest one, and its value is the number it writes. */
  lemma {:induction false} DigitsRead(s: string, base: nat, acc: nat)
    ensures var (v, n) := Digits(s, base, acc);
            && AllDigits(s[..n], base) && (n < |s| ==> DigitValue(s[n]) >= base)
            && v == NumberAfter(acc, s[..n], base)
    decreases |s|
  {
    hide DigitValue;
    var (v, n) := Digits(s, base, acc);
    if s != "" && DigitValue(s[0]) < base {
      DigitsRead(s[1..], base, acc * base + DigitValue(s[0]));
      assert s[..n] == [s[0]] + s[1..][..n - 1];
      NumberAfterFirst(acc, s[0], s[1..][..n - 1], base);
    } else {
      assert s[..n] == "";
    }
  }

  lemma {:induction false} SpacesSkipped(s: string)
    ensures var n := SkipSpaces(s); (forall i :: 0 <= i < n ==> IsSpace(s[i])) && (n < |s| ==> !IsSpace(s[n]))
  {
    if s != "" && IsSpace(s[0]) { SpacesSkipped(s[1..]); }
  }

  /** Where a number stands in a text: blanks up to `i`, perhaps a sign, digits from `j` to `k` and no further. */
  ghost predicate Stands(s: string, base: nat, i: nat, j: nat, k: nat)
  {
    && i <= j <= k <= |s|
    && (forall m :: 0 <= m < i ==> IsSpace(s[m])) && (i < |s| ==> !IsSpace(s[i]))
    && j == (if i < |s| && (s[i] == '-' || s[i] == '+') then i + 1 else i)
    && AllDigits(s[j..k], base) && (k < |s| ==> DigitValue(s[k]) >= base)
  }

  /** The number a text spells, 0 without a digit. */
  ghost predicate Spells(s: string, base: nat, v: int)
  {
    exists i: nat, j: nat, k: nat :: Stands(s, base, i, j, k)
      && v == if i < j && s[i] == '-' then 0 - NumberOf(s[j..k], base) else NumberOf(s[j..k], base)
  }

  /** Where strtol looks: no 0x prefix fits into two characters. */
  lemma StrtolParts(s: string, base: nat, i: nat, j: nat)
    requires (base == 10 || |s| <= 2) && i == SkipSpaces(s)
    requires j == if i < |s| && (s[i] == '-' || s[i] == '+') then i + 1 else i
    ensures var (v, n) := Digits(s[j..], base, 0);
            && Strtol(s, base).0 == (if n == 0 then 0 else if i < j && s[i] == '-' then 0 - v else v)
            && Strtol(s, base).1 == if n == 0 then 0 else j + n
  {
    hide Digits, SkipSpaces, DigitValue;
  }

  /** strtol reads it. */
  lemma StrtolReads(s: string, base: nat)
    requires base == 10 || |s| <= 2
    ensures Spells(s, base, Strtol(s, base).0)
  {
    hide NumberOf, NumberAfter, Digits, SkipSpaces, IsSpace, DigitValue, Strtol, AllDigits;
    SpacesSkipped(s);
    var i := SkipSpaces(s);
    var j := if i < |s| && (s[i] == '-' || s[i] == '+') then i + 1 else i;
    StrtolParts(s, base, i, j);
    var (v, n) := Digits(s[j..], base, 0);
    DigitsRead(s[j..], base, 0);
    assert s[j..][..n] == s[j..j + n];
    NumberAfterNothing(s[j..j + n], base);
    assert Stands(s, base, i, j, j + n);
    NoNumber(base);
  }

  lemma NoNumber(base: nat)
    ensures NumberOf("", base) == 0
  {
  }

  lemma StandsOnce(s: string, base: nat, i: nat, j: nat, k: nat, a: nat, b: nat, c: nat)
    requires Stands(s, base, i, j, k) && Stands(s, base, a, b, c)
    ensures i == a && j == b && k == c
  {
    hide IsSpace, DigitValue;
    assert i == a;
    assert forall m :: j <= m < k ==> s[j..k][m - j] == s[m];
    assert forall m :: b <= m < c ==> s[b..c][m - b] == s[m];
  }

  /** A text spells one number only. */
  lemma SpellsOnce(s: string, base: nat, v: int, w: int)
    requires Spells(s, base, v) && Spells(s, base, w)
    ensures v == w
  {
    hide NumberOf, AllDigits, IsSpace, DigitValue;
    var i: nat, j: nat, k: nat :| Stands(s, base, i, j, k)
      && v == if i < j && s[i] == '-' then 0 - NumberOf(s[j..k], base) else NumberOf(s[j..k], base);
    var a: nat, b: nat, c: nat :| Stands(s, base, a, b, c)
      && w == if a < b && s[a] == '-' then 0 - NumberOf(s[b..c], base) else NumberOf(s[b..c], base);
    StandsOnce(s, base, i, j, k, a, b, c);
  }

  /** A text of digits alone spells the number they write. */
  lemma DigitsSpell(s: string, base: nat, v: int)
    requires 1 <= base <= 16 && s != "" && AllDigits(s, base) && Spells(s, base, v)
    ensures v == NumberOf(s, base)
  {
    var i: nat, j: nat, k: nat :| Stands(s, base, i, j, k)
      && v == if i < j && s[i] == '-' then 0 - NumberOf(s[j..k], base) else NumberOf(s[j..k], base);
    NoSpaceOrSign(s[0], base);
    assert i == 0 && j == 0 && k == |s|;
    assert s[0..|s|] == s;
  }

  lemma NoSpaceOrSign(c: char, base: nat)
    requires base <= 16 && DigitValue(c) < base
    ensures !IsSpace(c) && c != '-' && c != '+'
  {
  }

  // ---- the dotted form -------------------------------------------------------------------

  /** A dotted part at octet `p`: "*" leaves it open, anything else fixes it to the number it spells. */
  ghost predicate PartMeans(part: string, p: nat, before: Parsed, after: Parsed)
    requires Shaped(before) && Shaped(after) && p < 16
  {
    if part == "*" then !after.mask[p] && after.octets[p] == before.octets[p]
    else after.mask[p] == before.mask[p] && Spells(CString(part), 10, after.octets[p])
  }

  /** A part is accepted exactly when it is "*" or spells a number that fits an octet. */
  ghost predicate Fits(part: string) { part == "*" || exists v: nat :: v <= 255 && Spells(CString(part), 10, v) }

  lemma QuadPartMeans(part: string, k: nat, st: Parsed)
    requires Shaped(st) && k < 4
    ensures QuadPart(part, k, st).Ok? <==> Fits(part)
    ensures QuadPart(part, k, st).Ok? ==>
              var r := QuadPart(part, k, st).value;
              PartMeans(part, 12 + k, st, r) && forall i :: 0 <= i < 16 && i != 12 + k ==> SameAt(st, r, i)
  {
    hide Strtol, Spells, CString;
    var v := Strtol(CString(part), 10).0;
    StrtolReads(CString(part), 10);
    forall w: nat | Spells(CString(part), 10, w) ensures w == v { SpellsOnce(CString(part), 10, v, w); }
  }

  lemma {:induction false} QuadMeans(parts: seq<string>, k: nat, st: Parsed)
    requires Shaped(st) && |parts| == 4 && k <= 4
    ensures QuadFrom(parts, k, st).Ok? <==> forall i :: k <= i < 4 ==> Fits(parts[i])
    ensures QuadFrom(parts, k, st).Ok? ==>
              var r := QuadFrom(parts, k, st).value;
              && (forall i :: k <= i < 4 ==> PartMeans(parts[i], 12 + i, st, r))
              && (forall i :: 0 <= i < 12 + k ==> SameAt(st, r, i))
    decreases 4 - k
  {
    hide QuadPart, Fits, Spells, CString;
    if k < 4 {
      QuadPartMeans(parts[k], k, st);
      if QuadPart(parts[k], k, st).Ok? {
        var next := QuadPart(parts[k], k, st).value;
        QuadMeans(parts, k + 1, next);
        if QuadFrom(parts, k, st).Ok? { QuadMore(parts, k, st, next, QuadFrom(parts, k, st).value); }
      }
    }
  }

  lemma QuadMore(parts: seq<string>, k: nat, st: Parsed, next: Parsed, r: Parsed)
    requires Shaped(st) && Shaped(next) && Shaped(r) && |parts| == 4 && k < 4
    requires PartMeans(parts[k], 12 + k, st, next) && forall i :: 0 <= i < 16 && i != 12 + k ==> SameAt(st, next, i)
    requires forall i :: k + 1 <= i < 4 ==> PartMeans(parts[i], 12 + i, next, r)
    requires forall i :: 0 <= i < 12 + k + 1 ==> SameAt(next, r, i)
    ensures forall i :: k <= i < 4 ==> PartMeans(parts[i], 12 + i, st, r)
    ensures forall i :: 0 <= i < 12 + k ==> SameAt(st, r, i)
  {
    hide Spells, CString;
    assert SameAt(next, r, 12 + k);
    forall i | k <= i < 4 ensures PartMeans(parts[i], 12 + i, st, r) {
      if i > k { assert PartMeans(parts[i], 12 + i, next, r) && SameAt(st, next, 12 + i); }
    }
    forall i | 0 <= i < 12 + k ensures SameAt(st, r, i) {
      assert SameAt(st, next, i) && SameAt(next, r, i);
    }
  }

  /**
   Every dotted text: accepted exactly when it has four parts, each "*" or a number up to 255. Octets 0 to 11 are zero
   and fixed; octet 12 + k is open exactly when part k is "*", and otherwise the number that part spells.
   */
  lemma DottedMeans(text: string)
    requires FindFrom(text, ':', 0) == |text|
    ensures var p := Tokens(text, '.', true);
            && (ParseAddress(text).Ok? <==> |p| == 4 && forall k :: 0 <= k < 4 ==> Fits(p[k]))
            && (ParseAddress(text).Ok? ==>
                  var st := ParseAddress(text).value;
                  && (forall i :: 0 <= i < 12 ==> st.mask[i] && st.octets[i] == 0)
                  && (forall k :: 0 <= k < 4 ==> (st.mask[12 + k] <==> p[k] != "*"))
                  && (forall k :: 0 <= k < 4 && p[k] == "*" ==> st.octets[12 + k] == 0)
                  && (forall k :: 0 <= k < 4 && p[k] != "*" ==> Spells(CString(p[k]), 10, st.octets[12 + k])))
  {
    hide Tokens, FindFrom, Spells, Fits, CString, QuadFrom;
    var p := Tokens(text, '.', true);
    if |p| == 4 {
      QuadMeans(p, 0, Blank());
      if ParseAddress(text).Ok? {
        var st := ParseAddress(text).value;
        forall k | 0 <= k < 4
          ensures (st.mask[12 + k] <==> p[k] != "*") && (p[k] == "*" ==> st.octets[12 + k] == 0)
          ensures p[k] != "*" ==> Spells(CString(p[k]), 10, st.octets[12 + k])
        {
          assert PartMeans(p[k], 12 + k, Blank(), st);
        }
        forall i | 0 <= i < 12 ensures st.mask[i] && st.octets[i] == 0 { assert SameAt(Blank(), st, i); }
      }
    }
  }

  /** The entry a parsed text makes. */
  function EntryOf(st: Parsed): (ip: IpOrder.Ip) { IpOrder.Ip(st.octets, st.mask) }

  /** An address of a peer: every octet counts. */
  ghost predicate Peer(ip: IpOrder.Ip) { IpOrder.IsIp(ip) && forall i :: 0 <= i < 16 ==> ip.mask[i] }

  /** It covers exactly the addresses that agree with its numeric parts and are zero before them. */
  lemma DottedCovers(text: string, ip: IpOrder.Ip)
    requires FindFrom(text, ':', 0) == |text| && ParseAddress(text).Ok? && Peer(ip)
    ensures var p, st := Tokens(text, '.', true), ParseAddress(text).value;
            && |p| == 4 && IpOrder.IsIp(EntryOf(st))
            && (IpOrder.Overlap(EntryOf(st), ip) <==>
                  && (forall i :: 0 <= i < 12 ==> ip.octets[i] == 0)
                  && (forall k :: 0 <= k < 4 && p[k] != "*" ==> ip.octets[12 + k] == st.octets[12 + k]))
  {
    hide Tokens, FindFrom, Spells, Fits, CString, ParseAddress;
    DottedMeans(text);
    var p, st := Tokens(text, '.', true), ParseAddress(text).value;
    if IpOrder.Overlap(EntryOf(st), ip) {
      forall i | 0 <= i < 12 ensures ip.octets[i] == 0 { assert st.mask[i] && ip.mask[i]; }
      forall k | 0 <= k < 4 && p[k] != "*" ensures ip.octets[12 + k] == st.octets[12 + k] {
        assert st.mask[12 + k] && ip.mask[12 + k];
      }
    } else {
      var i :| 0 <= i < 16 && st.mask[i] && ip.mask[i] && st.octets[i] != ip.octets[i];
      if i >= 12 {
        var k := i - 12;
        assert st.mask[12 + k] && p[k] != "*" && ip.octets[12 + k] != st.octets[12 + k];
      }
    }
  }

  // ---- the colon form --------------------------------------------------------------------

  /** What a token at position `y` means for the result. */
  ghost predicate TokenMeans(part: string, y: nat, omitted: nat, st: Parsed)
    requires Shaped(st)
  {
    if part == "*" then y + 2 <= 16 && forall i :: y <= i < y + 2 ==> !st.mask[i] && st.octets[i] == 0
    else if part == "" then
      y + 2 * omitted <= 16 && forall i :: y <= i < y + 2 * omitted ==> st.mask[i] && st.octets[i] == 0
    else if |part| <= 4 then y + 2 <= 16 && st.mask[y] && st.mask[y + 1]
        && GroupMeans(part, st.octets[y], st.octets[y + 1])
    else
      var p := Tokens(part, '.', true);
      && y == 12 && |p| == 4
      && forall k :: 0 <= k < 4 ==>
           && (st.mask[12 + k] <==> p[k] != "*")
           && (p[k] == "*" ==> st.octets[12 + k] == 0)
           && (p[k] != "*" ==> Spells(CString(p[k]), 10, st.octets[12 + k]))
  }

  /** The two halves of a padded group, each a number in base 16 of which the low eight bits are kept. */
  ghost predicate GroupMeans(part: string, hi: nat, lo: nat)
    requires |part| <= 4
  {
    HalfMeans(PadGroup(part)[..2], hi) && HalfMeans(PadGroup(part)[2..], lo)
  }

  ghost predicate HalfMeans(half: string,
                            octet: nat) { exists v: int :: Spells(CString(half), 16, v) && octet == v % 256 }

  lemma HexOctetMeans(half: string)
    requires |half| <= 2 && HexOctet(half).Ok?
    ensures HalfMeans(half, HexOctet(half).value)
  {
    StrtolReads(CString(half), 16);
    hide Strtol, Spells, CString;
  }

  /** Nothing is written from the write position on. */
  ghost predicate Untouched(st: Parsed)
    requires Shaped(st)
  {
    forall i :: st.y <= i < 16 ==> st.mask[i] && st.octets[i] == 0
  }

  lemma StarMeans(omitted: nat, st: Parsed)
    requires Shaped(st) && st.y + 2 <= 16 && Untouched(st)
    ensures var r := MaskGroup(st);
            && TokenMeans("*", st.y, omitted, r) && (forall i :: 0 <= i < st.y ==> SameAt(st, r, i))
            && Untouched(r) && r.y == st.y + 2
  {
  }

  lemma EmptyMeans(omitted: nat, st: Parsed)
    requires Shaped(st) && st.y + 2 * omitted <= 16 && Untouched(st)
    ensures var r := ZeroGroups(st, omitted);
            && TokenMeans("", st.y, omitted, r) && (forall i :: 0 <= i < st.y ==> SameAt(st, r, i))
            && Untouched(r) && r.y == st.y + 2 * omitted
  {
  }

  lemma GroupTokenMeans(part: string, omitted: nat, st: Parsed)
    requires Shaped(st) && st.y + 2 <= 16 && Untouched(st) && part != "*" && 0 < |part| <= 4 && ParseGroup(part, st).Ok?
    ensures var r := ParseGroup(part, st).value;
            && TokenMeans(part, st.y, omitted, r) && (forall i :: 0 <= i < st.y ==> SameAt(st, r, i))
            && Untouched(r) && r.y == st.y + 2
  {
    hide HexOctet, PadGroup, HalfMeans;
    var s := PadGroup(part);
    HexOctetMeans(s[..2]);
    HexOctetMeans(s[2..]);
  }

  lemma QuadTokenMeans(part: string, omitted: nat, st: Parsed)
    requires Shaped(st) && st.y == 12 && Untouched(st) && |part| > 4 && ParseQuad(part, st).Ok?
    ensures var r := ParseQuad(part, st).value;
            TokenMeans(part, 12, omitted, r) && forall i :: 0 <= i < 12 ==> SameAt(st, r, i)
  {
    hide Spells, CString, Tokens, QuadFrom, Fits;
    var p, r := Tokens(part, '.', true), ParseQuad(part, st).value;
    QuadMeans(p, 0, st);
    forall k | 0 <= k < 4
      ensures (r.mask[12 + k] <==> p[k] != "*") && (p[k] == "*" ==> r.octets[12 + k] == 0)
      ensures p[k] != "*" ==> Spells(CString(p[k]), 10, r.octets[12 + k])
    {
      assert PartMeans(p[k], 12 + k, st, r);
    }
  }

  lemma ApplyMeans(parts: seq<string>, omitted: nat, st: Parsed)
    requires parts != [] && Shaped(st) && st.y + 2 * Weight(parts, omitted) <= 16 && Untouched(st)
    requires ApplyPart(parts, omitted, st).Ok?
    ensures var r := ApplyPart(parts, omitted, st).value;
            && TokenMeans(parts[0], st.y, omitted, r) && (forall i :: 0 <= i < st.y ==> i < 16 && SameAt(st, r, i))
            && (|parts[0]| <= 4 ==> Untouched(r) && r.y == st.y + Extent(parts[0], omitted))
            && (|parts[0]| > 4 ==> st.y == 12 && parts[1..] == [])
  {
    hide MaskGroup, ZeroGroups, ParseGroup, ParseQuad, TokenMeans, Untouched, HasDot, MappedPrefix, SameAt;
    var part := parts[0];
    if part == "*" {
      StarMeans(omitted, st);
    } else if part == "" {
      EmptyMeans(omitted, st);
    } else if |part| <= 4 {
      GroupTokenMeans(part, omitted, st);
    } else {
      QuadTokenMeans(part, omitted, st);
    }
  }

  /** Later tokens leave the positions before them alone. */
  lemma {:induction false} PartsKeepFront(parts: seq<string>, omitted: nat, st: Parsed, i: nat)
    requires Shaped(st) && st.y + 2 * Weight(parts, omitted) <= 16 && Untouched(st)
    requires ParseParts(parts, omitted, st).Ok? && i < st.y
    ensures i < 16 && SameAt(st, ParseParts(parts, omitted, st).value, i)
    decreases |parts|
  {
    hide ApplyPart, TokenMeans, Untouched;
    if parts != [] {
      var next := ApplyPart(parts, omitted, st).value;
      ApplyMeans(parts, omitted, st);
      if |parts[0]| <= 4 {
        PartsKeepFront(parts[1..], omitted, next, i);
        assert SameAt(st, next, i) && SameAt(next, ParseParts(parts, omitted, st).value, i);
      } else {
        assert ParseParts(parts[1..], omitted, next) == Ok(next);
      }
    }
  }

  /** Where the `k`-th token writes. */
  function PositionOf(parts: seq<string>, k: nat, omitted: nat, y: nat): (p: nat)
    requires k <= |parts|
  {
    if k == 0 then y else PositionOf(parts[1..], k - 1, omitted, y + Extent(parts[0], omitted))
  }

  lemma {:induction false} PartsMean(parts: seq<string>, omitted: nat, st: Parsed, k: nat)
    requires Shaped(st) && st.y + 2 * Weight(parts, omitted) <= 16 && Untouched(st)
    requires ParseParts(parts, omitted, st).Ok? && k < |parts|
    ensures TokenMeans(parts[k], PositionOf(parts, k, omitted, st.y), omitted, ParseParts(parts, omitted, st).value)
    decreases |parts|
  {
    hide ApplyPart, TokenMeans, Untouched, SameAt;
    var next, r := ApplyPart(parts, omitted, st).value, ParseParts(parts, omitted, st).value;
    ApplyMeans(parts, omitted, st);
    if |parts[0]| > 4 {
      assert r == next && k == 0;
    } else if k > 0 {
      PartsMean(parts[1..], omitted, next, k - 1);
    } else {
      forall i | 0 <= i < next.y ensures i < 16 && SameAt(next, r, i) { PartsKeepFront(parts[1..], omitted, next, i); }
      MeansStays(parts[0], st.y, omitted, next, r);
    }
  }

  lemma MeansStays(part: string, y: nat, omitted: nat, st: Parsed, r: Parsed)
    requires Shaped(st) && Shaped(r) && |part| <= 4 && st.y == y + Extent(part, omitted)
    requires TokenMeans(part, y, omitted, st) && forall i :: 0 <= i < st.y ==> i < 16 && SameAt(st, r, i)
    ensures TokenMeans(part, y, omitted, r)
  {
    hide GroupMeans, Tokens, Spells, CString;
    assert forall i :: y <= i < st.y ==> SameAt(st, r, i);
    if part == "*" || part == "" {
      forall i | y <= i < st.y ensures r.mask[i] == st.mask[i] && r.octets[i] == st.octets[i] {
        assert SameAt(st, r, i);
      }
    } else {
      assert SameAt(st, r, y) && SameAt(st, r, y + 1);
    }
  }

  /**
   Every accepted text with a colon: each token stands at its own place and means there what it says. "*" leaves both
   octets of its group open, the empty token fixes the omitted groups to zero, a group fixes two octets, and a dotted
   last token the last four octets, part by part.
   */
  lemma ColonMeans(text: string, k: nat)
    requires FindFrom(text, ':', 0) < |text| && ParseAddress(text).Ok?
    ensures var parts := Tokens(text, ':', false);
            && 1 <= |parts| <= 8 && Omission(parts).Ok?
            && var (rest, omitted) := Omission(parts).value;
               k < |rest| ==> TokenMeans(rest[k], PositionOf(rest, k, omitted, 0), omitted, ParseAddress(text).value)
  {
    hide Tokens, FindFrom, TokenMeans, ParseParts, Omission;
    SomeToken(text);
    var parts := Tokens(text, ':', false);
    OmissionWeight(parts);
    var (rest, omitted) := Omission(parts).value;
    assert Untouched(Blank());
    if k < |rest| { PartsMean(rest, omitted, Blank(), k); }
  }

  /** Whatever stands in an open group, an entry covers the address or it does not. */
  lemma StarGroupCovers(text: string, k: nat, ip: IpOrder.Ip, hi: nat, lo: nat)
    requires FindFrom(text, ':', 0) < |text| && ParseAddress(text).Ok? && Peer(ip) && hi < 256 && lo < 256
    requires var parts := Tokens(text, ':', false);
             && 1 <= |parts| <= 8 && Omission(parts).Ok?
             && k < |Omission(parts).value.0| && Omission(parts).value.0[k] == "*"
    ensures var (rest, omitted) := Omission(Tokens(text, ':', false)).value;
            var y := PositionOf(rest, k, omitted, 0);
            && y + 2 <= 16
            && var other := IpOrder.Ip(ip.octets[y := hi][y + 1 := lo], ip.mask);
               && IpOrder.IsIp(EntryOf(ParseAddress(text).value)) && Peer(other)
               && (IpOrder.Overlap(EntryOf(ParseAddress(text).value), ip)
                   <==> IpOrder.Overlap(EntryOf(ParseAddress(text).value), other))
  {
    hide Tokens, FindFrom, ParseAddress, Omission, PositionOf;
    ColonMeans(text, k);
  }

  /** A group of hexadecimal digits fixes its two octets to the number it writes. */
  lemma HexGroupMeans(part: string, hi: nat, lo: nat)
    requires 0 < |part| <= 4 && AllDigits(part, 16) && GroupMeans(part, hi, lo) && '\0' !in part
    ensures hi < 256 && lo < 256 && hi * 256 + lo == NumberOf(part, 16)
  {
    var s := PadGroup(part);
    PaddedNumber(part, 4 - |part|);
    assert AllDigits(s, 16) && '\0' !in s;
    HexHalf(s[..2], hi);
    HexHalf(s[2..], lo);
    FourDigits(s);
  }

  lemma HexHalf(half: string, octet: nat)
    requires |half| == 2 && AllDigits(half, 16) && '\0' !in half && HalfMeans(half, octet)
    ensures octet == DigitValue(half[0]) * 16 + DigitValue(half[1]) && octet < 256
  {
    hide DigitValue, NumberOf, Spells, FindFrom;
    FirstOccurrence(half, '\0', 2);
    assert CString(half) == half;
    var v: int :| Spells(half, 16, v) && octet == v % 256;
    DigitsSpell(half, 16, v);
    TwoDigits(half);
  }

  lemma TwoDigits(s: string)
    requires |s| == 2
    ensures NumberOf(s, 16) == DigitValue(s[0]) * 16 + DigitValue(s[1])
  {
    assert s[..1] == [s[0]] && s[..1][..0] == "";
    assert NumberOf(s[..1], 16) == DigitValue(s[0]);
  }

  lemma FourDigits(s: string)
    requires |s| == 4
    ensures NumberOf(s, 16)
              == (DigitValue(s[0]) * 16 + DigitValue(s[1])) * 256 + DigitValue(s[2]) * 16 + DigitValue(s[3])
  {
    hide DigitValue;
    assert s[..3][..2] == s[..2];
    TwoDigits(s[..2]);
    assert NumberOf(s[..3], 16) == NumberOf(s[..2], 16) * 16 + DigitValue(s[2]);
  }

  lemma {:induction false} PaddedNumber(part: string, n: nat)
    ensures NumberOf(seq(n, _ => '0') + part, 16) == NumberOf(part, 16)
  {
    if part == "" {
      ZeroNumber(n);
      assert seq(n, _ => '0') + part == seq(n, _ => '0');
    } else {
      var s := seq(n, _ => '0') + part;
      assert s[..|s| - 1] == seq(n, _ => '0') + part[..|part| - 1];
      PaddedNumber(part[..|part| - 1], n);
    }
  }

  lemma {:induction false} ZeroNumber(n: nat)
    ensures NumberOf(seq(n, _ => '0'), 16) == 0
  {
    if n > 0 {
      var s: string := seq(n, _ => '0');
      assert s[..n - 1] == seq(n - 1, _ => '0');
      ZeroNumber(n - 1);
    }
  }

  // ---- which texts with a colon are accepted ---------------------------------------------

  /** Every character of a half belongs to its number; a NUL ends it. */
  ghost predicate HalfFits(half: string)
  {
    var s := CString(half);
    s == "" || exists i: nat, j: nat :: Stands(s, 16, i, j, |s|) && j < |s|
  }

  lemma HexOctetFits(half: string)
    requires |half| <= 2
    ensures HexOctet(half).Ok? <==> HalfFits(half)
  {
    var s := CString(half);
    UsedUp(s);
    hide Strtol, Stands, CString;
  }

  lemma UsedUp(s: string)
    requires |s| <= 2
    ensures Strtol(s, 16).1 == |s| <==> s == "" || exists i: nat, j: nat :: Stands(s, 16, i, j, |s|) && j < |s|
  {
    hide NumberOf, NumberAfter, Digits, SkipSpaces, IsSpace, DigitValue, Strtol, AllDigits;
    SpacesSkipped(s);
    var i := SkipSpaces(s);
    var j := if i < |s| && (s[i] == '-' || s[i] == '+') then i + 1 else i;
    StrtolParts(s, 16, i, j);
    var (v, n) := Digits(s[j..], 16, 0);
    DigitsRead(s[j..], 16, 0);
    assert s[j..][..n] == s[j..j + n];
    assert Stands(s, 16, i, j, j + n);
    forall a: nat, b: nat | Stands(s, 16, a, b, |s|) ensures a == i && b == j && |s| == j + n {
      StandsOnce(s, 16, a, b, |s|, i, j, j + n);
    }
  }

  /** A token of at most four characters: open, empty, or two halves that fit. */
  ghost predicate TokenFits(part: string)
  {
    part == "*" || part == "" || (|part| <= 4 && HalfFits(PadGroup(part)[..2]) && HalfFits(PadGroup(part)[2..]))
  }

  /** Without a dotted token a list is accepted exactly when each token fits. */
  lemma {:induction false} ShortTokensAccepted(parts: seq<string>, omitted: nat, st: Parsed)
    requires Shaped(st) && st.y + 2 * Weight(parts, omitted) <= 16 && forall i :: 0 <= i < |parts| ==> |parts[i]| <= 4
    ensures ParseParts(parts, omitted, st).Ok? <==> forall i :: 0 <= i < |parts| ==> TokenFits(parts[i])
    decreases |parts|
  {
    hide HalfFits, PadGroup, HexOctet, MaskGroup, ZeroGroups;
    if parts != [] {
      var part, rest := parts[0], parts[1..];
      if part != "*" && part != "" {
        HexOctetFits(PadGroup(part)[..2]);
        HexOctetFits(PadGroup(part)[2..]);
      }
      assert ApplyPart(parts, omitted, st).Ok? <==> TokenFits(part);
      assert forall i :: 0 <= i < |rest| ==> rest[i] == parts[i + 1];
      if ApplyPart(parts, omitted, st).Ok? {
        ShortTokensAccepted(rest, omitted, ApplyPart(parts, omitted, st).value);
      }
      assert (forall i :: 0 <= i < |parts| ==> TokenFits(parts[i])) <==>
             TokenFits(part) && forall i :: 0 <= i < |rest| ==> TokenFits(rest[i]);
    }
  }

  lemma {:induction false} WeightConcat(front: seq<string>, last: string, omitted: nat)
    requires last != ""
    ensures Weight(front + [last], omitted) == Weight(front, omitted) + 1
  {
    if front == [] {
      assert front + [last] == [last] && [last][1..] == [];
    } else {
      assert (front + [last])[1..] == front[1..] + [last];
      WeightConcat(front[1..], last, omitted);
    }
  }

  /**
   A dotted last token is accepted exactly behind twelve octets of which the first ten are zero and the next two 0 or
   255, and when it has four parts that fit.
   */
  lemma {:induction false} DottedLastAccepted(front: seq<string>, last: string, omitted: nat, st: Parsed)
    requires Shaped(st) && |last| > 4 && forall i :: 0 <= i < |front| ==> |front[i]| <= 4
    requires st.y + 2 * Weight(front + [last], omitted) <= 16
    ensures st.y + 2 * Weight(front, omitted) <= 16
    ensures ParseParts(front + [last], omitted, st).Ok? <==>
              var r, p := ParseParts(front, omitted, st), Tokens(last, '.', true);
              && r.Ok? && r.value.y == 12 && HasDot(last)
              && (forall i :: 0 <= i < 10 ==> r.value.octets[i] == 0)
              && (r.value.octets[10] == 0 || r.value.octets[10] == 255)
              && (r.value.octets[11] == 0 || r.value.octets[11] == 255)
              && |p| == 4 && forall k :: 0 <= k < 4 ==> Fits(p[k])
    decreases |front|
  {
    hide Tokens, Fits, QuadFrom, HasDot, ParseGroup, MaskGroup, ZeroGroups;
    WeightConcat(front, last, omitted);
    var all := front + [last];
    if front == [] {
      assert all == [last] && all[1..] == [];
      var p := Tokens(last, '.', true);
      if |p| == 4 { QuadMeans(p, 0, st); }
      MappedPrefixIs(st.octets);
    } else {
      assert all[1..] == front[1..] + [last] && all[0] == front[0];
      assert ApplyPart(all, omitted, st) == ApplyPart(front, omitted, st);
      if ApplyPart(all, omitted,
          st).Ok? { DottedLastAccepted(front[1..], last, omitted, ApplyPart(all, omitted, st).value); }
    }
  }

  lemma MappedPrefixIs(octets: seq<nat>)
    requires |octets| == 16
    ensures MappedPrefix(octets) <==>
              && (forall i :: 0 <= i < 10 ==> octets[i] == 0)
              && (octets[10] == 0 || octets[10] == 255) && (octets[11] == 0 || octets[11] == 255)
  {
    if octets[..10] == ZeroOctets(10) {
      forall i | 0 <= i < 10 ensures octets[i] == 0 { assert octets[..10][i] == ZeroOctets(10)[i]; }
    }
  }

  /** A text with a colon: at most eight tokens, at most one empty one or two in front, and a list that is accepted. */
  lemma ColonAccepted(text: string)
    requires FindFrom(text, ':', 0) < |text|
    ensures var parts := Tokens(text, ':', false);
            && parts != []
            && (|parts| <= 8 ==>
                  (Omission(parts).Ok? <==>
                     EmptyCount(parts) <= 1 || (EmptyCount(parts) == 2 && parts[0] == "" && parts[1] == "")))
            && (ParseAddress(text).Ok? <==>
                  && |parts| <= 8 && Omission(parts).Ok?
                  && Weight(Omission(parts).value.0, Omission(parts).value.1) <= 8
                  && ParseParts(Omission(parts).value.0, Omission(parts).value.1, Blank()).Ok?)
  {
    hide Tokens, FindFrom, ParseParts, EmptyCount, HasDot;
    SomeToken(text);
    var parts := Tokens(text, ':', false);
    if |parts| <= 8 && Omission(parts).Ok? { OmissionWeight(parts); }
  }
}
