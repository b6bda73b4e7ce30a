/**
 The canonical text of an IPv6 peer address (sections 4 and 5 of RFC 5952), as
 `peer_address::to_string` prints it through a 40-byte stack buffer.
 */
module Ipv6Text {
  import opened Text

  type Address = a: seq<nat> | |a| == 16 && forall i :: 0 <= i < 16 ==> a[i] < 256
    witness [0, 0, 0, 0, 0, 0, 0, 0, 0, 0, 0, 0, 0, 0, 0, 0]
  type Groups = g: seq<nat> | |g| == 8 && forall i :: 0 <= i < 8 ==> g[i] < 65536
    witness [0, 0, 0, 0, 0, 0, 0, 0]

  // ---- numerals ----------------------------------------------------------

  function DigitChar(d: nat): (c: char)
    requires d < 16
  {
    "0123456789abcdef"[d]
  }

  /** `%x` of a 16-bit group: most significant digit first, no leading zero. */
  function Hex(n: nat): (s: string)
    requires n < 65536
    ensures 1 <= |s| <= if n < 16 then 1 else if n < 256 then 2 else if n < 4096 then 3 else 4
  {
    if n < 16 then [DigitChar(n)] else Hex(n / 16) + [DigitChar(n % 16)]
  }

  /** `%u` of an octet. */
  function Decimal(n: nat): (s: string)
    requires n < 256
    ensures 1 <= |s| <= 3
  {
    if n < 10 then [DigitChar(n)]
    else if n < 100 then [DigitChar(n / 10), DigitChar(n % 10)]
    else [DigitChar(n / 100), DigitChar(n / 10 % 10), DigitChar(n % 10)]
  }

  function Hexes(g: seq<nat>): (s: seq<string>)
    requires forall i :: 0 <= i < |g| ==> g[i] < 65536
    ensures |s| == |g|
    ensures forall i :: 0 <= i < |g| ==> s[i] == Hex(g[i])
  {
    seq(|g|, i requires 0 <= i < |g| => Hex(g[i]))
  }

  // ---- groups and the collapsed run ---------------------------------------

  /** The eight 16-bit groups, high octet first. */
  function GroupsOf(a: Address): (g: Groups)
    ensures forall i :: 0 <= i < 8 ==> g[i] == a[2 * i] * 256 + a[2 * i + 1]
  {
    seq(8, i requires 0 <= i < 8 => a[2 * i] * 256 + a[2 * i + 1])
  }

  /** assemble_groups. */
  method AssembleGroups(bytes: Address) returns (g: Groups)
    ensures g == GroupsOf(bytes)
  {
    g := [0, 0, 0, 0, 0, 0, 0, 0];
    for i := 0 to 8
      invariant g[..i] == GroupsOf(bytes)[..i]
    {
      g := g[i := bytes[2 * i] * 256 + bytes[2 * i + 1]];
    }
  }

  /** The start and length of the run that "::" stands for; (-1, 0) for none. */
  datatype ZeroRun = ZeroRun(start: int, len: int)

  ghost predicate Zeros(g: Groups, start: int, len: int)
  {
    0 <= start && 0 <= len && start + len <= 8 && forall i :: start <= i < start + len ==> g[i] == 0
  }

  /** Section 4.2 of RFC 5952: the leftmost of the longest runs of two or more zero groups, if there is one. */
  ghost predicate IsCollapse(g: Groups, run: ZeroRun)
  {
    if run.len == 0 then
      run.start == -1 && forall s, l :: Zeros(g, s, l) ==> l < 2
    else
      && run.len >= 2
      && Zeros(g, run.start, run.len)
      && forall s, l :: Zeros(g, s, l) ==> l < run.len || (l == run.len && run.start <= s)
  }

  /** find_longest_zero_run. */
  method FindLongestZeroRun(g: Groups) returns (run: ZeroRun)
    ensures IsCollapse(g, run)
  {
    var best := ZeroRun(-1, 0);
    var runStart, runLen := 0, 0;
    for i := 0 to 8
      invariant 0 <= runLen <= i
      invariant runLen > 0 ==> runStart == i - runLen
      invariant Zeros(g, i - runLen, runLen)
      invariant i == runLen || g[i - runLen - 1] != 0
      invariant best.len == 0 ==> best.start == -1
      invariant best.len >= 0 && (best.len > 0 ==> Zeros(g, best.start, best.len) && best.start + best.len <= i)
      invariant forall s, l :: Zeros(g, s, l) && s + l <= i && l > 0 ==>
        l < best.len || (l == best.len && best.start <= s)
    {
      if g[i] != 0 {
        runLen := 0;
        continue;
      }
      if runLen == 0 { runStart := i; }
      runLen := runLen + 1;
      forall s, l | Zeros(g, s, l) && s + l == i + 1 && l > 0
        ensures l <= runLen
      {
      }
      if runLen > best.len {
        best := ZeroRun(runStart, runLen);
      }
    }
    if best.len < 2 { return ZeroRun(-1, 0); }
    return best;
  }

  /** There is only one such run. */
  lemma CollapseIsUnique(g: Groups, r: ZeroRun, q: ZeroRun)
    requires IsCollapse(g, r) && IsCollapse(g, q)
    ensures r == q
  {
  }

  // ---- the text ----------------------------------------------------------

  /** Groups in hexadecimal between colons, with "::" in place of the run. */
  function Collapsed(g: Groups, run: ZeroRun): (s: string)
    requires run.len == 0 || (0 <= run.start && 0 <= run.len && run.start + run.len <= 8)
  {
    var hs := Hexes(g);
    if run.len == 0 then Join(hs, ':')
    else Join(hs[..run.start], ':') + "::" + Join(hs[run.start + run.len..], ':')
  }

  /** ::ffff:0:0/96 */
  predicate IsIpv4Mapped(g: Groups)
  {
    g[0] == 0 && g[1] == 0 && g[2] == 0 && g[3] == 0 && g[4] == 0 && g[5] == 0xffff
  }

  function DottedQuad(a: nat, b: nat, c: nat, d: nat): (s: string)
    requires a < 256 && b < 256 && c < 256 && d < 256
    ensures |s| <= 15
  {
    Decimal(a) + "." + Decimal(b) + "." + Decimal(c) + "." + Decimal(d)
  }

  /** `text` is the RFC 5952 form of `a`. */
  ghost predicate IsCanonical(a: Address, text: string)
  {
    var g := GroupsOf(a);
    if IsIpv4Mapped(g) then text == "::ffff:" + DottedQuad(a[12], a[13], a[14], a[15])
    else exists run :: IsCollapse(g, run) && text == Collapsed(g, run)
  }

  /** snprintf of a text that fits, without its terminator. */
  method Put(buf: array<char>, pos: nat, s: string)
    requires pos + |s| <= buf.Length
    modifies buf
    ensures buf[..pos] == old(buf[..pos])
    ensures buf[pos..pos + |s|] == s
    ensures buf[..pos + |s|] == old(buf[..pos]) + s
  {
    for k := 0 to |s|
      invariant buf[..pos] == old(buf[..pos])
      invariant buf[pos..pos + k] == s[..k]
    {
      buf[pos + k] := s[k];
      assert buf[pos..pos + k + 1] == buf[pos..pos + k] + [s[k]];
    }
    assert s[..|s|] == s;
    assert buf[..pos + |s|] == buf[..pos] + buf[pos..pos + |s|];
  }

  /** Group texts `lo` up to `i` between colons, and a colon after the last if `more`. */
  ghost function Listed(hs: seq<string>, lo: nat, i: nat, more: bool): string
    requires lo <= i <= |hs|
  {
    Join(hs[lo..i], ':') + if lo < i && more then ":" else ""
  }

  lemma ListedOneMore(hs: seq<string>, lo: nat, i: nat, more: bool)
    requires lo <= i < |hs|
    ensures Listed(hs, lo, i + 1, more) == Listed(hs, lo, i, true) + hs[i] + if more then ":" else ""
  {
    assert hs[lo..i + 1] == hs[lo..i] + [hs[i]];
    if lo < i { JoinConcat(hs[lo..i], [hs[i]], ':'); }
  }

  /** A run the emitting loop can leave out, and a position it can stand at. */
  ghost predicate Stands(run: ZeroRun, i: int)
  {
    && 0 <= i <= 8
    && (run.len == 0 ==> run.start == -1)
    && (run.len != 0 ==> run.len >= 2 && 0 <= run.start && run.start + run.len <= 8)
    && (run.len == 0 || i <= run.start || run.start + run.len <= i)
  }

  /** What the buffer holds when the emitting loop stands at group `i`. */
  ghost function EmittedBefore(hs: seq<string>, run: ZeroRun, i: nat): string
    requires |hs| == 8 && Stands(run, i)
  {
    if run.len == 0 || i <= run.start then Listed(hs, 0, i, i < 8 && i != run.start)
    else Listed(hs, 0, run.start, false) + "::" + Listed(hs, run.start + run.len, i, i < 8)
  }

  /** One turn of the emitting loop that prints a group. */
  lemma EmitGroup(hs: seq<string>, run: ZeroRun, i: nat)
    requires |hs| == 8 && Stands(run, i) && i < 8 && i != run.start
    ensures EmittedBefore(hs, run, i + 1) ==
            EmittedBefore(hs, run, i) + hs[i] + if i + 1 < 8 && i + 1 != run.start then ":" else ""
  {
    if run.len == 0 || i < run.start {
      ListedOneMore(hs, 0, i, i + 1 < 8 && i + 1 != run.start);
    } else {
      ListedOneMore(hs, run.start + run.len, i, i + 1 < 8);
    }
  }

  /** The turn that prints "::". */
  lemma EmitCollapse(hs: seq<string>, run: ZeroRun)
    requires |hs| == 8 && Stands(run, run.start)
    ensures EmittedBefore(hs, run, run.start + run.len) == EmittedBefore(hs, run, run.start) + "::"
  {
    assert hs[run.start + run.len..run.start + run.len] == [];
  }

  lemma EmitStart(hs: seq<string>, run: ZeroRun)
    requires |hs| == 8 && Stands(run, 0)
    ensures EmittedBefore(hs, run, 0) == ""
  {
    assert hs[0..0] == [];
  }

  lemma EmitDone(g: Groups, run: ZeroRun)
    requires Stands(run, 8)
    ensures EmittedBefore(Hexes(g), run, 8) == Collapsed(g, run)
  {
    var hs := Hexes(g);
    assert hs[0..8] == hs;
    if run.len != 0 {
      assert hs[0..run.start] == hs[..run.start];
      assert hs[run.start + run.len..8] == hs[run.start + run.len..];
    }
  }

  /** emit_canonical: no group is ever cut off by the end of the 40-byte buffer. */
  method EmitCanonical(g: Groups, collapse: ZeroRun) returns (text: string)
    requires IsCollapse(g, collapse)
    ensures text == Collapsed(g, collapse)
    ensures |text| <= 39
  {
    hide Hex, EmittedBefore, Collapsed, Listed;
    var buf := new char[40](_ => '\0');
    var pos := 0;
    var i := 0;
    ghost var hs := Hexes(g);
    EmitStart(hs, collapse);
    while i < 8
      invariant Stands(collapse, i)
      invariant 0 <= pos <= 5 * i && pos <= 39
      invariant buf[..pos] == EmittedBefore(hs, collapse, i)
    {
      if i == collapse.start {
        EmitCollapse(hs, collapse);
        Put(buf, pos, "::");
        pos := pos + 2;
        i := i + collapse.len;
        continue;
      }
      EmitGroup(hs, collapse, i);
      var digits := Hex(g[i]);
      if |digits| >= buf.Length - pos { assert false; }
      Put(buf, pos, digits);
      pos := pos + |digits|;
      i := i + 1;
      if i < 8 && i != collapse.start {
        Put(buf, pos, ":");
        pos := pos + 1;
      }
    }
    EmitDone(g, collapse);
    return buf[..pos];
  }

  /** ipv6_canonical. */
  method Ipv6Canonical(bytes: Address) returns (text: string)
    ensures IsCanonical(bytes, text)
    ensures |text| <= 39
  {
    var groups := AssembleGroups(bytes);
    if IsIpv4Mapped(groups) {
      text := "::ffff:" + DottedQuad(bytes[12], bytes[13], bytes[14], bytes[15]);
    } else {
      var run := FindLongestZeroRun(groups);
      text := EmitCanonical(groups, run);
    }
  }

  // ---- its characters --------------------------------------------------------------------

  predicate HexChar(c: char) { '0' <= c <= '9' || 'a' <= c <= 'f' }

  predicate AllHex(s: string) { forall i :: 0 <= i < |s| ==> HexChar(s[i]) }

  /** Section 4.1 and 4.3 of RFC 5952: no leading zeros, and lower case. */
  lemma {:induction false} HexShape(n: nat)
    requires n < 65536
    ensures AllHex(Hex(n)) && (Hex(n)[0] == '0' ==> n == 0 && Hex(n) == "0")
  {
    if n < 16 {
      assert DigitChar(n) == '0' ==> n == 0;
    } else {
      HexShape(n / 16);
      assert HexChar(DigitChar(n % 16));
    }
  }

  predicate HexOrColon(s: string) { forall i :: 0 <= i < |s| ==> HexChar(s[i]) || s[i] == ':' }

  lemma {:induction false} JoinedHex(hs: seq<string>)
    requires forall i :: 0 <= i < |hs| ==> AllHex(hs[i])
    ensures HexOrColon(Join(hs, ':'))
  {
    if |hs| > 1 {
      JoinedHex(hs[1..]);
      assert AllHex(hs[0]);
    } else if |hs| == 1 {
      assert AllHex(hs[0]);
    }
  }

  /** The dotted form is for exactly the addresses whose first ten octets are 0 and the next two 255. */
  lemma MappedExactly(a: Address)
    ensures IsIpv4Mapped(GroupsOf(a)) <==> (forall i :: 0 <= i < 10 ==> a[i] == 0) && a[10] == 255 && a[11] == 255
  {
    var g := GroupsOf(a);
    assert g[0] == a[0] * 256 + a[1] && g[1] == a[2] * 256 + a[3] && g[2] == a[4] * 256 + a[5];
    assert g[3] == a[6] * 256 + a[7] && g[4] == a[8] * 256 + a[9] && g[5] == a[10] * 256 + a[11];
  }

  /** So a text has a dot exactly for those, and is otherwise lower-case digits and colons. */
  lemma CanonicalShape(a: Address, text: string)
    requires IsCanonical(a, text)
    ensures '.' in text <==> (forall i :: 0 <= i < 10 ==> a[i] == 0) && a[10] == 255 && a[11] == 255
    ensures '.' !in text ==> HexOrColon(text)
  {
    var g := GroupsOf(a);
    MappedExactly(a);
    if IsIpv4Mapped(g) {
      assert text[7 + |Decimal(a[12])|] == '.';
    } else {
      var run :| IsCollapse(g, run) && text == Collapsed(g, run);
      CollapsedShape(g, run);
    }
  }

  lemma CollapsedShape(g: Groups, run: ZeroRun)
    requires run.len == 0 || (0 <= run.start && 0 <= run.len && run.start + run.len <= 8)
    ensures HexOrColon(Collapsed(g, run))
  {
    hide Hex, Join, HexChar;
    var hs := Hexes(g);
    forall i | 0 <= i < 8 ensures AllHex(hs[i]) { HexShape(g[i]); }
    JoinedHex(hs);
    if run.len != 0 {
      JoinedHex(hs[..run.start]);
      JoinedHex(hs[run.start + run.len..]);
    }
  }
}
