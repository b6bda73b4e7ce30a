/**
 The representation object itself: the parsing methods that write its octets
 and mask in place, proved against the parse functions of `IpParser`.
 */
module IpRepresentation {
  import opened Wrappers
  import opened Text
  import opened IpParser

  class IpAddress {
    const octets: array<nat>
    var mask: seq<bool>
    ghost var written: seq<nat>

    ghost predicate Valid()
      reads this, octets
    {
      octets.Length == 16 && |mask| == 16 && forall i :: 0 <= i < 16 ==> octets[i] < 256
    }

    /** The parse state with write position `y`. */
    ghost function View(y: nat): (st: Parsed)
      requires Valid()
      reads this, octets
      ensures Shaped(st)
    {
      Parsed(octets[..], mask, y, written)
    }

    constructor ()
      ensures Valid() && fresh(octets) && View(0) == Blank()
    {
      octets := new nat[16](_ => 0);
      mask := FullMask();
      written := [];
      new;
      assert octets[..] == ZeroOctets(16);
    }

    /** clear_bit. */
    method ClearBit(pos: nat)
      requires Valid() && pos < 16
      modifies this
      ensures Valid() && octets[..] == old(octets[..])
      ensures mask == old(mask)[pos := false] && written == old(written) + [pos]
    {
      mask := mask[pos := false];
      written := written + [pos];
    }

    method SetOctet(pos: nat, value: nat)
      requires Valid() && pos < 16 && value < 256
      modifies this, octets
      ensures Valid() && octets[..] == old(octets[..])[pos := value]
      ensures mask == old(mask) && written == old(written) + [pos]
    {
      octets[pos] := value;
      written := written + [pos];
    }

    /** The loop both dotted forms run over their four parts. */
    method WriteQuad(parts: seq<string>, ghost y: nat) returns (ok: bool)
      requires Valid() && |parts| == 4
      modifies this, octets
      ensures Valid()
      ensures var r := old(QuadFrom(parts, 0, View(y))); ok == r.Ok? && (ok ==> View(y) == r.value)
    {
      ghost var goal := QuadFrom(parts, 0, View(y));
      for i := 0 to 4
        invariant Valid() && goal == QuadFrom(parts, i, View(y))
      {
        ghost var before := View(y);
        if parts[i] == "*" {
          ClearBit(12 + i);
          assert QuadPart(parts[i], i, before) == Ok(View(y));
          continue;
        }
        var piece := DecimalOctet(parts[i]);
        if piece.Rejected? { return false; }
        SetOctet(12 + i, piece.value);
        assert QuadPart(parts[i], i, before) == Ok(View(y));
      }
      return true;
    }

    /** parse_ipv4. */
    method ParseIpv4(ip: string) returns (ok: bool)
      requires Valid()
      modifies this, octets
      ensures Valid()
      ensures var r := old(ParseQuad(ip, View(0))); ok == r.Ok? && (ok ==> View(0) == r.value)
    {
      var parts := StringSplit(ip, '.', true);
      if |parts| != 4 { return false; }
      ok := WriteQuad(parts, 0);
    }

    /** compute_ipv6_omitted_segments. */
    static method ComputeOmitted(parts: seq<string>) returns (ok: bool, rest: seq<string>, omitted: nat)
      requires 1 <= |parts| <= 8
      ensures ok == Omission(parts).Ok?
      ensures ok ==> Omission(parts).value == (rest, omitted)
    {
      omitted, rest := 8 - (|parts| - 1), parts;
      var emptyCount := 0;
      for i := 0 to |parts|
        invariant EmptyCount(parts) == emptyCount + EmptyCount(parts[i..])
      {
        assert parts[i..][1..] == parts[i + 1..];
        if parts[i] == "" { emptyCount := emptyCount + 1; }
      }
      assert EmptyCount(parts[|parts|..]) == 0;
      if emptyCount <= 1 { return true, rest, omitted; }
      if HasDot(parts[|parts| - 1]) { omitted := omitted - 1; }
      if !(emptyCount == 2 && parts[0] == "" && parts[1] == "") { return false, rest, omitted; }
      return true, parts[1..], omitted + 1;
    }

    /** apply_ipv6_part with parse_nested_ipv4: every write stays inside the sixteen octets. */
    method ApplyIpv6Part(parts: seq<string>, i: nat, y: nat, omitted: nat) returns (ok: bool, next: nat)
      requires Valid() && i < |parts| && y + 2 * Weight(parts[i..], omitted) <= 16
      modifies this, octets
      ensures Valid()
      ensures var r := old(ApplyPart(parts[i..], omitted, View(y)));
              ok == r.Ok? && (ok ==> View(next) == r.value)
    {
      ghost var before := View(y);
      var part := parts[i];
      next := y;
      if part == "*" {
        ClearBit(y);
        ClearBit(y + 1);
        TwoPositions(before.written, y);
        return true, y + 2;
      }
      if part == "" {
        next := ZeroFill(y, omitted);
        return true, next;
      }
      if |part| <= 4 {
        var s := PadGroup(part);
        var hi, lo := HexOctet(s[..2]), HexOctet(s[2..]);
        if hi.Rejected? || lo.Rejected? { return false, y; }
        SetOctet(y, hi.value);
        SetOctet(y + 1, lo.value);
        TwoPositions(before.written, y);
        return true, y + 2;
      }
      if !HasDot(part) || y != 12 || i != |parts| - 1 { return false, y; }
      var subparts := StringSplit(part, '.', true);
      if |subparts| != 4 || !MappedPrefix(octets[..]) { return false, y; }
      ok := WriteQuad(subparts, y);
    }

    /** The zero groups an empty token stands for. */
    method ZeroFill(y: nat, omitted: nat) returns (next: nat)
      requires Valid() && y + 2 * omitted <= 16
      modifies this, octets
      ensures Valid() && View(next) == old(ZeroGroups(View(y), omitted))
    {
      ghost var start := View(y);
      next := y;
      ZeroNone(start);
      for o := 0 to omitted
        invariant Valid() && next == y + 2 * o
        invariant View(next) == ZeroGroups(start, o)
      {
        hide ZeroGroups, Span, ZeroOctets;
        ZeroOneMore(start, o);
        SetOctet(next, 0);
        SetOctet(next + 1, 0);
        next := next + 2;
      }
    }

    /** parse_ipv6. */
    method ParseColonForm(ip: string) returns (ok: bool)
      requires Valid() && View(0) == Blank() && FindFrom(ip, ':', 0) < |ip|
      modifies this, octets
      ensures Valid() && ok == ParseIpv6(ip).Ok?
      ensures ok ==> octets[..] == ParseIpv6(ip).value.octets && mask == ParseIpv6(ip).value.mask
      ensures ok ==> written == ParseIpv6(ip).value.written
    {
      var parts := StringSplit(ip, ':', false);
      SomeToken(ip);
      if |parts| > 8 { return false; }
      var fine, rest, omitted := ComputeOmitted(parts);
      if !fine { return false; }
      OmissionWeight(parts);
      ghost var goal := ParseIpv6(ip);
      assert goal == ParseParts(rest, omitted, Blank());
      var y: nat := 0;
      assert rest[0..] == rest;
      for i := 0 to |rest|
        invariant Valid() && y + 2 * Weight(rest[i..], omitted) <= 16
        invariant goal == ParseParts(rest[i..], omitted, View(y))
      {
        hide ApplyPart, Tokens, Omission, Blank;
        assert rest[i..][1..] == rest[i + 1..];
        var good, next := ApplyIpv6Part(rest, i, y, omitted);
        if !good { return false; }
        y := next;
      }
      return true;
    }

    /** The string constructor, on an object that is still blank. */
    method Parse(ip: string) returns (ok: bool)
      requires Valid() && View(0) == Blank()
      modifies this, octets
      ensures Valid() && ok == ParseAddress(ip).Ok?
      ensures ok ==> octets[..] == ParseAddress(ip).value.octets && mask == ParseAddress(ip).value.mask
    {
      if FindFrom(ip, ':', 0) < |ip| {
        ok := ParseColonForm(ip);
      } else {
        ok := ParseIpv4(ip);
      }
    }
  }

  lemma ZeroNone(st: Parsed)
    requires Shaped(st) && st.y <= 16
    ensures ZeroGroups(st, 0) == st
  {
    assert st.written + Span(st.y, 0) == st.written;
    assert st.octets[..st.y] + ZeroOctets(0) + st.octets[st.y..] == st.octets;
  }

  lemma TwoPositions(log: seq<nat>, y: nat)
    ensures log + [y] + [y + 1] == log + Span(y, 2)
  {
    assert Span(y, 2) == Span(y, 1) + [y + 1] && Span(y, 1) == Span(y, 0) + [y];
  }

  lemma ZeroOneMore(st: Parsed, o: nat)
    requires Shaped(st) && st.y + 2 * (o + 1) <= 16
    ensures var z := ZeroGroups(st, o);
            ZeroGroups(st, o + 1) ==
            Parsed(z.octets[z.y := 0][z.y + 1 := 0], z.mask, z.y + 2, z.written + [z.y] + [z.y + 1])
  {
    var z := ZeroGroups(st, o);
    TwoPositions(z.written, z.y);
    SpanConcat(st.y, 2 * o, 2);
    var s := ZeroGroups(st, o + 1);
    assert s.octets == z.octets[z.y := 0][z.y + 1 := 0];
    assert s.written == z.written + Span(z.y, 2);
  }
}
