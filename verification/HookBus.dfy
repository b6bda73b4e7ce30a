/**
 The hook bus: per-phase vectors of registered hooks, the advisory gate of each phase, the slot
 counter, and the two alias slots wired at construction. A resource's own hook table is a bus
 without aliases.
 */
module HookBus {
  import opened Wrappers

  datatype Phase =
    | ConnectionOpened | AcceptDecision | RequestReceived | BodyChunk | RouteResolved | BeforeHandler
    | HandlerException | AfterHandler | ResponseSent | RequestCompleted | ConnectionClosed

  /** A callback is known by a number; a slot is one registration of it. */
  datatype Slot = Slot(id: nat, fn: nat)

  datatype Bus = Bus(vecs: map<Phase, seq<Slot>>, gates: set<Phase>, next: nat,
                     exceptionAlias: Option<nat>, accessAlias: Option<nat>)

  function Vec(b: Bus, p: Phase): (v: seq<Slot>) { if p in b.vecs then b.vecs[p] else [] }

  function NewBus(): (b: Bus) { Bus(map[], {}, 1, None, None) }

  predicate AliasWired(b: Bus, p: Phase)
  {
    (p == HandlerException && b.exceptionAlias.Some?) || (p == ResponseSent && b.accessAlias.Some?)
  }

  /** A gate is true whenever its vector is non-empty, and false unless that or an alias is wired. */
  predicate Gated(b: Bus, p: Phase)
  {
    (Vec(b, p) != [] ==> p in b.gates) && (p in b.gates ==> Vec(b, p) != [] || AliasWired(b, p))
  }

  ghost predicate Distinct(v: seq<Slot>) { forall i, j :: 0 <= i < j < |v| ==> v[i].id != v[j].id }

  /** Slot ids are positive, below the counter, and never shared. */
  ghost predicate Ids(b: Bus)
  {
    && (forall p: Phase, s :: s in Vec(b, p) ==> 0 < s.id < b.next)
    && (forall p: Phase :: Distinct(Vec(b, p)))
    && (forall p: Phase, q: Phase, s, u :: p != q && s in Vec(b, p) && u in Vec(b, q) ==> s.id != u.id)
  }

  ghost predicate Sound(b: Bus) { b.next > 0 && (forall p: Phase :: Gated(b, p)) && Ids(b) }

  /** Whether the slot `id` is registered for phase `p`. */
  predicate Live(b: Bus, p: Phase, id: nat) { exists i :: 0 <= i < |Vec(b, p)| && Vec(b, p)[i].id == id }

  function Added(b: Bus, p: Phase, fn: nat): (r: Bus)
  {
    b.(vecs := b.vecs[p := Vec(b, p) + [Slot(b.next, fn)]], gates := b.gates + {p}, next := b.next + 1)
  }

  /** The vector without the first slot that has the id. */
  function Erased(v: seq<Slot>, id: nat): (r: seq<Slot>)
  {
    if v == [] then [] else if v[0].id == id then v[1..] else [v[0]] + Erased(v[1..], id)
  }

  function Removed(b: Bus, p: Phase, id: nat): (r: Bus)
  {
    var v := Erased(Vec(b, p), id);
    if |v| == |Vec(b, p)| then b
    else b.(vecs := b.vecs[p := v], gates := if v == [] && !AliasWired(b, p) then b.gates - {p} else b.gates)
  }

  // ---- what the operations keep ----------------------------------------------------------

  lemma {:induction false} ErasedMembers(v: seq<Slot>, id: nat)
    requires Distinct(v)
    ensures Distinct(Erased(v, id))
    ensures forall s :: s in Erased(v, id) <==> s in v && s.id != id
  {
    if v != [] {
      var rest := v[1..];
      assert forall i :: 0 <= i < |rest| ==> rest[i] == v[i + 1];
      assert forall s :: s in v <==> s == v[0] || s in rest;
      ErasedMembers(rest, id);
      if v[0].id != id { DistinctFirst(v[0], Erased(rest, id)); }
    }
  }

  lemma DistinctFirst(s: Slot, v: seq<Slot>)
    requires Distinct(v) && forall u <- v :: u.id != s.id
    ensures Distinct([s] + v)
  {
  }

  lemma DistinctMore(v: seq<Slot>, s: Slot)
    requires Distinct(v) && forall u <- v :: u.id != s.id
    ensures Distinct(v + [s])
  {
  }

  lemma AddedVecs(b: Bus, p: Phase, fn: nat, q: Phase)
    ensures Vec(Added(b, p, fn), q) == if q == p then Vec(b, p) + [Slot(b.next, fn)] else Vec(b, q)
  {
  }

  lemma AddedMembers(b: Bus, p: Phase, fn: nat, q: Phase)
    requires Ids(b)
    ensures Distinct(Vec(Added(b, p, fn), q))
    ensures forall s :: s in Vec(Added(b, p, fn), q) <==> s in Vec(b, q) || (q == p && s == Slot(b.next, fn))
  {
    AddedVecs(b, p, fn, q);
    DistinctMore(Vec(b, p), Slot(b.next, fn));
  }

  lemma AddedIds(b: Bus, p: Phase, fn: nat)
    requires Ids(b) && b.next > 0
    ensures Ids(Added(b, p, fn))
  {
    var r := Added(b, p, fn);
    assert r.next == b.next + 1;
    forall q: Phase
      ensures Distinct(Vec(r, q))
      ensures forall s :: s in Vec(r, q) <==> s in Vec(b, q) || (q == p && s == Slot(b.next, fn))
    {
      AddedMembers(b, p, fn, q);
    }
    hide Added, Vec, Distinct;
  }

  lemma AddedSound(b: Bus, p: Phase, fn: nat)
    requires Sound(b)
    ensures Sound(Added(b, p, fn))
  {
    AddedIds(b, p, fn);
    hide Ids;
    forall q: Phase ensures Gated(Added(b, p, fn), q) { assert Gated(b, q); }
  }

  lemma RemovedVecs(b: Bus, p: Phase, id: nat, q: Phase)
    ensures Vec(Removed(b, p, id), q) == if q == p then Erased(Vec(b, p), id) else Vec(b, q)
  {
    ErasedLength(Vec(b, p), id);
  }

  lemma {:induction false} ErasedLength(v: seq<Slot>, id: nat)
    ensures |Erased(v, id)| <= |v|
    ensures |Erased(v, id)| == |v| ==> Erased(v, id) == v
  {
    if v != [] { ErasedLength(v[1..], id); }
  }

  lemma RemovedSound(b: Bus, p: Phase, id: nat)
    requires Sound(b)
    ensures Sound(Removed(b, p, id))
  {
    hide Removed, Erased, Gated;
    var r := Removed(b, p, id);
    ErasedMembers(Vec(b, p), id);
    forall q: Phase ensures Vec(r, q) == if q == p then Erased(Vec(b, p), id) else Vec(b, q) {
      RemovedVecs(b, p, id, q);
    }
    assert forall q: Phase, s :: s in Vec(r, q) ==> s in Vec(b, q);
    RemovedGates(b, p, id);
    assert Ids(r);
  }

  lemma RemovedGates(b: Bus, p: Phase, id: nat)
    requires forall q: Phase :: Gated(b, q)
    ensures forall q: Phase :: Gated(Removed(b, p, id), q)
    ensures Removed(b, p, id).next == b.next
  {
    forall q: Phase ensures Gated(Removed(b, p, id), q) {
      assert Gated(b, q);
      RemovedVecs(b, p, id, q);
    }
  }

  /** Removal takes out its own slot and no other, in any phase. */
  lemma RemovedLive(b: Bus, p: Phase, id: nat, q: Phase, k: nat)
    requires Sound(b)
    ensures Live(Removed(b, p, id), q, k) <==> Live(b, q, k) && !(q == p && k == id)
  {
    RemovedVecs(b, p, id, q);
    if q == p {
      var v, w := Vec(b, p), Erased(Vec(b, p), id);
      ErasedMembers(v, id);
      if i :| 0 <= i < |w| && w[i].id == k { assert w[i] in v; }
      if i :| 0 <= i < |v| && v[i].id == k && k != id { assert v[i] in w; }
    }
  }

  lemma AddedLive(b: Bus, p: Phase, fn: nat, q: Phase, k: nat)
    ensures Live(Added(b, p, fn), q, k) <==> Live(b, q, k) || (q == p && k == b.next)
  {
    AddedVecs(b, p, fn, q);
    hide Vec, Added;
    var v, w := Vec(b, q), Vec(Added(b, p, fn), q);
    if i :| 0 <= i < |v| && v[i].id == k { assert w[i].id == k; }
    if q == p { assert w[|v|].id == b.next; }
  }

  lemma LiveMember(b: Bus, p: Phase, id: nat)
    ensures Live(b, p, id) <==> exists s :: s in Vec(b, p) && s.id == id
  {
    if s :| s in Vec(b, p) && s.id == id {
      var i :| 0 <= i < |Vec(b, p)| && Vec(b, p)[i] == s;
      assert Vec(b, p)[i].id == id;
    }
  }

  /** An id below which the counter has not got is free; one that is taken is taken in one phase only. */
  lemma LiveOnce(b: Bus, p: Phase, q: Phase, id: nat)
    requires Sound(b) && Live(b, p, id)
    ensures 0 < id < b.next && (Live(b, q, id) ==> q == p)
  {
    LiveMember(b, p, id);
    LiveMember(b, q, id);
    hide Vec, Live;
  }

  // ---- the object ------------------------------------------------------------------------

  /**
   Removing takes the slot with the id out of its vector,
       in which the others keep their order; every other vector stays.
   The gate closes when the vector is empty and no alias is wired. Without such a slot nothing changes.
   */
  lemma RemovedExactly(b: Bus, p: Phase, id: nat, i: nat)
    requires i <= |Vec(b, p)| && (forall j :: 0 <= j < i ==> Vec(b, p)[j].id != id)
    requires i < |Vec(b, p)| ==> Vec(b, p)[i].id == id
    ensures var v, r := Vec(b, p), Removed(b, p, id);
            && (forall q: Phase :: q != p ==> Vec(r, q) == Vec(b, q) && (q in r.gates <==> q in b.gates))
            && (i == |v| ==> r == b)
            && (i < |v| ==> Vec(r, p) == v[..i] + v[i + 1..])
            && (i < |v| ==> (p in r.gates <==> p in b.gates && (|v| > 1 || AliasWired(b, p))))
            && r.next == b.next && r.exceptionAlias == b.exceptionAlias && r.accessAlias == b.accessAlias
  {
    hide Erased;
    ErasedAt(Vec(b, p), id, i);
  }

  lemma SplitAfterFirst(v: seq<Slot>, i: nat)
    requires 0 < i < |v|
    ensures v[..i] + v[i + 1..] == [v[0]] + (v[1..][..i - 1] + v[1..][i..])
  {
    assert v[..i] == [v[0]] + v[1..][..i - 1] && v[i + 1..] == v[1..][i..];
  }

  lemma {:induction false} ErasedAt(v: seq<Slot>, id: nat, i: nat)
    requires i <= |v| && forall j :: 0 <= j < i ==> v[j].id != id
    ensures i < |v| && v[i].id == id ==> Erased(v, id) == v[..i] + v[i + 1..]
    ensures i == |v| ==> Erased(v, id) == v
  {
    if i > 0 {
      assert forall j :: 0 <= j < i - 1 ==> v[1..][j] == v[j + 1];
      ErasedAt(v[1..], id, i - 1);
      if i < |v| { SplitAfterFirst(v, i); }
    }
  }

  class HookTable {
    var vecs: map<Phase, seq<Slot>>
    var gates: set<Phase>
    var next: nat
    var exceptionAlias: Option<nat>
    var accessAlias: Option<nat>

    function State(): (b: Bus)
      reads this
    {
      Bus(vecs, gates, next, exceptionAlias, accessAlias)
    }

    constructor ()
      ensures State() == NewBus() && Sound(State())
    {
      vecs, gates, next, exceptionAlias, accessAlias := map[], {}, 1, None, None;
      new;
      assert forall p: Phase :: Vec(State(), p) == [];
    }

    /** add_impl: a mismatched phase tag or an empty callable throws and registers nothing. */
    method Add(requested: Phase, expected: Phase, fn: Option<nat>) returns (id: Option<nat>)
      requires Sound(State())
      modifies this
      ensures Sound(State())
      ensures requested != expected || fn.None? ==> id.None? && State() == old(State())
      ensures requested == expected && fn.Some? ==>
                && id == Some(old(next))
                && State() == Added(old(State()), expected, fn.value)
                && Vec(State(), expected) == Vec(old(State()), expected) + [Slot(old(next), fn.value)]
                && expected in gates && (forall q: Phase :: q != expected ==> Vec(State(), q) == Vec(old(State()), q))
                && (forall p: Phase :: !Live(old(State()), p, old(next)))
    {
      if requested != expected || fn.None? { return None; }
      AddedSound(State(), expected, fn.value);
      forall p: Phase ensures !Live(State(), p, next) {
        if Live(State(), p, next) { LiveOnce(State(), p, p, next); }
      }
      hide Sound, Live, Gated, Ids;
      id := Some(next);
      next := next + 1;
      vecs := vecs[expected := (if expected in vecs then vecs[expected] else []) + [Slot(id.value, fn.value)]];
      gates := gates + {expected};
    }

    /** hook_bus::remove scans for the slot; the gate closes only when the vector empties with no alias wired. */
    method Remove(phase: Phase, id: nat)
      requires Sound(State())
      modifies this
      ensures Sound(State()) && State() == Removed(old(State()), phase, id)
    {
      RemovedSound(State(), phase, id);
      hide Sound;
      var v := Vec(State(), phase);
      var i := 0;
      while i < |v|
        invariant i <= |v| && State() == old(State()) && v == Vec(State(), phase)
        invariant forall j :: 0 <= j < i ==> v[j].id != id
      {
        if v[i].id == id {
          ErasedAt(v, id, i);
          vecs := vecs[phase := v[..i] + v[i + 1..]];
          if vecs[phase] == [] {
            var wired := (phase == HandlerException && exceptionAlias.Some?)
                || (phase == ResponseSent && accessAlias.Some?);
            if !wired { gates := gates - {phase}; }
          }
          return;
        }
        i := i + 1;
      }
      ErasedAt(v, id, i);
    }

    /** resource_hook_table::remove_slot closes the gate of an empty vector even when nothing was erased. */
    method RemoveSlot(phase: Phase, id: nat)
      requires Sound(State()) && exceptionAlias.None? && accessAlias.None?
      modifies this
      ensures Sound(State()) && State() == Removed(old(State()), phase, id)
    {
      RemovedSound(State(), phase, id);
      assert Gated(State(), phase);
      hide Sound;
      var v := Vec(State(), phase);
      var i := 0;
      while i < |v| && v[i].id != id
        invariant i <= |v| && forall j :: 0 <= j < i ==> v[j].id != id
      {
        i := i + 1;
      }
      ErasedAt(v, id, i);
      assert v == [] ==> gates - {phase} == gates;
      if i < |v| { vecs := vecs[phase := v[..i] + v[i + 1..]]; }
      if Vec(State(), phase) == [] { gates := gates - {phase}; }
    }

    /** The internal error handler is wired behind the handler_exception vector, and its gate opened. */
    method SetExceptionAlias(fn: nat)
      requires Sound(State())
      modifies this
      ensures Sound(State())
      ensures State() == old(State()).(exceptionAlias := Some(fn), gates := old(gates) + {HandlerException})
    {
      assert forall p: Phase :: Gated(State(), p);
      exceptionAlias, gates := Some(fn), gates + {HandlerException};
      AliasSound(old(State()), State());
    }

    /** The access log is wired behind the response_sent vector; its gate is left alone. */
    method SetAccessAlias(fn: nat)
      requires Sound(State())
      modifies this
      ensures Sound(State()) && State() == old(State()).(accessAlias := Some(fn))
    {
      assert forall p: Phase :: Gated(State(), p);
      accessAlias := Some(fn);
      AliasSound(old(State()), State());
    }
  }

  lemma AliasSound(b: Bus, r: Bus)
    requires Sound(b) && r.vecs == b.vecs && r.next == b.next && b.gates <= r.gates <= b.gates + {HandlerException}
    requires b.exceptionAlias.Some? ==> r.exceptionAlias.Some?
    requires b.accessAlias.Some? ==> r.accessAlias.Some?
    requires HandlerException in r.gates && HandlerException !in b.gates ==> r.exceptionAlias.Some?
    ensures Sound(r)
  {
    assert forall p: Phase :: Vec(r, p) == Vec(b, p);
    forall p: Phase ensures Gated(r, p) { assert Gated(b, p); }
    assert Ids(r) by { hide Vec, Distinct, Gated; }
  }
}
