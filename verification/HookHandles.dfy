/**
 RAII hook handles: registrations on the server's bus or on a resource's own table, and the
 handles that own them through moves, removal, detachment and destruction. A resource may die
 before its handles; the tables of dead resources are gone for good.
 */
module HookHandles {
  import opened Wrappers
  import opened HookBus

  datatype Home = Server | Route(table: nat)

  /** One registration. */
  datatype Reg = Reg(home: Home, phase: Phase, id: nat)

  /** impl_ is non-null for server-wide handles; table_weak_ is set for per-route ones. */
  datatype Handle = Handle(armed: bool, impl: bool, slot: nat, phase: Phase, table: Option<nat>)

  /** `known` are the tables that ever existed, `detached` the registrations let go of. */
  datatype World = World(server: Bus, tables: map<nat, Bus>, known: set<nat>, handles: map<nat, Handle>,
      detached: set<Reg>)

  function RegOf(h: Handle): (r: Reg)
  {
    Reg(if h.impl || h.table.None? then Server else Route(h.table.value), h.phase, h.slot)
  }

  predicate Alive(w: World, home: Home) { home.Route? ==> home.table in w.tables }

  function BusAt(w: World, home: Home): (b: Bus)
    requires Alive(w, home)
  {
    if home.Server? then w.server else w.tables[home.table]
  }

  predicate Registered(w: World, r: Reg) { Alive(w, r.home) && Live(BusAt(w, r.home), r.phase, r.id) }

  predicate Armed(w: World, n: nat) { n in w.handles && w.handles[n].armed }

  function WithBus(w: World, home: Home, b: Bus): (r: World)
  {
    if home.Server? then w.(server := b) else w.(tables := w.tables[home.table := b])
  }

  // ---- the operations --------------------------------------------------------------------

  function Disarmed(h: Handle): (r: Handle) { h.(armed := false, impl := false, table := None) }

  function Unregistered(w: World, r: Reg): (w': World)
  {
    if Alive(w, r.home) then WithBus(w, r.home, Removed(BusAt(w, r.home), r.phase, r.id)) else w
  }

  function RemovedHandle(w: World, n: nat): (r: World)
    requires n in w.handles
  {
    var h := w.handles[n];
    if !h.armed then w else Unregistered(w.(handles := w.handles[n := Disarmed(h)]), RegOf(h))
  }

  function AddedHook(w: World, n: nat, home: Home, p: Phase, fn: nat): (r: World)
    requires Alive(w, home)
  {
    var b := BusAt(w, home);
    var h := Handle(true, home.Server?, b.next, p, if home.Server? then None else Some(home.table));
    WithBus(w.(handles := w.handles[n := h]), home, Added(b, p, fn))
  }

  function Moved(w: World, to: nat, from: nat): (r: World)
    requires from in w.handles
  {
    w.(handles := w.handles[to := w.handles[from]][from := Disarmed(w.handles[from])])
  }

  function MoveAssigned(w: World, to: nat, from: nat): (r: World)
    requires to in w.handles && from in w.handles
  {
    if to == from then w else Moved(RemovedHandle(w, to), to, from)
  }

  function DetachedHandle(w: World, to: nat, from: nat): (r: World)
    requires from in w.handles
  {
    var h := w.handles[from];
    w.(handles := w.handles[to := h.(armed := false)][from := Disarmed(h)],
       detached := if h.armed then w.detached + {RegOf(h)} else w.detached)
  }

  function Destroyed(w: World, n: nat): (r: World)
    requires n in w.handles
  {
    var w' := RemovedHandle(w, n);
    w'.(handles := w'.handles - {n})
  }

  // ---- the invariant ---------------------------------------------------------------------

  ghost predicate Buses(w: World) { Sound(w.server) && forall t <- w.tables :: t in w.known && Sound(w.tables[t]) }

  predicate Formed(w: World, h: Handle) { h.impl == h.table.None? && (h.table.Some? ==> h.table.value in w.known) }

  /** An armed handle owns a registration that exists as long as its home does, alone. */
  ghost predicate Owns(w: World)
  {
    && (forall n :: Armed(w, n) ==> Formed(w, w.handles[n]) && RegOf(w.handles[n]) !in w.detached)
    && (forall n :: Armed(w, n) && Alive(w, RegOf(w.handles[n]).home) ==> Registered(w, RegOf(w.handles[n])))
    && (forall m, n :: m != n && Armed(w, m) && Armed(w, n) ==> RegOf(w.handles[m]) != RegOf(w.handles[n]))
  }

  ghost predicate Owned(w: World, r: Reg) { exists n :: Armed(w, n) && RegOf(w.handles[n]) == r }

  /** Every registration has an armed handle or was detached, and a detached one stays while its home does. */
  ghost predicate Accounted(w: World)
  {
    && (forall r :: Registered(w, r) ==> r in w.detached || Owned(w, r))
    && (forall r <- w.detached :: (r.home.Route? ==> r.home.table in w.known)
         && (Alive(w, r.home) ==> Registered(w, r)))
  }

  ghost predicate Inv(w: World) { Buses(w) && Owns(w) && Accounted(w) }

  // ---- each operation keeps it -----------------------------------------------------------

  lemma UnregisteredBuses(w: World, r: Reg)
    requires Buses(w)
    ensures Buses(Unregistered(w, r))
  {
    if Alive(w, r.home) { RemovedSound(BusAt(w, r.home), r.phase, r.id); }
    hide Sound, Removed;
  }

  /** Removal erases its own registration and no other, anywhere. */
  lemma UnregisteredOnly(w: World, r: Reg, q: Reg)
    requires Buses(w)
    ensures Registered(Unregistered(w, r), q) <==> Registered(w, q) && q != r
    ensures Alive(Unregistered(w, r), q.home) == Alive(w, q.home)
  {
    hide Sound, Removed, Live;
    if Alive(w, r.home) && Alive(w, q.home) {
      RemovedLive(BusAt(w, r.home), r.phase, r.id, q.phase, q.id);
    }
  }

  lemma RemovedHandleRegs(w: World, n: nat, q: Reg)
    requires Inv(w) && n in w.handles
    ensures Registered(RemovedHandle(w, n), q)
       <==> Registered(w, q) && !(w.handles[n].armed && q == RegOf(w.handles[n]))
    ensures Alive(RemovedHandle(w, n), q.home) == Alive(w, q.home)
  {
    var h := w.handles[n];
    if h.armed {
      var w1 := w.(handles := w.handles[n := Disarmed(h)]);
      hide Sound, Live, Owns, Accounted, Unregistered;
      assert Buses(w1);
      UnregisteredOnly(w1, RegOf(h), q);
    }
  }

  lemma RemovedHandleArmed(w: World, n: nat)
    requires n in w.handles
    ensures var w' := RemovedHandle(w, n);
            && w'.detached == w.detached && w'.known == w.known && w'.handles.Keys == w.handles.Keys
                 && !w'.handles[n].armed
            && forall m <- w.handles :: m != n ==> w'.handles[m] == w.handles[m]
  {
  }

  lemma RemoveKeeps(w: World, n: nat)
    requires Inv(w) && n in w.handles
    ensures Inv(RemovedHandle(w, n))
  {
    var w', h := RemovedHandle(w, n), w.handles[n];
    if h.armed {
      UnregisteredBuses(w.(handles := w.handles[n := Disarmed(h)]), RegOf(h));
      RemovedHandleArmed(w, n);
      forall q: Reg
        ensures Registered(w', q) <==> Registered(w, q) && q != RegOf(h)
        ensures Alive(w', q.home) == Alive(w, q.home)
      {
        RemovedHandleRegs(w, n, q);
      }
      hide Sound, Live, Registered, Alive, RemovedHandle, RegOf;
      RemoveOwns(w, w', n);
      RemoveAccounted(w, w', n);
    }
  }

  lemma RemoveOwns(w: World, w': World, n: nat)
    requires Owns(w) && Armed(w, n) && w'.handles.Keys == w.handles.Keys && !w'.handles[n].armed
    requires w'.detached == w.detached && w'.known == w.known
    requires forall m <- w.handles :: m != n ==> w'.handles[m] == w.handles[m]
    requires forall q: Reg :: Registered(w', q) <==> Registered(w, q) && q != RegOf(w.handles[n])
    requires forall q: Reg :: Alive(w', q.home) == Alive(w, q.home)
    ensures Owns(w')
  {
    hide Registered, Alive, RegOf;
    assert forall m :: Armed(w', m) ==> m != n && Armed(w, m) && w'.handles[m] == w.handles[m];
  }

  lemma RemoveAccounted(w: World, w': World, n: nat)
    requires Owns(w) && Accounted(w) && Armed(w, n) && w'.handles.Keys == w.handles.Keys
    requires w'.detached == w.detached && w'.known == w.known
    requires forall m <- w.handles :: m != n ==> w'.handles[m] == w.handles[m]
    requires forall q: Reg :: Registered(w', q) <==> Registered(w, q) && q != RegOf(w.handles[n])
    requires forall q: Reg :: Alive(w', q.home) == Alive(w, q.home)
    ensures Accounted(w')
  {
    hide Registered, Alive, RegOf;
    forall r | Registered(w', r) ensures r in w'.detached || Owned(w', r) {
      if r !in w.detached {
        var m :| Armed(w, m) && RegOf(w.handles[m]) == r;
        assert m != n && Armed(w', m);
      }
    }
  }

  lemma AddedBuses(w: World, n: nat, home: Home, p: Phase, fn: nat)
    requires Buses(w) && Alive(w, home)
    ensures Buses(AddedHook(w, n, home, p, fn))
  {
    AddedSound(BusAt(w, home), p, fn);
    hide Sound, Added;
  }

  lemma AddedRegs(w: World, n: nat, home: Home, p: Phase, fn: nat, q: Reg)
    requires Alive(w, home)
    ensures Registered(AddedHook(w, n, home, p, fn), q) <==> Registered(w, q) || q == Reg(home, p, BusAt(w, home).next)
    ensures Alive(AddedHook(w, n, home, p, fn), q.home) == Alive(w, q.home)
  {
    AddedLive(BusAt(w, home), p, fn, q.phase, q.id);
    hide Added, Live;
  }

  lemma NextIsFree(w: World, home: Home, p: Phase)
    requires Buses(w) && Alive(w, home)
    ensures !Registered(w, Reg(home, p, BusAt(w, home).next))
  {
    var b := BusAt(w, home);
    if Registered(w, Reg(home, p, b.next)) { LiveOnce(b, p, p, b.next); }
  }

  lemma AddKeeps(w: World, n: nat, home: Home, p: Phase, fn: nat)
    requires Inv(w) && n !in w.handles && Alive(w, home)
    ensures Inv(AddedHook(w, n, home, p, fn))
  {
    var w', r := AddedHook(w, n, home, p, fn), Reg(home, p, BusAt(w, home).next);
    assert Formed(w', w'.handles[n]) && RegOf(w'.handles[n]) == r;
    AddedBuses(w, n, home, p, fn);
    NextIsFree(w, home, p);
    hide Buses, Owns, Accounted, Registered, Formed, RegOf;
    forall q: Reg
      ensures Registered(w', q) <==> Registered(w, q) || q == r
      ensures Alive(w', q.home) == Alive(w, q.home)
    {
      AddedRegs(w, n, home, p, fn, q);
    }
    AddOwns(w, w', n, r);
    AddAccounted(w, w', n, r);
  }

  lemma AddOwns(w: World, w': World, n: nat, r: Reg)
    requires Owns(w) && Accounted(w) && n !in w.handles && !Registered(w, r) && Alive(w, r.home)
    requires w'.detached == w.detached && w'.known == w.known && n in w'.handles
    requires w'.handles == w.handles[n := w'.handles[n]] && w'.handles[n].armed && Formed(w', w'.handles[n])
    requires RegOf(w'.handles[n]) == r
    requires forall q: Reg :: Registered(w', q) <==> Registered(w, q) || q == r
    requires forall q: Reg :: Alive(w', q.home) == Alive(w, q.home)
    ensures Owns(w')
  {
    hide Registered, Alive, RegOf;
    assert forall m :: Armed(w', m) ==> m == n || (Armed(w, m) && w'.handles[m] == w.handles[m]);
  }

  lemma AddAccounted(w: World, w': World, n: nat, r: Reg)
    requires Accounted(w) && n !in w.handles
    requires w'.detached == w.detached && w'.known == w.known && n in w'.handles
    requires w'.handles == w.handles[n := w'.handles[n]] && w'.handles[n].armed && RegOf(w'.handles[n]) == r
    requires forall q: Reg :: Registered(w', q) <==> Registered(w, q) || q == r
    requires forall q: Reg :: Alive(w', q.home) == Alive(w, q.home)
    ensures Accounted(w')
  {
    hide Registered, Alive, RegOf;
    forall q | Registered(w', q) ensures q in w'.detached || Owned(w', q) {
      if q == r {
        assert Armed(w', n);
      } else if q !in w.detached {
        var m :| Armed(w, m) && RegOf(w.handles[m]) == q;
        assert Armed(w', m);
      }
    }
  }

  lemma SameRegs(w: World, w': World)
    requires w'.server == w.server && w'.tables == w.tables
    ensures forall q: Reg :: Registered(w', q) == Registered(w, q) && Alive(w', q.home) == Alive(w, q.home)
    ensures w'.known == w.known ==> Buses(w') == Buses(w)
  {
  }

  lemma MovedArmed(w: World, to: nat, from: nat, m: nat)
    requires from in w.handles && to != from
    ensures Armed(Moved(w, to, from), m) <==> (m == to && Armed(w, from)) || (m != to && m != from && Armed(w, m))
    ensures m == to ==> Moved(w, to, from).handles[m] == w.handles[from]
    ensures m != to && m != from && Armed(w, m) ==> Moved(w, to, from).handles[m] == w.handles[m]
  {
  }

  lemma MoveOwns(w: World, w': World, to: nat, from: nat)
    requires Owns(w) && from in w.handles && to != from && !Armed(w, to)
    requires w' == Moved(w, to, from)
    ensures Owns(w')
  {
    SameRegs(w, w');
    forall m: nat
      ensures Armed(w', m) <==> (m == to && Armed(w, from)) || (m != to && m != from && Armed(w, m))
      ensures m == to ==> w'.handles[m] == w.handles[from]
      ensures m != to && m != from && Armed(w, m) ==> w'.handles[m] == w.handles[m]
    {
      MovedArmed(w, to, from, m);
    }
    assert w'.detached == w.detached && w'.known == w.known;
    hide Registered, Alive, RegOf, Moved, Armed;
  }

  /** A move hands the ownership on and leaves nothing behind. */
  lemma MoveKeeps(w: World, to: nat, from: nat)
    requires Inv(w) && from in w.handles && to != from && !Armed(w, to)
    ensures Inv(Moved(w, to, from))
  {
    var w' := Moved(w, to, from);
    SameRegs(w, w');
    MoveOwns(w, w', to, from);
    hide Registered, Alive, RegOf, Buses, Owns;
    forall q | Registered(w', q) ensures q in w'.detached || Owned(w', q) {
      if q !in w.detached {
        var m :| Armed(w, m) && RegOf(w.handles[m]) == q;
        assert Armed(w', if m == from then to else m);
      }
    }
  }

  lemma MoveAssignKeeps(w: World, to: nat, from: nat)
    requires Inv(w) && from in w.handles && to in w.handles
    ensures Inv(MoveAssigned(w, to, from))
  {
    if to != from {
      RemoveKeeps(w, to);
      RemovedHandleArmed(w, to);
      hide Inv, RemovedHandle, Moved;
      MoveKeeps(RemovedHandle(w, to), to, from);
    }
  }

  lemma DetachOwns(w: World, to: nat, from: nat)
    requires Owns(w) && from in w.handles && to !in w.handles
    ensures Owns(DetachedHandle(w, to, from))
  {
    var w' := DetachedHandle(w, to, from);
    SameRegs(w, w');
    assert forall m :: Armed(w', m) ==> m != from && m != to && Armed(w, m) && w'.handles[m] == w.handles[m];
    hide Registered, Alive, RegOf;
  }

  /** A detached registration stays, and no handle owns it any more. */
  lemma DetachKeeps(w: World, to: nat, from: nat)
    requires Inv(w) && from in w.handles && to !in w.handles
    ensures Inv(DetachedHandle(w, to, from))
  {
    var w' := DetachedHandle(w, to, from);
    SameRegs(w, w');
    DetachOwns(w, to, from);
    assert w.handles[from].armed ==> Formed(w, w.handles[from]);
    assert w.handles[from].armed && Alive(w, RegOf(w.handles[from]).home) ==> Registered(w, RegOf(w.handles[from])) by {
      assert Armed(w, from) == w.handles[from].armed;
    }
    hide Registered, Buses, Alive, Owns;
    forall q | Registered(w', q) ensures q in w'.detached || Owned(w', q) {
      if q !in w'.detached {
        var m :| Armed(w, m) && RegOf(w.handles[m]) == q;
        assert Armed(w', m);
      }
    }
  }

  /** Forgetting a handle that owns nothing changes nothing else. */
  lemma ForgetKeeps(w: World, n: nat)
    requires Inv(w) && !Armed(w, n)
    ensures Inv(w.(handles := w.handles - {n}))
  {
    var w' := w.(handles := w.handles - {n});
    SameRegs(w, w');
    assert forall m :: Armed(w', m) <==> Armed(w, m);
    hide Registered, Alive, RegOf, Buses;
    forall q | Registered(w', q) ensures q in w'.detached || Owned(w', q) {
      if q !in w.detached {
        var m :| Armed(w, m) && RegOf(w.handles[m]) == q;
        assert Armed(w', m);
      }
    }
  }

  lemma DestroyKeeps(w: World, n: nat)
    requires Inv(w) && n in w.handles
    ensures Inv(Destroyed(w, n))
  {
    RemoveKeeps(w, n);
    RemovedHandleArmed(w, n);
    hide Inv, RemovedHandle;
    ForgetKeeps(RemovedHandle(w, n), n);
  }

  lemma NoSlots()
    ensures Sound(NewBus()) && forall p: Phase, id: nat :: !Live(NewBus(), p, id)
  {
    assert forall p: Phase :: Vec(NewBus(), p) == [];
  }

  /** Registrations and homes may go or come as long as no owned or detached one is touched. */
  lemma SameHandles(w: World, w': World)
    requires w'.handles == w.handles && w'.detached == w.detached && w.known <= w'.known
    requires Owns(w) && Accounted(w) && Buses(w')
    requires forall q: Reg :: Registered(w', q) ==> Registered(w, q)
    requires forall q: Reg :: Registered(w, q) && Alive(w', q.home) ==> Registered(w', q)
    requires forall q: Reg :: Alive(w', q.home) && (q.home.Route? ==> q.home.table in w.known) ==> Alive(w, q.home)
    ensures Inv(w')
  {
    assert forall n :: Armed(w', n) == Armed(w, n);
    assert forall n :: Armed(w, n) && RegOf(w.handles[n]).home.Route? ==> RegOf(w.handles[n]).home.table in w.known;
    hide Registered, Alive, RegOf, Buses;
    forall q | Registered(w', q) ensures q in w'.detached || Owned(w', q) {
      if q !in w.detached {
        var m :| Armed(w, m) && RegOf(w.handles[m]) == q;
        assert Armed(w', m);
      }
    }
  }

  lemma NewTableKeeps(w: World, t: nat)
    requires Inv(w) && t !in w.known
    ensures Inv(w.(tables := w.tables[t := NewBus()], known := w.known + {t}))
  {
    NoSlots();
    hide Sound, NewBus, Live, Owns, Accounted;
    SameHandles(w, w.(tables := w.tables[t := NewBus()], known := w.known + {t}));
  }

  lemma DropTableKeeps(w: World, t: nat)
    requires Inv(w)
    ensures Inv(w.(tables := w.tables - {t}))
  {
    hide Sound, Live, Owns, Accounted;
    SameHandles(w, w.(tables := w.tables - {t}));
  }

  // ---- runs ------------------------------------------------------------------------------

  datatype Op =
    | Add(handle: nat, home: Home, phase: Phase, fn: nat)
    | MoveConstruct(to: nat, from: nat)
    | MoveAssign(to: nat, from: nat)
    | Remove(handle: nat)
    | Detach(to: nat, from: nat)
    | Destroy(handle: nat)
    | NewResource(table: nat)
    | DropResource(table: nat)

  /** Constructed handles are new objects; everything else names objects that exist. */
  predicate Possible(w: World, op: Op)
  {
    match op
    case Add(n, home, _, _) => n !in w.handles && Alive(w, home)
    case MoveConstruct(to, from) => to !in w.handles && from in w.handles
    case MoveAssign(to, from) => to in w.handles && from in w.handles
    case Remove(n) => n in w.handles
    case Detach(to, from) => to !in w.handles && from in w.handles
    case Destroy(n) => n in w.handles
    case NewResource(t) => t !in w.known
    case DropResource(_) => true
  }

  function Next(w: World, op: Op): (r: World)
    requires Possible(w, op)
  {
    match op
    case Add(n, home, p, fn) => AddedHook(w, n, home, p, fn)
    case MoveConstruct(to, from) => Moved(w, to, from)
    case MoveAssign(to, from) => MoveAssigned(w, to, from)
    case Remove(n) => RemovedHandle(w, n)
    case Detach(to, from) => DetachedHandle(w, to, from)
    case Destroy(n) => Destroyed(w, n)
    case NewResource(t) => w.(tables := w.tables[t := NewBus()], known := w.known + {t})
    case DropResource(t) => w.(tables := w.tables - {t})
  }

  lemma NextKeeps(w: World, op: Op)
    requires Inv(w) && Possible(w, op)
    ensures Inv(Next(w, op))
  {
    hide Inv, AddedHook, Moved, MoveAssigned, RemovedHandle, DetachedHandle, Destroyed;
    match op
    case Add(n, home, p, fn) => AddKeeps(w, n, home, p, fn);
    case MoveConstruct(to, from) => MoveKeeps(w, to, from);
    case MoveAssign(to, from) => MoveAssignKeeps(w, to, from);
    case Remove(n) => RemoveKeeps(w, n);
    case Detach(to, from) => DetachKeeps(w, to, from);
    case Destroy(n) => DestroyKeeps(w, n);
    case NewResource(t) => NewTableKeeps(w, t);
    case DropResource(t) => DropTableKeeps(w, t);
  }

  predicate CanRun(w: World, ops: seq<Op>)
    decreases |ops|
  {
    ops == [] || (Possible(w, ops[0]) && CanRun(Next(w, ops[0]), ops[1..]))
  }

  function Ran(w: World, ops: seq<Op>): (r: World)
    requires CanRun(w, ops)
    decreases |ops|
  {
    if ops == [] then w else Ran(Next(w, ops[0]), ops[1..])
  }

  /** A server with its two aliases wired or not, and no registrations yet. */
  function Start(exceptionAlias: Option<nat>, accessAlias: Option<nat>): (w: World)
  {
    World(Bus(map[], if exceptionAlias.Some? then {HandlerException} else {}, 1, exceptionAlias, accessAlias),
          map[], {}, map[], {})
  }

  lemma StartIsSound(exceptionAlias: Option<nat>, accessAlias: Option<nat>)
    ensures Inv(Start(exceptionAlias, accessAlias))
  {
    var w := Start(exceptionAlias, accessAlias);
    assert forall p: Phase :: Vec(w.server, p) == [];
    assert Sound(w.server);
  }

  lemma {:induction false} RunKeeps(w: World, ops: seq<Op>)
    requires Inv(w) && CanRun(w, ops)
    ensures Inv(Ran(w, ops))
    decreases |ops|
  {
    if ops != [] {
      hide Inv, Next;
      NextKeeps(w, ops[0]);
      RunKeeps(Next(w, ops[0]), ops[1..]);
    }
  }

  /**
   After any run: slot ids are unique, each registration has exactly one armed handle or was
   detached (never both), and each gate tells whether there is anything to fire.
   */
  lemma RegistrationsAreOwnedOnce(exceptionAlias: Option<nat>, accessAlias: Option<nat>, ops: seq<Op>, r: Reg)
    requires CanRun(Start(exceptionAlias, accessAlias), ops)
    requires Registered(Ran(Start(exceptionAlias, accessAlias), ops), r)
    ensures var w := Ran(Start(exceptionAlias, accessAlias), ops);
            && (forall p: Phase :: Live(BusAt(w, r.home), p, r.id) ==> p == r.phase)
            && (r in w.detached <==> !Owned(w, r))
            && (forall m, n :: Armed(w, m) && Armed(w, n) && RegOf(w.handles[m]) == RegOf(w.handles[n]) == r ==> m == n)
            && (forall p: Phase :: Gated(BusAt(w, r.home), p))
  {
    StartIsSound(exceptionAlias, accessAlias);
    RunKeeps(Start(exceptionAlias, accessAlias), ops);
    var w := Ran(Start(exceptionAlias, accessAlias), ops);
    assert Sound(BusAt(w, r.home));
    forall p: Phase ensures Live(BusAt(w, r.home), p, r.id) ==> p == r.phase {
      LiveOnce(BusAt(w, r.home), r.phase, p, r.id);
    }
    hide Live, Vec, Ids, Ran;
  }

  /** A registration that a handle owns or that was detached is there as long as the server or resource it is on. */
  lemma DetachedStays(exceptionAlias: Option<nat>, accessAlias: Option<nat>, ops: seq<Op>, r: Reg)
    requires CanRun(Start(exceptionAlias, accessAlias), ops)
    ensures var w := Ran(Start(exceptionAlias, accessAlias), ops);
            && (r in w.detached && Alive(w, r.home) ==> Registered(w, r))
            && (Owned(w, r) && Alive(w, r.home) ==> Registered(w, r))
  {
    StartIsSound(exceptionAlias, accessAlias);
    RunKeeps(Start(exceptionAlias, accessAlias), ops);
    hide Ran, Registered;
  }

  /** And on every bus that is alive, with hooks or without: gates right, and no id twice in a vector or across them. */
  lemma EveryBusIsSound(exceptionAlias: Option<nat>, accessAlias: Option<nat>, ops: seq<Op>, home: Home)
    requires CanRun(Start(exceptionAlias, accessAlias), ops)
    requires Alive(Ran(Start(exceptionAlias, accessAlias), ops), home)
    ensures var b := BusAt(Ran(Start(exceptionAlias, accessAlias), ops), home);
            && (forall p: Phase :: Gated(b, p) && Distinct(Vec(b, p)))
            && (forall p: Phase, q: Phase, id: nat :: Live(b, p, id) && Live(b, q, id) ==> p == q)
  {
    StartIsSound(exceptionAlias, accessAlias);
    RunKeeps(Start(exceptionAlias, accessAlias), ops);
    var b := BusAt(Ran(Start(exceptionAlias, accessAlias), ops), home);
    assert Sound(b);
    forall p: Phase, q: Phase, id: nat | Live(b, p, id) && Live(b, q, id) ensures p == q {
      LiveOnce(b, p, q, id);
    }
  }

  // ---- the handle object -----------------------------------------------------------------

  class HookHandle {
    var armed: bool
    var impl: bool
    var slot: nat
    var phase: Phase
    var table: Option<nat>

    function Value(): (h: Handle)
      reads this
    {
      Handle(armed, impl, slot, phase, table)
    }

    constructor (h: Handle)
      ensures Value() == h
    {
      armed, impl, slot, phase, table := h.armed, h.impl, h.slot, h.phase, h.table;
    }

    /** The move constructor. */
    constructor Move(other: HookHandle)
      modifies other
      ensures Value() == old(other.Value()) && other.Value() == Disarmed(old(other.Value()))
    {
      armed, impl, slot, phase, table := other.armed, other.impl, other.slot, other.phase, other.table;
      new;
      other.armed, other.impl, other.table := false, false, None;
    }

    /** What removal erases: nothing, or the registration this handle owns. Disarms first. */
    method Remove() returns (erased: Option<Reg>)
      modifies this
      ensures erased == if old(armed) then Some(RegOf(old(Value()))) else None
      ensures Value() == if old(armed) then Disarmed(old(Value())) else old(Value())
    {
      if !armed { return None; }
      erased := Some(RegOf(Value()));
      armed := false;
      if !impl {
        table := None;
      } else {
        impl, table := false, None;
      }
    }

    /** Move assignment removes what it owns before taking over, and is a no-op on itself. */
    method Assign(other: HookHandle) returns (erased: Option<Reg>)
      modifies this, other
      ensures this == other ==> erased.None? && Value() == old(Value())
      ensures this != other ==>
                && erased == (if old(armed) then Some(RegOf(old(Value()))) else None)
                && Value() == old(other.Value()) && other.Value() == Disarmed(old(other.Value()))
    {
      erased := None;
      if this != other {
        erased := Remove();
        armed, impl, slot, phase, table := other.armed, other.impl, other.slot, other.phase, other.table;
        other.armed, other.impl, other.table := false, false, None;
      }
    }

    method Detach() returns (out: HookHandle)
      modifies this
      ensures fresh(out) && out.Value() == old(Value()).(armed := false) && Value() == Disarmed(old(Value()))
    {
      out := new HookHandle(Handle(false, impl, slot, phase, table));
      armed, impl, table := false, false, None;
    }
  }
}
