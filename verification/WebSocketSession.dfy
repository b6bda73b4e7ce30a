/**
 A WebSocket session from upgrade to end, for every decoder outcome, every send result and
 everything a handler may do with the session from inside its callbacks.
 */
module WebSocketSession {
  import opened Wrappers

  datatype FrameKind = TextFrame | BinaryFrame | PingFrame | PongFrame | CloseFrame

  /** The kinds a handler can ask for; a close frame only comes from close. */
  type Sendable = k: FrameKind | !k.CloseFrame? witness TextFrame

  /** A frame put on the wire, and how many of its bytes got there. */
  datatype Frame = Frame(kind: FrameKind, bytes: seq<nat>, sent: nat)

  datatype Callback =
    | OnOpen
    | OnMessage(payload: seq<nat>)
    | OnBinary(payload: seq<nat>)
    | OnPing(payload: seq<nat>)
    | OnClose(code: nat, reason: seq<nat>)

  /** What a handler can do with the session it is given. */
  datatype Action = Send(kind: Sendable, payload: seq<nat>) | CloseWith(code: nat, reason: seq<nat>)

  datatype Status = GotText | GotBinary | GotPing | GotClose | NeedMore | ProtocolError

  datatype Decoded = Decoded(status: Status, step: nat, payload: seq<nat>)

  /** Every choice is indexed by the moment it is asked for. A close frame is encoded from its code and reason. */
  datatype Env = Env(
    encode: (nat, Sendable, seq<nat>) -> Option<seq<nat>>,
    encodeClose: (nat, nat, seq<nat>) -> Option<seq<nat>>,
    send: nat -> int,
    decode: nat -> Decoded,
    act: (nat, Callback) -> seq<Action>)

  /** A close payload starts with a two-byte status code; without one it is 1000. */
  function CloseCode(payload: seq<nat>): (code: nat)
  {
    if |payload| >= 2 then payload[0] % 256 * 256 + payload[1] % 256 else 1000
  }

  function CloseReason(payload: seq<nat>): (r: seq<nat>) { if |payload| > 2 then payload[2..] else [] }

  /** The payload section 5.5.1 of RFC 6455 gives a code and a reason is read back as them. */
  lemma ClosePayloadRoundTrip(code: nat, reason: seq<nat>)
    requires code < 65536
    ensures var payload := [code / 256, code % 256] + reason;
            CloseCode(payload) == code && CloseReason(payload) == reason
    ensures CloseCode([]) == 1000 && CloseReason([]) == []
  {
  }

  /** "Protocol error" as bytes. */
  const PROTOCOL_ERROR: seq<nat> := [80, 114, 111, 116, 111, 99, 111, 108, 32, 101, 114, 114, 111, 114]

  // ---- the wire --------------------------------------------------------------------------

  /** The part of a session a send can change. */
  datatype Wire = Wire(valid: bool, tick: nat, frames: seq<Frame>)

  /** What the sends from moment `a` to before moment `b` moved. */
  function Moved(env: Env, a: nat, b: nat): (n: nat)
    requires a <= b
    decreases b
  {
    if a == b then 0 else Moved(env, a, b - 1) + if env.send(b - 1) > 0 then env.send(b - 1) else 0
  }

  /** `sent` of `len` bytes went out between two moments: sending goes on until all are gone or a send fails. */
  ghost predicate SentSo(env: Env, len: nat, sent: nat, a: nat, b: nat)
  {
    && a <= b && (forall t :: a <= t < b - 1 ==> env.send(t) > 0)
    && (a < b ==> Moved(env, a, b - 1) < len)
    && sent == (if Moved(env, a, b) < len then Moved(env, a, b) else len)
    && (sent < len ==> a < b && env.send(b - 1) <= 0)
  }

  /** One encoded frame on the wire. */
  ghost predicate Put(env: Env, kind: FrameKind, bytes: seq<nat>, w: Wire, w': Wire)
  {
    && |w'.frames| == |w.frames| + 1 && w.frames <= w'.frames
    && w'.frames[|w.frames|].kind == kind && w'.frames[|w.frames|].bytes == bytes
    && SentSo(env, |bytes|, w'.frames[|w.frames|].sent, w.tick + 1, w'.tick)
  }

  /** send_text, send_binary, send_ping and send_pong: what one of them does, also on a session that is not valid. */
  ghost predicate SendStep(env: Env, kind: Sendable, payload: seq<nat>, w: Wire, w': Wire)
  {
    if !w.valid then w' == w
    else
      match env.encode(w.tick, kind, payload)
      case Some(bytes) => Put(env, kind, bytes, w, w') && (w'.valid <==> w'.frames[|w.frames|].sent == |bytes|)
      case None => w' == Wire(!kind.PingFrame? && !kind.PongFrame?, w.tick + 1, w.frames)
  }

  /** close: the session ends, and one close frame is sent if it can be encoded. */
  ghost predicate CloseStep(env: Env, code: nat, reason: seq<nat>, w: Wire, w': Wire)
  {
    if !w.valid then w' == w
    else
      && !w'.valid
      && match env.encodeClose(w.tick, code, reason)
         case Some(bytes) => Put(env, CloseFrame, bytes, w, w')
         case None => w'.frames == w.frames && w'.tick == w.tick + 1
  }

  ghost predicate ActionStep(env: Env, action: Action, w: Wire, w': Wire)
  {
    match action
    case Send(kind, payload) => SendStep(env, kind, payload, w, w')
    case CloseWith(code, reason) => CloseStep(env, code, reason, w, w')
  }

  /** All the actions of a callback, one after the other. */
  ghost predicate Acted(env: Env, actions: seq<Action>, w: Wire, w': Wire)
    decreases |actions|
  {
    if actions == [] then w' == w
    else
      var n := |actions| - 1;
      exists mid: Wire :: Acted(env, actions[..n], w, mid) && ActionStep(env, actions[n], mid, w')
  }

  /**
   Over a socket that takes all it is given, a valid session sends exactly the frame asked for, whole; a close ends it.
   */
  lemma FrameGoesOut(env: Env, action: Action, w: Wire, w': Wire, bytes: seq<nat>)
    requires w.valid && ActionStep(env, action, w, w') && bytes != [] && forall t: nat :: env.send(t) >= |bytes|
    requires match action
             case Send(kind, payload) => env.encode(w.tick, kind, payload) == Some(bytes)
             case CloseWith(code, reason) => env.encodeClose(w.tick, code, reason) == Some(bytes)
    ensures w'.frames == w.frames + [Frame(if action.Send? then action.kind else CloseFrame, bytes, |bytes|)]
    ensures w'.valid <==> action.Send?
  {
    var f := w'.frames[|w.frames|];
    assert f.sent == |bytes| by {
      if w.tick + 1 < w'.tick { assert env.send(w'.tick - 1) >= |bytes|; }
    }
    assert f == Frame(if action.Send? then action.kind else CloseFrame, bytes, |bytes|);
  }

  predicate Whole(f: Frame) { f.sent == |f.bytes| && !f.kind.CloseFrame? }

  /** Only the last frame may be a close frame or be cut short. */
  ghost predicate WireOk(frames: seq<Frame>, valid: bool)
  {
    && (forall i :: 0 <= i < |frames| - 1 ==> Whole(frames[i]))
    && (valid && frames != [] ==> Whole(frames[|frames| - 1]))
  }

  /** No step adds to the wire of a session that is not valid, revives one, or breaks the wire. */
  ghost predicate Onward(w: Wire, w': Wire)
  {
    && WireOk(w'.frames, w'.valid) && w.frames <= w'.frames && w.tick <= w'.tick
    && (w'.valid ==> w.valid) && (!w.valid ==> w'.frames == w.frames)
  }

  lemma StepOnward(env: Env, action: Action, w: Wire, w': Wire)
    requires WireOk(w.frames, w.valid) && ActionStep(env, action, w, w')
    ensures Onward(w, w')
  {
    hide Moved;
    forall i | 0 <= i < |w'.frames| - 1 ensures Whole(w'.frames[i]) {
      assert i < |w.frames| ==> w'.frames[i] == w.frames[i];
    }
  }

  lemma {:induction false} ActedOnward(env: Env, actions: seq<Action>, w: Wire, w': Wire)
    requires WireOk(w.frames, w.valid) && Acted(env, actions, w, w')
    ensures Onward(w, w')
    decreases |actions|
  {
    if actions != [] {
      var n := |actions| - 1;
      var mid: Wire :| Acted(env, actions[..n], w, mid) && ActionStep(env, actions[n], mid, w');
      hide ActionStep, WireOk;
      ActedOnward(env, actions[..n], w, mid);
      StepOnward(env, actions[n], mid, w');
    }
  }

  lemma ActedMore(env: Env, actions: seq<Action>, action: Action, w: Wire, mid: Wire, w': Wire)
    requires Acted(env, actions, w, mid) && ActionStep(env, action, mid, w')
    ensures Acted(env, actions + [action], w, w')
  {
    hide ActionStep;
    var all := actions + [action];
    assert all[..|actions|] == actions && all[|actions|] == action;
  }

  // ---- callbacks -------------------------------------------------------------------------

  /** on_close is the last callback, and there is none while the session is valid. */
  ghost predicate CallbacksOk(cs: seq<Callback>, valid: bool)
  {
    && (forall i :: 0 <= i < |cs| - 1 ==> !cs[i].OnClose?)
    && (valid && cs != [] ==> !cs[|cs| - 1].OnClose?)
  }

  /** The callback a decoded frame is handed to, if any. */
  function CallbackOf(d: Decoded): (cs: seq<Callback>)
  {
    match d.status
    case GotText => [OnMessage(d.payload)]
    case GotBinary => [OnBinary(d.payload)]
    case GotPing => [OnPing(d.payload)]
    case GotClose => [OnClose(CloseCode(d.payload), CloseReason(d.payload))]
    case _ => []
  }

  function Called(ds: seq<Decoded>): (cs: seq<Callback>)
  {
    if ds == [] then [] else Called(ds[..|ds| - 1]) + CallbackOf(ds[|ds| - 1])
  }

  /** The outcomes of the decoder at some moments. */
  function Outcomes(env: Env, ts: seq<nat>): (ds: seq<Decoded>)
    ensures |ds| == |ts| && forall i :: 0 <= i < |ts| ==> ds[i] == env.decode(ts[i])
  {
    seq(|ts|, i requires 0 <= i < |ts| => env.decode(ts[i]))
  }

  function Steps(ds: seq<Decoded>): (n: nat)
  {
    if ds == [] then 0 else Steps(ds[..|ds| - 1]) + ds[|ds| - 1].step
  }

  /** The decoder has used up the buffer, or has used nothing and needs more. */
  predicate Fed(ds: seq<Decoded>, len: nat) { Steps(ds) >= len || (ds != [] && ds[|ds| - 1].step == 0) }

  /** It is asked at later and later moments, and not again once it was fed. */
  ghost predicate Turns(ds: seq<Decoded>, ts: seq<nat>, len: nat)
    requires |ds| == |ts|
  {
    && (forall i, j :: 0 <= i < j < |ts| ==> ts[i] < ts[j])
    && (forall i :: 0 <= i < |ds| ==> !Fed(ds[..i], len))
  }

  lemma CalledMore(ds: seq<Decoded>, d: Decoded)
    ensures Called(ds + [d]) == Called(ds) + CallbackOf(d) && Steps(ds + [d]) == Steps(ds) + d.step
  {
    assert (ds + [d])[..|ds|] == ds;
  }

  lemma TurnsMore(ds: seq<Decoded>, ts: seq<nat>, d: Decoded, t: nat, len: nat)
    requires |ds| == |ts| && Turns(ds, ts, len) && !Fed(ds, len) && forall i :: 0 <= i < |ts| ==> ts[i] < t
    ensures Turns(ds + [d], ts + [t], len)
  {
    hide Fed;
    forall i | 0 <= i < |ds + [d]| ensures !Fed((ds + [d])[..i], len) {
      assert (ds + [d])[..i] == ds[..i];
      if i == |ds| { assert ds[..i] == ds; }
    }
  }

  lemma NoTurns(len: nat)
    ensures Turns([], [], len) && Called([]) == []
  {
  }

  lemma {:induction false} CalledConcat(a: seq<Decoded>, b: seq<Decoded>)
    ensures Called(a + b) == Called(a) + Called(b)
  {
    if b == [] {
      assert a + b == a;
    } else {
      var n := |b| - 1;
      assert (a + b)[..|a + b| - 1] == a + b[..n];
      CalledConcat(a, b[..n]);
    }
  }

  /**
   Each decoded frame is delivered once, in order, with its payload: a text frame to on_message, and so on; what
   carries no frame is delivered to nobody.
   */
  lemma EveryFrameIsDelivered(ds: seq<Decoded>, i: nat)
    requires i < |ds|
    ensures var before, d, cs := Called(ds[..i]), ds[i], Called(ds);
            var now := cs[..if |cs| < |before| + 1 then |cs| else |before| + 1];
            && before <= cs
            && (d.status.GotText? ==> now == before + [OnMessage(d.payload)])
            && (d.status.GotBinary? ==> now == before + [OnBinary(d.payload)])
            && (d.status.GotPing? ==> now == before + [OnPing(d.payload)])
            && (d.status.GotClose? ==> now == before + [OnClose(CloseCode(d.payload), CloseReason(d.payload))])
            && (d.status.NeedMore? || d.status.ProtocolError? ==> Called(ds[..i + 1]) == before)
  {
    hide CloseCode, CloseReason;
    assert ds == ds[..i + 1] + ds[i + 1..] && ds[..i + 1] == ds[..i] + [ds[i]];
    CalledConcat(ds[..i + 1], ds[i + 1..]);
    CalledMore(ds[..i], ds[i]);
  }

  // ---- the session -----------------------------------------------------------------------

  class Session {
    const env: Env
    var valid: bool
    var tick: nat
    var frames: seq<Frame>
    var callbacks: seq<Callback>

    ghost function View(): (w: Wire)
      reads this
    {
      Wire(valid, tick, frames)
    }

    ghost predicate Ok()
      reads this
    {
      WireOk(frames, valid) && CallbacksOk(callbacks, valid)
    }

    constructor (env: Env)
      ensures Ok() && valid && frames == [] && callbacks == [] && this.env == env
    {
      this.env, valid, tick, frames, callbacks := env, true, 0, [], [];
    }

    /** send_all: keeps sending the rest until all is gone or a send fails. */
    method SendAll(len: nat) returns (ok: bool, sent: nat)
      modifies this`tick
      ensures SentSo(env, len, sent, old(tick), tick) && (ok <==> sent == len)
    {
      sent := 0;
      while sent < len
        invariant old(tick) <= tick && forall t :: old(tick) <= t < tick ==> env.send(t) > 0
        invariant sent == if Moved(env, old(tick), tick) < len then Moved(env, old(tick), tick) else len
        invariant old(tick) < tick ==> Moved(env, old(tick), tick - 1) < len
        decreases len - sent
      {
        var ret := env.send(tick);
        tick := tick + 1;
        if ret <= 0 { return false, sent; }
        sent := sent + if ret <= len - sent then ret else len - sent;
      }
      ok := true;
    }

    /** send_text, send_binary, send_ping and send_pong. Only control frames take a failed encoding as the end. */
    method SendFrame(kind: Sendable, payload: seq<nat>)
      modifies this`valid, this`tick, this`frames
      ensures SendStep(env, kind, payload, old(View()), View())
    {
      if !valid { return; }
      var encoded := env.encode(tick, kind, payload);
      tick := tick + 1;
      if encoded.Some? {
        var ok, sent := SendAll(|encoded.value|);
        if !ok { valid := false; }
        frames := frames + [Frame(kind, encoded.value, sent)];
      } else if kind.PingFrame? || kind.PongFrame? {
        valid := false;
      }
    }

    /** close invalidates the session before it sends anything. */
    method Close(code: nat, reason: seq<nat>)
      modifies this`valid, this`tick, this`frames
      ensures CloseStep(env, code, reason, old(View()), View()) && !valid
    {
      if !valid { return; }
      valid := false;
      var encoded := env.encodeClose(tick, code, reason);
      tick := tick + 1;
      if encoded.Some? {
        var _, sent := SendAll(|encoded.value|);
        frames := frames + [Frame(CloseFrame, encoded.value, sent)];
      }
    }

    /** A callback: the handler does what it likes with the session. */
    method Call(c: Callback)
      requires WireOk(frames, valid)
      modifies this
      ensures callbacks == old(callbacks) + [c] && tick > old(tick) && Onward(old(View()), View())
      ensures Acted(env, env.act(old(tick), c), old(View()).(tick := old(tick) + 1), View())
    {
      hide SendStep, CloseStep, WireOk;
      callbacks := callbacks + [c];
      var actions := env.act(tick, c);
      tick := tick + 1;
      ghost var start := View();
      for i := 0 to |actions|
        invariant callbacks == old(callbacks) + [c] && Acted(env, actions[..i], start, View())
      {
        ghost var before := View();
        match actions[i] {
          case Send(kind, payload) => SendFrame(kind, payload);
          case CloseWith(code, reason) => Close(code, reason);
        }
        ActedMore(env, actions[..i], actions[i], start, before, View());
        assert actions[..i + 1] == actions[..i] + [actions[i]];
      }
      assert actions[..|actions|] == actions;
      ActedOnward(env, actions, start, View());
    }

    /** handle_close_frame: on_close, then the close is echoed unless the handler has closed already. */
    method HandleClose(payload: seq<nat>)
      requires Ok() && valid
      modifies this
      ensures Ok() && !valid && tick > old(tick) && Onward(old(View()), View())
      ensures var code, reason := CloseCode(payload), CloseReason(payload);
              && callbacks == old(callbacks) + [OnClose(code, reason)]
              && exists mid: Wire ::
                   && Acted(env, env.act(old(tick), OnClose(code, reason)), old(View()).(tick := old(tick) + 1), mid)
                   && CloseStep(env, code, reason, mid, View())
    {
      hide SendStep, CloseCode, CloseReason;
      Call(OnClose(CloseCode(payload), CloseReason(payload)));
      ghost var mid := View();
      Close(CloseCode(payload), CloseReason(payload));
      StepOnward(env, CloseWith(CloseCode(payload), CloseReason(payload)), mid, View());
    }

    /** dispatch_websocket_frame. */
    method Dispatch(d: Decoded)
      requires Ok() && valid
      modifies this
      ensures Ok() && tick >= old(tick) && Onward(old(View()), View())
      ensures d.status.GotClose? || d.status.ProtocolError? ==> !valid
      ensures d.status.NeedMore? ==> View() == old(View())
      ensures d.status.ProtocolError? ==> CloseStep(env, 1002, PROTOCOL_ERROR, old(View()), View())
      ensures d.status.GotText? || d.status.GotBinary? || d.status.GotPing? ==>
                && |callbacks| == |old(callbacks)| + 1
                && Acted(env, env.act(old(tick), callbacks[|old(callbacks)|]), old(View()).(tick := old(tick) + 1),
                     View())
      ensures callbacks == old(callbacks) + match d.status
                                            case GotText => [OnMessage(d.payload)]
                                            case GotBinary => [OnBinary(d.payload)]
                                            case GotPing => [OnPing(d.payload)]
                                            case GotClose => [OnClose(CloseCode(d.payload), CloseReason(d.payload))]
                                            case _ => []
    {
      hide SendStep, CloseCode, CloseReason, Acted;
      match d.status
      case GotText => Call(OnMessage(d.payload));
      case GotBinary => Call(OnBinary(d.payload));
      case GotPing => Call(OnPing(d.payload));
      case GotClose => HandleClose(d.payload);
      case NeedMore =>
      case ProtocolError =>
        ghost var before := View();
        Close(1002, PROTOCOL_ERROR);
        StepOnward(env, CloseWith(1002, PROTOCOL_ERROR), before, View());
    }

    /** One turn of the decode loop. */
    method DecodeFrame() returns (d: Decoded)
      requires Ok() && valid
      modifies this
      ensures Ok() && tick > old(tick) && Onward(old(View()), View())
      ensures d == env.decode(old(tick)) && callbacks == old(callbacks) + CallbackOf(d)
    {
      hide CallbacksOk, CloseStep, CloseCode, CloseReason;
      d := env.decode(tick);
      tick := tick + 1;
      Dispatch(d);
    }

    /**
     decode_websocket_buffer: the decoder is asked until it is fed or the session ends, and each of its outcomes is
     dispatched. `ts` are the moments it was asked.
     */
    method DecodeBuffer(len: nat) returns (ghost ts: seq<nat>)
      requires Ok()
      modifies this
      ensures Ok() && Onward(old(View()), View())
      ensures callbacks == old(callbacks) + Called(Outcomes(env, ts))
      ensures Turns(Outcomes(env, ts), ts, len) && (Fed(Outcomes(env, ts), len) || !valid)
      ensures (forall i :: 0 <= i < |ts| ==> old(tick) <= ts[i] < tick) && (!old(valid) ==> ts == [])
    {
      hide CallbacksOk, WireOk, CallbackOf, Turns, Called;
      var offset := 0;
      ts := [];
      NoTurns(len);
      assert Outcomes(env, ts) == [];
      while offset < len && valid
        invariant Ok() && Onward(old(View()), View()) && Turns(Outcomes(env, ts), ts, len)
        invariant forall i :: 0 <= i < |ts| ==> old(tick) <= ts[i] < tick
        invariant callbacks == old(callbacks) + Called(Outcomes(env, ts)) && offset == Steps(Outcomes(env, ts))
        invariant (offset < len ==> !Fed(Outcomes(env, ts), len)) && (!old(valid) ==> ts == [])
        decreases len - offset
      {
        ghost var ds, t, before := Outcomes(env, ts), tick, callbacks;
        var d := DecodeFrame();
        TurnsMore(ds, ts, d, t, len);
        CalledMore(ds, d);
        ts := ts + [t];
        assert Outcomes(env, ts) == ds + [d];
        assert before + CallbackOf(d) == old(callbacks) + (Called(ds) + CallbackOf(d));
        offset := offset + d.step;
        if d.step == 0 { break; }
      }
    }

    /** One more buffer. */
    method Feed(len: nat, ghost turns: seq<seq<nat>>, ghost buffers: seq<nat>) returns (ghost turns': seq<seq<nat>>)
      requires Ok() && DecodedSoFar(env, turns, buffers, true) && |turns| < |buffers| && buffers[|turns|] == len
      requires callbacks == [OnOpen] + Delivered(env, turns)
      modifies this
      ensures Ok() && |turns'| == |turns| + 1 && DecodedSoFar(env, turns', buffers, valid)
      ensures callbacks == [OnOpen] + Delivered(env, turns') && (valid ==> old(valid))
    {
      hide WireOk, Acted, Called, Turns, Fed, DecodedSoFar, CallbacksOk;
      ghost var ts := DecodeBuffer(len);
      assert Turned(env, ts, len, !valid);
      MoreTurns(env, turns, ts, buffers, valid);
      turns' := turns + [ts];
    }

    /**
     upgrade_handler, for the data buffered before the upgrade and any sequence of receives. `turns` has the moments
     the decoder was asked for each of them, in order: after on_open every buffer is decoded in full, each decoded
     frame handed to its callback, until a receive fails or the session ends.
     */
    method Run(extra: nat, receives: seq<int>) returns (ghost turns: seq<seq<nat>>)
      requires Ok() && valid && frames == [] && callbacks == []
      modifies this
      ensures Ok() && callbacks == [OnOpen] + Delivered(env, turns)
      ensures DecodedAll(env, turns, Buffers(extra, receives), valid)
    {
      hide WireOk, Acted, Called, Turned;
      NothingYet(env, Buffers(extra, receives));
      ghost var buffers := Buffers(extra, receives);
      Call(OnOpen);
      turns := [];
      assert [OnOpen] + Delivered(env, turns) == [OnOpen];
      if extra > 0 { turns := Feed(extra, turns, buffers); }
      var i := 0;
      while valid && i < |receives|
        invariant i <= |receives| && Ok() && callbacks == [OnOpen] + Delivered(env, turns)
        invariant DecodedSoFar(env, turns, buffers, valid)
        invariant valid ==> buffers[|turns|..] == Received(receives[i..])
        decreases |receives| - i
      {
        if receives[i] <= 0 { break; }
        turns := Feed(receives[i], turns, buffers);
        assert receives[i..][1..] == receives[i + 1..];
        i := i + 1;
      }
    }
  }

  /** The buffers of a session: what came with the upgrade, then each receive up to the first that fails. */
  function Buffers(extra: nat, receives: seq<int>): (lens: seq<nat>)
  {
    (if extra > 0 then [extra] else []) + Received(receives)
  }

  function Received(receives: seq<int>): (lens: seq<nat>)
  {
    if receives == [] || receives[0] <= 0 then [] else [receives[0]] + Received(receives[1..])
  }

  /** Each receive is a buffer as long as it and all before it succeed. */
  lemma {:induction false} ReceivedExactly(receives: seq<int>)
    ensures |Received(receives)| <= |receives|
    ensures forall i :: 0 <= i < |Received(receives)| ==> receives[i] > 0 && Received(receives)[i] == receives[i]
    ensures |Received(receives)| < |receives| ==> receives[|Received(receives)|] <= 0
  {
    if receives != [] && receives[0] > 0 { ReceivedExactly(receives[1..]); }
  }

  /** The first buffer is what came with the upgrade, if anything did. */
  lemma BuffersExactly(extra: nat, receives: seq<int>)
    ensures var first := if extra > 0 then 1 else 0;
            && first <= |Buffers(extra, receives)| && (extra > 0 ==> Buffers(extra, receives)[0] == extra)
            && Buffers(extra, receives)[first..] == Received(receives)
  {
  }

  /** What a session's buffers are delivered as. */
  function Delivered(env: Env, turns: seq<seq<nat>>): (cs: seq<Callback>)
  {
    if turns == [] then [] else Delivered(env, turns[..|turns| - 1]) + Called(Outcomes(env, turns[|turns| - 1]))
  }

  /** One buffer was decoded in full, or the session ended over it. */
  ghost predicate Turned(env: Env, ts: seq<nat>, len: nat, ended: bool)
  {
    Turns(Outcomes(env, ts), ts, len) && (Fed(Outcomes(env, ts), len) || ended)
  }

  ghost predicate DecodedSoFar(env: Env, turns: seq<seq<nat>>, buffers: seq<nat>, valid: bool)
  {
    && |turns| <= |buffers|
    && forall k :: 0 <= k < |turns| ==> Turned(env, turns[k], buffers[k], k == |turns| - 1 && !valid)
  }

  /** Every buffer was, one after the other; none is left out while the session is valid. */
  ghost predicate DecodedAll(env: Env, turns: seq<seq<nat>>, buffers: seq<nat>, valid: bool)
  {
    DecodedSoFar(env, turns, buffers, valid) && (valid ==> |turns| == |buffers|)
  }

  lemma NothingYet(env: Env, buffers: seq<nat>)
    ensures forall valid: bool :: DecodedSoFar(env, [], buffers, valid)
  {
  }

  lemma MoreTurns(env: Env, turns: seq<seq<nat>>, ts: seq<nat>, buffers: seq<nat>, valid: bool)
    requires DecodedSoFar(env, turns, buffers, true) && |turns| < |buffers|
    requires Turned(env, ts, buffers[|turns|], !valid)
    ensures DecodedSoFar(env, turns + [ts], buffers, valid)
    ensures Delivered(env, turns + [ts]) == Delivered(env, turns) + Called(Outcomes(env, ts))
  {
    hide Called, Turns, Fed;
    var all := turns + [ts];
    assert all[..|turns|] == turns;
    forall k | 0 <= k < |all| ensures Turned(env, all[k], buffers[k], k == |all| - 1 && !valid) {
      if k < |turns| { assert Turned(env, turns[k], buffers[k], false); }
    }
  }

  // ---- over a whole session --------------------------------------------------------------

  /** So at most one close frame is sent, nothing follows it, and nothing follows a frame that was cut short. */
  lemma NothingAfterClose(frames: seq<Frame>, valid: bool, i: nat, j: nat)
    requires WireOk(frames, valid) && i < |frames| && j < |frames|
    requires frames[i].kind.CloseFrame? || frames[i].sent < |frames[i].bytes|
    ensures !valid && j <= i && (frames[j].kind.CloseFrame? ==> j == i)
  {
    assert !Whole(frames[i]);
    assert i == |frames| - 1;
  }

  lemma OnCloseOnce(cs: seq<Callback>, valid: bool, i: nat, j: nat)
    requires CallbacksOk(cs, valid) && i < |cs| && j < |cs| && cs[i].OnClose?
    ensures !valid && j <= i && (cs[j].OnClose? ==> j == i)
  {
    assert i == |cs| - 1;
  }
}
