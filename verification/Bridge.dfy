// The byte bridge: at each endpoint one pump from the socket to a publisher and one from a
// subscriber to the socket. A flow is one direction, from the near socket to the far socket.
module Bridge {
  import opened Seqs

  type Byte = int
  type Payload = seq<Byte>

  const READ_BUF: nat := 32 * 1024

  /** The near pump: TCP to Zenoh. */
  datatype Tx = Reading | Putting(data: Payload) | Closing | TxDone

  /** The far pump: Zenoh to TCP. */
  datatype Rx = Waiting | Writing(data: Payload) | RxDone

  datatype Flow = Flow(
    declared: bool,        // the far subscriber exists; what is put before that is lost
    tx: Tx,
    read: seq<Byte>,       // bytes read from the near socket
    up: nat,               // the near endpoint's counter
    puts: seq<Payload>,    // payloads the publisher accepted; [] is the close sentinel
    unsent: seq<Byte>,     // bytes of a put that failed
    lost: nat,             // how many puts came before the subscriber
    chan: seq<Payload>,    // delivered, not yet received
    taken: nat,            // how many were received
    rx: Rx,
    down: nat,             // the far endpoint's counter
    written: seq<Byte>,    // bytes written to the far socket
    sawSentinel: bool)

  datatype FlowLabel =
    | Declare
    | Read(chunk: Payload)
    | ReadEnd                 // end of file or a read error
    | PutOk
    | PutFail
    | Receive
    | ReceiveClosed
    | WriteOk
    | WriteFail(n: nat)       // only the first n bytes got out

  function InitFlow(): Flow {
    Flow(false, Reading, [], 0, [], [], 0, [], 0, Waiting, 0, [], false)
  }

  function Publish(f: Flow, p: Payload): Flow {
    if f.declared then f.(puts := f.puts + [p], chan := f.chan + [p])
    else f.(puts := f.puts + [p], lost := f.lost + 1)
  }

  function FlowStep(f: Flow, l: FlowLabel): Flow {
    match (l, f.tx, f.rx)
    case (Declare, _, _) => f.(declared := true)
    case (Read(chunk), Reading, _) =>
      if 0 < |chunk| <= READ_BUF then f.(read := f.read + chunk, up := f.up + |chunk|, tx := Putting(chunk)) else f
    case (ReadEnd, Reading, _) => f.(tx := Closing)
    case (PutOk, Putting(p), _) => Publish(f, p).(tx := Reading)
    case (PutFail, Putting(p), _) => f.(unsent := p, tx := TxDone)
    case (PutOk, Closing, _) => Publish(f, []).(tx := TxDone)
    case (PutFail, Closing, _) => f.(tx := TxDone)
    case (Receive, _, Waiting) =>
      if f.chan == [] then f
      else
        var p, g := f.chan[0], f.(chan := f.chan[1..], taken := f.taken + 1);
        if p == [] then g.(rx := RxDone, sawSentinel := true)
        else g.(rx := Writing(p), down := f.down + |p|)
    case (ReceiveClosed, _, Waiting) => if f.declared then f.(rx := RxDone) else f
    case (WriteOk, _, Writing(p)) => f.(rx := Waiting, written := f.written + p)
    case (WriteFail(n), _, Writing(p)) =>
      if n <= |p| then f.(rx := RxDone, written := f.written + p[..n]) else f
    case _ => f
  }

  function RunFlow(f: Flow, ls: seq<FlowLabel>): Flow
    decreases |ls|
  {
    if ls == [] then f else FlowStep(RunFlow(f, ls[..|ls| - 1]), ls[|ls| - 1])
  }

  function Concat(ps: seq<Payload>): seq<Byte> {
    if ps == [] then [] else Concat(ps[..|ps| - 1]) + ps[|ps| - 1]
  }

  lemma ConcatNone(ps: seq<Payload>)
    requires ps == []
    ensures Concat(ps) == []
  {
  }

  lemma ConcatSnoc(ps: seq<Payload>, p: Payload)
    ensures Concat(ps + [p]) == Concat(ps) + p
  {
    assert (ps + [p])[..|ps|] == ps;
  }

  lemma {:induction false} ConcatAppend(a: seq<Payload>, b: seq<Payload>)
    ensures Concat(a + b) == Concat(a) + Concat(b)
    decreases |b|
  {
    hide Concat;
    if b == [] {
      assert a + b == a;
      ConcatNone(b);
    } else {
      var init, last := b[..|b| - 1], b[|b| - 1];
      ConcatAppend(a, init);
      ConcatSnoc(a + init, last);
      ConcatSnoc(init, last);
      assert a + b == a + init + [last] && b == init + [last];
    }
  }

  /** Bytes in the near pump's hands that are not published. */
  function Pending(f: Flow): seq<Byte> {
    match f.tx case Putting(p) => p case _ => f.unsent
  }

  function Received(f: Flow): seq<Payload>
    requires f.lost + f.taken <= |f.puts|
  {
    f.puts[f.lost..f.lost + f.taken]
  }

  /** Near half: what was read is what was published, plus what is in hand; the empty payload is
      published at most once, last, and only as the close. */
  predicate NearInv(f: Flow) {
    && f.up == |f.read|
    && f.read == Concat(f.puts) + Pending(f)
    && (f.tx.Reading? || f.tx.Closing? ==> f.unsent == [])
    && (f.tx.Putting? ==> f.unsent == [] && f.tx.data != [])
    && (forall i :: 0 <= i < |f.puts| && f.puts[i] == [] ==> i == |f.puts| - 1 && f.tx.TxDone? && f.unsent == [])
  }

  /** The channel is first-in first-out over the puts made since the subscriber was declared. */
  predicate ChannelInv(f: Flow) {
    && f.lost + f.taken <= |f.puts|
    && f.chan == f.puts[f.lost + f.taken..]
    && (!f.declared ==> f.lost == |f.puts| && f.rx == Waiting)
  }

  /** Far half: what was written is the start of what was received, short of the payload in hand. */
  predicate FarInv(f: Flow) {
    && ChannelInv(f)
    && f.down == |Concat(Received(f))|
    && (match f.rx
        case Waiting => f.written == Concat(Received(f)) && !f.sawSentinel
        case Writing(p) => f.written + p == Concat(Received(f)) && p != [] && !f.sawSentinel
        case RxDone => f.written <= Concat(Received(f)))
    && (f.sawSentinel ==> f.taken > 0 && f.puts[f.lost + f.taken - 1] == [] && f.written == Concat(Received(f)))
  }

  /** The far pump has seen the close exactly when the last payload it received was the empty one. */
  predicate SentinelOk(f: Flow) {
    f.lost + f.taken <= |f.puts| && (f.sawSentinel <==> f.taken > 0 && f.puts[f.lost + f.taken - 1] == [])
  }

  predicate FlowInv(f: Flow) {
    NearInv(f) && FarInv(f) && SentinelOk(f)
  }

  lemma SentinelStep(f: Flow, l: FlowLabel)
    requires ChannelInv(f) && SentinelOk(f) && (f.rx == Waiting ==> !f.sawSentinel)
    ensures SentinelOk(FlowStep(f, l))
  {
  }

  lemma WaitingHasNotSeen(f: Flow)
    requires FarInv(f)
    ensures ChannelInv(f) && (f.rx == Waiting ==> !f.sawSentinel)
  {
    hide Concat, Received;
  }

  lemma EmptyFlowInv(f: Flow)
    requires f == Flow(false, Reading, [], 0, [], [], 0, [], 0, Waiting, 0, [], false)
    ensures FlowInv(f)
  {
    EmptyNear(f);
    EmptyFar(f);
    hide NearInv, FarInv;
  }

  lemma EmptyNear(f: Flow)
    requires f.tx == Reading && f.read == [] && f.up == 0 && f.puts == [] && f.unsent == []
    ensures NearInv(f)
  {
    ConcatNone(f.puts);
    hide Concat;
    assert Pending(f) == [];
    assert Concat(f.puts) + Pending(f) == [];
  }

  lemma EmptyFar(f: Flow)
    requires f.puts == [] && f.lost == 0 && f.chan == [] && f.taken == 0 && f.rx == Waiting
    requires f.down == 0 && f.written == [] && !f.sawSentinel
    ensures FarInv(f)
  {
    assert ChannelInv(f);
    assert Received(f) == [];
    ConcatNone(Received(f));
    hide Concat, Received, ChannelInv;
  }

  lemma PublishInv(f: Flow, p: Payload, tx: Tx)
    requires NearInv(f) && FarInv(f)
    requires (f.tx == Putting(p) && tx == Reading) || (f.tx == Closing && p == [] && tx == TxDone)
    ensures var g := Publish(f, p).(tx := tx); NearInv(g) && FarInv(g)
  {
    hide Publish, NearInv, FarInv;
    PublishNear(f, p, tx);
    PublishFar(f, p, tx);
  }

  lemma PublishNear(f: Flow, p: Payload, tx: Tx)
    requires NearInv(f)
    requires (f.tx == Putting(p) && tx == Reading) || (f.tx == Closing && p == [] && tx == TxDone)
    ensures NearInv(Publish(f, p).(tx := tx))
  {
    hide Concat;
    ConcatSnoc(f.puts, p);
    var g := Publish(f, p).(tx := tx);
    assert g.puts == f.puts + [p] && g.read == f.read && g.up == f.up && g.unsent == f.unsent;
    assert forall i :: 0 <= i < |f.puts| ==> g.puts[i] == f.puts[i];
  }

  lemma PublishFar(f: Flow, p: Payload, tx: Tx)
    requires FarInv(f)
    ensures FarInv(Publish(f, p).(tx := tx))
  {
    hide Concat;
    var g := Publish(f, p).(tx := tx);
    assert Received(g) == Received(f);
  }

  lemma ReceiveInv(f: Flow)
    requires NearInv(f) && FarInv(f) && f.rx == Waiting && f.chan != []
    ensures var g := FlowStep(f, Receive); NearInv(g) && FarInv(g)
  {
    hide Concat;
    var g := FlowStep(f, Receive);
    var p := f.chan[0];
    assert g.puts == f.puts && g.tx == f.tx && g.read == f.read && g.unsent == f.unsent && g.up == f.up;
    NearOnly(f, g);
    ReceiveFar(f, g, p);
  }

  lemma NearOnly(f: Flow, g: Flow)
    requires NearInv(f) && g.puts == f.puts && g.tx == f.tx && g.read == f.read && g.unsent == f.unsent && g.up == f.up
    ensures NearInv(g)
  {
    hide Concat;
  }

  lemma ReceiveFar(f: Flow, g: Flow, p: Payload)
    requires FarInv(f) && f.rx == Waiting && f.chan != [] && p == f.chan[0] && g == FlowStep(f, Receive)
    ensures FarInv(g)
  {
    ReceivedOneMore(f, g);
    hide Concat, Received;
    ConcatSnoc(Received(f), p);
  }

  lemma ReceivedOneMore(f: Flow, g: Flow)
    requires ChannelInv(f) && f.chan != [] && g.puts == f.puts && g.lost == f.lost && g.taken == f.taken + 1
    ensures g.lost + g.taken <= |g.puts| && f.chan[0] == f.puts[f.lost + f.taken]
    ensures f.chan[1..] == f.puts[g.lost + g.taken..]
    ensures Received(g) == Received(f) + [f.chan[0]]
  {
    var k := f.lost + f.taken;
    assert f.chan[0] == f.puts[k..][0] == f.puts[k];
  }

  /** A step of the near pump that publishes nothing leaves the far half alone. */
  predicate NearOnlyLabel(l: FlowLabel) {
    l.Read? || l.ReadEnd? || l.PutFail?
  }

  lemma NearStep(f: Flow, l: FlowLabel)
    requires NearInv(f) && NearOnlyLabel(l)
    ensures NearInv(FlowStep(f, l))
  {
    hide Concat;
  }

  lemma FarUntouched(f: Flow, l: FlowLabel)
    requires FarInv(f) && NearOnlyLabel(l)
    ensures FarInv(FlowStep(f, l))
  {
    hide Concat, Received, FarInv;
    FarOnly(f, FlowStep(f, l));
  }

  predicate SameFar(f: Flow, g: Flow) {
    && g.declared == f.declared && g.puts == f.puts && g.lost == f.lost && g.chan == f.chan && g.taken == f.taken
    && g.rx == f.rx && g.down == f.down && g.written == f.written && g.sawSentinel == f.sawSentinel
  }

  lemma FarOnly(f: Flow, g: Flow)
    requires FarInv(f) && SameFar(f, g)
    ensures FarInv(g)
  {
    hide Concat, Received;
    SameReceived(f, g);
  }

  lemma SameReceived(f: Flow, g: Flow)
    requires g.puts == f.puts && g.lost == f.lost && g.taken == f.taken && f.lost + f.taken <= |f.puts|
    ensures Received(g) == Received(f)
  {
  }

  lemma FarStep(f: Flow, l: FlowLabel)
    requires FarInv(f) && (l.Declare? || l.ReceiveClosed? || l.WriteOk? || l.WriteFail?)
    ensures FarInv(FlowStep(f, l))
  {
    hide Concat, Received;
    var g := FlowStep(f, l);
    assert g.puts == f.puts && g.lost == f.lost && g.taken == f.taken;
    SameReceived(f, g);
  }

  lemma NearUntouched(f: Flow, l: FlowLabel)
    requires NearInv(f) && (l.Declare? || l.ReceiveClosed? || l.WriteOk? || l.WriteFail?)
    ensures NearInv(FlowStep(f, l))
  {
    hide Concat, NearInv;
    NearOnly(f, FlowStep(f, l));
  }

  lemma IdlePut(f: Flow, l: FlowLabel)
    requires l == PutOk && !f.tx.Putting? && !f.tx.Closing?
    ensures FlowStep(f, l) == f
  {
  }

  lemma PutIsPublish(f: Flow)
    ensures f.tx.Putting? ==> FlowStep(f, PutOk) == Publish(f, f.tx.data).(tx := Reading)
    ensures f.tx.Closing? ==> FlowStep(f, PutOk) == Publish(f, []).(tx := TxDone)
  {
  }

  lemma IdleReceive(f: Flow)
    requires f.rx != Waiting || f.chan == []
    ensures FlowStep(f, Receive) == f
  {
  }

  lemma FlowStepInv(f: Flow, l: FlowLabel)
    requires FlowInv(f)
    ensures FlowInv(FlowStep(f, l))
  {
    WaitingHasNotSeen(f);
    SentinelStep(f, l);
    hide Concat, NearInv, FarInv, SentinelOk, FlowStep, Publish;
    match l {
      case PutOk =>
        PutIsPublish(f);
        if f.tx.Putting? {
          PublishInv(f, f.tx.data, Reading);
        } else if f.tx.Closing? {
          PublishInv(f, [], TxDone);
        } else {
          IdlePut(f, l);
        }
      case Receive =>
        if f.rx == Waiting && f.chan != [] { ReceiveInv(f); } else { IdleReceive(f); }
      case _ =>
        if NearOnlyLabel(l) {
          NearStep(f, l);
          FarUntouched(f, l);
        } else {
          NearUntouched(f, l);
          FarStep(f, l);
        }
    }
  }

  /** In any run, a far pump has seen the sentinel exactly when the empty payload is among those it received,
      and then it has stopped. */
  lemma SentinelIffReceived(ls: seq<FlowLabel>)
    ensures var f := RunFlow(InitFlow(), ls);
      && f.lost + f.taken <= |f.puts|
      && (f.sawSentinel <==> exists k :: f.lost <= k < f.lost + f.taken && f.puts[k] == [])
      && (f.sawSentinel ==> f.rx == RxDone)
  {
    hide FlowInv, RunFlow;
    EmptyFlowInv(InitFlow());
    RunKeepsInv(InitFlow(), ls);
    SentinelSeen(RunFlow(InitFlow(), ls));
  }

  lemma SentinelSeen(f: Flow)
    requires FlowInv(f)
    ensures f.lost + f.taken <= |f.puts|
    ensures f.sawSentinel <==> exists k :: f.lost <= k < f.lost + f.taken && f.puts[k] == []
    ensures f.sawSentinel ==> f.rx == RxDone
  {
    hide Concat, Received;
    if k :| f.lost <= k < f.lost + f.taken && f.puts[k] == [] {
      assert k == |f.puts| - 1;
    }
  }

  lemma {:induction false} RunKeepsInv(f: Flow, ls: seq<FlowLabel>)
    requires FlowInv(f)
    ensures FlowInv(RunFlow(f, ls))
    decreases |ls|
  {
    hide FlowInv, FlowStep;
    if ls != [] {
      RunKeepsInv(f, ls[..|ls| - 1]);
      FlowStepInv(RunFlow(f, ls[..|ls| - 1]), ls[|ls| - 1]);
    }
  }

  /** Bytes published before the subscriber existed. */
  function LostBytes(f: Flow): nat {
    if f.lost <= |f.puts| then |Concat(f.puts[..f.lost])| else 0
  }

  /** What reaches the far socket is a contiguous block of what was read from the near socket,
      starting right after the bytes lost to an undeclared subscriber; nothing lost, it is a prefix. */
  lemma FlowIsABlock(f: Flow)
    requires FlowInv(f)
    ensures LostBytes(f) + |f.written| <= |f.read|
    ensures f.written == f.read[LostBytes(f)..LostBytes(f) + |f.written|]
    ensures f.lost == 0 ==> f.written <= f.read
    ensures |f.written| <= f.down && LostBytes(f) + f.down <= f.up
  {
    var a, b := Concat(f.puts[..f.lost]), Concat(Received(f));
    var c := ReadParts(f);
    FarFacts(f);
    ConcatNone([]);
    hide Concat, Received, FlowInv, Pending;
    Block(a, b, c, f.written);
  }

  /** What was read: what was lost, what was received, and the rest. */
  lemma ReadParts(f: Flow) returns (c: seq<Byte>)
    requires FlowInv(f)
    ensures f.read == Concat(f.puts[..f.lost]) + Concat(Received(f)) + c
  {
    hide Concat;
    var a, b, d := f.puts[..f.lost], Received(f), f.puts[f.lost + f.taken..];
    assert f.puts == a + b + d;
    ConcatAppend(a + b, d);
    ConcatAppend(a, b);
    c := Concat(d) + Pending(f);
    assert Concat(a) + Concat(b) + Concat(d) + Pending(f) == Concat(a) + Concat(b) + c;
  }

  lemma FarFacts(f: Flow)
    requires FlowInv(f)
    ensures f.lost + f.taken <= |f.puts| && f.written <= Concat(Received(f))
    ensures f.down == |Concat(Received(f))| && f.up == |f.read|
  {
    hide Concat, Received;
  }

  lemma Block(a: seq<Byte>, b: seq<Byte>, c: seq<Byte>, w: seq<Byte>)
    requires w <= b
    ensures (a + b + c)[|a|..|a| + |w|] == w
    ensures |a| == 0 ==> w <= a + b + c
  {
    assert (a + b + c)[|a|..|a| + |b|] == b;
  }

  /** A flow closed by the sentinel delivered everything that was read, except what was lost before
      the subscriber existed; so the two counters agree exactly when nothing was lost. */
  lemma ClosedFlowIsComplete(f: Flow)
    requires FlowInv(f) && f.sawSentinel
    ensures f.tx == TxDone && LostBytes(f) <= |f.read| && f.written == f.read[LostBytes(f)..]
    ensures f.down == |f.written| && LostBytes(f) + f.down == f.up
    ensures f.down == f.up <==> f.lost == 0
  {
    var k := f.lost + f.taken;
    assert f.puts[k - 1] == [] && k == |f.puts|;
    var a, b := f.puts[..f.lost], Received(f);
    assert f.puts == a + b;
    ConcatAppend(a, b);
    assert f.read == Concat(a) + Concat(b);
    if f.lost > 0 {
      assert f.puts[0] != [];
      assert a == [f.puts[0]] + a[1..];
      ConcatAppend([f.puts[0]], a[1..]);
      ConcatSnoc([], f.puts[0]);
      assert [] + [f.puts[0]] == [f.puts[0]];
    }
  }

  // ---- Both directions ------------------------------------------------------------------------

  /** `toDev` runs from the gateway's socket to the device's, `toGw` back. */
  datatype Tunnel = Tunnel(toDev: Flow, toGw: Flow)

  datatype TunnelLabel = ToDev(l: FlowLabel) | ToGw(l: FlowLabel)

  datatype BridgeBytes = BridgeBytes(up: nat, down: nat)

  predicate IsTxLabel(l: FlowLabel) {
    l.Read? || l.ReadEnd? || l.PutOk? || l.PutFail?
  }

  /** An endpoint declares its own subscriber before it starts its pumps. */
  function TunnelStep(t: Tunnel, l: TunnelLabel): Tunnel {
    match l
    case ToDev(m) => if IsTxLabel(m) && !t.toGw.declared then t else t.(toDev := FlowStep(t.toDev, m))
    case ToGw(m) => if IsTxLabel(m) && !t.toDev.declared then t else t.(toGw := FlowStep(t.toGw, m))
  }

  function RunTunnel(ls: seq<TunnelLabel>): Tunnel
    decreases |ls|
  {
    if ls == [] then Tunnel(InitFlow(), InitFlow()) else TunnelStep(RunTunnel(ls[..|ls| - 1]), ls[|ls| - 1])
  }

  predicate TunnelInv(t: Tunnel) {
    && FlowInv(t.toDev) && FlowInv(t.toGw)
    && (t.toDev.puts != [] ==> t.toGw.declared)
    && (t.toGw.puts != [] ==> t.toDev.declared)
    && (t.toDev.lost == 0 || t.toGw.lost == 0)
  }

  lemma PutsNeedTx(f: Flow, l: FlowLabel)
    ensures FlowStep(f, l).puts != f.puts ==> IsTxLabel(l)
    ensures f.declared ==> FlowStep(f, l).declared
  {
  }

  /** Loss is only ever counted on a put. */
  lemma LossNeedsPut(f: Flow, l: FlowLabel)
    requires ChannelInv(f)
    ensures FlowStep(f, l).lost == if !f.declared then |FlowStep(f, l).puts| else f.lost
  {
  }

  lemma ChannelPart(f: Flow)
    requires FlowInv(f)
    ensures ChannelInv(f)
  {
    hide NearInv, Concat, Received;
  }

  lemma TunnelStepInv(t: Tunnel, l: TunnelLabel)
    requires TunnelInv(t)
    ensures TunnelInv(TunnelStep(t, l))
  {
    hide FlowStep, NearInv, FarInv, Received, Concat;
    FlowStepInv(t.toDev, l.l);
    FlowStepInv(t.toGw, l.l);
    ChannelPart(t.toDev);
    ChannelPart(t.toGw);
    LossNeedsPut(t.toDev, l.l);
    LossNeedsPut(t.toGw, l.l);
    PutsNeedTx(t.toDev, l.l);
    PutsNeedTx(t.toGw, l.l);
  }

  lemma BlockIsSafe(f: Flow)
    requires FlowInv(f)
    ensures FlowSafe(f)
  {
    hide Concat;
    FlowIsABlock(f);
  }

  lemma {:induction false} ReachableTunnel(ls: seq<TunnelLabel>)
    ensures TunnelInv(RunTunnel(ls))
    decreases |ls|
  {
    if ls != [] {
      hide TunnelInv, TunnelStep;
      ReachableTunnel(ls[..|ls| - 1]);
      TunnelStepInv(RunTunnel(ls[..|ls| - 1]), ls[|ls| - 1]);
    } else {
      hide FlowInv;
      EmptyFlowInv(InitFlow());
    }
  }

  /** The near socket was not touched and nothing was put. */
  predicate Untouched(f: Flow) { f.tx == Reading && f.read == [] && f.puts == [] }

  lemma StaysUntouched(f: Flow, l: FlowLabel)
    ensures Untouched(f) && !IsTxLabel(l) ==> Untouched(FlowStep(f, l))
    ensures f.declared ==> FlowStep(f, l).declared
  {
  }

  /** In every run, an endpoint reads nothing from its socket and puts nothing before its own
      subscriber is declared. */
  lemma {:induction false} SilentUntilDeclared(ls: seq<TunnelLabel>)
    ensures var t := RunTunnel(ls);
      (Untouched(t.toDev) || t.toGw.declared) && (Untouched(t.toGw) || t.toDev.declared)
    decreases |ls|
  {
    if ls != [] {
      SilentUntilDeclared(ls[..|ls| - 1]);
      var t, l := RunTunnel(ls[..|ls| - 1]), ls[|ls| - 1];
      hide FlowStep;
      StaysUntouched(t.toDev, l.l);
      StaysUntouched(t.toGw, l.l);
    }
  }

  /** In every run of the bridge: each direction delivers a contiguous block of its input, the close
      sentinel is the last payload if it is there at all and is never data, and payloads are lost to
      a late subscriber in at most one of the two directions. */
  lemma BridgeIsSafe(ls: seq<TunnelLabel>)
    ensures var t := RunTunnel(ls);
      FlowSafe(t.toDev) && FlowSafe(t.toGw) && (t.toDev.lost == 0 || t.toGw.lost == 0)
  {
    ReachableTunnel(ls);
    BlockIsSafe(RunTunnel(ls).toDev);
    BlockIsSafe(RunTunnel(ls).toGw);
    hide FlowSafe, FlowInv;
  }

  predicate FlowSafe(f: Flow) {
    && LostBytes(f) + |f.written| <= |f.read|
    && f.written == f.read[LostBytes(f)..LostBytes(f) + |f.written|]
    && (f.lost == 0 ==> f.written <= f.read)
    && |f.written| <= f.down && LostBytes(f) + f.down <= f.up && f.up == |f.read|
    && (forall i :: 0 <= i < |f.puts| && f.puts[i] == [] ==> i == |f.puts| - 1 && f.tx.TxDone?)
  }

  function GatewayBytes(t: Tunnel): BridgeBytes {
    BridgeBytes(t.toDev.up, t.toGw.down)
  }

  function AgentBytes(t: Tunnel): BridgeBytes {
    BridgeBytes(t.toGw.up, t.toDev.down)
  }

  /** When both directions were closed by the sentinel, the two endpoints report the same totals
      exactly when no payload was lost to a late subscriber. */
  lemma EndpointsAgreeIff(ls: seq<TunnelLabel>)
    requires RunTunnel(ls).toDev.sawSentinel && RunTunnel(ls).toGw.sawSentinel
    ensures var t := RunTunnel(ls); var g, a := GatewayBytes(t), AgentBytes(t);
      (g.up == a.down && g.down == a.up) <==> t.toDev.lost == 0 && t.toGw.lost == 0
  {
    ReachableTunnel(ls);
    ClosedFlowIsComplete(RunTunnel(ls).toDev);
    ClosedFlowIsComplete(RunTunnel(ls).toGw);
  }

  // ---- Losing a beginning ---------------------------------------------------------------------------

  datatype Direction = TowardsDevice | TowardsGateway

  function Way(t: Tunnel, d: Direction): Flow {
    if d.TowardsDevice? then t.toDev else t.toGw
  }

  /** The endpoint that receives in direction `d` declares its subscriber. */
  function Declares(d: Direction): TunnelLabel {
    if d.TowardsDevice? then ToDev(Declare) else ToGw(Declare)
  }

  /** Step `k` of the run is a put in direction `d` that the publisher accepted. */
  predicate PutAt(ls: seq<TunnelLabel>, d: Direction, k: nat)
    requires k < |ls|
  {
    Way(RunTunnel(ls[..k + 1]), d).puts != Way(RunTunnel(ls[..k]), d).puts
  }

  predicate DeclaredBefore(ls: seq<TunnelLabel>, d: Direction, k: nat)
    requires k <= |ls|
  {
    exists j :: 0 <= j < k && ls[j] == Declares(d)
  }

  /** Every put among the first `n` steps came after the receiving endpoint's declare. */
  predicate PutsAreHeard(ls: seq<TunnelLabel>, d: Direction, n: nat)
    requires n <= |ls|
  {
    forall k :: 0 <= k < n && PutAt(ls, d, k) ==> DeclaredBefore(ls, d, k)
  }

  lemma {:induction false} DeclaredIff(ls: seq<TunnelLabel>, d: Direction)
    ensures Way(RunTunnel(ls), d).declared <==> DeclaredBefore(ls, d, |ls|)
    decreases |ls|
  {
    if ls != [] {
      var n := |ls| - 1;
      var front := ls[..n];
      DeclaredIff(front, d);
      DeclareStep(RunTunnel(front), ls[n], d);
      TakeLess(ls, d, n, n);
    }
  }

  lemma DeclareStep(t: Tunnel, l: TunnelLabel, d: Direction)
    ensures Way(TunnelStep(t, l), d).declared <==> Way(t, d).declared || l == Declares(d)
  {
  }

  lemma TakeLess(ls: seq<TunnelLabel>, d: Direction, n: nat, k: nat)
    requires k <= n <= |ls|
    ensures ls[..n][..k] == ls[..k]
    ensures DeclaredBefore(ls[..n], d, k) <==> DeclaredBefore(ls, d, k)
  {
    assert forall j :: 0 <= j < k ==> ls[..n][j] == ls[j];
    if DeclaredBefore(ls, d, k) {
      var j :| 0 <= j < k && ls[j] == Declares(d);
      assert ls[..n][j] == Declares(d);
    }
  }

  lemma HeardInFront(ls: seq<TunnelLabel>, d: Direction, n: nat)
    requires n <= |ls|
    ensures PutsAreHeard(ls[..n], d, n) <==> PutsAreHeard(ls, d, n)
  {
    hide RunTunnel, DeclaredBefore;
    forall k | 0 <= k < n
      ensures PutAt(ls, d, k) == PutAt(ls[..n], d, k) && DeclaredBefore(ls, d, k) == DeclaredBefore(ls[..n], d, k)
    {
      TakeLess(ls, d, n, k);
      TakeLess(ls, d, n, k + 1);
    }
  }

  /** Nothing on its way in direction `d` is lost exactly when the receiving endpoint declared its
      subscriber before the first put the sending endpoint's publisher accepted. */
  lemma {:induction false} NothingLostIff(ls: seq<TunnelLabel>, d: Direction)
    ensures Way(RunTunnel(ls), d).lost == 0 <==> PutsAreHeard(ls, d, |ls|)
    decreases |ls|
  {
    hide TunnelStep, DeclaredBefore, FlowInv, PutsAreHeard, Way;
    if ls == [] {
      NothingYet(d);
    } else {
      var n := |ls| - 1;
      var front := ls[..n];
      NothingLostIff(front, d);
      HeardInFront(ls, d, n);
      DeclaredIff(front, d);
      TakeLess(ls, d, n, n);
      ReachableTunnel(front);
      LostStep(RunTunnel(front), ls[n], d);
      LastIsHeard(ls, d);
    }
  }

  lemma NothingYet(d: Direction)
    ensures Way(RunTunnel([]), d).lost == 0 && PutsAreHeard([], d, 0)
  {
  }

  lemma LastIsHeard(ls: seq<TunnelLabel>, d: Direction)
    requires ls != []
    ensures var n := |ls| - 1;
      && (PutAt(ls, d, n) <==> Way(RunTunnel(ls), d).puts != Way(RunTunnel(ls[..n]), d).puts)
      && (PutsAreHeard(ls, d, |ls|) <==> PutsAreHeard(ls, d, n) && (PutAt(ls, d, n) ==> DeclaredBefore(ls, d, n)))
  {
    hide RunTunnel, DeclaredBefore, Way;
    assert ls[..|ls|] == ls;
  }

  lemma LostStep(t: Tunnel, l: TunnelLabel, d: Direction)
    requires TunnelInv(t)
    ensures var f, g := Way(t, d), Way(TunnelStep(t, l), d);
      g.lost == 0 <==> f.lost == 0 && (g.puts != f.puts ==> f.declared)
  {
    var f := Way(t, d);
    WayStep(t, l, d);
    assert ChannelInv(f) by {
      hide FlowStep, FlowInv, ChannelInv, TunnelStep;
      ChannelPart(f);
    }
    hide Received, Concat, FlowStep, FlowInv, TunnelStep;
    LossNeedsPut(f, l.l);
    PutsOnlyGrow(f, l.l);
  }

  lemma WayStep(t: Tunnel, l: TunnelLabel, d: Direction)
    ensures Way(TunnelStep(t, l), d) == Way(t, d) || Way(TunnelStep(t, l), d) == FlowStep(Way(t, d), l.l)
  {
    hide FlowStep;
  }

  lemma PutsOnlyGrow(f: Flow, l: FlowLabel)
    ensures |FlowStep(f, l).puts| >= |f.puts| && (|FlowStep(f, l).puts| == |f.puts| ==> FlowStep(f, l).puts == f.puts)
  {
  }

  /** Both directions: nothing at all is lost exactly when each endpoint declared its subscriber before
      the other's first put, and then each socket has been given a prefix of what the other one sent. */
  lemma NothingAtAllLostIff(ls: seq<TunnelLabel>)
    ensures var t := RunTunnel(ls);
      && (t.toDev.lost == 0 && t.toGw.lost == 0 <==> forall d :: PutsAreHeard(ls, d, |ls|))
      && ((forall d :: PutsAreHeard(ls, d, |ls|)) ==> t.toDev.written <= t.toDev.read && t.toGw.written <= t.toGw.read)
  {
    hide RunTunnel, PutsAreHeard, FlowInv, LostBytes;
    var t := RunTunnel(ls);
    NothingLostIff(ls, TowardsDevice);
    NothingLostIff(ls, TowardsGateway);
    BridgeIsSafe(ls);
    if PutsAreHeard(ls, TowardsDevice, |ls|) && PutsAreHeard(ls, TowardsGateway, |ls|) {
      forall d ensures PutsAreHeard(ls, d, |ls|) {
        assert d == TowardsDevice || d == TowardsGateway;
      }
    }
    assert Way(t, TowardsDevice) == t.toDev && Way(t, TowardsGateway) == t.toGw;
  }

  lemma TunnelSnoc(ls: seq<TunnelLabel>, l: TunnelLabel)
    ensures RunTunnel(ls + [l]) == TunnelStep(RunTunnel(ls), l)
  {
    assert (ls + [l])[..|ls|] == ls;
  }

  lemma RunThree(ls: seq<TunnelLabel>, x: TunnelLabel, y: TunnelLabel, z: TunnelLabel)
    ensures RunTunnel(ls + [x] + [y] + [z]) == TunnelStep(TunnelStep(TunnelStep(RunTunnel(ls), x), y), z)
  {
    hide TunnelStep, RunTunnel;
    TunnelSnoc(ls, x);
    TunnelSnoc(ls + [x], y);
    TunnelSnoc(ls + [x] + [y], z);
  }

  function Label(d: Direction, l: FlowLabel): TunnelLabel {
    if d.TowardsDevice? then ToDev(l) else ToGw(l)
  }

  function Other(d: Direction): Direction {
    if d.TowardsDevice? then TowardsGateway else TowardsDevice
  }

  /** Two flows, the one in direction `d` first. */
  function Both(d: Direction, f: Flow, g: Flow): Tunnel {
    if d.TowardsDevice? then Tunnel(f, g) else Tunnel(g, f)
  }

  /** In either direction: the sending endpoint puts its first chunk while the receiving one has not
      subscribed; only the second chunk arrives. Towards the device it is the gateway that heard the ack
      first; towards the gateway it is the device that speaks first. */
  lemma LosesABeginning(d: Direction) returns (ls: seq<TunnelLabel>)
    ensures var f := Way(RunTunnel(ls), d);
      f.read == [1, 2] && f.written == [2] && !(f.written <= f.read)
    ensures !PutsAreHeard(ls, d, |ls|)
  {
    EarlyPut(d);
    LatePut(d);
    Arrives(d);
    NoSteps(d);
    hide TunnelStep, RunTunnel, PutsAreHeard, Label, Other, Both;
    RunThree([], Label(Other(d), Declare), Label(d, Read([1])), Label(d, PutOk));
    ls := [] + [Label(Other(d), Declare)] + [Label(d, Read([1]))] + [Label(d, PutOk)];
    RunThree(ls, Label(d, Declare), Label(d, Read([2])), Label(d, PutOk));
    ls := ls + [Label(d, Declare)] + [Label(d, Read([2]))] + [Label(d, PutOk)];
    TunnelSnoc(ls, Label(d, Receive));
    TunnelSnoc(ls + [Label(d, Receive)], Label(d, WriteOk));
    ls := ls + [Label(d, Receive)] + [Label(d, WriteOk)];
    NothingLostIff(ls, d);
  }

  lemma NoSteps(d: Direction)
    ensures RunTunnel([]) == Both(d, InitFlow(), InitFlow())
  {
  }

  lemma EarlyPut(d: Direction)
    ensures var s := Both(d, InitFlow(), InitFlow());
      TunnelStep(TunnelStep(TunnelStep(s, Label(Other(d), Declare)), Label(d, Read([1]))), Label(d, PutOk)) ==
      Both(d, InitFlow().(read := [1], up := 1, puts := [[1]], lost := 1), InitFlow().(declared := true))
  {
  }

  lemma LatePut(d: Direction)
    ensures var a := InitFlow().(read := [1], up := 1, puts := [[1]], lost := 1);
      var back := InitFlow().(declared := true);
      TunnelStep(TunnelStep(TunnelStep(Both(d, a, back), Label(d, Declare)), Label(d, Read([2]))), Label(d, PutOk)) ==
      Both(d, a.(declared := true, read := [1, 2], up := 2, puts := [[1], [2]], chan := [[2]]), back)
  {
    assert [1] + [2] == [1, 2];
  }

  lemma Arrives(d: Direction)
    ensures var b := InitFlow().(declared := true, read := [1, 2], up := 2, puts := [[1], [2]], lost := 1, chan := [[2]]);
      var back := InitFlow().(declared := true);
      var f := Way(TunnelStep(TunnelStep(Both(d, b, back), Label(d, Receive)), Label(d, WriteOk)), d);
      f.read == [1, 2] && f.written == [2] && !(f.written <= f.read) && f.lost == 1
  {
    var early: seq<Byte>, late: seq<Byte> := [1, 2], [2];
    assert early[0] != late[0];
  }
}
