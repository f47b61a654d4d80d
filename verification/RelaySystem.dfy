/**
 The relay as its goroutines interleave: HTTP handlers for registrations,
 receivers and senders, and expiry timers, each taking one lock region at a time.
 */
module RelaySystem {
  import opened Bytes
  import opened RelayRegistry
  import Fips180

  /** A handler departs in two moves, detachSender and cancel, unless it was refused the connection it attached for. */
  datatype Phase = Serving | Departing | Left | Refused

  /** A sender handler: the bridge it attached to and how far it has got. */
  datatype SenderHandler = SenderHandler(bridge: nat, phase: Phase)

  datatype System = System(reg: Registry, clock: nat, ttl: nat, senders: seq<SenderHandler>)

  datatype Step =
    | Tick
    | Registers(id: SessionId, secret: ByteString, readAt: nat, stopped: bool)
    | ReceiverArrives(id: SessionId, secret: ByteString, stopped: bool)
    | ReceiverLeaves(bridge: nat)
    | SenderArrives(id: SessionId, stopped: bool)
    | SenderRefused(who: nat)
    | SenderDetaches(who: nat)
    | SenderCancels(who: nat)
    | TimerFires(record: nat)

  /** When a step can be taken. A registration may have read the clock long before it got the lock. */
  predicate Enabled(s: System, step: Step)
  {
    match step
    case Registers(_, _, readAt, _) => readAt <= s.clock
    case ReceiverLeaves(b) => b < |s.reg.bridges| && s.reg.bridges[b].receiverAttached
    case SenderRefused(who) => who < |s.senders| && s.senders[who].phase == Serving
    case SenderDetaches(who) => who < |s.senders| && s.senders[who].phase == Serving
    case SenderCancels(who) => who < |s.senders| && s.senders[who].phase == Departing
    case TimerFires(r) => r in s.reg.pending
    case _ => true
  }

  /** Every number stands for something that was made. */
  ghost predicate Defined(s: System)
  {
    WellFormed(s.reg) &&
    (forall b :: 0 <= b < |s.reg.bridges| ==> s.reg.bridges[b].record < |s.reg.records|) &&
    (forall r :: r in s.reg.pending ==> r < |s.reg.records|) &&
    (forall i :: 0 <= i < |s.senders| ==> s.senders[i].bridge < |s.reg.bridges|)
  }

  function Next(s: System, step: Step): System
    requires Defined(s) && Enabled(s, step)
  {
    match step
    case Tick => s.(clock := s.clock + 1)
    case Registers(id, secret, readAt, stopped) => s.(reg := Register(s.reg, id, secret, readAt, s.ttl, stopped).0)
    case ReceiverArrives(id, secret, stopped) => s.(reg := AttachReceiver(s.reg, id, secret, s.clock, stopped).0)
    case ReceiverLeaves(b) => s.(reg := DetachReceiver(s.reg, s.reg.records[s.reg.bridges[b].record].id, b))
    case SenderArrives(id, stopped) =>
      var (reg, result) := AttachSender(s.reg, id, |s.senders|, s.clock, stopped);
      if result.Attached?
      then s.(reg := reg, senders := s.senders + [SenderHandler(result.bridge, Serving)])
      else s.(reg := reg)
    case SenderRefused(who) =>
      s.(reg := DetachSender(s.reg, s.senders[who].bridge),
         senders := s.senders[who := s.senders[who].(phase := Refused)])
    case SenderDetaches(who) =>
      s.(reg := DetachSender(s.reg, s.senders[who].bridge),
         senders := s.senders[who := s.senders[who].(phase := Departing)])
    case SenderCancels(who) =>
      s.(reg := SenderCancel(s.reg, s.senders[who].bridge), senders := s.senders[who := s.senders[who].(phase := Left)])
    case TimerFires(r) => s.(reg := Expire(s.reg, s.reg.records[r].id, r))
  }

  /** What can happen when: anybody can arrive at any moment and leave once there, and every pending timer can fire. */
  lemma PossibleSteps(s: System, id: SessionId, secret: ByteString, n: nat, stopped: bool)
    ensures Enabled(s, Tick)
    ensures Enabled(s, ReceiverArrives(id, secret, stopped)) && Enabled(s, SenderArrives(id, stopped))
    ensures n <= s.clock ==> Enabled(s, Registers(id, secret, n, stopped))
    ensures n < |s.reg.bridges| && s.reg.bridges[n].receiverAttached ==> Enabled(s, ReceiverLeaves(n))
    ensures n < |s.senders| && s.senders[n].phase == Serving ==>
            Enabled(s, SenderRefused(n)) && Enabled(s, SenderDetaches(n))
    ensures n < |s.senders| && s.senders[n].phase == Departing ==> Enabled(s, SenderCancels(n))
    ensures n in s.reg.pending ==> Enabled(s, TimerFires(n))
  {
  }

  function Initial(ttl: nat): System { System(Registry(map[], [], [], {}), 0, ttl, []) }

  /** The sender flag is set exactly while one serving handler holds it. */
  ghost predicate SendersOk(s: System)
  {
    (forall i :: 0 <= i < |s.senders| ==> s.senders[i].bridge < |s.reg.bridges|) &&
    (forall i :: 0 <= i < |s.senders| && s.senders[i].phase == Serving ==>
       s.reg.bridges[s.senders[i].bridge].holder == Some(i)) &&
    (forall b :: 0 <= b < |s.reg.bridges| ==>
       (s.reg.bridges[b].sender <==> s.reg.bridges[b].holder.Some?) &&
       (s.reg.bridges[b].holder.Some? ==>
          var i := s.reg.bridges[b].holder.value;
          i < |s.senders| && s.senders[i] == SenderHandler(b, Serving)))
  }

  /** A bridge counts departures exactly when a handler has left it by cancelling. */
  ghost predicate DeparturesOk(s: System)
  {
    (forall i :: 0 <= i < |s.senders| ==>
       s.senders[i].bridge < |s.reg.bridges| &&
       (s.senders[i].phase == Left ==> s.reg.bridges[s.senders[i].bridge].departures > 0)) &&
    (forall b :: 0 <= b < |s.reg.bridges| && s.reg.bridges[b].departures > 0 ==>
       exists i :: 0 <= i < |s.senders| && s.senders[i] == SenderHandler(b, Left))
  }

  ghost predicate Inv(s: System)
    ensures Inv(s) ==> Defined(s)
  {
    RegistryOk(s.reg) && SendersOk(s) && DeparturesOk(s)
  }

  lemma InitialInv(ttl: nat)
    ensures Inv(Initial(ttl))
  {
  }

  // Registry steps leave the senders alone; sender steps leave the rest alone.

  lemma SendersSurvive(s: System, g: Registry)
    requires SendersOk(s) && DeparturesOk(s) && SameSenders(s.reg, g)
    ensures SendersOk(s.(reg := g)) && DeparturesOk(s.(reg := g))
  {
  }

  lemma NewBridgeSenders(s: System, records: seq<Record>, bridge: Bridge)
    requires SendersOk(s) && DeparturesOk(s) && !bridge.sender && bridge.holder.None? && bridge.departures == 0
    ensures var t := s.(reg := s.reg.(records := records, bridges := s.reg.bridges + [bridge]));
            SendersOk(t) && DeparturesOk(t)
  {
  }

  lemma AttachReceiverKeeps(s: System, id: SessionId, secret: ByteString, stopped: bool)
    requires Inv(s)
    ensures Inv(s.(reg := AttachReceiver(s.reg, id, secret, s.clock, stopped).0))
  {
    hide Fips180.Sha256, Lookup, SendersOk, DeparturesOk, SessionsOk, ActiveOk, BridgesOk;
    LookupKeeps(s.reg, id, s.clock, stopped);
    var (h, result) := AttachReceiver(s.reg, id, secret, s.clock, stopped);
    if result.Attached? {
      var r := Lookup(s.reg, id, s.clock, stopped).1.value;
      NewBridgeKeeps(s.reg, r, secret);
      NewBridgeSenders(s, h.records, Bridge(r, secret, false, false, true, None, 0));
    } else {
      SendersSurvive(s, h);
    }
  }

  function WithSender(s: System, b: nat): System
    requires b < |s.reg.bridges|
  {
    s.(reg := s.reg.(bridges := s.reg.bridges[b := s.reg.bridges[b].(sender := true, holder := Some(|s.senders|))]),
       senders := s.senders + [SenderHandler(b, Serving)])
  }

  lemma FlagSet(s: System, b: nat)
    requires SendersOk(s) && b < |s.reg.bridges| && !s.reg.bridges[b].sender
    ensures SendersOk(WithSender(s, b))
  {
  }

  lemma FlagSetDepartures(s: System, b: nat)
    requires DeparturesOk(s) && b < |s.reg.bridges|
    ensures DeparturesOk(WithSender(s, b))
  {
    var t := WithSender(s, b);
    forall c | 0 <= c < |t.reg.bridges| && t.reg.bridges[c].departures > 0
      ensures exists i :: 0 <= i < |t.senders| && t.senders[i] == SenderHandler(c, Left)
    {
      var i :| 0 <= i < |s.senders| && s.senders[i] == SenderHandler(c, Left);
      assert t.senders[i] == SenderHandler(c, Left);
    }
  }

  lemma SenderArrivesKeeps(s: System, id: SessionId, stopped: bool)
    requires Inv(s)
    ensures Inv(Next(s, SenderArrives(id, stopped)))
  {
    hide Fips180.Sha256, Lookup, SendersOk, DeparturesOk, SessionsOk, BridgesOk;
    LookupKeeps(s.reg, id, s.clock, stopped);
    var (h, result) := AttachSender(s.reg, id, |s.senders|, s.clock, stopped);
    if result.Attached? {
      var r := Lookup(s.reg, id, s.clock, stopped).1.value;
      assert r < |s.reg.records| && s.reg.records[r].active == Some(result.bridge);
      FlagSet(s, result.bridge);
      FlagSetDepartures(s, result.bridge);
      RegistrySurvives(s.reg, h);
    } else {
      SendersSurvive(s, h);
    }
  }

  function WithoutSender(s: System, who: nat, phase: Phase): System
    requires who < |s.senders| && s.senders[who].bridge < |s.reg.bridges|
  {
    s.(reg := DetachSender(s.reg, s.senders[who].bridge), senders := s.senders[who := s.senders[who].(phase := phase)])
  }

  lemma FlagCleared(s: System, who: nat, phase: Phase)
    requires SendersOk(s) && who < |s.senders| && s.senders[who].phase == Serving && phase != Serving
    ensures SendersOk(WithoutSender(s, who, phase))
  {
  }

  lemma FlagClearedDepartures(s: System, who: nat, phase: Phase)
    requires DeparturesOk(s) && who < |s.senders| && s.senders[who].phase == Serving && phase != Left
    ensures DeparturesOk(WithoutSender(s, who, phase))
  {
    var t := WithoutSender(s, who, phase);
    forall c | 0 <= c < |t.reg.bridges| && t.reg.bridges[c].departures > 0
      ensures exists i :: 0 <= i < |t.senders| && t.senders[i] == SenderHandler(c, Left)
    {
      var i :| 0 <= i < |s.senders| && s.senders[i] == SenderHandler(c, Left);
      assert t.senders[i] == SenderHandler(c, Left);
    }
  }

  lemma SenderLeavesKeeps(s: System, who: nat, phase: Phase)
    requires Inv(s) && who < |s.senders| && s.senders[who].phase == Serving && (phase == Departing || phase == Refused)
    ensures Inv(WithoutSender(s, who, phase))
  {
    hide Fips180.Sha256, SessionsOk, ActiveOk, BridgesOk;
    FlagCleared(s, who, phase);
    FlagClearedDepartures(s, who, phase);
    RegistrySurvives(s.reg, DetachSender(s.reg, s.senders[who].bridge));
  }

  function WithoutHandler(s: System, who: nat): System
    requires who < |s.senders| && s.senders[who].bridge < |s.reg.bridges|
  {
    s.(reg := SenderCancel(s.reg, s.senders[who].bridge), senders := s.senders[who := s.senders[who].(phase := Left)])
  }

  lemma HandlerLeft(s: System, who: nat)
    requires SendersOk(s) && who < |s.senders| && s.senders[who].phase == Departing
    ensures SendersOk(WithoutHandler(s, who))
  {
  }

  lemma HandlerLeftDepartures(s: System, who: nat)
    requires DeparturesOk(s) && who < |s.senders| && s.senders[who].phase == Departing
    ensures DeparturesOk(WithoutHandler(s, who))
  {
    var b, t := s.senders[who].bridge, WithoutHandler(s, who);
    assert t.senders[who] == SenderHandler(b, Left);
    forall c | 0 <= c < |t.reg.bridges| && t.reg.bridges[c].departures > 0
      ensures exists i :: 0 <= i < |t.senders| && t.senders[i] == SenderHandler(c, Left)
    {
      if c != b {
        var i :| 0 <= i < |s.senders| && s.senders[i] == SenderHandler(c, Left);
        assert t.senders[i] == SenderHandler(c, Left);
      }
    }
  }

  /** Every step keeps the invariant. */
  lemma NextKeeps(s: System, step: Step)
    requires Inv(s) && Enabled(s, step)
    ensures Inv(Next(s, step))
  {
    hide Fips180.Sha256, Register, AttachReceiver, DetachReceiver, AttachSender, Expire, SenderCancel, DetachSender;
    match step {
      case Tick =>
      case Registers(id, secret, readAt, stopped) =>
        RegisterKeeps(s.reg, id, secret, readAt, s.ttl, stopped);
        SendersSurvive(s, Next(s, step).reg);
      case ReceiverArrives(id, secret, stopped) =>
        AttachReceiverKeeps(s, id, secret, stopped);
      case ReceiverLeaves(b) =>
        DetachReceiverKeeps(s.reg, b);
        SendersSurvive(s, Next(s, step).reg);
      case SenderArrives(id, stopped) =>
        SenderArrivesKeeps(s, id, stopped);
      case SenderRefused(who) =>
        SenderLeavesKeeps(s, who, Refused);
      case SenderDetaches(who) =>
        SenderLeavesKeeps(s, who, Departing);
      case SenderCancels(who) =>
        SenderCancelKeeps(s.reg, s.senders[who].bridge);
        HandlerLeft(s, who);
        HandlerLeftDepartures(s, who);
      case TimerFires(r) =>
        TimerKeeps(s.reg, r);
        SendersSurvive(s, Next(s, step).reg);
    }
  }

  /** Each step of the system is one call on the server object, which stays the registry of the system. */
  method Perform(server: RelayServer, s: System, step: Step) returns (t: System)
    requires Inv(s) && Enabled(s, step) && server.View() == s.reg && server.ttl == s.ttl
    modifies server
    ensures t == Next(s, step) && Inv(t) && server.View() == t.reg
  {
    hide Fips180.Sha256, RegistryOk, SendersOk, DeparturesOk, Register, AttachReceiver, DetachReceiver, AttachSender,
         Expire, SenderCancel, DetachSender, Registered, ReceiverAttached, SenderAttached, ReceiverDetached,
         RecordRemoved;
    NextKeeps(s, step);
    t := s;
    match step {
      case Tick =>
        t := t.(clock := s.clock + 1);
      case Registers(id, secret, readAt, stopped) =>
        var _ := server.DoRegister(id, secret, readAt, stopped);
      case ReceiverArrives(id, secret, stopped) =>
        var _ := server.DoAttachReceiver(id, secret, s.clock, stopped);
      case ReceiverLeaves(b) =>
        server.DoDetachReceiver(server.records[server.bridges[b].record].id, b);
      case SenderArrives(id, stopped) =>
        var result := server.DoAttachSender(id, |s.senders|, s.clock, stopped);
        if result.Attached? {
          t := t.(senders := s.senders + [SenderHandler(result.bridge, Serving)]);
        }
      case SenderRefused(who) =>
        server.DoDetachSender(s.senders[who].bridge);
        t := t.(senders := s.senders[who := s.senders[who].(phase := Refused)]);
      case SenderDetaches(who) =>
        server.DoDetachSender(s.senders[who].bridge);
        t := t.(senders := s.senders[who := s.senders[who].(phase := Departing)]);
      case SenderCancels(who) =>
        server.DoSenderCancel(s.senders[who].bridge);
        t := t.(senders := s.senders[who := s.senders[who].(phase := Left)]);
      case TimerFires(r) =>
        server.DoExpire(server.records[r].id, r);
    }
    t := t.(reg := Registry(server.sessions, server.records, server.bridges, server.pending));
  }

  // What the invariant means, over every run.

  ghost predicate Runs(s: System, steps: seq<Step>, t: System)
    decreases |steps|
  {
    if steps == [] then t == s
    else Defined(s) && Enabled(s, steps[0]) && Runs(Next(s, steps[0]), steps[1..], t)
  }

  lemma {:induction false} RunKeeps(s: System, steps: seq<Step>, t: System)
    requires Inv(s) && Runs(s, steps, t)
    ensures Inv(t)
    decreases |steps|
  {
    hide Next, Inv;
    if steps != [] {
      NextKeeps(s, steps[0]);
      RunKeeps(Next(s, steps[0]), steps[1..], t);
    }
  }

  lemma ReachableInv(ttl: nat, steps: seq<Step>, s: System)
    requires Runs(Initial(ttl), steps, s)
    ensures Inv(s)
  {
    hide Next, Runs;
    InitialInv(ttl);
    RunKeeps(Initial(ttl), steps, s);
  }

  lemma {:induction false} RunsOn(s: System, steps: seq<Step>, t: System, step: Step)
    requires Runs(s, steps, t) && Inv(t) && Enabled(t, step)
    ensures Runs(s, steps + [step], Next(t, step))
    decreases |steps|
  {
    hide Next, Inv;
    if steps == [] {
      assert [step][1..] == [];
    } else {
      RunsOn(Next(s, steps[0]), steps[1..], t, step);
      assert (steps + [step])[1..] == steps[1..] + [step];
    }
  }

  /** In every reachable state an uncancelled bridge is the active one of a mapped record, at most one a session. */
  lemma UncancelledBridges(ttl: nat, steps: seq<Step>, s: System)
    requires Runs(Initial(ttl), steps, s)
    ensures forall b :: 0 <= b < |s.reg.bridges| && !s.reg.bridges[b].cancelled ==>
              var r := s.reg.bridges[b].record;
              r < |s.reg.records| && Mapped(s.reg, r) && s.reg.records[r].active == Some(b) && r in s.reg.pending &&
              s.reg.bridges[b].receiverAttached && s.reg.bridges[b].departures == 0 &&
              Fips180.Sha256(s.reg.bridges[b].secret) == s.reg.records[r].secretHash
    ensures forall b, c |
              0 <= b < |s.reg.bridges| && 0 <= c < |s.reg.bridges| && !s.reg.bridges[b].cancelled &&
              !s.reg.bridges[c].cancelled ::
              s.reg.records[s.reg.bridges[b].record].id == s.reg.records[s.reg.bridges[c].record].id ==> b == c
    ensures forall r :: 0 <= r < |s.reg.records| && !Mapped(s.reg, r) ==> s.reg.records[r].active.None?
    ensures forall id :: id in s.reg.sessions ==> s.reg.sessions[id] in s.reg.pending
  {
    hide Fips180.Sha256, Runs;
    ReachableInv(ttl, steps, s);
  }

  // What is made is never remade.

  lemma NextKept(s: System, step: Step)
    requires Inv(s) && Enabled(s, step)
    ensures Kept(s.reg, Next(s, step).reg)
    ensures var t := Next(s, step);
            |t.reg.records| == |s.reg.records| ||
            (step.Registers? && |t.reg.records| == |s.reg.records| + 1 &&
             t.reg.records[|s.reg.records|] == Record(step.id, Fips180.Sha256(step.secret), step.readAt + s.ttl, None))
    ensures Next(s, step).ttl == s.ttl && Next(s, step).clock == s.clock + if step == Tick then 1 else 0
  {
    hide Fips180.Sha256, Kept, RegistryOk, SendersOk, DeparturesOk;
    var g := s.reg;
    match step {
      case Tick => KeptItself(g);
      case Registers(id, secret, readAt, stopped) => RegisterKept(g, id, secret, readAt, s.ttl, stopped);
      case ReceiverArrives(id, secret, stopped) => AttachReceiverKept(g, id, secret, s.clock, stopped);
      case ReceiverLeaves(b) => DepartureKept(g, b, g.records[g.bridges[b].record].id);
      case SenderArrives(id, stopped) => AttachSenderKept(g, id, |s.senders|, s.clock, stopped);
      case SenderRefused(who) => DepartureKept(g, s.senders[who].bridge, "");
      case SenderDetaches(who) => DepartureKept(g, s.senders[who].bridge, "");
      case SenderCancels(who) => DepartureKept(g, s.senders[who].bridge, "");
      case TimerFires(r) => ExpireKept(g, g.records[r].id, r);
    }
  }

  /** Id, secret hash and expiry of a record, and record and secret of a bridge, are for good, and so is cancelling. */
  ghost predicate Lasting(g: Registry, h: Registry)
  {
    |h.records| >= |g.records| && |h.bridges| >= |g.bridges| &&
    (forall r :: 0 <= r < |g.records| ==>
       h.records[r].id == g.records[r].id && h.records[r].secretHash == g.records[r].secretHash &&
       h.records[r].expiresAt == g.records[r].expiresAt) &&
    (forall b :: 0 <= b < |g.bridges| ==>
       h.bridges[b].record == g.bridges[b].record && h.bridges[b].secret == g.bridges[b].secret &&
       (g.bridges[b].cancelled ==> h.bridges[b].cancelled))
  }

  lemma LastingOn(g: Registry, m: Registry, h: Registry)
    requires Kept(g, m) && Lasting(m, h)
    ensures Lasting(g, h)
  {
  }

  /** The step of the run that made record `r`: it read the clock for its expiry and hashed its secret. */
  ghost predicate MadeAt(steps: seq<Step>, k: int, ttl: nat, record: Record)
  {
    0 <= k < |steps| && steps[k].Registers? && record.id == steps[k].id &&
    record.secretHash == Fips180.Sha256(steps[k].secret) && record.expiresAt == steps[k].readAt + ttl
  }

  ghost predicate WasMade(steps: seq<Step>, ttl: nat, record: Record) { exists k :: MadeAt(steps, k, ttl, record) }

  lemma {:induction false} RunLasting(s: System, steps: seq<Step>, t: System)
    requires Inv(s) && Runs(s, steps, t)
    ensures Lasting(s.reg, t.reg) && t.ttl == s.ttl
    ensures forall r :: |s.reg.records| <= r < |t.reg.records| ==> WasMade(steps, s.ttl, t.reg.records[r])
    decreases |steps|
  {
    hide Fips180.Sha256, Next, Inv, Kept, Enabled;
    if steps != [] {
      var m := Next(s, steps[0]);
      NextKeeps(s, steps[0]);
      NextKept(s, steps[0]);
      RunLasting(m, steps[1..], t);
      LastingOn(s.reg, m.reg, t.reg);
      forall r | |s.reg.records| <= r < |t.reg.records|
        ensures WasMade(steps, s.ttl, t.reg.records[r])
      {
        if r < |m.reg.records| {
          assert MadeAt(steps, 0, s.ttl, t.reg.records[r]);
        } else {
          var k :| MadeAt(steps[1..], k, s.ttl, t.reg.records[r]);
          assert MadeAt(steps, k + 1, s.ttl, t.reg.records[r]);
        }
      }
    }
  }

  /** Over every run: each record is as a registration of the run made it, and expires when that said. */
  lemma RecordsAreAsRegistered(ttl: nat, steps: seq<Step>, s: System, r: nat)
    requires Runs(Initial(ttl), steps, s) && r < |s.reg.records|
    ensures WasMade(steps, ttl, s.reg.records[r])
  {
    hide Fips180.Sha256, Runs, WasMade;
    InitialInv(ttl);
    RunLasting(Initial(ttl), steps, s);
  }

  /**
   Who is let in, by the clock: a registration makes a record exactly if the id has none that outlives its reading; a
   receiver gets a bridge exactly if the record outlives the clock, the secret is right, and there is no other.
   */
  lemma AdmittedExactlyWhen(s: System, id: SessionId, secret: ByteString, readAt: nat, stopped: bool)
    requires Inv(s) && readAt <= s.clock
    ensures var r := if id in s.reg.sessions then s.reg.sessions[id] else 0;
            (|Next(s, Registers(id, secret, readAt, stopped)).reg.records| > |s.reg.records| <==>
               id !in s.reg.sessions || s.reg.records[r].expiresAt - readAt <= 0) &&
            (|Next(s, ReceiverArrives(id, secret, stopped)).reg.bridges| > |s.reg.bridges| <==>
               id in s.reg.sessions && s.reg.records[r].expiresAt - s.clock > 0 &&
               s.reg.records[r].secretHash == Fips180.Sha256(secret) && s.reg.records[r].active == None)
  {
    hide Fips180.Sha256, SendersOk, DeparturesOk;
  }

  /** The handlers serving on a bridge. */
  ghost function Attendants(s: System, b: nat): set<nat>
  {
    set i | 0 <= i < |s.senders| && s.senders[i] == SenderHandler(b, Serving)
  }

  /** In every reachable state one sender is attached to a bridge whose flag is set, and none to any other. */
  lemma SenderExclusion(ttl: nat, steps: seq<Step>, s: System, b: nat)
    requires Runs(Initial(ttl), steps, s) && b < |s.reg.bridges|
    ensures |Attendants(s, b)| == if s.reg.bridges[b].sender then 1 else 0
  {
    hide Fips180.Sha256, Runs;
    ReachableInv(ttl, steps, s);
    if s.reg.bridges[b].sender {
      assert Attendants(s, b) == {s.reg.bridges[b].holder.value};
    } else {
      assert Attendants(s, b) == {};
    }
  }

  /** A handler has gone from the bridge by cancelling it. */
  ghost predicate WasLeft(s: System, b: nat)
  {
    exists i :: 0 <= i < |s.senders| && s.senders[i] == SenderHandler(b, Left)
  }

  /** An active bridge is cancelled exactly when a sender has left it. */
  lemma ActiveButCancelled(ttl: nat, steps: seq<Step>, s: System, r: nat)
    requires Runs(Initial(ttl), steps, s) && r < |s.reg.records| && s.reg.records[r].active.Some?
    ensures s.reg.records[r].active.value < |s.reg.bridges|
    ensures var b := s.reg.records[r].active.value;
            s.reg.bridges[b].cancelled <==> WasLeft(s, b)
  {
    hide Fips180.Sha256, Runs, SendersOk;
    ReachableInv(ttl, steps, s);
    DeparturesExactlyWhen(ttl, steps, s, s.reg.records[r].active.value);
  }

  /** The count of departures says exactly whether a handler has gone by cancelling. */
  lemma DeparturesExactlyWhen(ttl: nat, steps: seq<Step>, s: System, b: nat)
    requires Runs(Initial(ttl), steps, s) && b < |s.reg.bridges|
    ensures s.reg.bridges[b].departures > 0 <==> WasLeft(s, b)
  {
    hide Fips180.Sha256, Runs, SendersOk, RegistryOk;
    ReachableInv(ttl, steps, s);
  }

  // When a bridge sees more than one sender.

  /** The handlers that ever attached to a bridge. */
  ghost function On(s: System, b: nat): set<nat>
  {
    set i | 0 <= i < |s.senders| && s.senders[i].bridge == b
  }

  /** The step is a sender's arrival at a live session whose active bridge is `b`, with the flag clear. */
  ghost predicate Admits(s: System, step: Step, b: nat)
    requires Defined(s)
  {
    step.SenderArrives? && Live(s.reg, step.id, s.clock) && b < |s.reg.bridges| &&
    s.reg.records[s.reg.sessions[step.id]].active == Some(b) && !s.reg.bridges[b].sender
  }

  /** The same, at a bridge some handler attached to before. */
  ghost predicate AdmitsSecond(s: System, step: Step, b: nat)
    requires Defined(s)
  {
    Admits(s, step, b) && On(s, b) != {}
  }

  /** The handlers on a bridge grow by the new one exactly when it is admitted, and otherwise stay. */
  lemma OnStep(s: System, step: Step, b: nat)
    requires Inv(s) && Enabled(s, step)
    ensures On(Next(s, step), b) == if Admits(s, step, b) then On(s, b) + {|s.senders|} else On(s, b)
    ensures |s.senders| !in On(s, b)
  {
    hide Fips180.Sha256, Register, AttachReceiver, DetachReceiver, Expire, SenderCancel, DetachSender,
         ExpireLocked, RegistryOk, SendersOk, DeparturesOk;
    var t := Next(s, step);
    if step.SenderArrives? && |t.senders| > |s.senders| {
      assert forall i :: 0 <= i < |s.senders| ==> t.senders[i] == s.senders[i];
    } else {
      assert |t.senders| == |s.senders| &&
             forall i :: 0 <= i < |s.senders| ==> t.senders[i].bridge == s.senders[i].bridge;
    }
  }

  /** In every reachable state, a step gives a bridge a further sender if and only if it is such an arrival. */
  lemma FurtherSenderExactlyWhen(ttl: nat, steps: seq<Step>, s: System, step: Step, b: nat)
    requires Runs(Initial(ttl), steps, s) && Defined(s) && Enabled(s, step)
    ensures |On(Next(s, step), b)| > |On(s, b)| >= 1 <==> AdmitsSecond(s, step, b)
  {
    hide Fips180.Sha256, Runs, Next, Inv, Admits;
    ReachableInv(ttl, steps, s);
    OnStep(s, step, b);
  }

  /** Some arrival along the run finds a bridge that had a sender before. */
  ghost predicate MeetsSecond(s: System, steps: seq<Step>, b: nat)
    decreases |steps|
  {
    steps != [] && Defined(s) && Enabled(s, steps[0]) &&
    (AdmitsSecond(s, steps[0], b) || MeetsSecond(Next(s, steps[0]), steps[1..], b))
  }

  lemma {:induction false} MeetsSecondCounts(s: System, steps: seq<Step>, t: System, b: nat)
    requires Inv(s) && Runs(s, steps, t)
    ensures |On(s, b)| <= |On(t, b)|
    ensures |On(s, b)| <= 1 ==> (|On(t, b)| > 1 <==> MeetsSecond(s, steps, b))
    decreases |steps|
  {
    hide Fips180.Sha256, Next, Inv, Admits, Enabled, On;
    if steps != [] {
      NextKeeps(s, steps[0]);
      OnStep(s, steps[0], b);
      MeetsSecondCounts(Next(s, steps[0]), steps[1..], t, b);
    }
  }

  /** A bridge has had one sender at most over a whole run if and only if no arrival found it used. */
  lemma OneSenderExactlyWhen(ttl: nat, steps: seq<Step>, s: System, b: nat)
    requires Runs(Initial(ttl), steps, s)
    ensures |On(s, b)| <= 1 <==> !MeetsSecond(Initial(ttl), steps, b)
  {
    hide Fips180.Sha256, Runs, Next, MeetsSecond;
    InitialInv(ttl);
    MeetsSecondCounts(Initial(ttl), steps, s, b);
  }

  /**
   The window between detachSender and cancel: as long as a bridge forwards, each handler that was on it
   is serving still, has given back the flag and not yet cancelled, or was refused its connection; so a
   further sender on a forwarding bridge comes after handlers of the last two kinds only.
   */
  lemma RaceWindow(ttl: nat, steps: seq<Step>, s: System, b: nat)
    requires Runs(Initial(ttl), steps, s) && b < |s.reg.bridges| && !s.reg.bridges[b].cancelled
    ensures forall i :: i in On(s, b) ==>
              s.senders[i].phase in {Departing, Refused} || (s.senders[i].phase == Serving && s.reg.bridges[b].sender)
    ensures forall step | Defined(s) && AdmitsSecond(s, step, b) ::
              forall i :: i in On(s, b) ==> s.senders[i].phase in {Departing, Refused}
  {
    hide Fips180.Sha256, Runs;
    ReachableInv(ttl, steps, s);
    DeparturesExactlyWhen(ttl, steps, s, b);
  }

  /** What another step can do to record `r` and the bridges made for it. */
  ghost predicate Spares(s: System, t: System, r: nat)
    requires r < |s.reg.records|
  {
    |t.reg.records| >= |s.reg.records| && t.reg.records[r] == s.reg.records[r] &&
    (Mapped(s.reg, r) <==> Mapped(t.reg, r)) &&
    |t.reg.bridges| == |s.reg.bridges| &&
    forall b :: 0 <= b < |s.reg.bridges| && s.reg.bridges[b].record == r ==> t.reg.bridges[b] == s.reg.bridges[b]
  }

  /** A late timer or detachReceiver of an earlier registration touches no other record and none of its bridges. */
  lemma StaleCallbacksSpare(s: System, step: Step, r: nat)
    requires Inv(s) && Enabled(s, step) && r < |s.reg.records|
    requires (step.TimerFires? && step.record != r) || (step.ReceiverLeaves? && s.reg.bridges[step.bridge].record != r)
    ensures Spares(s, Next(s, step), r)
  {
    hide Fips180.Sha256, Expire, DetachReceiver, SendersOk, DeparturesOk, SessionsOk, BridgesOk;
    if step.TimerFires? {
      ExpireMeans(s.reg, step.record);
    } else {
      DetachReceiverMeans(s.reg, step.bridge);
    }
  }

  /**
   Neither "an active bridge is not cancelled" nor "a bridge has one sender" holds: a sender
   can attach between another's detachSender and cancel, and the record keeps the bridge.
   */
  lemma SecondSenderOnCancelledBridge(ttl: nat, id: SessionId, secret: ByteString)
    requires ttl > 0
    ensures exists steps, s ::
              Runs(Initial(ttl), steps, s) && |s.reg.records| == 1 && |s.reg.bridges| == 1 && |s.senders| == 2 &&
              s.reg.records[0].active == Some(0) && s.reg.bridges[0].cancelled && s.reg.bridges[0].sender &&
              s.senders == [SenderHandler(0, Left), SenderHandler(0, Serving)]
  {
    hide Fips180.Sha256, Runs, Inv;
    var steps := [];
    var s := Initial(ttl);
    InitialInv(ttl);
    assert Runs(s, [], s) by { Stays(s); }
    steps, s := Take(ttl, steps, s, Registers(id, secret, 0, true));
    steps, s := Take(ttl, steps, s, ReceiverArrives(id, secret, true));
    steps, s := Take(ttl, steps, s, SenderArrives(id, true));
    assert s.reg.records == [Record(id, Fips180.Sha256(secret), ttl, Some(0))] && s.reg.sessions == map[id := 0];
    assert s.reg.bridges == [Bridge(0, secret, false, true, true, Some(0), 0)] &&
           s.senders == [SenderHandler(0, Serving)];
    steps, s := SecondSender(ttl, steps, s, id);
  }

  lemma SecondSender(ttl: nat, steps: seq<Step>, s: System, id: SessionId) returns (steps': seq<Step>, s': System)
    requires Runs(Initial(ttl), steps, s) && Inv(s) && id in s.reg.sessions && s.reg.sessions[id] == 0 &&
             |s.reg.records| == 1
    requires s.clock < s.reg.records[0].expiresAt && s.reg.records[0].active == Some(0)
    requires |s.reg.bridges| == 1 && s.reg.bridges[0].sender && s.senders == [SenderHandler(0, Serving)]
    ensures Runs(Initial(ttl), steps', s') && s'.reg.records == s.reg.records && |s'.reg.bridges| == 1
    ensures s'.reg.bridges[0].cancelled && s'.reg.bridges[0].sender
    ensures s'.senders == [SenderHandler(0, Left), SenderHandler(0, Serving)]
  {
    hide Fips180.Sha256, Runs, Inv;
    steps', s' := Take(ttl, steps, s, SenderDetaches(0));
    steps', s' := Take(ttl, steps', s', SenderArrives(id, true));
    steps', s' := Take(ttl, steps', s', SenderCancels(0));
  }

  lemma Stays(s: System)
    ensures Runs(s, [], s)
  {
  }

  lemma Take(ttl: nat, steps: seq<Step>, s: System, step: Step) returns (steps': seq<Step>, s': System)
    requires Runs(Initial(ttl), steps, s) && Inv(s) && Enabled(s, step)
    ensures steps' == steps + [step] && s' == Next(s, step) && Runs(Initial(ttl), steps', s') && Inv(s')
  {
    hide Next, Runs, Inv;
    RunsOn(Initial(ttl), steps, s, step);
    NextKeeps(s, step);
    return steps + [step], Next(s, step);
  }
}
