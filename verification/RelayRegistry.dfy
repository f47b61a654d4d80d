/**
 relay/server.go, lines 219-336: sessions, their expiry timers and their bridges.
 Records and bridges are numbered in the order they are made; a number stands for
 the Go value it refers to. Each function is what one lock region does to the shared state.
 */
module RelayRegistry {
  import opened Bytes
  import Fips180

  type SessionId = string

  datatype Record = Record(id: SessionId, secretHash: ByteString, expiresAt: int, active: Option<nat>)

  /**
   `receiverAttached`, `holder` and `departures` are not fields of the source: the
   handler that made the bridge is still running, the sender handler that set the
   flag, and how many sender handlers cancelled the bridge on their way out.
   */
  datatype Bridge = Bridge(
    record: nat,
    secret: ByteString,
    cancelled: bool,
    sender: bool,
    receiverAttached: bool,
    holder: Option<nat>,
    departures: nat)

  /** `pending` are the records whose expiry callback may still run. */
  datatype Registry = Registry(
    sessions: map<SessionId, nat>,
    records: seq<Record>,
    bridges: seq<Bridge>,
    pending: set<nat>)

  /** Every number stands for something that was made. */
  ghost predicate WellFormed(g: Registry)
  {
    (forall id :: id in g.sessions ==> g.sessions[id] < |g.records|) &&
    (forall r :: 0 <= r < |g.records| && g.records[r].active.Some? ==> g.records[r].active.value < |g.bridges|)
  }

  function Cancelled(bridges: seq<Bridge>, b: Option<nat>): seq<Bridge>
    requires b.Some? ==> b.value < |bridges|
  {
    if b.Some? then bridges[b.value := bridges[b.value].(cancelled := true)] else bridges
  }

  /** expireLocked; `stopped` is whether Stop came before the callback had started. */
  function ExpireLocked(g: Registry, id: SessionId, r: nat, stopped: bool): Registry
    requires r < |g.records| && (g.records[r].active.Some? ==> g.records[r].active.value < |g.bridges|)
  {
    Registry(g.sessions - {id},
             g.records[r := g.records[r].(active := None)],
             Cancelled(g.bridges, g.records[r].active),
             if stopped then g.pending - {r} else g.pending)
  }

  datatype RegisterResult = Created(record: nat) | Existing(record: nat) | SessionConflict

  function Enrolled(g: Registry, id: SessionId, secret: ByteString, expiresAt: int): Registry
  {
    g.(sessions := g.sessions[id := |g.records|],
       records := g.records + [Record(id, Fips180.Sha256(secret), expiresAt, None)],
       pending := g.pending + {|g.records|})
  }

  /** register; `now` was read before the lock was taken. */
  function Register(g: Registry, id: SessionId, secret: ByteString, now: int, ttl: nat, stopped: bool)
    : (Registry, RegisterResult)
    requires WellFormed(g)
  {
    if id in g.sessions && now < g.records[g.sessions[id]].expiresAt then
      var r := g.sessions[id];
      (g, if g.records[r].secretHash == Fips180.Sha256(secret) then Existing(r) else SessionConflict)
    else
      var cleared := if id in g.sessions then ExpireLocked(g, id, g.sessions[id], stopped) else g;
      (Enrolled(cleared, id, secret, now + ttl), Created(|g.records|))
  }

  datatype AttachResult = Attached(bridge: nat) | SessionNotFound | InvalidSecret | ReceiverBusy | SenderBusy

  /** The lookup both attach operations start with; an expired record is removed on the way. */
  function Lookup(g: Registry, id: SessionId, now: int, stopped: bool): (Registry, Option<nat>)
    requires WellFormed(g)
  {
    if id !in g.sessions then (g, None)
    else if now < g.records[g.sessions[id]].expiresAt then (g, Some(g.sessions[id]))
    else (ExpireLocked(g, id, g.sessions[id], stopped), None)
  }

  /** attachReceiver */
  function AttachReceiver(g: Registry, id: SessionId, secret: ByteString, now: int, stopped: bool)
    : (Registry, AttachResult)
    requires WellFormed(g)
  {
    var (found, r) := Lookup(g, id, now, stopped);
    if r.None? then (found, SessionNotFound)
    else if g.records[r.value].secretHash != Fips180.Sha256(secret) then (g, InvalidSecret)
    else if g.records[r.value].active.Some? then (g, ReceiverBusy)
    else
      var b := |g.bridges|;
      (g.(records := g.records[r.value := g.records[r.value].(active := Some(b))],
          bridges := g.bridges + [Bridge(r.value, secret, false, false, true, None, 0)]), Attached(b))
  }

  /** detachReceiver, run by the handler that attached bridge `b` under `id`. */
  function DetachReceiver(g: Registry, id: SessionId, b: nat): Registry
    requires WellFormed(g) && b < |g.bridges|
  {
    var records :=
      if id in g.sessions && g.records[g.sessions[id]].active == Some(b)
      then g.records[g.sessions[id] := g.records[g.sessions[id]].(active := None)] else g.records;
    g.(records := records, bridges := g.bridges[b := g.bridges[b].(cancelled := true, receiverAttached := false)])
  }

  /** attachSender, of the server and of the bridge, by sender handler `who`. */
  function AttachSender(g: Registry, id: SessionId, who: nat, now: int, stopped: bool): (Registry, AttachResult)
    requires WellFormed(g)
  {
    var (found, r) := Lookup(g, id, now, stopped);
    if r.None? then (found, SessionNotFound)
    else if g.records[r.value].active.None? then (g, SessionNotFound)
    else
      var b := g.records[r.value].active.value;
      if g.bridges[b].sender then (g, SenderBusy)
      else (g.(bridges := g.bridges[b := g.bridges[b].(sender := true, holder := Some(who))]), Attached(b))
  }

  /** detachSender */
  function DetachSender(g: Registry, b: nat): Registry
    requires b < |g.bridges|
  {
    g.(bridges := g.bridges[b := g.bridges[b].(sender := false, holder := None)])
  }

  /** The cancel a sender handler defers after detachSender. */
  function SenderCancel(g: Registry, b: nat): Registry
    requires b < |g.bridges|
  {
    g.(bridges := g.bridges[b := g.bridges[b].(cancelled := true, departures := g.bridges[b].departures + 1)])
  }

  /** expire, as the timer of record `r` calls it. */
  function Expire(g: Registry, id: SessionId, r: nat): Registry
    requires WellFormed(g)
  {
    var fired := g.(pending := g.pending - {r});
    if id in g.sessions && g.sessions[id] == r then ExpireLocked(fired, id, r, true) else fired
  }

  // The invariant, piece by piece.

  predicate Mapped(g: Registry, r: nat)
    requires r < |g.records|
  {
    g.records[r].id in g.sessions && g.sessions[g.records[r].id] == r
  }

  /** A mapped record is filed under its own id and its expiry callback is still to come. */
  ghost predicate SessionsOk(g: Registry)
  {
    (forall id :: id in g.sessions ==>
       g.sessions[id] < |g.records| && g.records[g.sessions[id]].id == id && g.sessions[id] in g.pending) &&
    (forall r :: r in g.pending ==> r < |g.records|)
  }

  /** An active bridge belongs to its record, which is in the map, and its receiver is still attached. */
  ghost predicate ActiveOk(g: Registry)
  {
    forall r :: 0 <= r < |g.records| && g.records[r].active.Some? ==>
      var b := g.records[r].active.value;
      Mapped(g, r) && b < |g.bridges| && g.bridges[b].record == r && g.bridges[b].receiverAttached &&
      (g.bridges[b].cancelled <==> g.bridges[b].departures > 0)
  }

  /** An uncancelled bridge is its record's active one, made by a receiver that knew the secret. */
  ghost predicate BridgesOk(g: Registry)
  {
    forall b :: 0 <= b < |g.bridges| ==>
      g.bridges[b].record < |g.records| &&
      Fips180.Sha256(g.bridges[b].secret) == g.records[g.bridges[b].record].secretHash &&
      (!g.bridges[b].cancelled ==> g.records[g.bridges[b].record].active == Some(b))
  }

  ghost predicate RegistryOk(g: Registry)
    ensures RegistryOk(g) ==> WellFormed(g)
  {
    SessionsOk(g) && ActiveOk(g) && BridgesOk(g)
  }

  // Each lock region keeps it.

  /** No sender came or went. */
  ghost predicate SameSenders(g: Registry, h: Registry)
  {
    |h.bridges| == |g.bridges| &&
    forall b :: 0 <= b < |g.bridges| ==>
      h.bridges[b].sender == g.bridges[b].sender && h.bridges[b].holder == g.bridges[b].holder &&
      h.bridges[b].departures == g.bridges[b].departures
  }

  /** No more than flags and their holders changed. */
  ghost predicate SameRegistry(g: Registry, h: Registry)
  {
    h == g.(bridges := h.bridges) && |h.bridges| == |g.bridges| &&
    forall b :: 0 <= b < |g.bridges| ==>
      h.bridges[b] == g.bridges[b].(sender := h.bridges[b].sender, holder := h.bridges[b].holder)
  }

  lemma RegistrySurvives(g: Registry, h: Registry)
    requires RegistryOk(g) && SameRegistry(g, h)
    ensures RegistryOk(h)
  {
    hide Fips180.Sha256;
    assert forall b :: 0 <= b < |g.bridges| ==>
                         h.bridges[b].record == g.bridges[b].record && h.bridges[b].secret == g.bridges[b].secret;
    assert forall b :: 0 <= b < |g.bridges| ==>
                         h.bridges[b].cancelled == g.bridges[b].cancelled &&
                         h.bridges[b].departures == g.bridges[b].departures;
  }

  lemma ExpireKeepsActive(g: Registry, r: nat, stopped: bool)
    requires RegistryOk(g) && r < |g.records| && Mapped(g, r)
    ensures ActiveOk(ExpireLocked(g, g.records[r].id, r, stopped))
  {
    hide Fips180.Sha256, BridgesOk;
  }

  lemma ExpireKeepsBridges(g: Registry, r: nat, stopped: bool)
    requires RegistryOk(g) && r < |g.records| && Mapped(g, r)
    ensures BridgesOk(ExpireLocked(g, g.records[r].id, r, stopped))
  {
    hide Fips180.Sha256, SessionsOk;
  }

  /** Removing a mapped record cancels its bridge, so nothing uncancelled is left without a record. */
  lemma ExpireKeeps(g: Registry, r: nat, stopped: bool)
    requires RegistryOk(g) && r < |g.records| && Mapped(g, r)
    ensures var h := ExpireLocked(g, g.records[r].id, r, stopped);
            RegistryOk(h) && SameSenders(g, h) && |h.records| == |g.records| && g.records[r].id !in h.sessions
  {
    hide Fips180.Sha256, ActiveOk, BridgesOk;
    ExpireKeepsActive(g, r, stopped);
    ExpireKeepsBridges(g, r, stopped);
  }

  lemma EnrolKeeps(g: Registry, id: SessionId, secret: ByteString, expiresAt: int)
    requires RegistryOk(g) && id !in g.sessions
    ensures var h := Enrolled(g, id, secret, expiresAt);
            RegistryOk(h) && SameSenders(g, h)
  {
    hide Fips180.Sha256;
  }

  lemma RegisterKeeps(g: Registry, id: SessionId, secret: ByteString, readAt: int, ttl: nat, stopped: bool)
    requires RegistryOk(g) && WellFormed(g)
    ensures var h := Register(g, id, secret, readAt, ttl, stopped).0;
            RegistryOk(h) && SameSenders(g, h)
  {
    hide Fips180.Sha256, ExpireLocked, Enrolled;
    if id !in g.sessions {
      EnrolKeeps(g, id, secret, readAt + ttl);
    } else if readAt >= g.records[g.sessions[id]].expiresAt {
      ExpireKeeps(g, g.sessions[id], stopped);
      EnrolKeeps(ExpireLocked(g, id, g.sessions[id], stopped), id, secret, readAt + ttl);
    }
  }

  lemma LookupKeeps(g: Registry, id: SessionId, now: int, stopped: bool)
    requires RegistryOk(g) && WellFormed(g)
    ensures var (h, r) := Lookup(g, id, now, stopped);
            RegistryOk(h) && SameSenders(g, h) &&
            (r.Some? ==> h == g && r.value < |g.records| && Mapped(g, r.value))
  {
    hide Fips180.Sha256, ExpireLocked;
    if id in g.sessions && now >= g.records[g.sessions[id]].expiresAt {
      ExpireKeeps(g, g.sessions[id], stopped);
    }
  }

  /** Attaching a receiver to a mapped record without a bridge. */
  lemma NewBridgeKeeps(g: Registry, r: nat, secret: ByteString)
    requires RegistryOk(g) && r < |g.records| && Mapped(g, r) && g.records[r].active.None?
    requires g.records[r].secretHash == Fips180.Sha256(secret)
    ensures RegistryOk(g.(records := g.records[r := g.records[r].(active := Some(|g.bridges|))],
                          bridges := g.bridges + [Bridge(r, secret, false, false, true, None, 0)]))
  {
    hide Fips180.Sha256;
  }

  /** The bridge leaves its own record, or none: the session may belong to a later record by then. */
  lemma DetachReceiverRecords(g: Registry, b: nat)
    requires RegistryOk(g) && b < |g.bridges|
    ensures var r := g.bridges[b].record;
            DetachReceiver(g, g.records[r].id, b).records ==
            if g.records[r].active == Some(b) then g.records[r := g.records[r].(active := None)] else g.records
  {
    hide Fips180.Sha256;
  }

  lemma DetachReceiverActive(g: Registry, b: nat)
    requires RegistryOk(g) && b < |g.bridges|
    ensures ActiveOk(DetachReceiver(g, g.records[g.bridges[b].record].id, b))
  {
    hide Fips180.Sha256, BridgesOk, SessionsOk;
    DetachReceiverRecords(g, b);
  }

  lemma DetachReceiverBridges(g: Registry, b: nat)
    requires RegistryOk(g) && b < |g.bridges|
    ensures BridgesOk(DetachReceiver(g, g.records[g.bridges[b].record].id, b))
  {
    hide Fips180.Sha256, ActiveOk, SessionsOk;
    DetachReceiverRecords(g, b);
  }

  lemma DetachReceiverKeeps(g: Registry, b: nat)
    requires RegistryOk(g) && b < |g.bridges|
    ensures var h := DetachReceiver(g, g.records[g.bridges[b].record].id, b);
            RegistryOk(h) && SameSenders(g, h)
  {
    hide Fips180.Sha256, ActiveOk, BridgesOk;
    DetachReceiverRecords(g, b);
    DetachReceiverActive(g, b);
    DetachReceiverBridges(g, b);
  }

  lemma SenderCancelKeeps(g: Registry, b: nat)
    requires RegistryOk(g) && b < |g.bridges|
    ensures RegistryOk(SenderCancel(g, b))
  {
    hide Fips180.Sha256;
  }

  lemma TimerKeeps(g: Registry, r: nat)
    requires RegistryOk(g) && WellFormed(g) && r in g.pending
    ensures var h := Expire(g, g.records[r].id, r);
            RegistryOk(h) && SameSenders(g, h) && r !in h.pending &&
            h == (if Mapped(g, r) then ExpireLocked(g, g.records[r].id, r, true) else g.(pending := g.pending - {r}))
  {
    hide Fips180.Sha256;
    var id := g.records[r].id;
    if Mapped(g, r) {
      ExpireKeeps(g, r, true);
      assert Expire(g, id, r) == ExpireLocked(g, id, r, true);
    }
  }

  // What each lock region means to its caller.

  /** The session is there and has not run out. */
  ghost predicate Live(g: Registry, id: SessionId, now: int)
    requires WellFormed(g)
  {
    id in g.sessions && now < g.records[g.sessions[id]].expiresAt
  }

  ghost predicate MadeFor(g: Registry, b: nat, id: SessionId)
    requires BridgesOk(g) && b < |g.bridges|
  {
    g.records[g.bridges[b].record].id == id
  }

  /** Every bridge ever made for the session is cancelled. */
  ghost predicate Silent(g: Registry, id: SessionId)
    requires BridgesOk(g)
  {
    forall b :: 0 <= b < |g.bridges| && MadeFor(g, b, id) ==> g.bridges[b].cancelled
  }

  /** No other session, record or bridge is touched, and none is forgotten. */
  ghost predicate OnlyTouches(g: Registry, h: Registry, id: SessionId)
    requires BridgesOk(g)
  {
    |h.records| >= |g.records| && |h.bridges| >= |g.bridges| && h.sessions - {id} == g.sessions - {id} &&
    (forall r :: 0 <= r < |g.records| && g.records[r].id != id ==> h.records[r] == g.records[r]) &&
    (forall b :: 0 <= b < |g.bridges| && !MadeFor(g, b, id) ==> h.bridges[b] == g.bridges[b])
  }

  /** A session that has run out, or was never there, is gone with everything made for it. */
  ghost predicate Ended(g: Registry, h: Registry, id: SessionId, now: int)
    requires WellFormed(g)
  {
    !Live(g, id, now) && BridgesOk(h) && id !in h.sessions && Silent(h, id)
  }

  /** A registration: a live session is kept and its secret compared; any other id starts afresh. */
  ghost predicate Registered(g: Registry, h: Registry, id: SessionId, secret: ByteString, expiresAt: int, live: bool,
                             result: RegisterResult)
    requires RegistryOk(g) && (live ==> id in g.sessions)
  {
    RegistryOk(h) && OnlyTouches(g, h, id) &&
    match result
    case Created(r) =>
      !live && r == |g.records| && id in h.sessions && h.sessions[id] == r && r < |h.records| && Silent(h, id) &&
      h.records[r] == Record(id, Fips180.Sha256(secret), expiresAt, None) && r in h.pending
    case Existing(r) => live && h == g && g.sessions[id] == r && g.records[r].secretHash == Fips180.Sha256(secret)
    case SessionConflict => live && h == g && g.records[g.sessions[id]].secretHash != Fips180.Sha256(secret)
  }

  /**
   A receiver's arrival: it gets the session's one uncancelled bridge, or one of three refusals for its own reason.
   */
  ghost predicate ReceiverAttached(g: Registry, h: Registry, id: SessionId, secret: ByteString, now: int,
                                   result: AttachResult)
    requires RegistryOk(g)
  {
    RegistryOk(h) && OnlyTouches(g, h, id) &&
    match result
    case SessionNotFound => Ended(g, h, id, now)
    case InvalidSecret => Live(g, id, now) && h == g && g.records[g.sessions[id]].secretHash != Fips180.Sha256(secret)
    case ReceiverBusy =>
      Live(g, id, now) && h == g && g.records[g.sessions[id]].secretHash == Fips180.Sha256(secret) &&
      g.records[g.sessions[id]].active.Some?
    case SenderBusy => false
    case Attached(b) =>
      Live(g, id, now) && g.records[g.sessions[id]].secretHash == Fips180.Sha256(secret) && Silent(g, id) &&
      var r := g.sessions[id];
      h.sessions == g.sessions && h.pending == g.pending && b == |g.bridges| &&
      h.records == g.records[r := g.records[r].(active := Some(b))] &&
      h.bridges == g.bridges + [Bridge(r, secret, false, false, true, None, 0)]
  }

  /** A sender's arrival: it gets the flag of the session's active bridge, or is told why not. */
  ghost predicate SenderAttached(g: Registry, h: Registry, id: SessionId, who: nat, now: int, result: AttachResult)
    requires RegistryOk(g)
  {
    RegistryOk(h) && OnlyTouches(g, h, id) &&
    match result
    case SessionNotFound =>
      Ended(g, h, id, now) || (Live(g, id, now) && h == g && g.records[g.sessions[id]].active.None? && Silent(g, id))
    case InvalidSecret => false
    case ReceiverBusy => false
    case SenderBusy =>
      Live(g, id, now) && h == g && g.records[g.sessions[id]].active.Some? &&
      g.bridges[g.records[g.sessions[id]].active.value].sender
    case Attached(b) =>
      Live(g, id, now) && g.records[g.sessions[id]].active == Some(b) && !g.bridges[b].sender &&
      SameRegistry(g, h) && h.bridges[b].sender && h.bridges[b].holder == Some(who) &&
      forall c :: 0 <= c < |g.bridges| && c != b ==> h.bridges[c] == g.bridges[c]
  }

  /** A receiver's departure: its bridge is cancelled and nobody's active one; everything else is as before. */
  ghost predicate ReceiverDetached(g: Registry, h: Registry, b: nat)
    requires RegistryOk(g) && b < |g.bridges|
  {
    RegistryOk(h) && h.sessions == g.sessions && h.pending == g.pending && |h.records| == |g.records| &&
    |h.bridges| == |g.bridges| && h.bridges[b].cancelled && !h.bridges[b].receiverAttached &&
    (forall r :: 0 <= r < |h.records| ==>
       h.records[r].active != Some(b) && (g.records[r].active != Some(b) ==> h.records[r] == g.records[r])) &&
    (forall c :: 0 <= c < |g.bridges| && c != b ==> h.bridges[c] == g.bridges[c])
  }

  /** Record `r` is out of the map for good, with all its bridges; every other record and bridge is as before. */
  ghost predicate RecordRemoved(g: Registry, h: Registry, r: nat)
    requires RegistryOk(g) && r < |g.records|
  {
    RegistryOk(h) && |h.records| == |g.records| && |h.bridges| == |g.bridges| &&
    !Mapped(h, r) && (forall b :: 0 <= b < |h.bridges| && h.bridges[b].record == r ==> h.bridges[b].cancelled) &&
    (forall q :: 0 <= q < |g.records| && q != r ==> h.records[q] == g.records[q] && (Mapped(h, q) <==> Mapped(g, q))) &&
    (forall b :: 0 <= b < |g.bridges| && g.bridges[b].record != r ==> h.bridges[b] == g.bridges[b])
  }

  /**
   What is made stays what it was made as: a record keeps id, secret hash and expiry, and at most loses its bridge or
   gets one; a bridge keeps its record and secret, and never forwards again once cancelled. No timer is set again.
   */
  ghost predicate Kept(g: Registry, h: Registry)
  {
    |h.records| >= |g.records| && |h.bridges| >= |g.bridges| &&
    (forall r :: 0 <= r < |g.records| ==> SameRecord(g.records[r], h.records[r])) &&
    (forall b :: 0 <= b < |g.bridges| ==> SameBridge(g.bridges[b], h.bridges[b])) &&
    (forall r :: r in h.pending ==> r in g.pending || r >= |g.records|)
  }

  predicate SameRecord(p: Record, q: Record)
  {
    q.id == p.id && q.secretHash == p.secretHash && q.expiresAt == p.expiresAt &&
    (p.active.Some? && q.active.Some? ==> q.active == p.active)
  }

  predicate SameBridge(p: Bridge, q: Bridge)
  {
    q.record == p.record && q.secret == p.secret && (p.cancelled ==> q.cancelled) &&
    (q.receiverAttached ==> p.receiverAttached) && p.departures <= q.departures
  }

  lemma ExpireLockedKept(g: Registry, id: SessionId, r: nat, stopped: bool)
    requires WellFormed(g) && r < |g.records|
    ensures Kept(g, ExpireLocked(g, id, r, stopped))
  {
  }

  lemma RegisterKept(g: Registry, id: SessionId, secret: ByteString, now: int, ttl: nat, stopped: bool)
    requires WellFormed(g)
    ensures Kept(g, Register(g, id, secret, now, ttl, stopped).0)
  {
    hide Fips180.Sha256, ExpireLocked, SameRecord, SameBridge;
    KeptItself(g);
    if id in g.sessions {
      ExpireLockedKept(g, id, g.sessions[id], stopped);
    }
  }

  lemma KeptItself(g: Registry)
    ensures Kept(g, g)
    ensures forall p: Record :: SameRecord(p, p)
    ensures forall p: Bridge :: SameBridge(p, p)
  {
  }

  lemma LookupKept(g: Registry, id: SessionId, now: int, stopped: bool)
    requires WellFormed(g)
    ensures Kept(g, Lookup(g, id, now, stopped).0)
    ensures Lookup(g, id, now, stopped).1.Some? ==>
            id in g.sessions && Lookup(g, id, now, stopped) == (g, Some(g.sessions[id]))
  {
    hide ExpireLocked, SameRecord, SameBridge;
    KeptItself(g);
    if id in g.sessions {
      ExpireLockedKept(g, id, g.sessions[id], stopped);
    }
  }

  lemma AttachReceiverKept(g: Registry, id: SessionId, secret: ByteString, now: int, stopped: bool)
    requires WellFormed(g)
    ensures Kept(g, AttachReceiver(g, id, secret, now, stopped).0)
  {
    hide Fips180.Sha256, Lookup;
    LookupKept(g, id, now, stopped);
    KeptItself(g);
  }

  lemma AttachSenderKept(g: Registry, id: SessionId, who: nat, now: int, stopped: bool)
    requires WellFormed(g)
    ensures Kept(g, AttachSender(g, id, who, now, stopped).0)
  {
    hide Lookup;
    LookupKept(g, id, now, stopped);
    KeptItself(g);
  }

  lemma DepartureKept(g: Registry, b: nat, id: SessionId)
    requires WellFormed(g) && b < |g.bridges|
    ensures Kept(g, DetachReceiver(g, id, b)) && Kept(g, DetachSender(g, b)) && Kept(g, SenderCancel(g, b))
  {
  }

  lemma ExpireKept(g: Registry, id: SessionId, r: nat)
    requires WellFormed(g) && r < |g.records|
    ensures Kept(g, Expire(g, id, r))
  {
  }

  /** Expiry is exact: a session is there up to, and not at, the moment it was given. */
  lemma ExpiryIsExact(g: Registry, id: SessionId, secret: ByteString, who: nat, now: int, ttl: nat, stopped: bool)
    requires WellFormed(g)
    ensures var there := id in g.sessions && g.records[g.sessions[id]].expiresAt - now > 0;
            (Register(g, id, secret, now, ttl, stopped).1.Created? <==> !there) &&
            (AttachReceiver(g, id, secret, now, stopped).1.SessionNotFound? <==> !there) &&
            (AttachSender(g, id, who, now, stopped).1.SessionNotFound? <==>
               !there || g.records[g.sessions[id]].active.None?)
  {
    hide Fips180.Sha256, ExpireLocked;
  }

  /** What is not in the map has no bridge left that forwards. */
  lemma UnmappedIsSilent(g: Registry, id: SessionId)
    requires RegistryOk(g) && id !in g.sessions
    ensures Silent(g, id)
  {
    hide Fips180.Sha256;
  }

  lemma ExpireLockedTouches(g: Registry, r: nat, stopped: bool)
    requires RegistryOk(g) && r < |g.records| && Mapped(g, r)
    ensures var id := g.records[r].id; OnlyTouches(g, ExpireLocked(g, id, r, stopped), id)
  {
    hide Fips180.Sha256, SessionsOk;
  }

  lemma ExpireLockedMeans(g: Registry, r: nat, stopped: bool)
    requires RegistryOk(g) && r < |g.records| && Mapped(g, r)
    ensures var id := g.records[r].id; var h := ExpireLocked(g, id, r, stopped);
            RegistryOk(h) && OnlyTouches(g, h, id) && Silent(h, id) && id !in h.sessions
  {
    hide Fips180.Sha256, ExpireLocked, OnlyTouches, Silent, SessionsOk, ActiveOk;
    ExpireKeeps(g, r, stopped);
    ExpireLockedTouches(g, r, stopped);
    UnmappedIsSilent(ExpireLocked(g, g.records[r].id, r, stopped), g.records[r].id);
  }

  /** Only the removed record and its own bridge change. */
  lemma ExpireLockedRemoves(g: Registry, r: nat, stopped: bool)
    requires RegistryOk(g) && r < |g.records| && Mapped(g, r)
    ensures RecordRemoved(g, ExpireLocked(g, g.records[r].id, r, stopped), r)
  {
    hide Fips180.Sha256, ExpireLocked, SessionsOk, ActiveOk;
    var h := ExpireLocked(g, g.records[r].id, r, stopped);
    ExpireKeeps(g, r, stopped);
    ExpireLockedSpares(g, r, stopped);
    UnmappedRecordIsSilent(h, r);
  }

  lemma ExpireLockedSpares(g: Registry, r: nat, stopped: bool)
    requires RegistryOk(g) && r < |g.records| && Mapped(g, r)
    ensures var h := ExpireLocked(g, g.records[r].id, r, stopped);
            |h.records| == |g.records| && |h.bridges| == |g.bridges| && !Mapped(h, r) &&
            (forall q :: 0 <= q < |g.records| && q != r ==>
               h.records[q] == g.records[q] && (Mapped(h, q) <==> Mapped(g, q))) &&
            (forall b :: 0 <= b < |g.bridges| ==> h.bridges[b].record == g.bridges[b].record) &&
            (forall b :: 0 <= b < |g.bridges| && g.bridges[b].record != r ==> h.bridges[b] == g.bridges[b])
  {
    hide Fips180.Sha256;
  }

  lemma UnmappedRecordIsSilent(g: Registry, r: nat)
    requires RegistryOk(g) && r < |g.records| && !Mapped(g, r)
    ensures forall b :: 0 <= b < |g.bridges| && g.bridges[b].record == r ==> g.bridges[b].cancelled
  {
    hide Fips180.Sha256;
  }

  lemma EnrolMeans(g: Registry, id: SessionId, secret: ByteString, expiresAt: int)
    requires RegistryOk(g) && id !in g.sessions
    ensures Registered(g, Enrolled(g, id, secret, expiresAt), id, secret, expiresAt, false, Created(|g.records|))
  {
    hide Fips180.Sha256, SessionsOk, ActiveOk;
    EnrolKeeps(g, id, secret, expiresAt);
    UnmappedIsSilent(g, id);
  }

  lemma TouchesOn(g: Registry, m: Registry, h: Registry, id: SessionId)
    requires BridgesOk(g) && BridgesOk(m) && OnlyTouches(g, m, id) && OnlyTouches(m, h, id)
    requires |m.records| == |g.records| && |m.bridges| == |g.bridges|
    ensures OnlyTouches(g, h, id)
  {
    hide Fips180.Sha256;
  }

  lemma TouchesNothing(g: Registry, id: SessionId)
    requires BridgesOk(g)
    ensures OnlyTouches(g, g, id)
  {
  }

  lemma RegisterMeans(g: Registry, id: SessionId, secret: ByteString, now: int, ttl: nat, stopped: bool)
    requires RegistryOk(g)
    ensures var (h, result) := Register(g, id, secret, now, ttl, stopped);
            Registered(g, h, id, secret, now + ttl, Live(g, id, now), result)
  {
    hide Fips180.Sha256, ExpireLocked, Enrolled, ActiveOk, OnlyTouches, Silent;
    if id !in g.sessions {
      EnrolMeans(g, id, secret, now + ttl);
    } else if !Live(g, id, now) {
      var cleared := ExpireLocked(g, id, g.sessions[id], stopped);
      ExpireLockedMeans(g, g.sessions[id], stopped);
      ExpireLockedSpares(g, g.sessions[id], stopped);
      EnrolMeans(cleared, id, secret, now + ttl);
      TouchesOn(g, cleared, Enrolled(cleared, id, secret, now + ttl), id);
    } else {
      TouchesNothing(g, id);
    }
  }

  lemma LookupMeans(g: Registry, id: SessionId, now: int, stopped: bool)
    requires RegistryOk(g)
    ensures var (h, r) := Lookup(g, id, now, stopped);
            if Live(g, id, now) then h == g && r == Some(g.sessions[id])
            else r.None? && RegistryOk(h) && OnlyTouches(g, h, id) && Ended(g, h, id, now)
  {
    hide Fips180.Sha256, ExpireLocked, ActiveOk;
    if id !in g.sessions {
      UnmappedIsSilent(g, id);
    } else if !Live(g, id, now) {
      ExpireLockedMeans(g, g.sessions[id], stopped);
    }
  }

  /** A session without an active bridge has none that forwards. */
  lemma InactiveIsSilent(g: Registry, id: SessionId)
    requires RegistryOk(g) && id in g.sessions && g.records[g.sessions[id]].active.None?
    ensures Silent(g, id)
  {
    hide Fips180.Sha256;
  }

  lemma AttachReceiverMeans(g: Registry, id: SessionId, secret: ByteString, now: int, stopped: bool)
    requires RegistryOk(g)
    ensures var (h, result) := AttachReceiver(g, id, secret, now, stopped);
            ReceiverAttached(g, h, id, secret, now, result)
  {
    hide Fips180.Sha256, Lookup, ActiveOk;
    LookupMeans(g, id, now, stopped);
    var (h, result) := AttachReceiver(g, id, secret, now, stopped);
    if result.Attached? {
      NewBridgeKeeps(g, g.sessions[id], secret);
      InactiveIsSilent(g, id);
    }
  }

  lemma AttachSenderMeans(g: Registry, id: SessionId, who: nat, now: int, stopped: bool)
    requires RegistryOk(g)
    ensures var (h, result) := AttachSender(g, id, who, now, stopped);
            SenderAttached(g, h, id, who, now, result)
  {
    hide Fips180.Sha256, Lookup, Silent;
    LookupMeans(g, id, now, stopped);
    var (h, result) := AttachSender(g, id, who, now, stopped);
    if result.Attached? {
      RegistrySurvives(g, h);
    } else if Live(g, id, now) && g.records[g.sessions[id]].active.None? {
      InactiveIsSilent(g, id);
    }
  }

  lemma DetachReceiverMeans(g: Registry, b: nat)
    requires RegistryOk(g) && b < |g.bridges|
    ensures ReceiverDetached(g, DetachReceiver(g, g.records[g.bridges[b].record].id, b), b)
  {
    hide Fips180.Sha256;
    DetachReceiverKeeps(g, b);
  }

  lemma ExpireMeans(g: Registry, r: nat)
    requires RegistryOk(g) && r in g.pending
    ensures var h := Expire(g, g.records[r].id, r);
            RecordRemoved(g, h, r) && r !in h.pending
  {
    hide Fips180.Sha256, ExpireLocked, Expire, ActiveOk;
    TimerKeeps(g, r);
    if Mapped(g, r) {
      ExpireLockedRemoves(g, r, true);
    } else {
      UnmappedRecordIsSilent(g, r);
    }
  }

  /** The server object; each method is one lock region. */
  class RelayServer {
    var sessions: map<SessionId, nat>
    var records: seq<Record>
    var bridges: seq<Bridge>
    var pending: set<nat>
    const ttl: nat

    ghost function View(): Registry
      reads this
    {
      Registry(sessions, records, bridges, pending)
    }

    ghost predicate Valid()
      reads this
    {
      RegistryOk(View())
    }

    constructor (ttl: nat)
      ensures Valid() && View() == Registry(map[], [], [], {}) && this.ttl == ttl
    {
      sessions, records, bridges, pending := map[], [], [], {};
      this.ttl := ttl;
    }

    method DoExpireLocked(id: SessionId, r: nat, stopped: bool)
      requires Valid() && r < |records| && Mapped(View(), r) && id == records[r].id
      modifies this
      ensures Valid() && View() == ExpireLocked(old(View()), id, r, stopped)
      ensures RecordRemoved(old(View()), View(), r) && OnlyTouches(old(View()), View(), id)
      ensures id !in sessions && Silent(View(), id)
      ensures pending == (if stopped then old(pending) - {r} else old(pending)) && Kept(old(View()), View())
    {
      hide Fips180.Sha256, Kept, RecordRemoved, OnlyTouches, Silent, RegistryOk;
      ExpireLockedMeans(View(), r, stopped);
      ExpireLockedRemoves(View(), r, stopped);
      ExpireLockedKept(View(), id, r, stopped);
      sessions := sessions - {id};
      if stopped {
        pending := pending - {r};
      }
      if records[r].active.Some? {
        var b := records[r].active.value;
        bridges := bridges[b := bridges[b].(cancelled := true)];
        records := records[r := records[r].(active := None)];
      }
      assert records == old(records)[r := old(records)[r].(active := None)];
    }

    method DoRegister(id: SessionId, secret: ByteString, now: int, stopped: bool) returns (r: RegisterResult)
      requires Valid()
      modifies this
      ensures Valid() && (View(), r) == Register(old(View()), id, secret, now, ttl, stopped)
      ensures Registered(old(View()), View(), id, secret, now + ttl, Live(old(View()), id, now), r)
      ensures Kept(old(View()), View())
    {
      hide Kept, Fips180.Sha256, Registered, RegistryOk, RecordRemoved, OnlyTouches, Silent;
      RegisterMeans(View(), id, secret, now, ttl, stopped);
      RegisterKeeps(View(), id, secret, now, ttl, stopped);
      RegisterKept(View(), id, secret, now, ttl, stopped);
      var hash := Fips180.Sha256(secret);
      if id in sessions {
        var existing := sessions[id];
        if now >= records[existing].expiresAt {
          MappedUnderId(View(), id);
          DoExpireLocked(id, existing, stopped);
        } else {
          if records[existing].secretHash != hash {
            return SessionConflict;
          }
          return Existing(existing);
        }
      }
      var record := |records|;
      records := records + [Record(id, hash, now + ttl, None)];
      sessions := sessions[id := record];
      pending := pending + {record};
      return Created(record);
    }

    method DoAttachReceiver(id: SessionId, secret: ByteString, now: int, stopped: bool) returns (r: AttachResult)
      requires Valid()
      modifies this
      ensures Valid() && (View(), r) == AttachReceiver(old(View()), id, secret, now, stopped)
      ensures ReceiverAttached(old(View()), View(), id, secret, now, r) && Kept(old(View()), View())
    {
      hide Kept, Fips180.Sha256, RegistryOk, RecordRemoved, OnlyTouches, Silent;
      AttachReceiverMeans(View(), id, secret, now, stopped);
      AttachReceiverKept(View(), id, secret, now, stopped);
      var hash := Fips180.Sha256(secret);
      if id !in sessions || now >= records[sessions[id]].expiresAt {
        if id in sessions {
          MappedUnderId(View(), id);
          DoExpireLocked(id, sessions[id], stopped);
        }
        return SessionNotFound;
      }
      var record := sessions[id];
      if records[record].secretHash != hash {
        return InvalidSecret;
      }
      if records[record].active.Some? {
        return ReceiverBusy;
      }
      var bridge := |bridges|;
      bridges := bridges + [Bridge(record, secret, false, false, true, None, 0)];
      records := records[record := records[record].(active := Some(bridge))];
      return Attached(bridge);
    }

    /** The handler that attached bridge `b` under `id` is on its way out. */
    method DoDetachReceiver(id: SessionId, b: nat)
      requires Valid() && b < |bridges| && MadeFor(View(), b, id)
      modifies this
      ensures Valid() && View() == DetachReceiver(old(View()), id, b)
      ensures ReceiverDetached(old(View()), View(), b) && Kept(old(View()), View())
    {
      hide Kept, Fips180.Sha256, RegistryOk, BridgesOk;
      DetachReceiverMeans(View(), b);
      DepartureKept(View(), b, id);
      if id in sessions && records[sessions[id]].active == Some(b) {
        records := records[sessions[id] := records[sessions[id]].(active := None)];
      }
      bridges := bridges[b := bridges[b].(cancelled := true, receiverAttached := false)];
    }

    method DoAttachSender(id: SessionId, who: nat, now: int, stopped: bool) returns (r: AttachResult)
      requires Valid()
      modifies this
      ensures Valid() && (View(), r) == AttachSender(old(View()), id, who, now, stopped)
      ensures SenderAttached(old(View()), View(), id, who, now, r) && Kept(old(View()), View())
    {
      hide Kept, Fips180.Sha256, RegistryOk, RecordRemoved, OnlyTouches, Silent;
      AttachSenderMeans(View(), id, who, now, stopped);
      AttachSenderKept(View(), id, who, now, stopped);
      if id !in sessions || now >= records[sessions[id]].expiresAt {
        if id in sessions {
          MappedUnderId(View(), id);
          DoExpireLocked(id, sessions[id], stopped);
        }
        return SessionNotFound;
      }
      var active := records[sessions[id]].active;
      if active.None? {
        return SessionNotFound;
      }
      if bridges[active.value].sender {
        return SenderBusy;
      }
      bridges := bridges[active.value := bridges[active.value].(sender := true, holder := Some(who))];
      return Attached(active.value);
    }

    /** The flag is free for the next sender at once; whether the bridge forwards is not this call's business. */
    method DoDetachSender(b: nat)
      requires Valid() && b < |bridges|
      modifies this
      ensures Valid() && View() == DetachSender(old(View()), b)
      ensures SameRegistry(old(View()), View()) && !bridges[b].sender
      ensures forall c :: 0 <= c < |bridges| && c != b ==> bridges[c] == old(bridges)[c]
    {
      hide Fips180.Sha256, RegistryOk;
      RegistrySurvives(View(), DetachSender(View(), b));
      bridges := bridges[b := bridges[b].(sender := false, holder := None)];
    }

    /** bridge.cancel, as a departing sender handler calls it: the record keeps the bridge. */
    method DoSenderCancel(b: nat)
      requires Valid() && b < |bridges|
      modifies this
      ensures Valid() && View() == SenderCancel(old(View()), b)
      ensures bridges[b] == old(bridges)[b].(cancelled := true, departures := old(bridges)[b].departures + 1)
      ensures records == old(records) && sessions == old(sessions) && pending == old(pending)
      ensures forall c :: 0 <= c < |bridges| && c != b ==> bridges[c] == old(bridges)[c]
    {
      hide Fips180.Sha256, RegistryOk;
      SenderCancelKeeps(View(), b);
      bridges := bridges[b := bridges[b].(cancelled := true, departures := bridges[b].departures + 1)];
    }

    /** The timer of record `expected`, registered under `id`, has fired. */
    method DoExpire(id: SessionId, expected: nat)
      requires Valid() && expected in pending && id == records[expected].id
      modifies this
      ensures Valid() && View() == Expire(old(View()), id, expected)
      ensures RecordRemoved(old(View()), View(), expected) && pending == old(pending) - {expected}
      ensures Kept(old(View()), View())
    {
      hide Kept, Fips180.Sha256, RecordRemoved, OnlyTouches, Silent, ActiveOk, BridgesOk;
      ExpireMeans(View(), expected);
      TimerKeeps(View(), expected);
      ExpireKept(View(), id, expected);
      if id in sessions && sessions[id] == expected {
        DoExpireLocked(id, expected, true);
      } else {
        pending := pending - {expected};
      }
    }
  }

  lemma MappedUnderId(g: Registry, id: SessionId)
    requires RegistryOk(g) && id in g.sessions
    ensures g.sessions[id] < |g.records| && g.records[g.sessions[id]].id == id && Mapped(g, g.sessions[id])
  {
  }
}
