/** The client side as values: freshness, the replicated denylist with its cursor, the effect of one handler, and the
    sidecar as a machine whose handlers are cut at every lock boundary, where an evaluator may look. */
module Sidecars {
  import opened Basics
  import opened Ordering
  import opened Revocations
  import opened WatchStreams

  /** Times are Unix nanoseconds; a state that was never updated has none. */
  datatype Control = Control(revision: nat, lastUpdate: Option<int>, connected: bool, unsafe: bool, maxStaleness: int) {

    function MarkConnected(): Control {
      this.(connected := true)
    }

    function MarkDisconnected(): Control {
      this.(connected := false)
    }

    function MarkUnsafe(): Control {
      this.(unsafe := true)
    }

    /** A snapshot or an event has been materialized up to `revision`. */
    function MarkMaterialized(revision: nat, now: int): Control {
      this.(revision := revision, lastUpdate := Some(now), unsafe := false)
    }

    /** A heartbeat refreshes what is held but never moves it; one for another revision condemns it. */
    function MarkHeartbeat(revision: nat, now: int): Control {
      if revision == this.revision then this.(lastUpdate := Some(now), unsafe := false) else MarkUnsafe()
    }

    predicate IsFresh(now: int): (r: bool)
      ensures maxStaleness >= 0 ==>
                (r <==> !unsafe && lastUpdate.Some? && now <= lastUpdate.value + maxStaleness)
    {
      !unsafe && lastUpdate.Some? && (now < lastUpdate.value || now - lastUpdate.value <= maxStaleness)
    }
  }

  datatype Fault = RevisionGap | UnknownKind | HeartbeatMismatch | AheadOfServer

  /** What a sidecar knows: the denylist its evaluator reads, its cursor, and how far it may be trusted. */
  datatype Replica = Replica(deny: Denylist, cursor: nat, control: Control)

  function Condemn(r: Replica): Replica {
    r.(control := r.control.MarkUnsafe())
  }

  function Disconnect(r: Replica): Replica {
    r.(control := r.control.MarkDisconnected())
  }

  /** The whole effect of one event. */
  function ApplyEvent(r: Replica, e: Event, now: int): (Replica, Option<Fault>) {
    if e.revision <= r.cursor then (r, None)
    else if e.revision != r.cursor + 1 then (Condemn(r), Some(RevisionGap))
    else if !KnownKind(e.entry.kind) then (Condemn(r), Some(UnknownKind))
    else (Replica(r.deny.Add(e.entry), e.revision, r.control.MarkMaterialized(e.revision, now)), None)
  }

  predicate AllKnown(entries: seq<Entry>) {
    forall i :: 0 <= i < |entries| ==> KnownKind(entries[i].kind)
  }

  /** The whole effect of one snapshot: everything held is replaced. */
  ghost function ApplySnapshot(r: Replica, s: Snapshot, now: int): (Replica, Option<Fault>) {
    if !AllKnown(s.entries) then (Condemn(r), Some(UnknownKind))
    else (Replica(Collect(Elements(s.entries)), s.revision, r.control.MarkMaterialized(s.revision, now)), None)
  }

  /** How a stretch of messages leaves the client. */
  datatype WatchEnd = Open | NeedSnapshot | Failed(fault: Fault)

  function HandleMessage(r: Replica, m: Message, now: int): (Replica, WatchEnd) {
    match m
    case ResetMsg(_) => (Condemn(r), NeedSnapshot)
    case HeartbeatMsg(_, revision) =>
      (r.(control := r.control.MarkHeartbeat(revision, now)),
       if revision == r.control.revision then Open else Failed(HeartbeatMismatch))
    case EventMsg(_, event) =>
      var (next, fault) := ApplyEvent(r, event, now);
      (next, if fault.Some? then Failed(fault.value) else Open)
  }

  /** Handles messages, message i at time nows[i], until one of them ends the stream. */
  function HandleAll(r: Replica, messages: seq<Message>, nows: seq<int>): (Replica, WatchEnd)
    requires |nows| >= |messages|
    decreases |messages|
  {
    if messages == [] then (r, Open)
    else
      var (next, end) := HandleMessage(r, messages[0], nows[0]);
      if end.Open? then HandleAll(next, messages[1..], nows[1..]) else (next, end)
  }

  // ------------------------------------------------------------------ the machine

  /** Where the subscriber's goroutine stands. Handlers pause after each write another goroutine can observe. */
  datatype Place =
    | AwaitingSnapshot(recovering: bool)
    | GotSnapshot(recovering: bool, snapshot: Snapshot)
    | SnapshotStored(recovering: bool, snapshot: Snapshot)
    | SnapshotCounted(recovering: bool, snapshot: Snapshot)
    | Idle
    | Watching
    | EventStored(event: Event)
    | EventCounted(event: Event)
    | Stopped(unrecovered: bool)   // whether between a reset and its recovery

  datatype ClientAction =
    | SnapshotTaken                // the control plane answers the snapshot request
    | SnapshotFails                // the request or its answer is lost
    | StoreSnapshot
    | CountSnapshot
    | MarkSnapshot(now: int)
    | OpenStream
    | OpenFails
    | Receive(now: int)
    | CountEvent
    | MarkEvent(now: int)
    | Cut                          // the stream breaks; whatever was in flight is lost
    | Cancel                       // the subscriber's context ends
    | Server(what: ServerAction)   // the server's loop for this sidecar's stream goes on

  datatype Sidecar = Sidecar(replica: Replica, place: Place, stream: Option<Stream>, received: nat, faults: seq<Fault>) {

    function Fail(r: Replica, fault: Fault): Sidecar {
      Sidecar(Disconnect(Condemn(r)), Idle, None, 0, faults + [fault])
    }

    ghost function Act(log: Log, a: ClientAction): Sidecar
      requires log.Valid()
    {
      match a
      case SnapshotTaken =>
        if place.AwaitingSnapshot? then this.(place := GotSnapshot(place.recovering, log.Snapshot())) else this
      case SnapshotFails =>
        if place.AwaitingSnapshot? || place.GotSnapshot? then
          if place.recovering then this.(place := Stopped(true))
          else this.(replica := Disconnect(replica), place := AwaitingSnapshot(false))
        else this
      case StoreSnapshot =>
        if !place.GotSnapshot? then this
        else if AllKnown(place.snapshot.entries) then
          this.(replica := replica.(deny := Collect(Elements(place.snapshot.entries))),
                place := SnapshotStored(place.recovering, place.snapshot))
        else
          this.(replica := if place.recovering then Condemn(replica) else Disconnect(Condemn(replica)),
                place := if place.recovering then Stopped(true) else AwaitingSnapshot(false),
                faults := faults + [UnknownKind])
      case CountSnapshot =>
        if place.SnapshotStored? then
          this.(replica := replica.(cursor := place.snapshot.revision),
                place := SnapshotCounted(place.recovering, place.snapshot))
        else this
      case MarkSnapshot(now) =>
        if place.SnapshotCounted? then
          this.(replica := replica.(control := replica.control.MarkMaterialized(place.snapshot.revision, now)),
                place := Idle)
        else this
      case OpenStream =>
        if place.Idle? then
          Sidecar(replica.(control := replica.control.MarkConnected()), Watching, Some(NewStream(replica.cursor)), 0,
                  faults)
        else this
      case OpenFails =>
        if place.Idle? then this.(replica := Disconnect(replica)) else this
      case Receive(now) =>
        if place.Watching? && stream.Some? && received < |stream.value.sent| then
          this.(received := received + 1).Take(stream.value.sent[received], now)
        else this
      case CountEvent =>
        if place.EventStored? then
          this.(replica := replica.(cursor := place.event.revision), place := EventCounted(place.event))
        else this
      case MarkEvent(now) =>
        if place.EventCounted? then
          this.(replica := replica.(control := replica.control.MarkMaterialized(place.event.revision, now)),
                place := Watching)
        else this
      case Cut =>
        if place.Watching? then Sidecar(Disconnect(replica), Idle, None, 0, faults) else this
      case Cancel =>
        if place.Watching? || place.Idle? || place.AwaitingSnapshot? then
          Sidecar(Disconnect(replica), Stopped(place == AwaitingSnapshot(true)), None, 0, faults)
        else this
      case Server(what) =>
        if stream.None? then this
        else
          var st := stream.value.Act(log, what);
          this.(stream := Some(st),
                faults := if st.at == Finished(true) != stream.value.at then faults + [AheadOfServer] else faults)
    }

    /** Takes in one message up to the first write another goroutine can observe. */
    function Take(m: Message, now: int): Sidecar {
      match m
      case ResetMsg(_) => Sidecar(Condemn(replica), AwaitingSnapshot(true), None, 0, faults)
      case HeartbeatMsg(_, revision) =>
        if revision == replica.control.revision then
          this.(replica := replica.(control := replica.control.MarkHeartbeat(revision, now)))
        else Fail(replica, HeartbeatMismatch)
      case EventMsg(_, event) =>
        if event.revision <= replica.cursor then this
        else if event.revision != replica.cursor + 1 then Fail(replica, RevisionGap)
        else if !KnownKind(event.entry.kind) then Fail(replica, UnknownKind)
        else this.(replica := replica.(deny := replica.deny.Add(event.entry)), place := EventStored(event))
    }

    /** How many events of the history the denylist holds. */
    function Materialized(): nat {
      match place
      case SnapshotStored(_, s) => s.revision
      case EventStored(e) => e.revision
      case _ => replica.cursor
    }

    predicate MidHandler() {
      place.SnapshotStored? || place.SnapshotCounted? || place.EventStored? || place.EventCounted?
    }
  }

  function NewSidecar(maxStaleness: int): Sidecar {
    Sidecar(Replica(EMPTY_DENYLIST, 0, Control(0, None, false, false, maxStaleness)), AwaitingSnapshot(false),
            None, 0, [])
  }

  /** What each message does, and which ones end a stream: whatever ends it changes nothing but the trust in what is held,
      and leaves the state fresh at no instant; a repeated event changes nothing at all; every other message leaves the
      state fresh for exactly as long as the bound allows. */
  lemma MessageAnswers(r: Replica, m: Message, now: int)
    requires r.control.maxStaleness >= 0
    ensures var (next, end) := HandleMessage(r, m, now);
            && (end == NeedSnapshot <==> m.ResetMsg?)
            && (end == Failed(HeartbeatMismatch) <==> m.HeartbeatMsg? && m.revision != r.control.revision)
            && (end == Failed(RevisionGap) <==> m.EventMsg? && m.event.revision > r.cursor + 1)
            && (end == Failed(UnknownKind) <==>
                  m.EventMsg? && m.event.revision == r.cursor + 1 && !KnownKind(m.event.entry.kind))
            && end != Failed(AheadOfServer)
            && (!end.Open? ==>
                  && next == r.(control := r.control.(unsafe := true))
                  && forall t :: !next.control.IsFresh(t))
            && (end.Open? && m.EventMsg? && m.event.revision <= r.cursor ==> next == r)
            && (end.Open? && (m.EventMsg? ==> m.event.revision > r.cursor) ==>
                  forall t :: next.control.IsFresh(t) <==> t <= now + r.control.maxStaleness)
            && next.control.connected == r.control.connected
  {
  }

  /** The same for a snapshot: one with an entry of an unknown kind replaces nothing. */
  lemma SnapshotAnswers(r: Replica, s: Snapshot, now: int)
    requires r.control.maxStaleness >= 0
    ensures var (next, fault) := ApplySnapshot(r, s, now);
            && (fault == Some(UnknownKind) <==> exists i :: 0 <= i < |s.entries| && !KnownKind(s.entries[i].kind))
            && (fault.Some? ==>
                  && fault == Some(UnknownKind) && next == r.(control := r.control.(unsafe := true))
                  && forall t :: !next.control.IsFresh(t))
            && (fault.None? ==>
                  && next.cursor == next.control.revision == s.revision
                  && forall t :: next.control.IsFresh(t) <==> t <= now + r.control.maxStaleness)
  {
  }

  /** The instant at which an action refreshes a sidecar's state, if it does: the last write of a snapshot's or an event's
      handler, or a heartbeat for the revision vouched for. */
  function RefreshedAt(c: Sidecar, a: ClientAction): Option<int> {
    match a
    case MarkSnapshot(now) => if c.place.SnapshotCounted? then Some(now) else None
    case MarkEvent(now) => if c.place.EventCounted? then Some(now) else None
    case Receive(now) =>
      if c.place.Watching? && c.stream.Some? && c.received < |c.stream.value.sent|
         && c.stream.value.sent[c.received].HeartbeatMsg?
         && c.stream.value.sent[c.received].revision == c.replica.control.revision then Some(now)
      else None
    case _ => None
  }

  lemma ActRefreshes(c: Sidecar, log: Log, a: ClientAction)
    requires log.Valid()
    ensures var control := c.Act(log, a).replica.control;
            && control.maxStaleness == c.replica.control.maxStaleness
            && control.lastUpdate ==
               if RefreshedAt(c, a).Some? then RefreshedAt(c, a) else c.replica.control.lastUpdate
  {
    hide Stream.Act, Collect, Denylist.Add, AllKnown;
  }

  /** The three writes of a handler, one after the other, have the effect of the handler as a whole. */
  lemma EventHandlerInSteps(c: Sidecar, log: Log, m: Message, now: int)
    requires log.Valid() && c.place.Watching? && m.EventMsg?
    requires c.stream.Some? && c.received < |c.stream.value.sent| && c.stream.value.sent[c.received] == m
    ensures var done := c.Act(log, Receive(now)).Act(log, CountEvent).Act(log, MarkEvent(now));
            var (replica, fault) := ApplyEvent(c.replica, m.event, now);
            && (fault.None? ==> done.replica == replica && done.place.Watching? && done.faults == c.faults)
            && (fault.Some? ==> done.replica == Disconnect(replica) && done.faults == c.faults + [fault.value])
  {
  }

  /** Every other message is handled in one step. */
  lemma OtherMessageInOneStep(c: Sidecar, log: Log, m: Message, now: int)
    requires log.Valid() && c.place.Watching? && !m.EventMsg?
    requires c.stream.Some? && c.received < |c.stream.value.sent| && c.stream.value.sent[c.received] == m
    ensures var done := c.Act(log, Receive(now));
            var (replica, end) := HandleMessage(c.replica, m, now);
            match end
            case Open => done == c.(replica := replica, received := c.received + 1)
            case NeedSnapshot => done == Sidecar(replica, AwaitingSnapshot(true), None, 0, c.faults)
            case Failed(fault) => done == Sidecar(Disconnect(replica), Idle, None, 0, c.faults + [fault])
  {
  }

  lemma SnapshotHandlerInSteps(c: Sidecar, log: Log, now: int)
    requires log.Valid() && c.place.GotSnapshot?
    ensures var done := c.Act(log, StoreSnapshot).Act(log, CountSnapshot).Act(log, MarkSnapshot(now));
            var (replica, fault) := ApplySnapshot(c.replica, c.place.snapshot, now);
            && (fault.None? ==> done.replica == replica && done.place.Idle? && done.faults == c.faults)
            && (fault.Some? ==>
                  && done.replica == (if c.place.recovering then replica else Disconnect(replica))
                  && done.place == (if c.place.recovering then Stopped(true) else AwaitingSnapshot(false))
                  && done.faults == c.faults + [fault.value])
  {
  }
}
