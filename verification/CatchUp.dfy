/** Progress: with the journal at rest every sidecar that is not cut off gets to the journal's revision, under every
    schedule that gives everybody a turn now and then, or waits forever because its replay has been compacted away. */
module CatchUp {
  import opened Basics
  import opened Ordering
  import opened Revocations
  import opened WatchStreams
  import opened Sidecars
  import opened Replication

  /** What takes a sidecar off its way: its stream breaks, its subscriber ends, its snapshot request is lost. */
  predicate Disruptive(a: ClientAction) {
    a.Cut? || a.Cancel? || a.SnapshotFails?
  }

  ghost predicate Calm(actions: seq<ClientAction>) {
    forall i :: 0 <= i < |actions| ==> !Disruptive(actions[i])
  }

  // ------------------------------------------------------------------ where a sidecar is going

  /** What becomes of a sidecar: it gets there on its way, it is reset first, or it waits for good. */
  datatype Fate = Direct | ByReset | Stalls

  /** What becomes of a cursor at which the journal is looked at. */
  function FateAt(log: Log, cursor: nat): Fate {
    if cursor >= log.compacted then Direct
    else if log.compacted < log.Revision() then ByReset
    else Stalls
  }

  /** The cursor at which a stream looks at the journal next. */
  function StreamHeading(st: Stream): nat {
    if st.at.Sending? then st.last + |st.at.batch| else st.last
  }

  function StreamFate(log: Log, st: Stream): Fate {
    if st.at == Finished(false) then ByReset else FateAt(log, StreamHeading(st))
  }

  predicate OnStream(place: Place) {
    place.Watching? || place.EventStored? || place.EventCounted?
  }

  /** The cursor at which the journal is looked at next on behalf of a sidecar. */
  ghost function Heading(log: Log, c: Sidecar): nat
    requires Consistent(log, c)
  {
    match c.place
    case AwaitingSnapshot(_) => log.Revision()
    case GotSnapshot(_, s) => s.revision
    case SnapshotStored(_, s) => s.revision
    case SnapshotCounted(_, s) => s.revision
    case Idle => c.replica.cursor
    case Stopped(_) => c.replica.cursor
    case _ => StreamHeading(c.stream.value)
  }

  ghost function FateOf(log: Log, c: Sidecar): Fate
    requires Consistent(log, c)
  {
    if OnStream(c.place) then StreamFate(log, c.stream.value) else FateAt(log, Heading(log, c))
  }

  /** The revision a sidecar gets to event by event before its fate decides. */
  ghost function Goal(log: Log, c: Sidecar): nat
    requires Consistent(log, c)
  {
    if FateOf(log, c) == Direct then log.Revision() else Heading(log, c)
  }

  /** What it holds, or is about to hold by a snapshot. */
  ghost function Base(log: Log, c: Sidecar): nat {
    match c.place
    case AwaitingSnapshot(_) => log.Revision()
    case GotSnapshot(_, s) => s.revision
    case _ => c.Materialized()
  }

  /** Whether an action takes an event off the stream. */
  predicate Delivers(c: Sidecar, a: ClientAction) {
    && a.Receive? && c.place.Watching? && c.stream.Some? && c.received < |c.stream.value.sent|
    && c.stream.value.sent[c.received].EventMsg?
  }

  /** Whether an action takes a reset off the stream. */
  predicate TakesReset(c: Sidecar, a: ClientAction) {
    && a.Receive? && c.place.Watching? && c.stream.Some? && c.received < |c.stream.value.sent|
    && c.stream.value.sent[c.received].ResetMsg?
  }

  /** No step of a stream's loop changes what becomes of it, or the cursor that decides. */
  lemma StreamFateKept(log: Log, st: Stream, a: ServerAction)
    requires log.Valid() && st.Valid(log) && st.start <= log.Revision() && st.at != Finished(true)
    ensures var next := st.Act(log, a);
            && StreamFate(log, next) == StreamFate(log, st)
            && (StreamFate(log, st) != Direct ==> StreamHeading(next) == StreamHeading(st))
            && StreamHeading(st) <= StreamHeading(next) <= log.Revision()
  {
  }

  /** Reading a reset ends a stream of which everything else has been read. */
  lemma ResetIsLast(log: Log, c: Sidecar, now: int)
    requires log.Valid() && Consistent(log, c) && TakesReset(c, Receive(now))
    ensures c.stream.value.at == Finished(false) && c.received == |c.stream.value.sent| - 1
    ensures c.replica.cursor == c.stream.value.last
  {
    var st := c.stream.value;
    WellSentAt(log, st.start, st.sent, c.received);
    NextMessageFits(log, c);
    assert st.sent[..c.received + 1] == st.sent;
  }

  /** A sidecar that has not stopped. */
  ghost predicate Running(log: Log, c: Sidecar) {
    log.Valid() && Consistent(log, c) && !c.place.Stopped?
  }

  /** An action but for the time it happens at. */
  function Timeless(a: ClientAction): ClientAction {
    match a
    case MarkSnapshot(_) => MarkSnapshot(0)
    case Receive(_) => Receive(0)
    case MarkEvent(_) => MarkEvent(0)
    case _ => a
  }

  /** The step the server's loop is due to take. */
  function Due(at: Position): ServerAction {
    match at
    case Looking => Looks
    case Sending(_) => Sends
    case Waiting(_) => Wakes
    case Beating => Beats
    case Finished(_) => Looks
  }

  /** What a sidecar is waiting for. */
  function Next(c: Sidecar): ClientAction
    requires OnStream(c.place) ==> c.stream.Some? && c.received <= |c.stream.value.sent|
  {
    match c.place
    case AwaitingSnapshot(_) => SnapshotTaken
    case GotSnapshot(_, _) => StoreSnapshot
    case SnapshotStored(_, _) => CountSnapshot
    case SnapshotCounted(_, _) => MarkSnapshot(0)
    case EventStored(_) => CountEvent
    case EventCounted(_) => MarkEvent(0)
    case Watching => if c.received < |c.stream.value.sent| then Receive(0) else Server(Due(c.stream.value.at))
    case _ => OpenStream
  }

  ghost predicate Readable(log: Log, c: Sidecar) {
    Running(log, c) && c.place.Watching? && c.received < |c.stream.value.sent|
  }

  /** What reading the next message makes of a sidecar. */
  lemma ReceiveActs(log: Log, c: Sidecar, now: int)
    requires Readable(log, c)
    ensures var next := c.Act(log, Receive(now));
            match c.stream.value.sent[c.received]
            case EventMsg(_, event) =>
              && next.place == EventStored(event) && next.stream == c.stream && next.received == c.received + 1
              && next.Materialized() == c.Materialized() + 1
            case HeartbeatMsg(_, _) =>
              && next.place == Watching && next.stream == c.stream && next.received == c.received + 1
              && next.Materialized() == c.Materialized()
            case ResetMsg(_) => next.place == AwaitingSnapshot(true) && c.stream.value.at == Finished(false)
  {
    NextMessageFits(log, c);
    if TakesReset(c, Receive(now)) {
      ResetIsLast(log, c, now);
    }
  }

  lemma ReadableIff(log: Log, c: Sidecar, now: int)
    requires Running(log, c)
    ensures c.place.Watching? ==> c.stream.Some? && c.received <= |c.stream.value.sent|
    ensures Readable(log, c) ==> c.stream.value.last <= log.Revision()
    ensures Readable(log, c) && c.stream.value.last == log.Revision() ==> StreamFate(log, c.stream.value) == Direct
    ensures !Readable(log, c) ==> c.Act(log, Receive(now)) == c && Next(c) != Receive(0)
  {
  }

  /** What the steps of the snapshot handler make of a sidecar. */
  lemma SnapshotActs(log: Log, c: Sidecar, a: ClientAction)
    requires Running(log, c) && !Disruptive(a) && SnapshotSide(a)
    ensures var next := c.Act(log, a);
            if Timeless(a) != Next(c) then next == c
            else
              match c.place
              case AwaitingSnapshot(_) =>
                && next.place.GotSnapshot? && next.place.snapshot.revision == log.Revision()
                && log.compacted <= log.Revision()
              case GotSnapshot(_, s) => next.place.SnapshotStored? && next.place.snapshot == s
              case SnapshotStored(_, s) =>
                next.place.SnapshotCounted? && next.place.snapshot == s && next.replica.cursor == s.revision
              case SnapshotCounted(_, s) =>
                next.place.Idle? && c.replica.cursor == next.replica.cursor == s.revision
              case _ => false
  {
    if c.place.GotSnapshot? {
      HonestEntriesKnown(log, c.place.snapshot);
    }
  }

  /** What the other steps of the subscriber make of it. */
  lemma ClientActs(log: Log, c: Sidecar, a: ClientAction)
    requires Running(log, c) && !Disruptive(a) && !a.Server? && !a.Receive? && !SnapshotSide(a)
    ensures c.Act(log, a).Materialized() == c.Materialized()
    ensures var next := c.Act(log, a);
            if a.OpenFails? || Timeless(a) != Next(c) then
              next == c.(replica := next.replica) && next.replica.cursor == c.replica.cursor
            else
              match c.place
              case Idle =>
                next.place == Watching && next.stream == Some(NewStream(c.replica.cursor)) && next.received == 0
              case EventStored(e) => next.place == EventCounted(e) && next.stream == c.stream && next.received == c.received
              case EventCounted(_) => next.place == Watching && next.stream == c.stream && next.received == c.received
              case _ => false
  {
  }

  /** How many events are still to be taken off streams before the fate decides. */
  ghost function Owed(log: Log, c: Sidecar): int
    requires Consistent(log, c)
  {
    Goal(log, c) - Base(log, c)
  }

  ghost predicate StepFits(log: Log, c: Sidecar, a: ClientAction)
    requires log.Valid() && Consistent(log, c)
  {
    var next := c.Act(log, a);
    && Running(log, next)
    && (TakesReset(c, a) ==> FateOf(log, c) == ByReset)
    && FateOf(log, next) == (if TakesReset(c, a) then Direct else FateOf(log, c))
    && Owed(log, next) == Owed(log, c) - if Delivers(c, a) then 1 else 0
  }

  lemma FateOnStream(log: Log, c: Sidecar)
    requires Running(log, c) && OnStream(c.place)
    ensures c.stream.Some? && c.received <= |c.stream.value.sent|
    ensures var st := c.stream.value;
            && st.Valid(log) && st.start <= log.Revision() && st.at != Finished(true)
            && FateOf(log, c) == StreamFate(log, st)
            && Goal(log, c) == (if StreamFate(log, st) == Direct then log.Revision() else StreamHeading(st))
            && Base(log, c) == c.Materialized()
  {
  }

  /** All a step of the server's loop changes of a sidecar is its stream. */
  lemma ServerActs(log: Log, c: Sidecar, a: ServerAction)
    requires Running(log, c)
    ensures OnStream(c.place) ==> c.stream.Some?
    ensures c.Act(log, Server(a)) ==
            if OnStream(c.place) then c.(stream := Some(c.stream.value.Act(log, a))) else c
  {
    if OnStream(c.place) {
      StreamActKeeps(log, c.stream.value, a);
    }
  }

  lemma ServerFits(log: Log, c: Sidecar, a: ServerAction)
    requires Running(log, c)
    ensures StepFits(log, c, Server(a))
  {
    hide Sidecar.Act, Stream.Act, Stream.Valid, Consistent, StreamFate, StreamHeading, Log.Valid, FateOf, Goal, Base;
    ServerActionKeeps(log, c, a);
    ServerActs(log, c, a);
    if OnStream(c.place) {
      FateOnStream(log, c);
      FateOnStream(log, c.Act(log, Server(a)));
      StreamFateKept(log, c.stream.value, a);
    }
  }

  lemma ReceiveFits(log: Log, c: Sidecar, now: int)
    requires Running(log, c)
    ensures StepFits(log, c, Receive(now))
  {
    hide Sidecar.Act, Stream.Valid, Consistent, StreamFate, StreamHeading, Log.Valid, FateOf, Goal, Base;
    ReceiveKeeps(log, c, now);
    ReadableIff(log, c, now);
    if Readable(log, c) {
      ReceiveActs(log, c, now);
      FateOnStream(log, c);
      if TakesReset(c, Receive(now)) {
        ResetTaken(log, c, now);
      } else {
        FateOnStream(log, c.Act(log, Receive(now)));
      }
    }
  }

  /** With the reset all has been read that was owed, and a snapshot will bring the rest. */
  lemma ResetTaken(log: Log, c: Sidecar, now: int)
    requires Running(log, c) && TakesReset(c, Receive(now)) && Consistent(log, c.Act(log, Receive(now)))
    ensures FateOf(log, c) == ByReset && Owed(log, c) == 0
    ensures FateOf(log, c.Act(log, Receive(now))) == Direct && Owed(log, c.Act(log, Receive(now))) == 0
  {
    hide Sidecar.Act, Stream.Valid, Consistent, FateOf;
    ResetIsLast(log, c, now);
    ReceiveActs(log, c, now);
    FateOnStream(log, c);
    FateInRecovery(log, c.Act(log, Receive(now)));
  }

  lemma FateInRecovery(log: Log, c: Sidecar)
    requires Running(log, c) && c.place.AwaitingSnapshot?
    ensures FateOf(log, c) == Direct
  {
  }

  lemma SnapshotFits(log: Log, c: Sidecar, a: ClientAction)
    requires Running(log, c) && !Disruptive(a) && SnapshotSide(a)
    ensures StepFits(log, c, a)
  {
    hide Sidecar.Act, Log.Valid, Consistent;
    SnapshotActionKeeps(log, c, a);
    SnapshotActs(log, c, a);
  }

  lemma ClientFits(log: Log, c: Sidecar, a: ClientAction)
    requires Running(log, c) && !Disruptive(a) && !a.Server? && !a.Receive? && !SnapshotSide(a)
    ensures StepFits(log, c, a)
  {
    hide Sidecar.Act, Log.Valid, Consistent, Stream.Valid;
    ActKeeps(log, c, a);
    ClientActs(log, c, a);
    if OnStream(c.place) {
      hide StreamFate, StreamHeading, FateOf, Goal, Base;
      FateOnStream(log, c);
    }
    if OnStream(c.Act(log, a).place) {
      FateOnStream(log, c.Act(log, a));
    }
  }

  /** No calm step changes a sidecar's fate, but that a reset it has coming is behind it once taken; and every event it
      takes off a stream is one of those it is owed. */
  lemma CalmStepFits(log: Log, c: Sidecar, a: ClientAction)
    requires Running(log, c) && !Disruptive(a)
    ensures StepFits(log, c, a)
  {
    hide Consistent, StepFits, Log.Valid;
    if a.Server? {
      ServerFits(log, c, a.what);
    } else if a.Receive? {
      ReceiveFits(log, c, a.now);
    } else if SnapshotSide(a) {
      SnapshotFits(log, c, a);
    } else {
      ClientFits(log, c, a);
    }
  }

  // ------------------------------------------------------------------ the work left

  /** How many messages there are up to and including the last event. */
  function UpToLastEvent(messages: seq<Message>): (n: nat)
    ensures n <= |messages|
  {
    if messages == [] then 0
    else if messages[|messages| - 1].EventMsg? then |messages|
    else UpToLastEvent(messages[..|messages| - 1])
  }

  /** How many messages have to be read: all of them while something is still to come, else those up to the last event. */
  function Unread(behind: bool, queue: seq<Message>): nat {
    if behind then |queue| else UpToLastEvent(queue)
  }

  /** The work left for a server's loop: eight for every event it has to send, and a little for where it stands. */
  function LoopWork(log: Log, st: Stream): int {
    if st.last == log.Revision() || st.at.Finished? then 0
    else
      8 * ((if StreamFate(log, st) == Direct then log.Revision() else StreamHeading(st)) - st.last)
      + match st.at
        case Looking => 4
        case Waiting(_) => 5
        case Beating => 8
        case _ => 0
  }

  /** The work left on a stream: its loop's, three for every message to be read, and a recovery when a reset is coming. */
  function StreamWork(log: Log, st: Stream, received: nat): int
    requires received <= |st.sent|
  {
    LoopWork(log, st) + 3 * Unread(st.last < log.Revision(), st.sent[received..])
    + if StreamFate(log, st) == ByReset then 5 else 0
  }

  /** The work left once a snapshot has brought a sidecar to a cursor. */
  function WorkAt(log: Log, cursor: nat): int {
    1 + StreamWork(log, NewStream(cursor), 0)
  }

  /** What the handler of the message just read still lacks. */
  function HandlerWork(place: Place): nat {
    if place.EventStored? then 2 else if place.EventCounted? then 1 else 0
  }

  /** All the work left. */
  ghost function Work(log: Log, c: Sidecar): int
    requires Consistent(log, c)
  {
    match c.place
    case AwaitingSnapshot(_) => 5
    case GotSnapshot(_, s) => 3 + WorkAt(log, s.revision)
    case SnapshotStored(_, s) => 2 + WorkAt(log, s.revision)
    case SnapshotCounted(_, s) => 1 + WorkAt(log, s.revision)
    case Idle => WorkAt(log, c.replica.cursor)
    case Stopped(_) => 0
    case _ => StreamWork(log, c.stream.value, c.received) + HandlerWork(c.place)
  }

  /** A sidecar that is neither cut off nor waiting for good. */
  ghost predicate UnderWay(log: Log, c: Sidecar) {
    Running(log, c) && FateOf(log, c) != Stalls
  }

  ghost predicate CaughtUp(log: Log, c: Sidecar) {
    && c.place.Watching?
    && c.replica.cursor == c.replica.control.revision == log.Revision()
    && c.replica.deny == Project(log.history) && !c.replica.control.unsafe
  }

  lemma {:induction false} UpToLastEventTail(messages: seq<Message>)
    requires messages != []
    ensures var n := UpToLastEvent(messages);
            UpToLastEvent(messages[1..]) == if n == 0 then 0 else n - 1
  {
    if |messages| > 1 && !messages[|messages| - 1].EventMsg? {
      UpToLastEventTail(messages[..|messages| - 1]);
      assert messages[1..][..|messages| - 2] == messages[..|messages| - 1][1..];
    }
  }

  lemma {:induction false} DeliveredSplit(first: seq<Message>, second: seq<Message>)
    ensures Delivered(first + second) == Delivered(first) + Delivered(second)
  {
    if second == [] {
      assert first + second == first;
    } else {
      var front := second[..|second| - 1];
      DeliveredSplit(first, front);
      assert (first + second)[..|first + second| - 1] == first + front;
    }
  }

  lemma {:induction false} NothingDelivered(messages: seq<Message>)
    ensures UpToLastEvent(messages) == 0 <==> Delivered(messages) == []
  {
    if messages != [] {
      NothingDelivered(messages[..|messages| - 1]);
    }
  }

  lemma StreamWorkPositive(log: Log, st: Stream, received: nat)
    requires log.Valid() && st.Valid(log) && st.start <= log.Revision() && st.at != Finished(true)
    requires received <= |st.sent|
    ensures StreamWork(log, st, received) >= 0
    ensures st.last < log.Revision() ==> StreamWork(log, st, received) > 0
    ensures st.last == log.Revision() ==> StreamWork(log, st, received) == 3 * Unread(false, st.sent[received..])
  {
  }

  /** The events still in a stream's queue bring the reader to where the stream is. */
  lemma QueueReaches(log: Log, c: Sidecar)
    requires Consistent(log, c) && OnStream(c.place)
    ensures c.Materialized() + |Delivered(c.stream.value.sent[c.received..])| == c.stream.value.last
  {
    var st := c.stream.value;
    assert st.sent == st.sent[..c.received] + st.sent[c.received..];
    DeliveredSplit(st.sent[..c.received], st.sent[c.received..]);
  }

  /** No work is left exactly when a sidecar reads its stream at the journal's revision. */
  lemma NoWorkIffCaughtUp(log: Log, c: Sidecar)
    requires UnderWay(log, c)
    ensures Work(log, c) >= 0
    ensures Work(log, c) == 0 <==> CaughtUp(log, c)
  {
    assert log.history[..|log.history|] == log.history;
    if OnStream(c.place) {
      QueueReaches(log, c);
      NothingDelivered(c.stream.value.sent[c.received..]);
      StreamWorkPositive(log, c.stream.value, c.received);
    }
  }

  // ------------------------------------------------------------------ one step

  /** A message that is sent is one more to read, but a heartbeat behind the last event is none. */
  lemma Appended(sent: seq<Message>, received: nat, m: Message, behind: bool)
    requires received <= |sent|
    ensures Unread(true, sent[received..]) == |sent| - received
    ensures Unread(behind, (sent + [m])[received..])
            == if behind || m.EventMsg? then |sent| - received + 1 else Unread(false, sent[received..])
  {
    var queue := sent[received..];
    assert (sent + [m])[received..] == queue + [m] && (queue + [m])[..|queue|] == queue;
  }

  /** A step of a loop that has something to send either changes nothing or leaves less work, and the one that is due
      always leaves less; a loop that has sent everything leaves no more than there was. */
  ghost predicate LoopStepFits(log: Log, st: Stream, received: nat, a: ServerAction)
    requires log.compacted <= |log.history| && received <= |st.sent|
  {
    var next := st.Act(log, a);
    && st.sent <= next.sent
    && StreamWork(log, next, received) <= StreamWork(log, st, received)
    && (st.last < log.Revision() && !st.at.Finished? ==>
          && (next == st || StreamWork(log, next, received) < StreamWork(log, st, received))
          && (a == Due(st.at) ==> next != st))
    && (st.at.Finished? ==> next == st)
  }

  ghost predicate LoopUnderWay(log: Log, st: Stream, received: nat) {
    && log.Valid() && log.compacted <= log.Revision()
    && st.Valid(log) && st.start <= log.Revision() && st.at != Finished(true)
    && received <= |st.sent| && StreamFate(log, st) != Stalls
  }

  lemma ElsewhereNothing(log: Log, st: Stream)
    requires log.compacted <= |log.history|
    ensures st.at != Looking ==> st.Act(log, Looks) == st
    ensures !st.at.Sending? ==> st.Act(log, Sends) == st
  {
  }

  /** What a look makes of a loop that does not wait for good. */
  lemma LookActs(log: Log, st: Stream, received: nat)
    requires LoopUnderWay(log, st, received) && st.at == Looking
    ensures var next, r := st.Act(log, Looks), log.Revision();
            && st.last <= r
            && match StreamFate(log, st)
               case ByReset =>
                 st.last < r && next == Stream(st.start, st.last, st.sent + [ResetMsg(|st.sent| + 1)], Finished(false))
               case Direct =>
                 if st.last == r then next == st.(at := Waiting(r))
                 else next.at.Sending? && next == st.(at := next.at) && st.last + |next.at.batch| == r
               case Stalls => false
  {
    LookFinds(log, st);
    hide Stream.Look;
  }

  lemma LookFits(log: Log, st: Stream, received: nat)
    requires LoopUnderWay(log, st, received)
    ensures LoopStepFits(log, st, received, Looks)
  {
    hide Stream.Look, Stream.Valid, Log.Valid, Log.EventsAfter, Unread;
    ElsewhereNothing(log, st);
    if st.at == Looking {
      LookActs(log, st, received);
      Appended(st.sent, received, ResetMsg(|st.sent| + 1), true);
    }
  }

  /** What sending the next event makes of a loop. */
  lemma SendActs(log: Log, st: Stream, received: nat)
    requires LoopUnderWay(log, st, received) && st.at.Sending?
    ensures st.at.batch != [] && st.last + |st.at.batch| <= log.Revision()
    ensures var next := st.Act(log, Sends);
            && next.sent == st.sent + [EventMsg(|st.sent| + 1, st.at.batch[0])] && next.last == st.last + 1
            && (next.at == Looking || next.at.Sending?)
            && StreamHeading(next) == StreamHeading(st) && StreamFate(log, next) == StreamFate(log, st)
  {
  }

  lemma SendFits(log: Log, st: Stream, received: nat)
    requires LoopUnderWay(log, st, received)
    ensures LoopStepFits(log, st, received, Sends)
  {
    hide Stream.SendNext, Stream.Valid, Log.Valid, Unread, FateAt;
    ElsewhereNothing(log, st);
    if st.at.Sending? {
      SendActs(log, st, received);
      Appended(st.sent, received, EventMsg(|st.sent| + 1, st.at.batch[0]), st.last + 1 < log.Revision());
    }
  }

  lemma BeatFits(log: Log, st: Stream, received: nat)
    requires LoopUnderWay(log, st, received)
    ensures LoopStepFits(log, st, received, Beats)
  {
    hide Stream.Valid, Log.Valid, Unread, FateAt;
    if st.at == Beating {
      Appended(st.sent, received, HeartbeatMsg(|st.sent| + 1, st.last), st.last < log.Revision());
    }
  }

  lemma WaitFits(log: Log, st: Stream, received: nat, a: ServerAction)
    requires LoopUnderWay(log, st, received) && (a == Wakes || a == TimerRings)
    ensures LoopStepFits(log, st, received, a)
  {
  }

  lemma LoopFits(log: Log, st: Stream, received: nat, a: ServerAction)
    requires LoopUnderWay(log, st, received)
    ensures LoopStepFits(log, st, received, a)
  {
    match a
    case Looks => LookFits(log, st, received);
    case Sends => SendFits(log, st, received);
    case Beats => BeatFits(log, st, received);
    case _ => WaitFits(log, st, received, a);
  }

  /** While work is left a step leaves less of it or leaves the sidecar waiting for the same thing, and the step it is
      waiting for leaves less. */
  ghost predicate StepHelps(log: Log, c: Sidecar, a: ClientAction)
    requires UnderWay(log, c)
  {
    var next := c.Act(log, a);
    && UnderWay(log, next) && Work(log, next) <= Work(log, c)
    && (Work(log, c) > 0 ==>
          && (Timeless(a) == Next(c) ==> Work(log, next) < Work(log, c))
          && (Work(log, next) == Work(log, c) ==> Next(next) == Next(c)))
  }

  /** The work of a sidecar on a stream, and what its loop still has to do once everything sent has been read. */
  lemma WorkOnStream(log: Log, c: Sidecar)
    requires UnderWay(log, c) && OnStream(c.place)
    ensures c.stream.Some? && LoopUnderWay(log, c.stream.value, c.received)
    ensures Work(log, c) == StreamWork(log, c.stream.value, c.received) + HandlerWork(c.place)
    ensures c.received == |c.stream.value.sent| ==>
              && !c.stream.value.at.Finished? && c.stream.value.last <= log.Revision()
              && (c.stream.value.last == log.Revision() ==> Work(log, c) == HandlerWork(c.place))
  {
    var st := c.stream.value;
    StreamWorkPositive(log, st, c.received);
    if c.received == |st.sent| {
      assert st.sent[c.received..] == [];
    }
  }

  lemma ServerHelps(log: Log, c: Sidecar, a: ServerAction)
    requires UnderWay(log, c)
    ensures StepHelps(log, c, Server(a))
  {
    hide Stream.Act, Sidecar.Act, Log.Valid, Work, StreamWork, Consistent, FateOf, LoopUnderWay, Owed;
    ServerFits(log, c, a);
    ServerActs(log, c, a);
    if OnStream(c.place) {
      WorkOnStream(log, c);
      LoopFits(log, c.stream.value, c.received, a);
      WorkOnStream(log, c.Act(log, Server(a)));
    }
  }

  lemma {:induction false} EventAhead(queue: seq<Message>, i: nat)
    requires i < |queue| && queue[i].EventMsg?
    ensures UpToLastEvent(queue) > i
  {
    if !queue[|queue| - 1].EventMsg? {
      EventAhead(queue[..|queue| - 1], i);
    }
  }

  /** What reading the next message takes off the work of a stream. */
  lemma ReadWork(log: Log, st: Stream, received: nat)
    requires received < |st.sent|
    ensures var before, after := StreamWork(log, st, received), StreamWork(log, st, received + 1);
            && after <= before
            && (st.last < log.Revision() || st.sent[received].EventMsg? ==> after == before - 3)
            && (st.last == log.Revision() && StreamFate(log, st) == Direct && before > 0 ==> after < before)
  {
    var queue := st.sent[received..];
    assert queue[0] == st.sent[received] && queue[1..] == st.sent[received + 1..];
    UpToLastEventTail(queue);
    if queue[0].EventMsg? {
      EventAhead(queue, 0);
    }
  }

  /** A stream that sends a reset is behind and has a recovery before it. */
  lemma ResetStreamWork(log: Log, st: Stream, received: nat)
    requires st.Valid(log) && log.Valid() && st.at == Finished(false) && received < |st.sent|
    ensures StreamWork(log, st, received) > 5
  {
  }

  lemma ReceiveHelps(log: Log, c: Sidecar, now: int)
    requires UnderWay(log, c)
    ensures StepHelps(log, c, Receive(now))
  {
    hide Sidecar.Act, StreamWork, Consistent, FateOf, Owed, StreamFate, Stream.Valid, Log.Valid;
    ReceiveFits(log, c, now);
    ReadableIff(log, c, now);
    if Readable(log, c) {
      WorkOnStream(log, c);
      ReceiveActs(log, c, now);
      ReadWork(log, c.stream.value, c.received);
      if c.stream.value.sent[c.received].ResetMsg? {
        ResetStreamWork(log, c.stream.value, c.received);
      } else {
        WorkOnStream(log, c.Act(log, Receive(now)));
      }
    }
  }

  lemma NoWorkAtRevision(log: Log)
    requires log.Valid()
    ensures WorkAt(log, log.Revision()) == 1
  {
  }

  lemma SnapshotHelps(log: Log, c: Sidecar, a: ClientAction)
    requires UnderWay(log, c) && !Disruptive(a) && SnapshotSide(a)
    ensures StepHelps(log, c, a)
  {
    hide Sidecar.Act, StreamWork, Consistent, FateOf, Owed, Log.Valid, WorkAt;
    SnapshotFits(log, c, a);
    SnapshotActs(log, c, a);
    NoWorkAtRevision(log);
  }

  lemma ClientHelps(log: Log, c: Sidecar, a: ClientAction)
    requires UnderWay(log, c) && !Disruptive(a) && !a.Server? && !a.Receive? && !SnapshotSide(a)
    ensures StepHelps(log, c, a)
  {
    hide Sidecar.Act, StreamWork, Consistent, FateOf, Owed, Log.Valid;
    ClientFits(log, c, a);
    ClientActs(log, c, a);
    if OnStream(c.place) {
      WorkOnStream(log, c);
    }
    if OnStream(c.Act(log, a).place) {
      WorkOnStream(log, c.Act(log, a));
    }
  }

  /** Nobody's step makes the way longer, and the one a sidecar is waiting for makes it shorter and stays due until it is
      taken. */
  lemma CalmStepHelps(log: Log, c: Sidecar, a: ClientAction)
    requires UnderWay(log, c) && !Disruptive(a)
    ensures StepHelps(log, c, a)
  {
    hide UnderWay, StepHelps;
    if a.Server? {
      ServerHelps(log, c, a.what);
    } else if a.Receive? {
      ReceiveHelps(log, c, a.now);
    } else if SnapshotSide(a) {
      SnapshotHelps(log, c, a);
    } else {
      ClientHelps(log, c, a);
    }
  }

  // ------------------------------------------------------------------ runs with the journal at rest

  ghost function ActAll(log: Log, c: Sidecar, actions: seq<ClientAction>): Sidecar
    requires log.Valid()
    decreases |actions|
  {
    if actions == [] then c else ActAll(log, c.Act(log, actions[0]), actions[1..])
  }

  /** How many events a run of actions takes off streams. */
  ghost function Deliveries(log: Log, c: Sidecar, actions: seq<ClientAction>): nat
    requires log.Valid()
    decreases |actions|
  {
    if actions == [] then 0
    else (if Delivers(c, actions[0]) then 1 else 0) + Deliveries(log, c.Act(log, actions[0]), actions[1..])
  }

  /** How many resets it takes. */
  ghost function Resets(log: Log, c: Sidecar, actions: seq<ClientAction>): nat
    requires log.Valid()
    decreases |actions|
  {
    if actions == [] then 0
    else (if TakesReset(c, actions[0]) then 1 else 0) + Resets(log, c.Act(log, actions[0]), actions[1..])
  }

  /** Under every calm schedule each delivery brings exactly one of the events owed, none is wasted and none is skipped;
      at most one reset is ever taken, and only by a sidecar that has it coming; the rest of the fate stays. */
  lemma {:induction false} CalmRunFits(log: Log, c: Sidecar, actions: seq<ClientAction>)
    requires Running(log, c) && Calm(actions)
    ensures var done := ActAll(log, c, actions);
            && Running(log, done)
            && Owed(log, done) == Owed(log, c) - Deliveries(log, c, actions)
            && Resets(log, c, actions) <= 1
            && (Resets(log, c, actions) == 1 ==> FateOf(log, c) == ByReset && FateOf(log, done) == Direct)
            && (Resets(log, c, actions) == 0 ==> FateOf(log, done) == FateOf(log, c))
    decreases |actions|
  {
    hide Consistent, FateOf, Owed, Log.Valid;
    if actions != [] {
      CalmStepFits(log, c, actions[0]);
      assert Calm(actions[1..]);
      CalmRunFits(log, c.Act(log, actions[0]), actions[1..]);
    }
  }

  lemma {:induction false} CalmRunHelps(log: Log, c: Sidecar, actions: seq<ClientAction>)
    requires UnderWay(log, c) && Calm(actions)
    ensures UnderWay(log, ActAll(log, c, actions))
    ensures Work(log, ActAll(log, c, actions)) <= Work(log, c)
    decreases |actions|
  {
    hide Consistent, FateOf, Work, Log.Valid;
    if actions != [] {
      CalmStepHelps(log, c, actions[0]);
      assert Calm(actions[1..]);
      CalmRunHelps(log, c.Act(log, actions[0]), actions[1..]);
    }
  }

  /** A run that contains the step a sidecar is waiting for leaves less work, whatever else it contains and in whatever
      order. */
  lemma {:induction false} RunWithNextHelps(log: Log, c: Sidecar, actions: seq<ClientAction>, i: nat)
    requires UnderWay(log, c) && Work(log, c) > 0 && Calm(actions)
    requires i < |actions| && Timeless(actions[i]) == Next(c)
    ensures UnderWay(log, ActAll(log, c, actions))
    ensures Work(log, ActAll(log, c, actions)) < Work(log, c)
    decreases |actions|
  {
    hide Consistent, FateOf, Work, Log.Valid;
    var next := c.Act(log, actions[0]);
    CalmStepHelps(log, c, actions[0]);
    assert Calm(actions[1..]);
    if Work(log, next) < Work(log, c) {
      CalmRunHelps(log, next, actions[1..]);
    } else {
      RunWithNextHelps(log, next, actions[1..], i - 1);
    }
  }

  /** A way to the journal's revision that takes no more steps than there is work left: always what is waited for. */
  lemma {:induction false} ShortWay(log: Log, c: Sidecar) returns (plan: seq<ClientAction>)
    requires UnderWay(log, c)
    ensures Calm(plan) && |plan| <= Work(log, c) && CaughtUp(log, ActAll(log, c, plan))
    decreases Work(log, c)
  {
    hide Consistent, FateOf, Work, CaughtUp, Log.Valid;
    NoWorkIffCaughtUp(log, c);
    plan := [];
    if Work(log, c) > 0 {
      NextIsCalm(log, c);
      CalmStepHelps(log, c, Next(c));
      var rest := ShortWay(log, c.Act(log, Next(c)));
      plan := [Next(c)] + rest;
      assert plan[1..] == rest;
    }
  }

  lemma NextIsCalm(log: Log, c: Sidecar)
    requires UnderWay(log, c)
    ensures OnStream(c.place) ==> c.stream.Some? && c.received <= |c.stream.value.sent|
    ensures !Disruptive(Next(c)) && Timeless(Next(c)) == Next(c)
  {
  }

  /** One turn for everybody: the subscriber at each of its places, and the server's loop at each of its. */
  const EVERYBODY: set<ClientAction> := {
    SnapshotTaken, StoreSnapshot, CountSnapshot, MarkSnapshot(0), OpenStream, Receive(0), CountEvent, MarkEvent(0),
    Server(Looks), Server(Sends), Server(Wakes), Server(Beats)
  }

  /** A block of actions without disruption in which everybody gets a turn, in any order and among any others. */
  ghost predicate Fair(block: seq<ClientAction>) {
    && Calm(block)
    && forall k :: k in EVERYBODY ==> exists i :: 0 <= i < |block| && Timeless(block[i]) == k
  }

  ghost predicate AllFair(blocks: seq<seq<ClientAction>>) {
    forall k :: 0 <= k < |blocks| ==> Fair(blocks[k])
  }

  function Concat<T>(blocks: seq<seq<T>>): seq<T> {
    if blocks == [] then [] else blocks[0] + Concat(blocks[1..])
  }

  lemma {:induction false} ActAllSplit(log: Log, c: Sidecar, first: seq<ClientAction>, second: seq<ClientAction>)
    requires log.Valid()
    ensures ActAll(log, c, first + second) == ActAll(log, ActAll(log, c, first), second)
    decreases |first|
  {
    if first == [] {
      assert first + second == second;
    } else {
      assert (first + second)[1..] == first[1..] + second;
      ActAllSplit(log, c.Act(log, first[0]), first[1..], second);
    }
  }

  lemma {:induction false} ConcatCalm(blocks: seq<seq<ClientAction>>)
    requires AllFair(blocks)
    ensures Calm(Concat(blocks))
  {
    if blocks != [] {
      assert Fair(blocks[0]);
      ConcatCalm(blocks[1..]);
    }
  }

  lemma NextIsSomebody(c: Sidecar)
    requires OnStream(c.place) ==> c.stream.Some? && c.received <= |c.stream.value.sent|
    ensures Next(c) in EVERYBODY
  {
  }

  lemma SomebodyDoes(log: Log, c: Sidecar, block: seq<ClientAction>) returns (i: nat)
    requires UnderWay(log, c) && Fair(block)
    ensures OnStream(c.place) ==> c.stream.Some? && c.received <= |c.stream.value.sent|
    ensures i < |block| && Timeless(block[i]) == Next(c)
  {
    hide Consistent, FateOf, Next, Log.Valid;
    NextIsCalm(log, c);
    NextIsSomebody(c);
    i :| 0 <= i < |block| && Timeless(block[i]) == Next(c);
  }

  lemma FairBlockHelps(log: Log, c: Sidecar, block: seq<ClientAction>)
    requires UnderWay(log, c) && Work(log, c) > 0 && Fair(block)
    ensures UnderWay(log, ActAll(log, c, block))
    ensures Work(log, ActAll(log, c, block)) < Work(log, c)
  {
    hide Consistent, FateOf, Work, Log.Valid, Next;
    var i := SomebodyDoes(log, c, block);
    RunWithNextHelps(log, c, block, i);
  }

  lemma CaughtUpStays(log: Log, c: Sidecar, actions: seq<ClientAction>)
    requires UnderWay(log, c) && Work(log, c) == 0 && Calm(actions)
    ensures UnderWay(log, ActAll(log, c, actions)) && CaughtUp(log, ActAll(log, c, actions))
  {
    hide Consistent, FateOf, Work, Log.Valid;
    CalmRunHelps(log, c, actions);
    NoWorkIffCaughtUp(log, ActAll(log, c, actions));
  }

  lemma {:induction false} FairBlocksFinish(log: Log, c: Sidecar, blocks: seq<seq<ClientAction>>)
    requires UnderWay(log, c) && |blocks| >= Work(log, c) && AllFair(blocks)
    ensures UnderWay(log, ActAll(log, c, Concat(blocks))) && CaughtUp(log, ActAll(log, c, Concat(blocks)))
    decreases |blocks|
  {
    hide Consistent, FateOf, CaughtUp;
    NoWorkIffCaughtUp(log, c);
    if Work(log, c) == 0 {
      ConcatCalm(blocks);
      CaughtUpStays(log, c, Concat(blocks));
    } else {
      assert Fair(blocks[0]) && AllFair(blocks[1..]);
      FairBlockHelps(log, c, blocks[0]);
      FairBlocksFinish(log, ActAll(log, c, blocks[0]), blocks[1..]);
      ActAllSplit(log, c, blocks[0], Concat(blocks[1..]));
    }
  }

  lemma OwedNothing(log: Log, c: Sidecar)
    requires UnderWay(log, c) && CaughtUp(log, c)
    ensures FateOf(log, c) == Direct && Owed(log, c) == 0
  {
    QueueReaches(log, c);
  }

  /** A sidecar that waits for good stays behind under every calm schedule, however long. */
  lemma StalledStaysBehind(log: Log, c: Sidecar, actions: seq<ClientAction>)
    requires Running(log, c) && FateOf(log, c) == Stalls && Calm(actions)
    ensures ActAll(log, c, actions).replica.cursor < log.Revision()
  {
    CalmRunFits(log, c, actions);
    var done := ActAll(log, c, actions);
    if OnStream(done.place) {
      QueueReaches(log, done);
    }
  }

  /** Catch-up. With the journal at rest let any sidecar that has not stopped run through as many fair blocks as it has
      work left, or more. Then it reads its stream at the journal's revision, and stays there, except exactly when it was
      heading for a cursor whose replay is gone with all of the history, where it waits behind for good. On its way it
      takes one reset if the replay of that cursor is gone with part of the history or a reset is already under way, and
      none otherwise, and exactly the events it was owed. */
  lemma FairCatchesUp(log: Log, c: Sidecar, blocks: seq<seq<ClientAction>>)
    requires Running(log, c)
    requires |blocks| >= Work(log, c) && AllFair(blocks)
    ensures var done := ActAll(log, c, Concat(blocks));
            && (CaughtUp(log, done) <==> FateOf(log, c) != Stalls)
            && (FateOf(log, c) == Stalls ==> done.replica.cursor < log.Revision())
            && Resets(log, c, Concat(blocks)) == (if FateOf(log, c) == ByReset then 1 else 0)
            && (FateOf(log, c) != Stalls ==> Deliveries(log, c, Concat(blocks)) == Goal(log, c) - Base(log, c))
  {
    ConcatCalm(blocks);
    CalmRunFits(log, c, Concat(blocks));
    if FateOf(log, c) == Stalls {
      StalledStaysBehind(log, c, Concat(blocks));
    } else {
      FairBlocksFinish(log, c, blocks);
      OwedNothing(log, ActAll(log, c, Concat(blocks)));
    }
    hide Consistent, FateOf, Log.Valid;
  }

  // ------------------------------------------------------------------ many sidecars

  /** Nobody touches the journal. */
  predicate AtRest(actions: seq<Action>) {
    forall k :: 0 <= k < |actions| ==> actions[k].At?
  }

  /** What a run of everybody's actions holds for one sidecar. */
  function ActionsOf(actions: seq<Action>, i: nat): seq<ClientAction> {
    if actions == [] then []
    else
      var last := actions[|actions| - 1];
      ActionsOf(actions[..|actions| - 1], i) + if last.At? && last.i == i then [last.what] else []
  }

  function ActionsOfEach(blocks: seq<seq<Action>>, i: nat): (r: seq<seq<ClientAction>>)
    ensures |r| == |blocks| && forall k :: 0 <= k < |blocks| ==> r[k] == ActionsOf(blocks[k], i)
  {
    seq(|blocks|, k requires 0 <= k < |blocks| => ActionsOf(blocks[k], i))
  }

  /** With the journal at rest a sidecar's part of a run is a run of its own actions: nobody else's reach it. */
  lemma {:induction false} OthersDoNotMatter(s: System, actions: seq<Action>, i: nat)
    requires s.log.Valid() && i < |s.sidecars| && AtRest(actions)
    ensures |Run(s, actions).sidecars| == |s.sidecars| && Run(s, actions).log == s.log
    ensures Run(s, actions).sidecars[i] == ActAll(s.log, s.sidecars[i], ActionsOf(actions, i))
    decreases |actions|
  {
    hide Log.Valid, Sidecar.Act;
    if actions != [] {
      var front, last := actions[..|actions| - 1], actions[|actions| - 1];
      assert AtRest(front) && last.At?;
      OthersDoNotMatter(s, front, i);
      if last.i == i {
        ActAllSplit(s.log, s.sidecars[i], ActionsOf(front, i), [last.what]);
        ActOne(s.log, ActAll(s.log, s.sidecars[i], ActionsOf(front, i)), last.what);
      } else {
        assert ActionsOf(front, i) + [] == ActionsOf(front, i);
      }
    }
  }

  lemma ActOne(log: Log, c: Sidecar, a: ClientAction)
    requires log.Valid()
    ensures ActAll(log, c, [a]) == c.Act(log, a)
  {
    assert [a][1..] == [];
  }

  lemma {:induction false} ActionsOfSplit(first: seq<Action>, second: seq<Action>, i: nat)
    ensures ActionsOf(first + second, i) == ActionsOf(first, i) + ActionsOf(second, i)
  {
    if second == [] {
      assert first + second == first;
    } else {
      var front := second[..|second| - 1];
      ActionsOfSplit(first, front, i);
      assert (first + second)[..|first + second| - 1] == first + front;
    }
  }

  lemma {:induction false} ActionsOfConcat(blocks: seq<seq<Action>>, i: nat)
    ensures ActionsOf(Concat(blocks), i) == Concat(ActionsOfEach(blocks, i))
  {
    if blocks != [] {
      ActionsOfConcat(blocks[1..], i);
      ActionsOfSplit(blocks[0], Concat(blocks[1..]), i);
      assert ActionsOfEach(blocks, i)[1..] == ActionsOfEach(blocks[1..], i);
    }
  }

  lemma {:induction false} ConcatAtRest(blocks: seq<seq<Action>>)
    requires forall k :: 0 <= k < |blocks| ==> AtRest(blocks[k])
    ensures AtRest(Concat(blocks))
  {
    if blocks != [] {
      ConcatAtRest(blocks[1..]);
    }
  }

  /** Catch-up of any number of sidecars, their steps interleaved in any way: each that has not stopped, and gets a fair
      share of enough blocks, ends at the journal's revision or is the exception, whatever becomes of the others. */
  lemma FairRunCatchesUp(s: System, blocks: seq<seq<Action>>, i: nat)
    requires Invariant(s) && i < |s.sidecars| && Running(s.log, s.sidecars[i])
    requires forall k :: 0 <= k < |blocks| ==> AtRest(blocks[k])
    requires AllFair(ActionsOfEach(blocks, i)) && |blocks| >= Work(s.log, s.sidecars[i])
    ensures var r := Run(s, Concat(blocks));
            && r.log == s.log && i < |r.sidecars|
            && (CaughtUp(s.log, r.sidecars[i]) <==> FateOf(s.log, s.sidecars[i]) != Stalls)
            && (FateOf(s.log, s.sidecars[i]) == Stalls ==> r.sidecars[i].replica.cursor < s.log.Revision())
  {
    hide Invariant, Consistent, FateOf, Work, CaughtUp, AllFair, AtRest, Run;
    ConcatAtRest(blocks);
    OthersDoNotMatter(s, Concat(blocks), i);
    ActionsOfConcat(blocks, i);
    FairCatchesUp(s.log, s.sidecars[i], ActionsOfEach(blocks, i));
  }

  // ------------------------------------------------------------------ the exception at an input

  /** The sidecar loads the empty snapshot, one revocation is committed and compacted away, and only then the stream is
      opened. */
  function StallingRun(e: Entry): seq<Action> {
    [At(0, SnapshotTaken), At(0, StoreSnapshot), At(0, CountSnapshot), At(0, MarkSnapshot(7)),
     Journal(RevokeOp(e)), Journal(CompactOp(1)), At(0, OpenStream), At(0, Server(Looks))]
  }

  lemma RunThen(s: System, actions: seq<Action>, n: nat)
    requires s.log.Valid() && n < |actions|
    ensures Run(s, actions[..n + 1]) == Step(Run(s, actions[..n]), actions[n])
  {
    assert actions[..n + 1][..n] == actions[..n];
  }

  function LoadedEmpty(maxStaleness: int): Sidecar {
    Sidecar(Replica(EMPTY_DENYLIST, 0, Control(0, Some(7), false, false, maxStaleness)), Idle, None, 0, [])
  }

  lemma EmptySnapshot()
    ensures EMPTY_LOG.Snapshot() == SnapshotAt(0, []) && Collect(Elements<Entry>([])) == EMPTY_DENYLIST
  {
    var entries := EMPTY_LOG.Snapshot().entries;
    assert Elements(entries) == {};
    EntryLessIsStrictOrder();
    AscendingLength(EntryLess, entries);
  }

  /** With four steps a new sidecar loads the empty snapshot. */
  lemma EmptySnapshotLoaded(maxStaleness: int)
    ensures NewSidecar(maxStaleness).Act(EMPTY_LOG, SnapshotTaken).Act(EMPTY_LOG, StoreSnapshot)
              .Act(EMPTY_LOG, CountSnapshot).Act(EMPTY_LOG, MarkSnapshot(7))
            == LoadedEmpty(maxStaleness)
  {
    EmptySnapshot();
    hide Log.Snapshot, Collect;
  }

  lemma CommittedAndCompacted(e: Entry)
    requires KnownKind(e.kind) && e.subject != []
    ensures Mutate(EMPTY_LOG, RevokeOp(e)).Valid()
    ensures Mutate(Mutate(EMPTY_LOG, RevokeOp(e)), CompactOp(1)) == Log([Event(1, e)], 1)
  {
    assert Pairs([]) == {};
  }

  lemma OpenedAndWaiting(maxStaleness: int, log: Log)
    requires log.Valid() && log.Revision() == log.compacted == 1
    ensures var c := LoadedEmpty(maxStaleness).Act(log, OpenStream).Act(log, Server(Looks));
            c.place == Watching && c.stream == Some(Stream(0, 0, [], Waiting(1)))
  {
  }

  lemma WaitsForGood(log: Log, c: Sidecar)
    requires Consistent(log, c) && log.Valid() && log.Revision() == log.compacted == 1
    requires c.place == Watching && c.stream == Some(Stream(0, 0, [], Waiting(1)))
    ensures Running(log, c) && FateOf(log, c) == Stalls && c.stream.value.Wake(log) == c.stream.value
  {
  }

  lemma LoadingSteps(maxStaleness: int, e: Entry)
    ensures Run(System(EMPTY_LOG, [NewSidecar(maxStaleness)]), StallingRun(e)[..4]) ==
            System(EMPTY_LOG, [LoadedEmpty(maxStaleness)])
  {
    hide Sidecar.Act, Run, NewSidecar, LoadedEmpty;
    var s, actions := System(EMPTY_LOG, [NewSidecar(maxStaleness)]), StallingRun(e);
    EmptySnapshotLoaded(maxStaleness);
    RunNothing(s, actions);
    RunThen(s, actions, 0);
    RunThen(s, actions, 1);
    RunThen(s, actions, 2);
    RunThen(s, actions, 3);
  }

  /** How the system of one new sidecar stands after that run. */
  lemma StallingSteps(maxStaleness: int, e: Entry)
    requires KnownKind(e.kind) && e.subject != []
    ensures var s, log := System(EMPTY_LOG, [NewSidecar(maxStaleness)]), Log([Event(1, e)], 1);
            && log.Valid()
            && Run(s, StallingRun(e)) ==
               System(log, [LoadedEmpty(maxStaleness).Act(log, OpenStream).Act(log, Server(Looks))])
  {
    hide Sidecar.Act, Run, Mutate, NewSidecar, LoadedEmpty;
    var s, actions := System(EMPTY_LOG, [NewSidecar(maxStaleness)]), StallingRun(e);
    LoadingSteps(maxStaleness, e);
    CommittedAndCompacted(e);
    MutateKeepsValid(Mutate(EMPTY_LOG, RevokeOp(e)), CompactOp(1));
    RunThen(s, actions, 4);
    RunThen(s, actions, 5);
    RunThen(s, actions, 6);
    RunThen(s, actions, 7);
    assert actions[..8] == actions;
  }

  lemma RunNothing(s: System, actions: seq<Action>)
    requires s.log.Valid()
    ensures Run(s, actions[..0]) == s
  {
  }

  /** A stream ends up waiting at revision 0 on the open channel of revision 1, with the commit undelivered. */
  lemma StallReached(maxStaleness: int, e: Entry)
    requires KnownKind(e.kind) && e.subject != []
    ensures var s := System(EMPTY_LOG, [NewSidecar(maxStaleness)]);
            var r := Run(s, StallingRun(e));
            && Initial(s) && r.log == Log([Event(1, e)], 1) && |r.sidecars| == 1
            && r.sidecars[0].stream == Some(Stream(0, 0, [], Waiting(1)))
            && r.sidecars[0].stream.value.Wake(r.log) == r.sidecars[0].stream.value
            && Running(r.log, r.sidecars[0]) && FateOf(r.log, r.sidecars[0]) == Stalls
  {
    hide Sidecar.Act, Run, LoadedEmpty, Consistent, FateOf, StallingRun;
    var s := System(EMPTY_LOG, [NewSidecar(maxStaleness)]);
    StallingSteps(maxStaleness, e);
    InitialConsistent(s);
    RunKeeps(s, StallingRun(e));
    var r := Run(s, StallingRun(e));
    OpenedAndWaiting(maxStaleness, r.log);
    WaitsForGood(r.log, r.sidecars[0]);
  }
}
