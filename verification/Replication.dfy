/** One journal and any number of sidecars, every interleaving of their steps, and what no interleaving can break. */
module Replication {
  import opened Basics
  import opened Ordering
  import opened Revocations
  import opened WatchStreams
  import opened Sidecars

  datatype System = System(log: Log, sidecars: seq<Sidecar>)

  datatype Action = Journal(op: JournalOp) | At(i: nat, what: ClientAction)

  /** One step. An action that is not possible where things stand changes nothing. */
  ghost function Step(s: System, a: Action): System
    requires s.log.Valid()
  {
    match a
    case Journal(op) => s.(log := Mutate(s.log, op))
    case At(i, what) =>
      if i < |s.sidecars| then s.(sidecars := s.sidecars[i := s.sidecars[i].Act(s.log, what)]) else s
  }

  ghost function Run(s: System, actions: seq<Action>): (r: System)
    requires s.log.Valid()
    ensures r.log.Valid()
    decreases |actions|
  {
    if actions == [] then s
    else
      var front := Run(s, actions[..|actions| - 1]);
      StepKeepsLog(front, actions[|actions| - 1]);
      Step(front, actions[|actions| - 1])
  }

  lemma StepKeepsLog(s: System, a: Action)
    requires s.log.Valid()
    ensures Step(s, a).log.Valid() && Step(s, a).log.Extends(s.log)
    ensures |Step(s, a).sidecars| == |s.sidecars|
  {
    if a.Journal? {
      MutateKeepsValid(s.log, a.op);
    }
  }

  /** Nothing has happened yet. */
  ghost predicate Initial(s: System) {
    && s.log == EMPTY_LOG
    && forall i :: 0 <= i < |s.sidecars| ==> s.sidecars[i] == NewSidecar(s.sidecars[i].replica.control.maxStaleness)
  }

  // ------------------------------------------------------------------ the invariant

  /** A snapshot the journal has given out at some revision of this history. */
  ghost predicate Honest(log: Log, s: Snapshot) {
    s.revision <= log.Revision() && Elements(s.entries) == Pairs(log.history[..s.revision])
  }

  /** The place agrees with the replica: what a half-done handler has written so far and what it still has to write. */
  ghost predicate PlaceFits(log: Log, c: Sidecar) {
    var r := c.replica;
    match c.place
    case GotSnapshot(_, s) => Honest(log, s) && r.cursor <= s.revision
    case SnapshotStored(_, s) => Honest(log, s) && r.cursor <= s.revision
    case SnapshotCounted(_, s) => Honest(log, s) && r.cursor == s.revision
    case EventStored(e) => e.revision == r.cursor + 1
    case EventCounted(e) => e.revision == r.cursor
    case _ => true
  }

  /** What is on its way continues where the sidecar stands; a reset that has been read has ended the stream. */
  ghost predicate StreamFits(log: Log, c: Sidecar) {
    if c.place.Watching? || c.place.EventStored? || c.place.EventCounted? then
      && c.stream.Some?
      && var st := c.stream.value;
      && st.Valid(log) && st.start <= log.Revision() && st.at != Finished(true)
      && c.received <= |st.sent|
      && (EndsInReset(st.sent) ==> c.received < |st.sent|)
      && Reach(st.start, st.sent[..c.received]) == c.Materialized()
    else c.stream.None?
  }

  /** Between a reset and the end of the recovery snapshot, and forever when the subscriber ends in between. */
  predicate Recovering(place: Place) {
    match place
    case AwaitingSnapshot(recovering) => recovering
    case GotSnapshot(recovering, _) => recovering
    case SnapshotStored(recovering, _) => recovering
    case SnapshotCounted(recovering, _) => recovering
    case Stopped(unrecovered) => unrecovered
    case _ => false
  }

  ghost predicate Consistent(log: Log, c: Sidecar) {
    && c.faults == []
    && c.replica.control.revision <= c.replica.cursor <= c.Materialized() <= log.Revision()
    && (!c.MidHandler() ==> c.replica.control.revision == c.replica.cursor)
    && c.replica.deny == Project(log.history[..c.Materialized()])
    && PlaceFits(log, c) && StreamFits(log, c)
    && (c.replica.control.unsafe <==> Recovering(c.place))
  }

  ghost predicate Invariant(s: System) {
    s.log.Valid() && forall i :: 0 <= i < |s.sidecars| ==> Consistent(s.log, s.sidecars[i])
  }

  lemma InitialConsistent(s: System)
    requires Initial(s)
    ensures Invariant(s)
  {
    assert Project([]) == EMPTY_DENYLIST by {
      assert Pairs([]) == {};
    }
  }

  lemma ExtensionKeepsConsistent(log: Log, later: Log, c: Sidecar)
    requires later.Extends(log) && Consistent(log, c)
    ensures Consistent(later, c)
  {
    assert later.history[..c.Materialized()] == log.history[..c.Materialized()];
    if c.place.GotSnapshot? || c.place.SnapshotStored? || c.place.SnapshotCounted? {
      assert later.history[..c.place.snapshot.revision] == log.history[..c.place.snapshot.revision];
    }
    if c.stream.Some? {
      ExtensionKeeps(log, later, c.stream.value);
    }
  }

  lemma HonestEntriesKnown(log: Log, s: Snapshot)
    requires log.Valid() && Honest(log, s)
    ensures AllKnown(s.entries) && s.revision <= log.Revision()
    ensures Collect(Elements(s.entries)) == Project(log.history[..s.revision])
  {
    forall i | 0 <= i < |s.entries| ensures KnownKind(s.entries[i].kind) {
      assert s.entries[i] in Elements(s.entries);
    }
  }

  predicate SnapshotSide(a: ClientAction) {
    a.SnapshotTaken? || a.SnapshotFails? || a.StoreSnapshot? || a.CountSnapshot? || a.MarkSnapshot?
  }

  lemma SnapshotActionKeeps(log: Log, c: Sidecar, a: ClientAction)
    requires log.Valid() && Consistent(log, c) && SnapshotSide(a)
    ensures Consistent(log, c.Act(log, a))
  {
    hide Stream.Valid, Project, Honest;
    EverythingIsHonest(log);
    if c.place.GotSnapshot? {
      HonestEntriesKnown(log, c.place.snapshot);
    } else if c.place.SnapshotStored? {
      HonestEntriesKnown(log, c.place.snapshot);
    }
  }

  lemma EverythingIsHonest(log: Log)
    ensures Honest(log, log.Snapshot())
  {
    assert log.history[..|log.history|] == log.history;
  }

  lemma ServerActionKeeps(log: Log, c: Sidecar, a: ServerAction)
    requires log.Valid() && Consistent(log, c)
    ensures Consistent(log, c.Act(log, Server(a)))
  {
    hide Stream.Valid, Stream.Act, Project, Recovering, Reach;
    if c.stream.Some? {
      StreamActKeeps(log, c.stream.value, a);
      PrefixKept(c.stream.value.sent, c.stream.value.Act(log, a).sent, c.received);
    }
  }

  lemma PrefixKept(before: seq<Message>, after: seq<Message>, n: nat)
    requires n <= |before| && before <= after && (EndsInReset(before) ==> n < |before|)
    ensures n <= |after| && after[..n] == before[..n] && (EndsInReset(after) ==> n < |after|)
  {
  }

  /** The heart of the protocol: whatever message comes next is the one the sidecar is ready for. */
  lemma NextMessageFits(log: Log, c: Sidecar)
    requires log.Valid() && Consistent(log, c) && c.place.Watching? && c.received < |c.stream.value.sent|
    ensures var m := c.stream.value.sent[c.received];
            && (m.EventMsg? ==>
                  && c.replica.cursor < log.Revision()
                  && m.event == log.history[c.replica.cursor]
                  && m.event.revision == c.replica.cursor + 1)
            && (m.HeartbeatMsg? ==> m.revision == c.replica.control.revision)
    ensures var st := c.stream.value;
            Reach(st.start, st.sent[..c.received + 1])
            == c.replica.cursor + if st.sent[c.received].EventMsg? then 1 else 0
  {
    var st := c.stream.value;
    WellSentAt(log, st.start, st.sent, c.received);
    assert st.sent[..c.received + 1][..c.received] == st.sent[..c.received];
  }

  lemma KnownEvent(log: Log, i: nat)
    requires log.Valid()
    ensures i < |log.history| ==> KnownKind(log.history[i].entry.kind) && log.history[i].revision == i + 1
  {
  }

  lemma ReceiveKeeps(log: Log, c: Sidecar, now: int)
    requires log.Valid() && Consistent(log, c)
    ensures Consistent(log, c.Act(log, Receive(now)))
  {
    hide Stream.Valid, Project, Log.Valid;
    if c.place.Watching? && c.received < |c.stream.value.sent| {
      NextMessageFits(log, c);
      KnownEvent(log, c.replica.cursor);
      var cursor := c.replica.cursor;
      if c.stream.value.sent[c.received].EventMsg? {
        assert log.history[..cursor + 1] == log.history[..cursor] + [log.history[cursor]];
        ProjectAppend(log.history[..cursor], log.history[cursor]);
      }
    }
  }

  lemma ActKeeps(log: Log, c: Sidecar, a: ClientAction)
    requires log.Valid() && Consistent(log, c)
    ensures Consistent(log, c.Act(log, a))
  {
    if SnapshotSide(a) {
      SnapshotActionKeeps(log, c, a);
    } else if a.Server? {
      ServerActionKeeps(log, c, a.what);
    } else if a.Receive? {
      ReceiveKeeps(log, c, a.now);
    }
  }

  lemma StepKeeps(s: System, a: Action)
    requires Invariant(s)
    ensures Invariant(Step(s, a))
  {
    StepKeepsLog(s, a);
    var next := Step(s, a);
    forall i | 0 <= i < |next.sidecars| ensures Consistent(next.log, next.sidecars[i]) {
      match a
      case Journal(_) => ExtensionKeepsConsistent(s.log, next.log, s.sidecars[i]);
      case At(_, what) => ActKeeps(s.log, s.sidecars[i], what);
    }
  }

  lemma {:induction false} RunKeeps(s: System, actions: seq<Action>)
    requires Invariant(s)
    ensures Invariant(Run(s, actions))
    decreases |actions|
  {
    if actions != [] {
      RunKeeps(s, actions[..|actions| - 1]);
      StepKeeps(Run(s, actions[..|actions| - 1]), actions[|actions| - 1]);
    }
  }

  // ------------------------------------------------------------------ safety over whole runs

  /** At every moment of every interleaving a sidecar's denylist is the projection of a prefix of the committed history;
      what it vouches for, what it has counted and what it holds are in this order, and all the same between handlers;
      and its state is condemned exactly while it recovers from a reset or has ended before it did. */
  lemma PrefixSafety(s: System, actions: seq<Action>, i: nat)
    requires Initial(s) && i < |s.sidecars|
    ensures var r := Run(s, actions);
            && i < |r.sidecars|
            && var c := r.sidecars[i];
            && c.replica.control.revision <= c.replica.cursor <= c.Materialized() <= r.log.Revision()
            && c.replica.deny == Project(r.log.history[..c.Materialized()])
            && (!c.MidHandler() ==> c.replica.control.revision == c.replica.cursor == c.Materialized())
            && (c.replica.control.unsafe <==> Recovering(c.place))
  {
    InitialConsistent(s);
    RunKeeps(s, actions);
    RunKeepsSidecars(s, actions);
  }

  /** No run of an honest control plane makes a subscriber report a revision gap, an unknown kind or a heartbeat mismatch,
      and none makes the server reject its cursor. */
  lemma NoFaults(s: System, actions: seq<Action>, i: nat)
    requires Initial(s) && i < |s.sidecars|
    ensures i < |Run(s, actions).sidecars| && Run(s, actions).sidecars[i].faults == []
  {
    InitialConsistent(s);
    RunKeeps(s, actions);
    RunKeepsSidecars(s, actions);
  }

  lemma {:induction false} RunKeepsSidecars(s: System, actions: seq<Action>)
    requires s.log.Valid()
    ensures |Run(s, actions).sidecars| == |s.sidecars|
    decreases |actions|
  {
    if actions != [] {
      RunKeepsSidecars(s, actions[..|actions| - 1]);
      StepKeepsLog(Run(s, actions[..|actions| - 1]), actions[|actions| - 1]);
    }
  }

  lemma {:induction false} RunSplit(s: System, first: seq<Action>, second: seq<Action>)
    requires s.log.Valid()
    ensures Run(s, first + second) == Run(Run(s, first), second)
    decreases |second|
  {
    if second == [] {
      assert first + second == first;
    } else {
      RunSplit(s, first, second[..|second| - 1]);
      assert (first + second)[..|first + second| - 1] == first + second[..|second| - 1];
    }
  }

  lemma ActKeepsOrder(log: Log, c: Sidecar, a: ClientAction)
    requires log.Valid() && Consistent(log, c)
    ensures var next := c.Act(log, a);
            && c.Materialized() <= next.Materialized()
            && c.replica.cursor <= next.replica.cursor
            && c.replica.control.revision <= next.replica.control.revision
  {
    hide Stream.Valid, Stream.Act, Project, WellSent, Recovering;
  }

  /** Nothing a sidecar holds is ever taken back by one of its own steps. */
  lemma ActMonotone(log: Log, c: Sidecar, a: ClientAction)
    requires log.Valid() && Consistent(log, c)
    ensures var next := c.Act(log, a);
            && c.replica.deny.Within(next.replica.deny)
            && c.replica.cursor <= next.replica.cursor
            && c.replica.control.revision <= next.replica.control.revision
  {
    hide Sidecar.Act, PlaceFits, StreamFits, Project, Log.Valid, Recovering;
    ActKeeps(log, c, a);
    ActKeepsOrder(log, c, a);
    ProjectMonotone(log.history, c.Materialized(), c.Act(log, a).Materialized());
  }

  /** Over every continuation of every run cursors never fall, and an identifier that a reader has once seen revoked is
      seen revoked ever after, across reconnects, resets and snapshots that replace the whole store. */
  lemma {:induction false} RunMonotone(s: System, actions: seq<Action>, i: nat)
    requires Invariant(s) && i < |s.sidecars|
    ensures i < |Run(s, actions).sidecars|
    ensures Run(s, actions).log.Extends(s.log)
    ensures var then_, now := s.sidecars[i].replica, Run(s, actions).sidecars[i].replica;
            && then_.deny.Within(now.deny)
            && then_.cursor <= now.cursor
            && then_.control.revision <= now.control.revision
    decreases |actions|
  {
    RunKeepsSidecars(s, actions);
    if actions != [] {
      var front, last := Run(s, actions[..|actions| - 1]), actions[|actions| - 1];
      RunMonotone(s, actions[..|actions| - 1], i);
      RunKeeps(s, actions[..|actions| - 1]);
      StepKeepsLog(front, last);
      if last.At? && last.i == i {
        ActMonotone(front.log, front.sidecars[i], last.what);
      }
    }
  }

  /** A sidecar that vouches for the revision of a revocation has it on its denylist. */
  lemma VouchedMeansListed(s: System, i: nat, revision: nat)
    requires Invariant(s) && i < |s.sidecars|
    requires 0 < revision <= s.sidecars[i].replica.control.revision
    ensures revision <= s.log.Revision()
    ensures s.sidecars[i].replica.deny.Lists(s.log.history[revision - 1].entry)
  {
    var m := s.sidecars[i].Materialized();
    assert Consistent(s.log, s.sidecars[i]);
    ProjectLists(s.log.history[..m], revision - 1);
  }

  /** Any two sidecars, even at different moments of a run, that hold equally many events answer every look-up alike. */
  lemma EqualCursorsAgree(s: System, first: seq<Action>, second: seq<Action>, i: nat, j: nat)
    requires Initial(s) && i < |s.sidecars| && j < |s.sidecars|
    ensures var early, late := Run(s, first), Run(s, first + second);
            && i < |early.sidecars| && j < |late.sidecars|
            && (early.sidecars[i].Materialized() == late.sidecars[j].Materialized() ==>
                  early.sidecars[i].replica.deny == late.sidecars[j].replica.deny)
  {
    InitialConsistent(s);
    PrefixSafety(s, first, i);
    PrefixSafety(s, first + second, j);
    RunSplit(s, first, second);
    RunKeeps(s, first);
    RunKeepsSidecars(s, first);
    RunMonotone(Run(s, first), second, i);
    var m := Run(s, first).sidecars[i].Materialized();
    if m == Run(s, first + second).sidecars[j].Materialized() {
      assert Run(s, first).log.history[..m] == Run(s, first + second).log.history[..m];
    }
  }

  /** Every stream of every run: message i carries sequence number i + 1, its events are the revisions after the one it
      was opened at without gap or repetition, a heartbeat repeats the last one sent, and a reset is the last message. */
  lemma StreamsWellSent(s: System, actions: seq<Action>, i: nat)
    requires Initial(s) && i < |s.sidecars|
    ensures i < |Run(s, actions).sidecars|
    ensures var log, c := Run(s, actions).log, Run(s, actions).sidecars[i];
            c.stream.Some? ==>
              var st := c.stream.value;
              && (forall k :: 0 <= k < |st.sent| ==>
                    && Fits(log, Reach(st.start, st.sent[..k]), k + 1, st.sent[k])
                    && (st.sent[k].ResetMsg? ==> k == |st.sent| - 1))
              && st.start <= st.last <= log.Revision()
              && Delivered(st.sent) == log.history[st.start..st.last]
              && (st.at.Waiting? && st.Wake(log) == st ==>
                    (st.last < log.Revision() <==> st.last < log.compacted == log.Revision()))
  {
    InitialConsistent(s);
    RunKeeps(s, actions);
    RunKeepsSidecars(s, actions);
    var log, c := Run(s, actions).log, Run(s, actions).sidecars[i];
    assert Consistent(log, c);
    if c.stream.Some? {
      var st := c.stream.value;
      DeliveredIsHistory(log, st.start, st.sent);
      forall k | 0 <= k < |st.sent|
        ensures Fits(log, Reach(st.start, st.sent[..k]), k + 1, st.sent[k])
        ensures st.sent[k].ResetMsg? ==> k == |st.sent| - 1
      {
        WellSentAt(log, st.start, st.sent, k);
      }
    }
  }

  /** A caught-up stream on which nothing happens keeps its sidecar fresh: the next ring of the timer sends a heartbeat, and
      reading it refreshes what is held and changes nothing else. */
  lemma HeartbeatRefreshes(log: Log, c: Sidecar, now: int)
    requires log.Valid() && Consistent(log, c) && c.place.Watching? && c.received == |c.stream.value.sent|
    requires c.stream.value.at.Waiting? && c.stream.value.last == log.Revision()
    ensures var beaten := c.Act(log, Server(TimerRings)).Act(log, Server(Beats));
            && beaten.stream.Some? && |beaten.stream.value.sent| == c.received + 1
            && beaten.Act(log, Receive(now)).replica
               == c.replica.(control := c.replica.control.(lastUpdate := Some(now)))
  {
    hide Project, WellSent;
    var st := c.stream.value;
    assert st.sent[..c.received] == st.sent;
    var beaten := c.Act(log, Server(TimerRings)).Act(log, Server(Beats));
    assert beaten.stream.value.sent == st.sent + [HeartbeatMsg(|st.sent| + 1, st.last)];
  }

  /** Whoever has a stream is connected; whoever still waits for its first snapshot, or ended in order, is not. */
  predicate LinkFits(c: Sidecar) {
    && (c.stream.Some? ==>
          c.replica.control.connected && (c.place.Watching? || c.place.EventStored? || c.place.EventCounted?))
    && (c.place.AwaitingSnapshot? || c.place.GotSnapshot? || c.place.SnapshotStored? || c.place.SnapshotCounted?
        || c.place.Stopped? ==>
          c.replica.control.connected ==> Recovering(c.place))
  }

  lemma ActKeepsLink(log: Log, c: Sidecar, a: ClientAction)
    requires log.Valid() && LinkFits(c)
    ensures LinkFits(c.Act(log, a))
  {
    hide Stream.Act, Collect, Denylist.Add, AllKnown;
  }

  lemma {:induction false} RunKeepsLink(s: System, actions: seq<Action>, i: nat)
    requires Initial(s) && i < |s.sidecars|
    ensures i < |Run(s, actions).sidecars| && LinkFits(Run(s, actions).sidecars[i])
    decreases |actions|
  {
    hide Project, StreamFits, PlaceFits, Stream.Act;
    RunKeepsSidecars(s, actions);
    if actions != [] {
      RunKeepsLink(s, actions[..|actions| - 1], i);
      var front := Run(s, actions[..|actions| - 1]);
      if actions[|actions| - 1].At? && actions[|actions| - 1].i == i {
        ActKeepsLink(front.log, front.sidecars[i], actions[|actions| - 1].what);
      }
    }
  }

  /** When the recovery snapshot fails, or the context ends before it comes, the subscriber is gone for good, and its state
      stays condemned for good. */
  lemma {:induction false} FailedRecoveryIsForever(s: System, actions: seq<Action>, i: nat)
    requires Invariant(s) && i < |s.sidecars| && s.sidecars[i].place == Stopped(true)
    ensures i < |Run(s, actions).sidecars|
    ensures Run(s, actions).sidecars[i].replica == s.sidecars[i].replica
    ensures forall now :: !Run(s, actions).sidecars[i].replica.control.IsFresh(now)
    ensures Run(s, actions).sidecars[i].place == Stopped(true)
    decreases |actions|
  {
    hide Project, StreamFits, PlaceFits, Stream.Act;
    RunKeepsSidecars(s, actions);
    assert Consistent(s.log, s.sidecars[i]);
    if actions != [] {
      FailedRecoveryIsForever(s, actions[..|actions| - 1], i);
    }
  }
}
