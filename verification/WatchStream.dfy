/** The server side of one WatchRevocations stream: what one pass of its loop does between two lock acquisitions, what
    every pass keeps, and the loop itself run against a journal that other threads keep changing. */
module WatchStreams {
  import opened Basics
  import opened Revocations
  import opened Journals

  datatype Message =
    | EventMsg(sequence: nat, event: Event)
    | HeartbeatMsg(sequence: nat, revision: nat)
    | ResetMsg(sequence: nat)

  /** Where the loop stands. `Waiting(seen)` holds the channel that was current at revision `seen`; `Beating` has just
      read a revision equal to the last one sent. */
  datatype Position =
    | Looking
    | Sending(batch: seq<Event>)
    | Waiting(seen: nat)
    | Beating
    | Finished(rejected: bool)

  datatype ServerAction = Looks | Sends | Wakes | TimerRings | Beats

  datatype Stream = Stream(start: nat, last: nat, sent: seq<Message>, at: Position) {

    function Send(m: Message): Stream {
      this.(sent := sent + [m])
    }

    /** One observation of the journal. */
    function Look(log: Log): Stream
      requires log.compacted <= |log.history|
    {
      if at != Looking then this
      else
        match log.EventsAfter(last)
        case RevisionAhead => this.(at := Finished(true))
        case ReplayUnavailable => Send(ResetMsg(|sent| + 1)).(at := Finished(false))
        case Events(events) => this.(at := if events == [] then Waiting(log.Revision()) else Sending(events))
    }

    /** Sends the next event of the batch; an emptied batch goes back to looking. */
    function SendNext(): Stream {
      if !at.Sending? then this
      else if at.batch == [] then this.(at := Looking)
      else
        var event := at.batch[0];
        Send(EventMsg(|sent| + 1, event)).(last := event.revision,
                                           at := if |at.batch| == 1 then Looking else Sending(at.batch[1..]))
    }

    /** The channel is closed as soon as the journal has moved past the revision it was picked up at. */
    function Wake(log: Log): Stream {
      if at.Waiting? && log.Revision() > at.seen then this.(at := Looking) else this
    }

    /** The heartbeat timer fires: an advanced journal is served first. */
    function TimerFires(log: Log): Stream {
      if at.Waiting? then this.(at := if log.Revision() == last then Beating else Looking) else this
    }

    function SendHeartbeat(): Stream {
      if at == Beating then Send(HeartbeatMsg(|sent| + 1, last)).(at := Looking) else this
    }

    function Act(log: Log, a: ServerAction): Stream
      requires log.compacted <= |log.history|
    {
      match a
      case Looks => Look(log)
      case Sends => SendNext()
      case Wakes => Wake(log)
      case TimerRings => TimerFires(log)
      case Beats => SendHeartbeat()
    }

    ghost predicate Valid(log: Log) {
      && start <= last
      && last == Reach(start, sent)
      && WellSent(log, start, sent)
      && (EndsInReset(sent) <==> at == Finished(false))
      && (start <= log.Revision() ==> last <= log.Revision())
      && (start > log.Revision() ==> sent == [] && (at == Looking || at == Finished(true)))
      && match at
         case Sending(batch) => batch != [] && last + |batch| <= log.Revision() && batch == log.history[last..last + |batch|]
         case Waiting(seen) => last <= seen <= log.Revision() && (last == seen || seen <= log.compacted)
         case Finished(rejected) => if rejected then sent == [] else last < log.compacted
         case _ => true
    }
  }

  function NewStream(after: nat): Stream {
    Stream(after, after, [], Looking)
  }

  /** The revision a client holds that started at `start` and has taken in these messages. */
  function Reach(start: nat, messages: seq<Message>): nat {
    start + |Delivered(messages)|
  }

  /** The events among some messages, in order. */
  function Delivered(messages: seq<Message>): (r: seq<Event>)
    ensures |r| <= |messages|
  {
    if messages == [] then []
    else
      var m := messages[|messages| - 1];
      Delivered(messages[..|messages| - 1]) + if m.EventMsg? then [m.event] else []
  }

  /** What may be the message with this sequence number to a client that has reached this revision by then: the very next
      event of the history, a heartbeat for exactly what the client holds, or a reset. */
  ghost predicate Fits(log: Log, reached: nat, sequence: nat, m: Message) {
    && m.sequence == sequence
    && match m
       case EventMsg(_, event) => reached < log.Revision() && event == log.history[reached]
       case HeartbeatMsg(_, revision) => revision == reached <= log.Revision()
       case ResetMsg(_) => true
  }

  predicate EndsInReset(sent: seq<Message>) {
    sent != [] && sent[|sent| - 1].ResetMsg?
  }

  /** What a stream opened at a revision may have sent: each message fits, and a reset is the last one. */
  ghost predicate WellSent(log: Log, start: nat, sent: seq<Message>) {
    sent == [] ||
    var front := sent[..|sent| - 1];
    && WellSent(log, start, front)
    && !EndsInReset(front)
    && Fits(log, Reach(start, front), |sent|, sent[|sent| - 1])
  }

  /** The same, position by position. */
  lemma {:induction false} WellSentAt(log: Log, start: nat, sent: seq<Message>, i: nat)
    requires WellSent(log, start, sent) && i < |sent|
    ensures Fits(log, Reach(start, sent[..i]), i + 1, sent[i])
    ensures sent[i].ResetMsg? ==> i == |sent| - 1
    ensures WellSent(log, start, sent[..i])
  {
    var front := sent[..|sent| - 1];
    if i < |sent| - 1 {
      WellSentAt(log, start, front, i);
      assert front[..i] == sent[..i];
    }
  }

  /** Appending a fitting message to a stream that is still open keeps it well sent. */
  lemma SendKeeps(log: Log, start: nat, sent: seq<Message>, m: Message)
    requires WellSent(log, start, sent) && !EndsInReset(sent)
    requires Fits(log, Reach(start, sent), |sent| + 1, m)
    ensures WellSent(log, start, sent + [m])
    ensures Reach(start, sent + [m]) == Reach(start, sent) + if m.EventMsg? then 1 else 0
  {
    assert (sent + [m])[..|sent|] == sent;
  }

  lemma {:induction false} LaterLogKeepsWellSent(log: Log, later: Log, start: nat, sent: seq<Message>)
    requires later.Extends(log) && WellSent(log, start, sent)
    ensures WellSent(later, start, sent)
  {
    if sent != [] {
      LaterLogKeepsWellSent(log, later, start, sent[..|sent| - 1]);
    }
  }

  lemma LookKeeps(log: Log, st: Stream)
    requires log.Valid() && st.Valid(log)
    ensures st.Look(log).Valid(log)
    ensures st.start <= log.Revision() && st.at != Finished(true) ==> st.Look(log).at != Finished(true)
  {
    hide WellSent, Reach;
    if st.at == Looking && log.EventsAfter(st.last).ReplayUnavailable? {
      ResetKeeps(log, st);
    }
  }

  lemma ResetKeeps(log: Log, st: Stream)
    requires log.Valid() && st.Valid(log) && st.at == Looking && log.EventsAfter(st.last).ReplayUnavailable?
    ensures st.Look(log).Valid(log) && st.Look(log).at == Finished(false)
  {
    hide WellSent, Reach;
    SendKeeps(log, st.start, st.sent, ResetMsg(|st.sent| + 1));
  }

  /** What the loop goes on to do after a look, by what the journal answers. */
  lemma LookFinds(log: Log, st: Stream)
    requires log.Valid() && st.Valid(log) && st.at == Looking
    ensures match log.EventsAfter(st.last)
            case RevisionAhead => st.Look(log) == st.(at := Finished(true)) && st.start > log.Revision() && st.sent == []
            case ReplayUnavailable =>
              && st.Look(log) == Stream(st.start, st.last, st.sent + [ResetMsg(|st.sent| + 1)], Finished(false))
              && st.start <= log.Revision() && st.last < log.compacted < log.Revision()
            case Events(events) =>
              && st.Look(log) == st.(at := if events == [] then Waiting(log.Revision()) else Sending(events))
              && st.start <= log.Revision() && (events != [] ==> st.last + |events| == log.Revision())
  {
  }

  lemma SendNextKeeps(log: Log, st: Stream)
    requires log.Valid() && st.Valid(log)
    ensures st.SendNext().Valid(log)
    ensures st.at.Sending? && st.at.batch != [] ==> st.at.batch[0].revision == st.last + 1
  {
    if st.at.Sending? && st.at.batch != [] {
      var event := st.at.batch[0];
      assert event == log.history[st.last];
      hide WellSent, Reach;
      SendKeeps(log, st.start, st.sent, EventMsg(|st.sent| + 1, event));
      assert st.at.batch[1..] == log.history[st.last + 1..st.last + |st.at.batch|];
    }
  }

  lemma HeartbeatKeeps(log: Log, st: Stream)
    requires log.Valid() && st.Valid(log)
    ensures st.SendHeartbeat().Valid(log)
  {
    hide WellSent, Reach;
    if st.at == Beating {
      SendKeeps(log, st.start, st.sent, HeartbeatMsg(|st.sent| + 1, st.last));
    }
  }

  /** Whatever the loop does next keeps all of this, only adds to what it has sent, and turns nobody away whose cursor
      the journal has reached. */
  lemma StreamActKeeps(log: Log, st: Stream, a: ServerAction)
    requires log.Valid() && st.Valid(log)
    ensures var next := st.Act(log, a);
            && next.Valid(log) && next.start == st.start && st.sent <= next.sent
            && (st.start <= log.Revision() && st.at != Finished(true) ==> next.at != Finished(true))
  {
    ActAppends(log, st, a);
    hide WellSent, Reach;
    match a
    case Looks => LookKeeps(log, st);
    case Sends => SendNextKeeps(log, st);
    case Beats => HeartbeatKeeps(log, st);
    case _ =>
  }

  lemma ActAppends(log: Log, st: Stream, a: ServerAction)
    requires log.compacted <= |log.history|
    ensures st.Act(log, a).start == st.start && st.sent <= st.Act(log, a).sent
    ensures st.Act(log, a).at == Finished(true) ==> a == Looks || st.at == Finished(true)
  {
  }

  /** Commits and compactions by other threads disturb nothing a stream relies on. */
  lemma ExtensionKeeps(log: Log, later: Log, st: Stream)
    requires later.Extends(log) && st.Valid(log)
    ensures st.Valid(later)
  {
    LaterLogKeepsWellSent(log, later, st.start, st.sent);
  }

  lemma SliceGrows(h: seq<Event>, start: nat, end: nat)
    requires start <= end < |h|
    ensures h[start..end + 1] == h[start..end] + [h[end]]
  {
  }

  /** The events of a well-sent stream are the history after its starting point, one after the other. */
  lemma {:induction false} DeliveredIsHistory(log: Log, start: nat, sent: seq<Message>)
    requires WellSent(log, start, sent) && start <= log.Revision()
    ensures Reach(start, sent) <= log.Revision()
    ensures Delivered(sent) == log.history[start..Reach(start, sent)]
  {
    if sent != [] {
      var front := sent[..|sent| - 1];
      DeliveredIsHistory(log, start, front);
      if sent[|sent| - 1].EventMsg? {
        SliceGrows(log.history, start, Reach(start, front));
      }
    }
  }

  /** When a stream waits on a channel nobody has closed and yet has not sent everything, the whole history has been
      compacted away, and only then: this is the one way an undelivered commit can be waited on. */
  lemma StalledIffFullyCompacted(log: Log, st: Stream)
    requires log.Valid() && st.Valid(log) && st.at.Waiting? && st.Wake(log) == st
    ensures st.last < log.Revision() <==> st.last < log.compacted
    ensures st.last < log.Revision() ==> log.compacted == log.Revision()
  {
  }

  lemma BehindWaitsIffFullyCompacted(log: Log, st: Stream)
    requires log.Valid() && st.Valid(log) && st.at == Looking && st.last < log.Revision()
    ensures st.Look(log).at.Waiting? <==> log.compacted == log.Revision()
    ensures st.Look(log).at == Finished(false) <==> st.last < log.compacted < log.Revision()
    ensures st.Look(log).at.Sending? <==> st.last >= log.compacted
  {
  }

  // ------------------------------------------------------------------ the loop

  /** What happens around the loop while it runs: what other threads do to the journal, whether the heartbeat timer
      fires, and whether the stream's context is over. */
  datatype Turn = Turn(ops: seq<JournalOp>, timer: bool, cancelled: bool)

  datatype Outcome = Rejected | Reset | Cancelled

  /** The journal after the first n turns. */
  function After(base: Log, turns: seq<Turn>, n: nat): Log
    requires n <= |turns|
  {
    if n == 0 then base else MutateAll(After(base, turns, n - 1), turns[n - 1].ops)
  }

  lemma {:induction false} AfterExtends(base: Log, turns: seq<Turn>, m: nat, n: nat)
    requires base.Valid() && m <= n <= |turns|
    ensures After(base, turns, n).Valid() && After(base, turns, n).Extends(After(base, turns, m))
    decreases n
  {
    if m < n {
      AfterExtends(base, turns, m, n - 1);
    } else if n > 0 {
      AfterExtends(base, turns, n - 1, n - 1);
    }
    if n > 0 {
      MutateAllKeepsValid(After(base, turns, n - 1), turns[n - 1].ops);
    }
  }

  /** Everything committed before the last of n turns has been sent up to `last`, unless all of it is compacted away. */
  ghost predicate Served(base: Log, turns: seq<Turn>, n: nat, last: nat)
    requires n <= |turns|
  {
    n > 0 && last < After(base, turns, n - 1).Revision() ==>
      After(base, turns, n - 1).Revision() <= After(base, turns, n).compacted
  }

  lemma ServedWhileWaiting(base: Log, turns: seq<Turn>, from: nat, n: nat, st: Stream)
    requires base.Valid() && from <= n <= |turns| && st.at.Waiting?
    requires st.Valid(After(base, turns, n))
    requires st.at.seen == After(base, turns, from).Revision()
    requires n > from ==> After(base, turns, n - 1).Revision() == st.at.seen
    ensures Served(base, turns, n, st.last) && st.last <= After(base, turns, n).Revision()
  {
    if n == from && n > 0 {
      AfterExtends(base, turns, n - 1, n);
    }
  }

  lemma ServedWhenSent(base: Log, turns: seq<Turn>, n: nat, last: nat)
    requires base.Valid() && n <= |turns| && last == After(base, turns, n).Revision()
    ensures Served(base, turns, n, last)
  {
    if n > 0 {
      AfterExtends(base, turns, n - 1, n);
    }
  }

  lemma ServedBeforeBeat(base: Log, turns: seq<Turn>, n: nat, last: nat)
    requires n < |turns| && last == After(base, turns, n).Revision()
    ensures Served(base, turns, n + 1, last)
    ensures After(base, turns, n + 1) == MutateAll(After(base, turns, n), turns[n].ops)
  {
  }

  lemma WokenLooks(log: Log, st: Stream)
    requires st.Valid(log) && st.at.Waiting? && log.Revision() > st.at.seen
    ensures st.Wake(log) == Stream(st.start, st.last, st.sent, Looking) && st.Wake(log).Valid(log)
    ensures log.Revision() > st.last
  {
  }

  /** Other threads use the journal. */
  method Interfere(journal: Journal, ops: seq<JournalOp>)
    requires journal.Valid()
    modifies journal, journal.channels
    ensures journal.Valid() && journal.log == MutateAll(old(journal.log), ops)
    ensures journal.log.Extends(old(journal.log))
    ensures old(journal.channels) <= journal.channels
    ensures forall k :: |old(journal.channels)| <= k < |journal.channels| ==> fresh(journal.channels[k])
    decreases |ops|
  {
    MutateAllKeepsValid(journal.log, ops);
    if ops != [] {
      match ops[0] {
        case RevokeOp(e) => var _ := journal.Revoke(e);
        case CompactOp(r) => journal.CompactThrough(r);
      }
      assert journal.log == Mutate(old(journal.log), ops[0]);
      Interfere(journal, ops[1..]);
    }
  }

  /** The next turn passes; nothing the stream relies on is disturbed. */
  method Elapse(journal: Journal, turns: seq<Turn>, n: nat, ghost base: Log, ghost st: Stream)
    requires journal.Valid() && n < |turns| && journal.log == After(base, turns, n) && st.Valid(journal.log)
    modifies journal, journal.channels
    ensures journal.Valid() && journal.log == After(base, turns, n + 1)
    ensures st.Valid(journal.log)
    ensures old(journal.channels) <= journal.channels
    ensures forall k :: |old(journal.channels)| <= k < |journal.channels| ==> fresh(journal.channels[k])
  {
    ghost var before := journal.log;
    Interfere(journal, turns[n].ops);
    ExtensionKeeps(before, journal.log, st);
  }

  /** Sends a batch event by event; the stream value takes the same steps. */
  method SendBatch(ghost log: Log, ghost before: Stream, already: seq<Message>, events: seq<Event>)
    returns (sent: seq<Message>, lastRevision: nat, ghost st: Stream)
    requires log.Valid() && before.Valid(log) && before.sent == already
    requires events != [] && before.at == Sending(events)
    ensures already <= sent && |sent| == |already| + |events|
    ensures lastRevision == before.last + |events|
    ensures st == Stream(before.start, lastRevision, sent, Looking) && st.Valid(log)
  {
    hide Log.Valid, WellSent, Reach, EndsInReset;
    sent, st, lastRevision := already, before, 0;
    for k := 0 to |events|
      invariant st.Valid(log) && st.start == before.start && st.sent == sent && st.last == before.last + k
      invariant st.at == if k == |events| then Looking else Sending(events[k..])
      invariant k > 0 ==> st.last == lastRevision
      invariant already <= sent && |sent| == |already| + k
    {
      SendNextKeeps(log, st);
      st := st.SendNext();
      sent := sent + [EventMsg(|sent| + 1, events[k])];
      lastRevision := events[k].revision;
    }
  }

  /** Waits for the channel, the timer or the end of the context; returns the turn at which one of them is due. */
  method Await(journal: Journal, notify: Channel, heartbeats: bool, turns: seq<Turn>, from: nat, ghost st: Stream,
               ghost base: Log)
    returns (i: nat)
    requires journal.Valid() && from <= |turns| && journal.log == After(base, turns, from)
    requires st.at.Waiting? && st.Valid(journal.log)
    requires st.at.seen == journal.revision && notify == journal.notify
    modifies journal, journal.channels
    ensures journal.Valid() && st.Valid(journal.log)
    ensures old(journal.channels) <= journal.channels
    ensures forall k :: |old(journal.channels)| <= k < |journal.channels| ==> fresh(journal.channels[k])
    ensures from <= i <= |turns| && journal.log == After(base, turns, i)
    ensures st.at.seen == After(base, turns, from).Revision()
    ensures i > from ==> After(base, turns, i - 1).Revision() == st.at.seen
    ensures notify.closed <==> journal.log.Revision() > st.at.seen
    ensures i == |turns| || turns[i].cancelled || notify.closed || (heartbeats && turns[i].timer)
  {
    hide Stream.Valid, Log.Valid, After;
    i := from;
    while i < |turns| && !turns[i].cancelled && !notify.closed && !(heartbeats && turns[i].timer)
      invariant from <= i <= |turns| && journal.log == After(base, turns, i)
      invariant i > from ==> After(base, turns, i - 1).Revision() == st.at.seen
      invariant journal.Valid() && st.Valid(journal.log)
      invariant old(journal.channels) <= journal.channels
      invariant forall k :: |old(journal.channels)| <= k < |journal.channels| ==> fresh(journal.channels[k])
    {
      assert notify == journal.channels[st.at.seen];
      Elapse(journal, turns, i, base, st);
      i := i + 1;
    }
    assert notify == journal.channels[st.at.seen];
  }

  /** The timer has fired: a journal that has moved on is served first, otherwise the last revision sent is repeated. */
  method Beat(journal: Journal, meanwhile: seq<JournalOp>, ghost before: Stream, last: nat, already: seq<Message>)
    returns (sent: seq<Message>, beat: bool, ghost st: Stream)
    requires journal.Valid() && before.Valid(journal.log) && before.at.Waiting?
    requires last == before.last && already == before.sent
    modifies journal, journal.channels
    ensures journal.Valid() && journal.log == if beat then MutateAll(old(journal.log), meanwhile) else old(journal.log)
    ensures st.Valid(journal.log)
    ensures old(journal.channels) <= journal.channels
    ensures forall k :: |old(journal.channels)| <= k < |journal.channels| ==> fresh(journal.channels[k])
    ensures beat <==> old(journal.log).Revision() == last
    ensures sent == if beat then already + [HeartbeatMsg(|already| + 1, last)] else already
    ensures st == Stream(before.start, last, sent, Looking)
  {
    var current := journal.Revision();
    sent, beat, st := already, current == last, before.TimerFires(journal.log);
    if !beat {
      return;
    }
    ghost var read := journal.log;
    Interfere(journal, meanwhile);
    ExtensionKeeps(read, journal.log, st);
    HeartbeatKeeps(journal.log, st);
    st := st.SendHeartbeat();
    sent := sent + [HeartbeatMsg(|sent| + 1, last)];
  }

  /** Waits, and sends a heartbeat if the timer rings first. */
  method Idle(journal: Journal, notify: Channel, heartbeats: bool, turns: seq<Turn>, from: nat, already: seq<Message>,
              last: nat, ghost waiting: Stream, ghost base: Log)
    returns (i: nat, sent: seq<Message>, over: Option<Outcome>, ghost st: Stream)
    requires journal.Valid() && base.Valid() && from <= |turns| && journal.log == After(base, turns, from)
    requires waiting.at.Waiting? && waiting.Valid(journal.log) && waiting.last == last && waiting.sent == already
    requires waiting.at.seen == journal.revision && notify == journal.notify
    modifies journal, journal.channels
    ensures journal.Valid() && st.Valid(journal.log)
    ensures old(journal.channels) <= journal.channels
    ensures forall k :: |old(journal.channels)| <= k < |journal.channels| ==> fresh(journal.channels[k])
    ensures from <= i <= |turns| && journal.log == After(base, turns, i) && Served(base, turns, i, last)
    ensures over.None? ==> st == Stream(waiting.start, last, sent, Looking)
    ensures over.Some? ==> over == Some(Cancelled) && st == waiting && sent == already
    ensures over.Some? ==> i == |turns| || turns[i].cancelled
    ensures over.None? && sent == already ==> journal.log.Revision() > last
  {
    hide Journal.Valid, Stream.Valid, Log.Valid, After, MutateAll, Served;
    sent, over, st := already, None, waiting;
    i := Await(journal, notify, heartbeats, turns, from, waiting, base);
    ServedWhileWaiting(base, turns, from, i, waiting);
    if i == |turns| || turns[i].cancelled {
      over := Some(Cancelled);
    } else if heartbeats && turns[i].timer {
      var beat;
      sent, beat, st := Beat(journal, turns[i].ops, waiting, last, already);
      if beat {
        ServedBeforeBeat(base, turns, i, last);
        i := i + 1;
      }
    } else {
      WokenLooks(journal.log, waiting);
      st := waiting.Wake(journal.log);
    }
  }

  /** One pass: look at the journal, serve what is there, else wait and perhaps send a heartbeat. */
  method Pass(journal: Journal, heartbeats: bool, turns: seq<Turn>, from: nat, already: seq<Message>, last: nat,
              ghost start: nat, ghost base: Log)
    returns (i: nat, sent: seq<Message>, lastRevision: nat, over: Option<Outcome>, ghost st: Stream)
    requires journal.Valid() && base.Valid() && from <= |turns| && journal.log == After(base, turns, from)
    requires Stream(start, last, already, Looking).Valid(journal.log)
    modifies journal, journal.channels
    ensures journal.Valid() && st.Valid(journal.log)
    ensures old(journal.channels) <= journal.channels
    ensures forall k :: |old(journal.channels)| <= k < |journal.channels| ==> fresh(journal.channels[k])
    ensures from <= i <= |turns| && journal.log == After(base, turns, i)
    ensures st.start == start && st.sent == sent && st.last == lastRevision
    ensures over.None? ==> st.at == Looking
    ensures over.None? || over == Some(Cancelled) ==> Served(base, turns, i, lastRevision)
    ensures over == Some(Cancelled) ==> i == |turns| || turns[i].cancelled
    ensures over.None? && sent == already ==> journal.log.Revision() > lastRevision
    ensures over == Some(Rejected) <==> start > old(journal.log).Revision()
    ensures over == Some(Rejected) ==> sent == []
    ensures over == Some(Reset) <==> st.at == Finished(false)
    ensures over == Some(Reset) ==> lastRevision < journal.log.compacted < journal.log.Revision()
  {
    hide Journal.Valid, Stream.Valid, Log.Valid, Log.EventsAfter, Stream.Look, After, Served;
    journal.LogValid();
    i, sent, lastRevision, over := from, already, last, None;
    var replay, notify := journal.EventsAfter(lastRevision);
    st := Stream(start, last, already, Looking);
    LookKeeps(journal.log, st);
    LookFinds(journal.log, st);
    st := st.Look(journal.log);
    if replay.RevisionAhead? {
      over := Some(Rejected);
    } else if replay.ReplayUnavailable? {
      sent, over := sent + [ResetMsg(|sent| + 1)], Some(Reset);
    } else if |replay.events| > 0 {
      // No heartbeat while there is an event to send.
      sent, lastRevision, st := SendBatch(journal.log, st, sent, replay.events);
      ServedWhenSent(base, turns, from, lastRevision);
    } else {
      // Caught up, or nothing left to replay.
      i, sent, over, st := Idle(journal, notify, heartbeats, turns, from, sent, lastRevision, st, base);
    }
  }

  /** How a stream stands after n turns: open, or ended for one of the three reasons. */
  ghost predicate Closed(st: Stream, over: Option<Outcome>, base: Log, turns: seq<Turn>, n: nat)
    requires n <= |turns|
  {
    && (n > 0 ==> (over == Some(Rejected) <==> st.start > After(base, turns, 1).Revision()))
    && (over == Some(Reset) <==> st.at == Finished(false))
    && match over
       case None => st.at == Looking && Served(base, turns, n, st.last)
       case Some(Cancelled) => (n == |turns| || turns[n].cancelled) && Served(base, turns, n, st.last)
       case Some(Rejected) => n > 0 && st.sent == []
       case Some(Reset) => st.last < After(base, turns, n).compacted < After(base, turns, n).Revision()
  }

  lemma ClosedMeans(log: Log, st: Stream, over: Option<Outcome>, base: Log, turns: seq<Turn>, n: nat)
    requires n <= |turns| && log == After(base, turns, n) && st.Valid(log) && Closed(st, over, base, turns, n)
    ensures WellSent(log, st.start, st.sent) && st.last == Reach(st.start, st.sent)
    ensures over == Some(Reset) <==> EndsInReset(st.sent)
  {
  }

  lemma NewStreamOpens(log: Log, after: nat, turns: seq<Turn>)
    requires log.Valid()
    ensures NewStream(after).Valid(log) && After(log, turns, 0) == log
    ensures Closed(NewStream(after), None, log, turns, 0)
  {
  }

  /** One turn passes, then the loop makes one pass. */
  method Round(journal: Journal, heartbeats: bool, turns: seq<Turn>, from: nat, already: seq<Message>, last: nat,
               ghost start: nat, ghost base: Log)
    returns (i: nat, sent: seq<Message>, lastRevision: nat, over: Option<Outcome>, ghost st: Stream)
    requires journal.Valid() && base.Valid() && from < |turns| && journal.log == After(base, turns, from)
    requires Stream(start, last, already, Looking).Valid(journal.log)
    requires Closed(Stream(start, last, already, Looking), None, base, turns, from)
    modifies journal, journal.channels
    ensures journal.Valid() && st.Valid(journal.log)
    ensures old(journal.channels) <= journal.channels
    ensures forall k :: |old(journal.channels)| <= k < |journal.channels| ==> fresh(journal.channels[k])
    ensures from < i <= |turns| && journal.log == After(base, turns, i)
    ensures st.start == start && st.sent == sent && st.last == lastRevision
    ensures Closed(st, over, base, turns, i)
  {
    hide Journal.Valid, Stream.Valid, Log.Valid, After, Served;
    Elapse(journal, turns, from, base, Stream(start, last, already, Looking));
    AfterExtends(base, turns, 1, from + 1);
    i, sent, lastRevision, over, st := Pass(journal, heartbeats, turns, from + 1, already, last, start, base);
  }

  /** The stream loop, for as many turns as its context lives; `used` of them have passed when it ends. Whatever other
      threads do in between, what it sends is well sent for the journal it ends with: the revisions after `after` in order,
      numbered from 1, with heartbeats that repeat the last one and nothing behind a reset. Nothing is held back either:
      when the context ends, what is missing was committed in the last turn, or the whole history was compacted away.
      It rejects exactly a cursor that is ahead at its first look, and resets only one that cannot be replayed. */
  method WatchRevocations(journal: Journal, after: nat, heartbeats: bool, turns: seq<Turn>)
    returns (sent: seq<Message>, outcome: Outcome, used: nat)
    requires journal.Valid()
    modifies journal, journal.channels
    ensures used <= |turns| && journal.Valid() && journal.log == After(old(journal.log), turns, used)
    ensures WellSent(journal.log, after, sent)
    ensures outcome.Cancelled? ==> (used == |turns| || turns[used].cancelled)
                                   && Served(old(journal.log), turns, used, Reach(after, sent))
    ensures outcome.Reset? <==> EndsInReset(sent)
    ensures outcome.Reset? ==> Reach(after, sent) < journal.log.compacted < journal.log.Revision()
    ensures outcome.Rejected? <==> turns != [] && after > After(old(journal.log), turns, 1).Revision()
    ensures outcome.Rejected? ==> sent == []
  {
    hide Journal.Valid, Stream.Valid, Log.Valid, After, Served;
    var lastRevision, over := after, None;
    sent, used := [], 0;
    ghost var st, base := NewStream(after), journal.log;
    journal.LogValid();
    NewStreamOpens(journal.log, after, turns);
    while used < |turns| && over.None?
      invariant used <= |turns| && journal.Valid() && journal.log == After(base, turns, used)
      invariant old(journal.channels) <= journal.channels
      invariant forall k :: |old(journal.channels)| <= k < |journal.channels| ==> fresh(journal.channels[k])
      invariant st.Valid(journal.log) && st.start == after && st.sent == sent && st.last == lastRevision
      invariant (over.Some? ==> used > 0) && Closed(st, over, base, turns, used)
      decreases |turns| - used
    {
      used, sent, lastRevision, over, st := Round(journal, heartbeats, turns, used, sent, lastRevision, after, base);
    }
    ClosedMeans(journal.log, st, over, base, turns, used);
    outcome := if over.Some? then over.value else Cancelled;
  }
}
