/** The sidecar's objects as they are updated in place: the evaluator's store, the adapter that swaps it, the freshness
    state, and the subscriber that drives them, each against its value in `Sidecars`. */
module Subscribers {
  import opened Basics
  import opened Ordering
  import opened Revocations
  import opened WatchStreams
  import opened Sidecars
  import opened Replication

  class InMemoryRevocationStore {
    var revokedKeys: map<Bytes, bool>
    var revokedEnvelopes: map<Bytes, bool>
    var revokedTokens: map<Bytes, bool>
    var lastUpdated: int

    ghost function View(): Denylist
      reads this
    {
      Denylist(
        set id | id in revokedKeys && revokedKeys[id],
        set id | id in revokedTokens && revokedTokens[id],
        set id | id in revokedEnvelopes && revokedEnvelopes[id])
    }

    constructor (now: int)
      ensures View() == EMPTY_DENYLIST && lastUpdated == now
    {
      revokedKeys, revokedEnvelopes, revokedTokens, lastUpdated := map[], map[], map[], now;
    }

    method RevokeKey(id: Bytes, now: int)
      modifies this
      ensures View() == old(View()).(keys := old(View()).keys + {id}) && lastUpdated == now
    {
      revokedKeys, lastUpdated := revokedKeys[id := true], now;
    }

    method RevokeEnvelope(id: Bytes, now: int)
      modifies this
      ensures View() == old(View()).(envelopes := old(View()).envelopes + {id}) && lastUpdated == now
    {
      revokedEnvelopes, lastUpdated := revokedEnvelopes[id := true], now;
    }

    method RevokeToken(id: Bytes, now: int)
      modifies this
      ensures View() == old(View()).(tokens := old(View()).tokens + {id}) && lastUpdated == now
    {
      revokedTokens, lastUpdated := revokedTokens[id := true], now;
    }

    method IsKeyRevoked(id: Bytes) returns (r: bool)
      ensures r <==> id in View().keys
    {
      r := id in revokedKeys && revokedKeys[id];
    }

    method IsEnvelopeRevoked(id: Bytes) returns (r: bool)
      ensures r <==> id in View().envelopes
    {
      r := id in revokedEnvelopes && revokedEnvelopes[id];
    }

    method IsTokenRevoked(id: Bytes) returns (r: bool)
      ensures r <==> id in View().tokens
    {
      r := id in revokedTokens && revokedTokens[id];
    }
  }

  class RevocationStoreAdapter {
    var store: InMemoryRevocationStore

    ghost function View(): Denylist
      reads this, store
    {
      store.View()
    }

    constructor (now: int)
      ensures View() == EMPTY_DENYLIST && fresh(store)
    {
      store := new InMemoryRevocationStore(now);
    }

    /** Adds one entry to the store the evaluator is reading. */
    method Revoke(e: Entry, now: int)
      modifies store
      ensures View() == old(View()).Add(e)
    {
      if e.kind == KEY {
        store.RevokeKey(e.subject, now);
      } else if e.kind == TOKEN {
        store.RevokeToken(e.subject, now);
      } else if e.kind == ENVELOPE || e.kind == PARENT_ENVELOPE {
        store.RevokeEnvelope(e.subject, now);
      }
    }

    /** Fills a fresh store and only then makes it the one that is read; the old one is never touched. */
    method ReplaceRevocations(keys: seq<Bytes>, tokens: seq<Bytes>, envelopes: seq<Bytes>, now: int)
      modifies this
      ensures View() == Denylist(Elements(keys), Elements(tokens), Elements(envelopes))
      ensures fresh(store) && old(store).View() == old(View())
    {
      var next := new InMemoryRevocationStore(now);
      for i := 0 to |keys|
        invariant next.View() == Denylist(Elements(keys[..i]), {}, {})
      {
        next.RevokeKey(keys[i], now);
        AppendNew(keys[..i], keys[i]);
        assert keys[..i + 1] == keys[..i] + [keys[i]];
      }
      assert keys[..|keys|] == keys;
      for i := 0 to |tokens|
        invariant next.View() == Denylist(Elements(keys), Elements(tokens[..i]), {})
      {
        next.RevokeToken(tokens[i], now);
        AppendNew(tokens[..i], tokens[i]);
        assert tokens[..i + 1] == tokens[..i] + [tokens[i]];
      }
      assert tokens[..|tokens|] == tokens;
      for i := 0 to |envelopes|
        invariant next.View() == Denylist(Elements(keys), Elements(tokens), Elements(envelopes[..i]))
      {
        next.RevokeEnvelope(envelopes[i], now);
        AppendNew(envelopes[..i], envelopes[i]);
        assert envelopes[..i + 1] == envelopes[..i] + [envelopes[i]];
      }
      assert envelopes[..|envelopes|] == envelopes;
      store := next;
    }
  }

  class ControlState {
    var lastSeenRevision: nat
    var lastUpdate: Option<int>
    var connected: bool
    var unsafe: bool
    const maxStaleness: int

    function View(): Control
      reads this
    {
      Control(lastSeenRevision, lastUpdate, connected, unsafe, maxStaleness)
    }

    /** A staleness bound that is not positive is replaced by five seconds. */
    constructor (maxStaleness: int)
      ensures View() == Control(0, None, false, false,
                                if maxStaleness <= 0 then 5_000_000_000 else maxStaleness)
    {
      this.lastSeenRevision, this.lastUpdate, this.connected, this.unsafe := 0, None, false, false;
      this.maxStaleness := if maxStaleness <= 0 then 5_000_000_000 else maxStaleness;
    }

    method MarkConnected()
      modifies this
      ensures View() == old(View()).MarkConnected() == old(View()).(connected := true)
    {
      connected := true;
    }

    method MarkDisconnected()
      modifies this
      ensures View() == old(View()).MarkDisconnected() == old(View()).(connected := false)
    {
      connected := false;
    }

    method MarkSnapshot(revision: nat, now: int)
      modifies this
      ensures View() == old(View()).MarkMaterialized(revision, now)
                     == Control(revision, Some(now), old(connected), false, maxStaleness)
    {
      lastSeenRevision, lastUpdate, unsafe := revision, Some(now), false;
    }

    method MarkEvent(revision: nat, now: int)
      modifies this
      ensures View() == old(View()).MarkMaterialized(revision, now)
                     == Control(revision, Some(now), old(connected), false, maxStaleness)
    {
      lastSeenRevision, lastUpdate, unsafe := revision, Some(now), false;
    }

    method MarkHeartbeat(revision: nat, now: int) returns (matches: bool)
      modifies this
      ensures View() == old(View()).MarkHeartbeat(revision, now)
      ensures matches <==> revision == old(lastSeenRevision)
      ensures matches ==> View() == old(View()).(lastUpdate := Some(now), unsafe := false)
      ensures !matches ==> View() == old(View()).(unsafe := true)
    {
      if revision != lastSeenRevision {
        unsafe := true;
        return false;
      }
      lastUpdate, unsafe := Some(now), false;
      return true;
    }

    method MarkUnsafe()
      modifies this
      ensures View() == old(View()).MarkUnsafe() == old(View()).(unsafe := true)
    {
      unsafe := true;
    }

    method IsFresh(now: int) returns (r: bool)
      ensures r <==> View().IsFresh(now)
      ensures maxStaleness >= 0 ==> (r <==> !unsafe && lastUpdate.Some? && now <= lastUpdate.value + maxStaleness)
    {
      if unsafe {
        return false;
      }
      if lastUpdate.None? {
        return false;
      }
      if now < lastUpdate.value {
        return true;
      }
      return now - lastUpdate.value <= maxStaleness;
    }
  }

  datatype RunEnd = Cancelled | RecoveryFailed

  /** The control plane as one subscriber meets it: its answer to the snapshot request of a round if it arrives, what a
      stream opened in a round at a cursor carries before it breaks if it opens at all, the clock, and whether the context
      has ended by the time a round looks. */
  datatype Plane = Plane(answer: nat -> Option<Snapshot>, serve: (nat, nat) -> Option<seq<Message>>, clock: nat -> int,
                         ended: nat -> bool)

  datatype Attempt = Attempt(replica: Replica, round: nat, loaded: bool, faulted: bool)

  datatype Finish = Finish(replica: Replica, end: RunEnd, faulted: bool)

  function AlsoFaulted(a: Attempt, faulted: bool): Attempt {
    a.(faulted := faulted || a.faulted)
  }

  function AlsoFailed(f: Finish, faulted: bool): Finish {
    f.(faulted := faulted || f.faulted)
  }

  /** Asks for a snapshot round after round until one can be loaded. */
  ghost function Load(r: Replica, plane: Plane, round: nat, rounds: nat): (a: Attempt)
    requires round <= rounds
    ensures a.round <= rounds
    decreases rounds - round
  {
    if round == rounds then Attempt(r, round, false, false)
    else if plane.answer(round).None? then
      if plane.ended(round) then Attempt(Disconnect(r), round + 1, false, false)
      else Load(Disconnect(r), plane, round + 1, rounds)
    else
      var (next, fault) := ApplySnapshot(r, plane.answer(round).value, plane.clock(round));
      if fault.None? then Attempt(next, round + 1, true, false)
      else if plane.ended(round) then Attempt(Disconnect(next), round + 1, false, true)
      else AlsoFaulted(Load(Disconnect(next), plane, round + 1, rounds), true)
  }

  /** Watches, reconnects and recovers for the remaining rounds. */
  ghost function Follow(r: Replica, plane: Plane, round: nat, rounds: nat): Finish
    requires round <= rounds
    decreases rounds - round
  {
    if round == rounds then Finish(Disconnect(r), RunEnd.Cancelled, false)
    else if plane.serve(round, r.cursor).None? then
      if plane.ended(round) then Finish(Disconnect(r), RunEnd.Cancelled, false)
      else Follow(Disconnect(r), plane, round + 1, rounds)
    else
      var messages := plane.serve(round, r.cursor).value;
      var nows := seq(|messages|, _ => plane.clock(round));
      var (next, closed) := HandleAll(r.(control := r.control.MarkConnected()), messages, nows);
      if plane.ended(round) then Finish(Disconnect(next), RunEnd.Cancelled, closed.Failed?)
      else if closed.NeedSnapshot? then
        if plane.answer(round).None? then Finish(Condemn(next), RecoveryFailed, false)
        else
          var (recovered, fault) := ApplySnapshot(Condemn(next), plane.answer(round).value, plane.clock(round));
          if fault.Some? then Finish(recovered, RecoveryFailed, true)
          else Follow(recovered, plane, round + 1, rounds)
      else
        AlsoFailed(Follow(Disconnect(next), plane, round + 1, rounds), closed.Failed?)
  }

  ghost function Life(r: Replica, plane: Plane, rounds: nat): Finish {
    var a := Load(r, plane, 0, rounds);
    if !a.loaded then Finish(Disconnect(a.replica), RunEnd.Cancelled, a.faulted)
    else AlsoFailed(Follow(a.replica, plane, a.round, rounds), a.faulted)
  }

  class Subscriber {
    const store: RevocationStoreAdapter
    const state: ControlState
    var lastSeenRevision: nat

    ghost function View(): Replica
      reads this, store, store.store, state
    {
      Replica(store.View(), lastSeenRevision, state.View())
    }

    constructor (store: RevocationStoreAdapter, state: ControlState)
      ensures this.store == store && this.state == state && lastSeenRevision == 0
    {
      this.store, this.state, this.lastSeenRevision := store, state, 0;
    }

    /** The cursor moves only after the store has the event, and trust only after the cursor. */
    method ApplyEvent(event: Event, now: int) returns (fault: Option<Fault>)
      modifies this, store.store, state
      ensures (View(), fault) == Sidecars.ApplyEvent(old(View()), event, now)
    {
      var last := lastSeenRevision;
      if event.revision <= last {
        return None;
      }
      if event.revision != last + 1 {
        state.MarkUnsafe();
        return Some(RevisionGap);
      }
      if !KnownKind(event.entry.kind) {
        state.MarkUnsafe();
        return Some(UnknownKind);
      }
      store.Revoke(event.entry, now);
      lastSeenRevision := event.revision;
      state.MarkEvent(event.revision, now);
      return None;
    }

    /** Sorts the entries into three lists, replaces the store, then the cursor, then trust. */
    method LoadSnapshot(snapshot: Snapshot, now: int) returns (fault: Option<Fault>)
      modifies this, store, state
      ensures (View(), fault) == ApplySnapshot(old(View()), snapshot, now)
      ensures store.store == old(store.store) || fresh(store.store)
    {
      var keys: seq<Bytes>, tokens: seq<Bytes>, envelopes: seq<Bytes> := [], [], [];
      var entries := snapshot.entries;
      for i := 0 to |entries|
        modifies state
        invariant state.View() == old(state.View())
        invariant AllKnown(entries[..i])
        invariant Denylist(Elements(keys), Elements(tokens), Elements(envelopes)) == Collect(Elements(entries[..i]))
      {
        var entry := entries[i];
        assert entries[..i + 1] == entries[..i] + [entry];
        AppendNew(entries[..i], entry);
        CollectAdd(Elements(entries[..i]), entry);
        if entry.kind == KEY {
          AppendNew(keys, entry.subject);
          keys := keys + [entry.subject];
        } else if entry.kind == TOKEN {
          AppendNew(tokens, entry.subject);
          tokens := tokens + [entry.subject];
        } else if entry.kind == ENVELOPE || entry.kind == PARENT_ENVELOPE {
          AppendNew(envelopes, entry.subject);
          envelopes := envelopes + [entry.subject];
        } else {
          state.MarkUnsafe();
          return Some(UnknownKind);
        }
      }
      assert entries[..|entries|] == entries;
      store.ReplaceRevocations(keys, tokens, envelopes, now);
      lastSeenRevision := snapshot.revision;
      state.MarkSnapshot(snapshot.revision, now);
      return None;
    }

    /** Reads a stream until it breaks, asks for a reset, or carries something that cannot be right. */
    method Watch(messages: seq<Message>, nows: seq<int>) returns (end: WatchEnd)
      requires |nows| >= |messages|
      modifies this, store.store, state
      ensures (View(), end) == HandleAll(old(View()).(control := old(View()).control.MarkConnected()), messages, nows)
    {
      state.MarkConnected();
      ghost var start := View();
      var i := 0;
      while i < |messages|
        invariant i <= |messages|
        invariant HandleAll(start, messages, nows) == HandleAll(View(), messages[i..], nows[i..])
      {
        ghost var before := View();
        assert messages[i..][1..] == messages[i + 1..] && nows[i..][1..] == nows[i + 1..];
        match messages[i] {
          case ResetMsg(_) =>
            state.MarkUnsafe();
            return NeedSnapshot;
          case HeartbeatMsg(_, revision) =>
            var matches := state.MarkHeartbeat(revision, nows[i]);
            if !matches {
              return Failed(HeartbeatMismatch);
            }
          case EventMsg(_, event) =>
            var fault := ApplyEvent(event, nows[i]);
            if fault.Some? {
              state.MarkUnsafe();
              return Failed(fault.value);
            }
        }
        i := i + 1;
      }
      return Open;
    }

    /** Snapshot, watch, reconnect, recover by snapshot; for as many rounds as the context lives. */
    method Run(plane: Plane, rounds: nat) returns (end: RunEnd, faulted: bool)
      modifies this, store, store.store, state
      ensures Finish(View(), end, faulted) == Life(old(View()), plane, rounds)
    {
      ghost var born := View();
      var round, loaded := 0, false;
      faulted := false;
      var ended := false;
      while !loaded && !ended && round < rounds
        invariant round <= rounds && (store.store == old(store.store) || fresh(store.store))
        invariant Load(born, plane, 0, rounds) ==
                  if loaded || ended then Attempt(View(), round, loaded, faulted)
                  else AlsoFaulted(Load(View(), plane, round, rounds), faulted)
      {
        var answer := plane.answer(round);
        if answer.Some? {
          var fault := LoadSnapshot(answer.value, plane.clock(round));
          loaded, faulted := fault.None?, faulted || fault.Some?;
        }
        if !loaded {
          state.MarkDisconnected();
          ended := plane.ended(round);
        }
        round := round + 1;
      }
      if !loaded {
        state.MarkDisconnected();
        return RunEnd.Cancelled, faulted;
      }
      end, faulted := KeepWatching(plane, round, rounds, faulted);
    }

    /** Everything after the initial snapshot. */
    method KeepWatching(plane: Plane, from: nat, rounds: nat, already: bool) returns (end: RunEnd, faulted: bool)
      requires from <= rounds
      modifies this, store, store.store, state
      ensures Finish(View(), end, faulted) == AlsoFailed(Follow(old(View()), plane, from, rounds), already)
    {
      hide ApplySnapshot, HandleAll, InMemoryRevocationStore.View, RevocationStoreAdapter.View, ControlState.View;
      ghost var loaded := View();
      var round := from;
      faulted := already;
      while round < rounds
        invariant from <= round <= rounds && (store.store == old(store.store) || fresh(store.store))
        invariant AlsoFailed(Follow(loaded, plane, from, rounds), already)
                  == AlsoFailed(Follow(View(), plane, round, rounds), faulted)
      {
        var messages := plane.serve(round, lastSeenRevision);
        if messages.None? {
          state.MarkDisconnected();
          if plane.ended(round) {
            return RunEnd.Cancelled, faulted;
          }
        } else {
          var closed := Watch(messages.value, seq(|messages.value|, _ => plane.clock(round)));
          if plane.ended(round) {
            state.MarkDisconnected();
            return RunEnd.Cancelled, faulted || closed.Failed?;
          }
          if closed.NeedSnapshot? {
            state.MarkUnsafe();
            var answer := plane.answer(round);
            if answer.None? {
              return RecoveryFailed, faulted;
            }
            var fault := LoadSnapshot(answer.value, plane.clock(round));
            if fault.Some? {
              return RecoveryFailed, true;
            }
          } else {
            faulted := faulted || closed.Failed?;
            state.MarkDisconnected();
          }
        }
        round := round + 1;
      }
      state.MarkDisconnected();
      return RunEnd.Cancelled, faulted;
    }
  }

  // ------------------------------------------------------------------ the handlers against an honest control plane

  ghost predicate Settled(log: Log, r: Replica) {
    && r.control.revision == r.cursor <= log.Revision()
    && r.deny == Project(log.history[..r.cursor])
  }

  /** Reading a well-sent stream that was opened at its cursor takes a settled replica, message by message, to the
      revision the stream has reached; it never fails, and stops only for a reset. */
  lemma {:induction false} HandleWellSent(log: Log, start: nat, sent: seq<Message>, i: nat, r: Replica, nows: seq<int>)
    requires log.Valid() && WellSent(log, start, sent) && i <= |sent| == |nows|
    requires Settled(log, r) && r.cursor == Reach(start, sent[..i])
    ensures var (next, end) := HandleAll(r, sent[i..], nows[i..]);
            && Settled(log, next) && !end.Failed?
            && next.cursor == Reach(start, sent)
            && (end.NeedSnapshot? <==> i < |sent| && EndsInReset(sent))
            && (end.NeedSnapshot? ==> next.control.unsafe)
    decreases |sent| - i
  {
    hide WellSent, Project;
    if i == |sent| {
      assert sent[..i] == sent;
    } else {
      WellSentAt(log, start, sent, i);
      assert sent[..i + 1][..i] == sent[..i];
      assert sent[i..][1..] == sent[i + 1..] && nows[i..][1..] == nows[i + 1..];
      var (next, end) := HandleMessage(r, sent[i], nows[i]);
      match sent[i]
      case ResetMsg(_) =>
        assert sent[..i + 1] == sent;
      case HeartbeatMsg(_, _) =>
        HandleWellSent(log, start, sent, i + 1, next, nows);
      case EventMsg(_, event) =>
        assert log.history[..r.cursor + 1] == log.history[..r.cursor] + [event];
        ProjectAppend(log.history[..r.cursor], event);
        HandleWellSent(log, start, sent, i + 1, next, nows);
    }
  }

  /** An honest control plane whose journal has revision at(n) at the end of round n. */
  ghost predicate HonestPlane(log: Log, at: nat -> nat, plane: Plane) {
    && (forall m: nat, n: nat :: m <= n ==> at(m) <= at(n) <= log.Revision())
    && (forall n: nat :: plane.answer(n).Some? ==>
          Honest(log, plane.answer(n).value) && plane.answer(n).value.revision == at(n))
    && (forall n: nat, after: nat :: after <= at(n) && plane.serve(n, after).Some? ==>
          WellSent(log, after, plane.serve(n, after).value) && Reach(after, plane.serve(n, after).value) <= at(n))
  }

  /** Whatever cursor a stream is opened at in this round, it gets to the journal's revision or to a reset. */
  ghost predicate Complete(at: nat -> nat, plane: Plane, n: nat) {
    forall after: nat :: after <= at(n) ==>
      plane.serve(n, after).Some?
      && (EndsInReset(plane.serve(n, after).value) || Reach(after, plane.serve(n, after).value) == at(n))
  }

  /** The context outlives these rounds. */
  ghost predicate Lasts(plane: Plane, from: nat, end: nat) {
    forall k: nat :: from <= k < end ==> !plane.ended(k)
  }

  lemma SnapshotSettles(log: Log, r: Replica, s: Snapshot, now: int)
    requires log.Valid() && Honest(log, s)
    ensures ApplySnapshot(r, s, now).1.None? && Settled(log, ApplySnapshot(r, s, now).0)
  {
    HonestEntriesKnown(log, s);
  }

  lemma StreamSettles(log: Log, r: Replica, messages: seq<Message>, nows: seq<int>)
    requires log.Valid() && |messages| == |nows| && Settled(log, r) && WellSent(log, r.cursor, messages)
    ensures var (next, closed) := HandleAll(r.(control := r.control.MarkConnected()), messages, nows);
            && Settled(log, next) && next.cursor == Reach(r.cursor, messages)
            && !closed.Failed? && (closed.NeedSnapshot? <==> EndsInReset(messages))
            && (closed.NeedSnapshot? ==> next.control.unsafe)
  {
    assert messages[0..] == messages && nows[0..] == nows;
    HandleWellSent(log, r.cursor, messages, 0, r.(control := r.control.MarkConnected()), nows);
  }

  lemma {:induction false} LoadSettles(log: Log, at: nat -> nat, plane: Plane, r: Replica, round: nat, rounds: nat)
    requires log.Valid() && HonestPlane(log, at, plane) && Settled(log, r) && round <= rounds && r.cursor <= at(round)
    ensures var a := Load(r, plane, round, rounds);
            && !a.faulted && Settled(log, a.replica) && r.cursor <= a.replica.cursor
            && round <= a.round <= rounds
            && (a.loaded ==> round < a.round && a.replica.cursor == at(a.round - 1))
            && (forall n :: round <= n < rounds && plane.answer(n).Some? && Lasts(plane, round, n) ==>
                  a.loaded && a.round <= n + 1)
    decreases rounds - round
  {
    if round < rounds {
      assert at(round) <= at(round + 1);
      if plane.answer(round).None? {
        if !plane.ended(round) {
          LoadSettles(log, at, plane, Disconnect(r), round + 1, rounds);
          forall n | round < n < rounds && Lasts(plane, round, n) ensures Lasts(plane, round + 1, n) {
          }
        }
      } else {
        SnapshotSettles(log, r, plane.answer(round).value, plane.clock(round));
      }
    }
  }

  /** The stream of a round ends in a reset. */
  predicate ResetIn(plane: Plane, round: nat, cursor: nat) {
    plane.serve(round, cursor).Some? && EndsInReset(plane.serve(round, cursor).value)
  }

  /** One round of watching leaves the replica settled, at least where it was, and where the journal is if the round is
      complete; or it is the last one, because the recovery snapshot did not come or the context has ended. */
  lemma {:induction false} FollowSettles(log: Log, at: nat -> nat, plane: Plane, r: Replica, round: nat, rounds: nat)
    requires log.Valid() && HonestPlane(log, at, plane) && Settled(log, r) && round <= rounds && r.cursor <= at(round)
    ensures var f := Follow(r, plane, round, rounds);
            && !f.faulted && Settled(log, f.replica) && r.cursor <= f.replica.cursor
            && (f.end.RecoveryFailed? ==> f.replica.control.unsafe)
            && (f.end.Cancelled? ==>
                  forall n ::
                    (round <= n < rounds && Complete(at, plane, n) && Lasts(plane, round, n) && !plane.ended(n)) ==>
                      at(n) <= f.replica.cursor)
    decreases rounds - round
  {
    hide HandleAll, ApplySnapshot, Project, WellSent, Reach;
    if round < rounds {
      assert at(round) <= at(round + 1);
      var settled, end := RoundSettles(log, at, plane, r, round, rounds);
      if end.None? {
        FollowSettles(log, at, plane, settled, round + 1, rounds);
        forall n | round < n < rounds && Lasts(plane, round, n) ensures Lasts(plane, round + 1, n) {
        }
      }
    }
  }

  lemma RoundSettles(log: Log, at: nat -> nat, plane: Plane, r: Replica, round: nat, rounds: nat)
    returns (settled: Replica, end: Option<RunEnd>)
    requires log.Valid() && HonestPlane(log, at, plane) && Settled(log, r) && round < rounds && r.cursor <= at(round)
    ensures Settled(log, settled) && r.cursor <= settled.cursor <= at(round)
    ensures end.Some? ==> Follow(r, plane, round, rounds) == Finish(settled, end.value, false)
    ensures end == Some(RecoveryFailed) ==> settled.control.unsafe
    ensures end == Some(RunEnd.Cancelled) <==> plane.ended(round)
    ensures plane.ended(round) && ResetIn(plane, round, r.cursor) ==> settled.control.unsafe
    ensures end.None? ==> Follow(r, plane, round, rounds) == Follow(settled, plane, round + 1, rounds)
    ensures end.None? && Complete(at, plane, round) ==> settled.cursor == at(round)
  {
    settled, end := Disconnect(r), if plane.ended(round) then Some(RunEnd.Cancelled) else None;
    if plane.serve(round, r.cursor).Some? {
      var messages := plane.serve(round, r.cursor).value;
      var nows := seq(|messages|, _ => plane.clock(round));
      StreamSettles(log, r, messages, nows);
      var (next, closed) := HandleAll(r.(control := r.control.MarkConnected()), messages, nows);
      if plane.ended(round) || closed.Open? {
        settled := Disconnect(next);
      } else if plane.answer(round).None? {
        settled, end := Condemn(next), Some(RecoveryFailed);
      } else {
        SnapshotSettles(log, Condemn(next), plane.answer(round).value, plane.clock(round));
        settled := ApplySnapshot(Condemn(next), plane.answer(round).value, plane.clock(round)).0;
      }
    }
  }

  lemma {:induction false} FollowEndsSafely(r: Replica, plane: Plane, round: nat, rounds: nat)
    requires round <= rounds
    ensures var f := Follow(r, plane, round, rounds);
            if f.end.RecoveryFailed? then f.replica.control.unsafe else !f.replica.control.connected
    decreases rounds - round
  {
    hide HandleAll;
    if round < rounds {
      if plane.serve(round, r.cursor).None? {
        FollowEndsSafely(Disconnect(r), plane, round + 1, rounds);
      } else {
        var messages := plane.serve(round, r.cursor).value;
        var nows := seq(|messages|, _ => plane.clock(round));
        var (next, closed) := HandleAll(r.(control := r.control.MarkConnected()), messages, nows);
        if !closed.NeedSnapshot? {
          FollowEndsSafely(Disconnect(next), plane, round + 1, rounds);
        } else if plane.answer(round).Some? {
          var (recovered, fault) := ApplySnapshot(Condemn(next), plane.answer(round).value, plane.clock(round));
          FollowEndsSafely(recovered, plane, round + 1, rounds);
        }
      }
    }
  }

  /** Whatever the control plane says, honest or not: a life that ends short of a recovery leaves the state condemned, so
      fresh at no instant, and one that ends with its context leaves it disconnected. */
  lemma LifeEndsSafely(r: Replica, plane: Plane, rounds: nat)
    ensures var f := Life(r, plane, rounds);
            if f.end.RecoveryFailed? then forall now :: !f.replica.control.IsFresh(now)
            else !f.replica.control.connected
  {
    var a := Load(r, plane, 0, rounds);
    FollowEndsSafely(a.replica, plane, a.round, rounds);
  }

  /** Over the whole life of a subscriber with an honest control plane: no protocol violation is ever reported, what it
      holds is the projection of a prefix of the history that only grows, and unless a recovery snapshot fails, which
      leaves its state condemned, it is at least where the journal was in every complete round after its first snapshot
      that its context outlives. */
  lemma LifeSettles(log: Log, at: nat -> nat, plane: Plane, r: Replica, rounds: nat)
    requires log.Valid() && HonestPlane(log, at, plane) && Settled(log, r) && r.cursor <= at(0)
    ensures var f := Life(r, plane, rounds);
            && !f.faulted && Settled(log, f.replica) && r.cursor <= f.replica.cursor
            && (f.end.RecoveryFailed? ==> f.replica.control.unsafe)
            && (f.end.Cancelled? ==>
                  forall m, n ::
                    (0 <= m < n < rounds && plane.answer(m).Some? && Complete(at, plane, n) && Lasts(plane, 0, n)
                     && !plane.ended(n)) ==>
                      at(n) <= f.replica.cursor)
  {
    LoadSettles(log, at, plane, r, 0, rounds);
    var a := Load(r, plane, 0, rounds);
    if a.loaded {
      assert at(a.round - 1) <= at(a.round);
      FollowSettles(log, at, plane, a.replica, a.round, rounds);
    }
    forall m, n | 0 <= m < n < rounds && Lasts(plane, 0, n) && plane.answer(m).Some?
      ensures Lasts(plane, 0, m) && Lasts(plane, a.round, n)
    {
    }
  }
}
