/** The authoritative in-memory journal, updated in place, against its value `Log`. */
module Journals {
  import opened Basics
  import opened Ordering
  import opened Revocations

  /** A notification channel: closing it wakes every receiver, now and later. */
  class Channel {
    var closed: bool

    constructor ()
      ensures !closed
    {
      closed := false;
    }

    method Close()
      modifies this
      ensures closed
    {
      closed := true;
    }
  }

  /** The journal's fields hold the revision, the replayable suffix and the revocation state of a log. */
  ghost predicate Represents(log: Log, revision: nat, events: seq<Event>, revoked: map<Kind, set<Bytes>>) {
    && log.Valid()
    && revision == log.Revision()
    && events == log.history[log.compacted..]
    && Under(revoked, revoked.Keys) == Pairs(log.history)
  }

  lemma CommitRepresents(log: Log, revision: nat, events: seq<Event>, revoked: map<Kind, set<Bytes>>, e: Entry)
    requires Represents(log, revision, events, revoked) && log.RevokeResult(e).Created?
    ensures var subjects := if e.kind in revoked then revoked[e.kind] else {};
            Represents(log.Revoke(e), revision + 1, events + [Event(revision + 1, e)],
                       revoked[e.kind := subjects + {e.subject}])
  {
    PairsAppend(log.history, Event(revision + 1, e));
    UnderInsert(revoked, e);
    MutateKeepsValid(log, RevokeOp(e));
  }

  lemma KnownMeansCommitted(revoked: map<Kind, set<Bytes>>, e: Entry)
    ensures e in Under(revoked, revoked.Keys) <==> e.kind in revoked && e.subject in revoked[e.kind]
  {
    assert e == Entry(e.kind, e.subject);
  }

  lemma Inhabited(kinds: set<Kind>)
    requires kinds != {}
    ensures exists k :: k in kinds
  {
    assert (forall k :: k !in kinds) ==> kinds == {};
  }

  /** Lists a map of subject sets entry by entry, in whatever order the maps are walked. */
  method Flatten(revoked: map<Kind, set<Bytes>>) returns (entries: seq<Entry>)
    ensures Distinct(entries) && Elements(entries) == Under(revoked, revoked.Keys)
  {
    entries := [];
    var kinds := revoked.Keys;
    while kinds != {}
      invariant kinds <= revoked.Keys
      invariant Distinct(entries) && Elements(entries) == Under(revoked, revoked.Keys - kinds)
      decreases kinds
    {
      Inhabited(kinds);
      var k :| k in kinds;
      var subjects := revoked[k];
      while subjects != {}
        invariant subjects <= revoked[k]
        invariant Distinct(entries)
        invariant Elements(entries)
                  == Under(revoked, revoked.Keys - kinds) + (set id | id in revoked[k] - subjects :: Entry(k, id))
        decreases subjects
      {
        var id :| id in subjects;
        assert Entry(k, id) !in Elements(entries);
        AppendNew(entries, Entry(k, id));
        entries := entries + [Entry(k, id)];
        subjects := subjects - {id};
      }
      kinds := kinds - {k};
    }
    assert revoked.Keys - kinds == revoked.Keys;
  }

  class Journal {
    var revision: nat
    var events: seq<Event>
    var revoked: map<Kind, set<Bytes>>
    var notify: Channel

    /** Everything ever committed, and the channel that was current at each revision. */
    ghost var log: Log
    ghost var channels: seq<Channel>

    ghost predicate Valid()
      reads this, channels
    {
      Represents(log, revision, events, revoked) && ChannelsValid()
    }

    ghost predicate ChannelsValid()
      reads this, channels
    {
      && |channels| == revision + 1
      && notify == channels[revision]
      && (forall i, j :: 0 <= i < j < |channels| ==> channels[i] != channels[j])
      && (forall i :: 0 <= i < |channels| ==> (channels[i].closed <==> i < revision))
    }

    lemma LogValid()
      requires Valid()
      ensures log.Valid() && log.compacted <= log.Revision()
    {
    }

    constructor ()
      ensures Valid() && log == EMPTY_LOG && fresh(channels)
    {
      revision := 0;
      events := [];
      revoked := map[];
      log := EMPTY_LOG;
      var ch := new Channel();
      notify := ch;
      channels := [ch];
    }

    method Revision() returns (r: nat)
      requires Valid()
      ensures r == log.Revision()
    {
      r := revision;
    }

    /** Closes the current channel and installs a fresh one for the revision just committed. */
    method Advance()
      requires |channels| == revision > 0 && notify == channels[revision - 1]
      requires forall i, j :: 0 <= i < j < |channels| ==> channels[i] != channels[j]
      requires forall i :: 0 <= i < |channels| ==> (channels[i].closed <==> i < revision - 1)
      modifies this`notify, this`channels, notify
      ensures ChannelsValid()
      ensures old(channels) <= channels
      ensures forall k :: |old(channels)| <= k < |channels| ==> fresh(channels[k])
    {
      notify.Close();
      var ch := new Channel();
      notify := ch;
      channels := channels + [ch];
    }

    /** Commits a new revocation at the next revision and wakes everyone waiting; a repetition changes nothing. */
    method Revoke(e: Entry) returns (r: RevokeResult)
      requires Valid()
      modifies this, notify
      ensures Valid() && r == old(log).RevokeResult(e) && log == old(log).Revoke(e)
      ensures r.EmptySubject? <==> e.subject == []
      ensures r.InvalidKind? <==> e.subject != [] && !KnownKind(e.kind)
      ensures r.Duplicate? <==> e.subject != [] && KnownKind(e.kind) && e in Pairs(old(log).history)
      ensures r.Created? ==> r.event == Event(old(revision) + 1, e) && events == old(events) + [r.event]
      ensures old(channels) <= channels
      ensures forall k :: |old(channels)| <= k < |channels| ==> fresh(channels[k])
    {
      hide Under, Pairs, Log.Valid;
      if e.subject == [] {
        return EmptySubject;
      }
      if !KnownKind(e.kind) {
        return InvalidKind;
      }
      var subjects := if e.kind in revoked then revoked[e.kind] else {};
      KnownMeansCommitted(revoked, e);
      if e.subject in subjects {
        return Duplicate;
      }
      CommitRepresents(log, revision, events, revoked, e);
      revision := revision + 1;
      var event := Event(revision, e);
      revoked := revoked[e.kind := subjects + {e.subject}];
      events := events + [event];
      log := log.Revoke(e);
      Advance();
      return Created(event);
    }

    /** The whole revocation state at one revision, whatever order the maps are walked in. */
    method Snapshot() returns (s: Snapshot)
      requires Valid()
      ensures s == log.Snapshot()
    {
      var entries := Flatten(revoked);
      EntryLessIsStrictOrder();
      var sorted := Sort(EntryLess, entries);
      s := SnapshotAt(revision, sorted);
    }

    /** Observes the journal and picks up the current channel under one lock. */
    method EventsAfter(after: nat) returns (r: ReplayResult, ch: Channel)
      requires Valid()
      ensures r == log.EventsAfter(after)
      ensures ch == notify == channels[revision] && revision == log.Revision()
    {
      hide Under, Pairs;
      ch := notify;
      if after > revision {
        return RevisionAhead, ch;
      }
      if |events| > 0 {
        var oldest := events[0].revision;
        if oldest > 0 && after < oldest - 1 {
          return ReplayUnavailable, ch;
        }
      }
      if after == revision {
        assert log.history[after..] == [];
        return Events([]), ch;
      }
      var out: seq<Event> := [];
      ghost var base := log.compacted;
      for i := 0 to |events|
        invariant out == if base + i <= after || |events| == 0 then [] else log.history[after..base + i]
      {
        assert events[i] == log.history[base + i];
        if events[i].revision > after {
          out := out + [events[i]];
        }
      }
      return Events(out), ch;
    }

    method OldestAvailableRevision() returns (r: nat)
      requires Valid()
      ensures r == log.compacted + 1
    {
      if |events| == 0 {
        r := revision + 1;
      } else {
        r := events[0].revision;
      }
    }

    /** Forgets replay history through a revision and nothing else. */
    method CompactThrough(through: nat)
      requires Valid()
      modifies this`events, this`log
      ensures Valid() && log == old(log).CompactThrough(through)
      ensures forall e :: e in events <==> e in old(events) && e.revision > through
    {
      hide Under, Pairs;
      var i := 0;
      while i < |events| && events[i].revision <= through
        invariant i <= |events|
        invariant i > 0 ==> log.compacted + i <= through
      {
        i := i + 1;
      }
      if i == 0 {
        return;
      }
      log := log.CompactThrough(through);
      events := events[i..];
    }
  }
}
