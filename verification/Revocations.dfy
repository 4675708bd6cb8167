/** Revocation events, the denylist they amount to, and the journal's full history as a value. */
module Revocations {
  import opened Basics
  import opened Ordering

  /** The protocol's open enumeration: any integer can arrive on the wire, four of them name a kind. */
  type Kind = int

  const KEY: Kind := 1
  const TOKEN: Kind := 2
  const ENVELOPE: Kind := 3
  const PARENT_ENVELOPE: Kind := 4

  predicate KnownKind(kind: Kind) {
    kind == KEY || kind == TOKEN || kind == ENVELOPE || kind == PARENT_ENVELOPE
  }

  datatype Entry = Entry(kind: Kind, subject: Bytes)

  datatype Event = Event(revision: nat, entry: Entry)

  /** What an evaluator can look up. Parent envelopes are looked up as envelopes. */
  datatype Denylist = Denylist(keys: set<Bytes>, tokens: set<Bytes>, envelopes: set<Bytes>) {

    function Add(e: Entry): Denylist {
      if e.kind == KEY then this.(keys := keys + {e.subject})
      else if e.kind == TOKEN then this.(tokens := tokens + {e.subject})
      else if e.kind == ENVELOPE || e.kind == PARENT_ENVELOPE then this.(envelopes := envelopes + {e.subject})
      else this
    }

    predicate Within(other: Denylist) {
      keys <= other.keys && tokens <= other.tokens && envelopes <= other.envelopes
    }

    /** Whether a look-up of the entry's subject under its kind answers "revoked". */
    predicate Lists(e: Entry) {
      || (e.kind == KEY && e.subject in keys)
      || (e.kind == TOKEN && e.subject in tokens)
      || ((e.kind == ENVELOPE || e.kind == PARENT_ENVELOPE) && e.subject in envelopes)
    }
  }

  const EMPTY_DENYLIST := Denylist({}, {}, {})

  /** The denylist of a set of entries, read off entry by entry. */
  function Collect(entries: set<Entry>): Denylist {
    Denylist(
      set e | e in entries && e.kind == KEY :: e.subject,
      set e | e in entries && e.kind == TOKEN :: e.subject,
      set e | e in entries && (e.kind == ENVELOPE || e.kind == PARENT_ENVELOPE) :: e.subject)
  }

  function Pairs(h: seq<Event>): (r: set<Entry>)
    ensures forall i :: 0 <= i < |h| ==> h[i].entry in r
  {
    set i | 0 <= i < |h| :: h[i].entry
  }

  /** The projection of a run of events. */
  function Project(h: seq<Event>): Denylist {
    Collect(Pairs(h))
  }

  /** The entries a map from kinds to subjects holds under some kinds. */
  function Under(revoked: map<Kind, set<Bytes>>, kinds: set<Kind>): set<Entry> {
    set k, id | k in kinds && k in revoked && id in revoked[k] :: Entry(k, id)
  }

  lemma UnderInsert(revoked: map<Kind, set<Bytes>>, e: Entry)
    ensures var subjects := if e.kind in revoked then revoked[e.kind] else {};
            var more := revoked[e.kind := subjects + {e.subject}];
            Under(more, more.Keys) == Under(revoked, revoked.Keys) + {e}
  {
    var subjects := if e.kind in revoked then revoked[e.kind] else {};
    var more := revoked[e.kind := subjects + {e.subject}];
    assert e == Entry(e.kind, e.subject);
    forall x: Entry ensures x in Under(more, more.Keys) <==> x in Under(revoked, revoked.Keys) + {e} {
      assert x == Entry(x.kind, x.subject);
    }
  }

  /** Applies a run of events one at a time. */
  function Replay(d: Denylist, events: seq<Event>): Denylist {
    if events == [] then d
    else Replay(d, events[..|events| - 1]).Add(events[|events| - 1].entry)
  }

  lemma CollectAdd(entries: set<Entry>, e: Entry)
    ensures Collect(entries + {e}) == Collect(entries).Add(e)
  {
    var more, less := Collect(entries + {e}), Collect(entries).Add(e);
    assert more.keys == less.keys;
    assert more.tokens == less.tokens;
    assert more.envelopes == less.envelopes;
  }

  lemma PairsAppend(h: seq<Event>, e: Event)
    ensures Pairs(h + [e]) == Pairs(h) + {e.entry}
  {
    var t := h + [e];
    assert t[|h|].entry in Pairs(t);
    assert forall i :: 0 <= i < |h| ==> t[i] == h[i];
    forall x ensures x in Pairs(t) <==> x in Pairs(h) + {e.entry} {
      if x in Pairs(h) {
        var i :| 0 <= i < |h| && h[i].entry == x;
        assert t[i].entry in Pairs(t);
      }
    }
  }

  lemma ProjectAppend(h: seq<Event>, e: Event)
    ensures Project(h + [e]) == Project(h).Add(e.entry)
  {
    PairsAppend(h, e);
    CollectAdd(Pairs(h), e.entry);
  }

  /** A look-up answers "revoked" for exactly the subjects of the events of its kinds, and for nothing else. */
  lemma ProjectListsOnly(h: seq<Event>, id: Bytes)
    ensures id in Project(h).keys <==> exists i :: 0 <= i < |h| && h[i].entry == Entry(KEY, id)
    ensures id in Project(h).tokens <==> exists i :: 0 <= i < |h| && h[i].entry == Entry(TOKEN, id)
    ensures id in Project(h).envelopes <==>
            exists i :: 0 <= i < |h| && (h[i].entry == Entry(ENVELOPE, id) || h[i].entry == Entry(PARENT_ENVELOPE, id))
  {
    assert forall kind :: Entry(kind, id) in Pairs(h) <==> exists i :: 0 <= i < |h| && h[i].entry == Entry(kind, id);
    forall e | e in Pairs(h) && e.subject == id ensures e == Entry(e.kind, id) {
    }
    assert Entry(KEY, id) in Pairs(h) <==> id in Project(h).keys;
    assert Entry(TOKEN, id) in Pairs(h) <==> id in Project(h).tokens;
    assert Entry(ENVELOPE, id) in Pairs(h) || Entry(PARENT_ENVELOPE, id) in Pairs(h) <==> id in Project(h).envelopes;
  }

  lemma ProjectMonotone(h: seq<Event>, m: nat, n: nat)
    requires m <= n <= |h|
    ensures Project(h[..m]).Within(Project(h[..n]))
  {
    assert forall i :: 0 <= i < m ==> h[..m][i] == h[..n][i];
    assert Pairs(h[..m]) <= Pairs(h[..n]);
  }

  /** Every event of a run is listed by its projection. */
  lemma ProjectLists(h: seq<Event>, i: nat)
    requires i < |h| && KnownKind(h[i].entry.kind)
    ensures Project(h).Lists(h[i].entry)
  {
    assert h[i].entry in Pairs(h);
  }

  /** Materializing the first m events at once and applying the rest one by one gives the projection of all of them. */
  lemma {:induction false} ReplayOntoProjection(h: seq<Event>, m: nat, n: nat)
    requires m <= n <= |h|
    ensures Replay(Project(h[..m]), h[m..n]) == Project(h[..n])
    decreases n
  {
    if m < n {
      ReplayOntoProjection(h, m, n - 1);
      assert h[m..n][..n - m - 1] == h[m..n - 1];
      assert h[..n] == h[..n - 1] + [h[n - 1]];
      ProjectAppend(h[..n - 1], h[n - 1]);
    }
  }

  // ------------------------------------------------------------------ the journal as a value

  datatype ReplayResult = RevisionAhead | ReplayUnavailable | Events(events: seq<Event>)

  datatype RevokeResult = Created(event: Event) | Duplicate | EmptySubject | InvalidKind

  datatype Snapshot = SnapshotAt(revision: nat, entries: seq<Entry>)

  predicate EntryLess(a: Entry, b: Entry) {
    if a.kind != b.kind then a.kind < b.kind else LexLess(a.subject, b.subject)
  }

  lemma EntryLessIsStrictOrder()
    ensures StrictOrder(EntryLess)
  {
    LexIsStrictOrder();
    forall a: Entry ensures !EntryLess(a, a) {
      assert !LexLess(a.subject, a.subject);
    }
    forall a, b ensures a == b || EntryLess(a, b) || EntryLess(b, a) {
      assert a.subject == b.subject || LexLess(a.subject, b.subject) || LexLess(b.subject, a.subject);
    }
    forall a, b, c | EntryLess(a, b) && EntryLess(b, c) ensures EntryLess(a, c) {
      if a.kind == b.kind == c.kind {
        assert LexLess(a.subject, b.subject) && LexLess(b.subject, c.subject);
      }
    }
  }

  /** `history` is every event ever committed; the first `compacted` of them can no longer be replayed. */
  datatype Log = Log(history: seq<Event>, compacted: nat) {

    ghost predicate Valid() {
      && compacted <= |history|
      && (forall i :: 0 <= i < |history| ==> history[i].revision == i + 1)
      && (forall i :: 0 <= i < |history| ==> KnownKind(history[i].entry.kind) && history[i].entry.subject != [])
      && (forall i, j :: 0 <= i < j < |history| ==> history[i].entry != history[j].entry)
    }

    function Revision(): nat {
      |history|
    }

    function RevokeResult(e: Entry): RevokeResult {
      if e.subject == [] then EmptySubject
      else if !KnownKind(e.kind) then InvalidKind
      else if e in Pairs(history) then Duplicate
      else Created(Event(|history| + 1, e))
    }

    function Revoke(e: Entry): Log {
      var r := RevokeResult(e);
      if r.Created? then this.(history := history + [r.event]) else this
    }

    function CompactThrough(revision: nat): Log {
      if compacted <= revision then
        this.(compacted := if revision <= |history| then revision else |history|)
      else this
    }

    /** The slice of history after a revision, unless it lies ahead or its start is compacted away. When everything is
        compacted the second test is skipped and an old cursor gets an empty answer. */
    function EventsAfter(after: nat): ReplayResult
      requires compacted <= |history|
    {
      if after > |history| then RevisionAhead
      else if compacted == |history| then Events([])
      else if after < compacted then ReplayUnavailable
      else Events(history[after..])
    }

    ghost function Snapshot(): (s: Snapshot)
      ensures s.revision == |history|
      ensures Ascending(EntryLess, s.entries) && Elements(s.entries) == Pairs(history)
    {
      EntryLessIsStrictOrder();
      SnapshotAt(|history|, SortedOf(EntryLess, Pairs(history)))
    }

    /** The log at a moment when it had `revision` events. */
    ghost predicate Extends(older: Log) {
      older.compacted <= compacted && older.history <= history
    }
  }

  const EMPTY_LOG := Log([], 0)

  /** One mutation of the journal. */
  datatype JournalOp = RevokeOp(entry: Entry) | CompactOp(revision: nat)

  function Mutate(log: Log, op: JournalOp): Log {
    match op
    case RevokeOp(e) => log.Revoke(e)
    case CompactOp(r) => log.CompactThrough(r)
  }

  function MutateAll(log: Log, ops: seq<JournalOp>): Log
    decreases |ops|
  {
    if ops == [] then log else MutateAll(Mutate(log, ops[0]), ops[1..])
  }

  lemma MutateKeepsValid(log: Log, op: JournalOp)
    requires log.Valid()
    ensures Mutate(log, op).Valid() && Mutate(log, op).Extends(log)
  {
  }

  lemma {:induction false} MutateAllKeepsValid(log: Log, ops: seq<JournalOp>)
    requires log.Valid()
    ensures MutateAll(log, ops).Valid() && MutateAll(log, ops).Extends(log)
    decreases |ops|
  {
    if ops != [] {
      MutateKeepsValid(log, ops[0]);
      MutateAllKeepsValid(Mutate(log, ops[0]), ops[1..]);
    }
  }

  lemma {:induction false} PairsDistinct(h: seq<Event>)
    requires forall i, j :: 0 <= i < j < |h| ==> h[i].entry != h[j].entry
    ensures |Pairs(h)| == |h|
  {
    if h == [] {
      assert Pairs(h) == {};
    } else {
      var front, last := h[..|h| - 1], h[|h| - 1];
      PairsDistinct(front);
      assert h == front + [last];
      PairsAppend(front, last);
      assert last.entry !in Pairs(front);
    }
  }

  /** Exactly the well-formed revocations that were asked for are in the history, however often and in whatever order. */
  lemma {:induction false} RevokedIffRequested(log: Log, ops: seq<JournalOp>, e: Entry)
    ensures e in Pairs(MutateAll(log, ops).history) <==>
            e in Pairs(log.history) || (RevokeOp(e) in ops && e.subject != [] && KnownKind(e.kind))
    decreases |ops|
  {
    if ops != [] {
      var next := Mutate(log, ops[0]);
      RevokedIffRequested(next, ops[1..], e);
      assert ops == [ops[0]] + ops[1..];
      if ops[0].RevokeOp? {
        PairsAppend(log.history, Event(|log.history| + 1, ops[0].entry));
      }
    }
  }

  /** Over every sequence of journal operations from the empty journal: the revision counts the distinct revocations,
      replayable history is the suffix of revisions compacted + 1, ..., revision, and a snapshot is strictly sorted,
      free of repetitions and exactly as long as the revision. */
  lemma JournalInvariant(ops: seq<JournalOp>)
    ensures var log := MutateAll(EMPTY_LOG, ops);
            && log.Valid()
            && |Pairs(log.history)| == log.Revision()
            && (forall i :: log.compacted <= i < log.Revision() ==> log.history[i].revision == i + 1)
            && Ascending(EntryLess, log.Snapshot().entries)
            && (forall i, j :: 0 <= i < j < |log.Snapshot().entries| ==>
                  var p, q := log.Snapshot().entries[i], log.Snapshot().entries[j];
                  p.kind < q.kind || (p.kind == q.kind && LexLess(p.subject, q.subject)))
            && |log.Snapshot().entries| == log.Revision()
            && Elements(log.Snapshot().entries) == Pairs(log.history)
  {
    MutateAllKeepsValid(EMPTY_LOG, ops);
    var log := MutateAll(EMPTY_LOG, ops);
    PairsDistinct(log.history);
    EntryLessIsStrictOrder();
    AscendingLength(EntryLess, log.Snapshot().entries);
  }

  /** The answer for a cursor is exactly the revisions after it, an error, or nothing; and nothing is the answer for a
      cursor that is behind precisely when the whole history has been compacted away. */
  lemma ReplayAnswers(log: Log, after: nat)
    requires log.Valid()
    ensures log.EventsAfter(after).RevisionAhead? <==> after > log.Revision()
    ensures log.EventsAfter(after).ReplayUnavailable? <==> after < log.compacted < log.Revision()
    ensures after < log.Revision() && log.EventsAfter(after) == Events([]) <==>
            after < log.Revision() && log.compacted == log.Revision()
    ensures log.EventsAfter(after).Events? && log.EventsAfter(after).events != [] ==>
              var events := log.EventsAfter(after).events;
              && |events| == log.Revision() - after
              && forall k :: 0 <= k < |events| ==>
                   events[k].revision == after + 1 + k && events[k] == log.history[after + k]
  {
  }

  /** Compacting through a revision leaves every answer to a cursor there or later as it was, and refuses every cursor
      before it, unless all history is gone, when a cursor before it is told that there is nothing new. */
  lemma CompactionAnswers(log: Log, through: nat, after: nat)
    requires log.Valid()
    ensures var compacted := log.CompactThrough(through);
            && compacted.history == log.history
            && (through <= after ==> compacted.EventsAfter(after) == log.EventsAfter(after))
            && (after < through && after <= log.Revision() ==>
                  compacted.EventsAfter(after) ==
                  if through < log.Revision() && log.compacted < log.Revision() then ReplayUnavailable else Events([]))
  {
  }

  /** Over every sequence of operations: a cursor that every compaction among them has stayed at or below can still be
      replayed from, whole. */
  lemma {:induction false} UncompactedStays(log: Log, ops: seq<JournalOp>, after: nat)
    requires log.Valid() && log.compacted <= after
    requires forall r: nat :: CompactOp(r) in ops ==> r <= after
    ensures var later := MutateAll(log, ops);
            && later.Valid()
            && (after <= later.Revision() ==> later.EventsAfter(after) == Events(later.history[after..]))
    decreases |ops|
  {
    if ops == [] {
      assert log.history[|log.history|..] == [];
    } else {
      MutateKeepsValid(log, ops[0]);
      UncompactedStays(Mutate(log, ops[0]), ops[1..], after);
    }
  }

  /** Loading a snapshot at one revision and applying the later events gives what applying everything from nothing
      gives. */
  lemma SnapshotThenReplay(log: Log, later: Log)
    requires log.Valid() && later.Valid() && later.Extends(log)
    ensures Replay(Collect(Elements(log.Snapshot().entries)), later.history[log.Revision()..])
            == Replay(EMPTY_DENYLIST, later.history)
            == Project(later.history)
  {
    var h, k := later.history, log.Revision();
    assert h[..k] == log.history && h[..|h|] == h && h[0..|h|] == h;
    ReplayOntoProjection(h, k, |h|);
    ReplayOntoProjection(h, 0, |h|);
    assert Pairs(h[..0]) == {};
    assert Project(h[..0]) == EMPTY_DENYLIST;
  }
}
