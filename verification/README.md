# Verified model of the HACP sidecar

A Dafny 4.11 model of the enforcement sidecar and its control plane, with proofs of what the two promise together.
`dafny verify dfyconfig.toml` checks everything.

## What is modelled

**Revocation replication.** `Journals.Journal` is the authoritative journal, with its replayable suffix and its wake-up
channels. `WatchStreams.WatchRevocations` is the loop behind one stream, run against a journal that other threads commit
to and compact between any two of its lock acquisitions. `Subscribers` holds the client objects: evaluator store,
adapter, freshness state, subscriber. Each of them is tied to a value (`Revocations.Log`, `WatchStreams.Stream`,
`Sidecars.Replica`), and `Replication` is the transition system over those values: one journal, any number of sidecars,
and handlers cut at every write another goroutine can observe. An action that is not possible where things stand changes
nothing, so every sequence of actions is a run. `CatchUp` proves progress: with the journal at rest, under every schedule
in which everybody gets a turn now and then.

**Evaluation.** `Evaluation.Pipeline` is the cascade of early returns over the live objects. `Pipelines.Advance` is the
same cascade cut at every read of state that other goroutines change, `Pipelines.Authorized` says outright which calls
are allowed, and `Pipelines.Answer` is one flat table of all answers. `Enforcement` interleaves any number of evaluations on any number of sidecars with the protocol and
proves that revocations, lost trust and budgets are enforced over whole runs. `ActionBinding` fills in the scope check and
the canonicalizer: allowed calls stay within their scope, and a token binds its calls to one JSON value.

**Canonical JSON.** `Canonicalizer` writes into one shared buffer as the source does; `JsonParser` is a parser written
from the grammar of RFC 8259, whitespace, escapes and repeated members included, and reads back whatever is written.

**Four kernels.** `Trust` (snapshot validation, fingerprint text, atomic replacement), `RequestTarget` (comparison up to
the case of percent triplets), `Provenance` (the ring buffer), `Boundary` (matrix, index, fold, scope check) with
`ProposedActions` (what is read off an action's JSON, and the action the proxy makes up).

Where time, a heartbeat timer, a broken stream, the answer of the provenance writer or the keys in force matter, they
are parameters or nondeterministic steps. Signature verification, hashing, constraint matching and the decoding of a
proposed action into attributes are function parameters. Identifiers are byte strings, which is what Go strings are.

## What the proofs found

- *A wake-up is lost in one case, and only there.* `EventsAfter` documents that no wake-up is lost.
  `len(j.events) > 0` guards the replay test (internal/controlplane/journal.go:196), so once all history is compacted an
  old cursor gets an empty answer and the current channel. The stream then waits, without gap, although
  commits are undelivered, until the next one. `WatchStreams.StalledIffFullyCompacted`,
  `WatchStreams.BehindWaitsIffFullyCompacted` and `Replication.StreamsWellSent` give the exact condition for a stream,
  `CatchUp.FairCatchesUp` for a sidecar anywhere on its way; `CatchUp.StallReached` is a run that gets there.
- *The fingerprint text is not injective.* It separates ids and keys by zero bytes (internal/trust/snapshot.go:168-172),
  and an id may contain them. A key map is the only one with its text exactly when it has a single id and that id is no
  fold of two bindings (`Trust.UniqueIffAlone`); for ids without zero bytes, exactly when it has a single id
  (`Trust.UniqueIffSingle`), although among maps of such ids the text determines the map (`Trust.PreimageInjective`).
  In all other cases, though only for a candidate of the same revision, a successful `Replace` can leave other keys active
  (`Trust.SuccessActivatesIff`, `Trust.NewRevisionActivates`). That no revision rolls back or shows two key maps holds for
  any hash (`Trust.NoRollback`). The one loader reads ids from JSON (internal/trust/file_loader.go:21-24), so they are
  UTF-8 text: a fold of two ids is text exactly when the 32 bytes of the key folded in are (`Trust.FoldedIsTextIff`), as
  in `Trust.LoadableInstance` and `Trust.SuccessWithOtherKeys`.
  Neither the loader nor the store asks whether those bytes are a point of the curve.
- *Member names are sorted by bytes.* Section 3.2.3 of RFC 8785 asks for UTF-16 order. The two agree on a pair of names
  exactly when the names do not straddle the surrogates (`Utf8.ByteOrderIsUtf16OrderIff`), and on an object
  exactly when no two of its names do (`Json.SortedNamesUtf16Iff`); `Utf8.OrdersDiffer` is a pair that does.
- *A null document loses nothing.* `RemoveSignatureField` decodes `null` into a nil map and returns `{}`.
- *Freshness is judged first, and at the request's own clock.* The repository's README.md lists the freshness check after
  signature, revocation and expiry (README.md:50); the code makes it before all of them
  (internal/evaluate/pipeline.go:91-108), at the clock the request carries whenever it carries one.
- *A request without a proposed action passes the scope check* (internal/evaluate/scope.go:57-59). Such a call is allowed
  exactly when it has no token, its envelope has some scope, whatever that grants, and all else is in order
  (`ActionBinding.NoActionNeedsOnlyAScope`, with an instance in `ActionBinding.EmptyGrantAllowed`). The HTTP proxy always
  makes an action up, so this concerns other callers of the pipeline. Budgets bound what one sidecar's ledger grants; each
  process has its own.

## Model

| member | source | states |
|---|---|---|
| `Replication.PrefixSafety` | internal/controlplane/subscriber.go:263-456 | Under every interleaving of commits, compactions, server steps, deliveries, cuts, snapshots and the single writes of the client handlers, each sidecar's three sets are the projection of a prefix of the committed history; vouched revision <= cursor <= length of that prefix <= journal revision, all equal between handlers; the state is condemned exactly during reset recovery and after a subscriber that ended short of one |
| `Replication.NoFaults` | internal/controlplane/subscriber.go:331-456 | No run makes a subscriber report a revision gap, an unknown kind or a heartbeat mismatch, or makes the server reject a cursor as ahead |
| `Replication.RunMonotone` | internal/controlplane/subscriber.go:114-170 | Over every continuation of every reachable run cursors and vouched revisions never fall and nothing a reader has seen revoked is ever seen un-revoked, across resets that replace the whole store |
| `Replication.StreamsWellSent` | internal/controlplane/server.go:96-241 | Every stream of every run: message k has sequence number k + 1, events are exactly the revisions after the opening one in order, a heartbeat repeats the last revision sent, nothing follows a reset; a stream waiting on an open channel is behind exactly when all history is compacted |
| `Replication.EqualCursorsAgree` | internal/controlplane/subscriber.go:274-323 | Two sidecars, at any two moments of a run, that hold equally many events have identical denylists, whatever disconnects and resets each had |
| `Replication.VouchedMeansListed` | internal/controlplane/subscriber.go:445-453 | A sidecar that vouches for the revision of a revocation lists its subject |
| `Replication.FailedRecoveryIsForever` | internal/controlplane/subscriber.go:132-142 | After a failed recovery snapshot, or a context that ended before one came, the replica never changes again and is fresh at no instant |
| `Replication.HeartbeatRefreshes` | internal/controlplane/server.go:204-238 | A caught-up stream keeps its sidecar fresh: the next ring of the timer sends a heartbeat, and reading it moves the last update and nothing else |
| `Replication.RunKeepsLink` | internal/controlplane/state.go:81-94 | In every run whoever has a stream is connected, and whoever waits for its first snapshot or ended in order is not |
| `Replication.RunKeeps` | internal/controlplane/subscriber.go:114-170 | The invariant of journal and sidecars is kept by every run |
| `Replication.StepKeeps` | internal/controlplane/subscriber.go:263-456 | One step of anybody keeps the invariant of everybody |
| `Replication.NextMessageFits` | internal/controlplane/subscriber.go:331-456 | The next unread message is the event after the cursor, a heartbeat for the revision vouched for, or a reset |
| `Replication.ReceiveKeeps` | internal/controlplane/subscriber.go:349-392 | Taking in whatever message is next keeps the sidecar consistent with the journal |
| `Replication.SnapshotActionKeeps` | internal/controlplane/subscriber.go:263-326 | Each write of the snapshot handler keeps it, although the journal has moved on since the snapshot was taken |
| `Replication.ServerActionKeeps` | internal/controlplane/server.go:111-240 | Each step of the server loop keeps it |
| `Replication.ExtensionKeepsConsistent` | internal/controlplane/journal.go:84-127 | Commits and compactions keep it |
| `Replication.ActMonotone` | internal/controlplane/subscriber.go:304-323 | One client step takes nothing back |
| `CatchUp.FairCatchesUp` | internal/controlplane/server.go:107-241 | With the journal at rest, from every consistent sidecar that has not stopped and under every schedule of enough blocks in which everybody gets a turn, with no cut, cancellation or lost snapshot: it reads its stream at the journal's revision iff it was not heading for a cursor whose replay is gone with all of the history, and stays behind for good otherwise; it takes exactly one reset when the replay is gone with part of the history or a reset is under way, none otherwise, and exactly the events owed |
| `CatchUp.FairRunCatchesUp` | internal/controlplane/server.go:107-241 | The same for each of any number of sidecars in one run, their steps interleaved in any way: with the journal at rest, whoever gets a fair share of enough blocks ends at the journal's revision or is the exception, whatever becomes of the others |
| `CatchUp.OthersDoNotMatter` | internal/controlplane/subscriber.go:114-170 | With the journal at rest a sidecar's part of a run is the run of its own actions |
| `CatchUp.StallReached` | internal/controlplane/journal.go:196-216 | The exception at an input: a new sidecar loads the empty snapshot, one revocation is committed and compacted away, and the stream opened then waits on an open channel with the commit undelivered |
| `CatchUp.CalmRunFits` | internal/controlplane/subscriber.go:114-456 | Under every calm schedule each delivery brings exactly one of the events owed, at most one reset is taken and only by a sidecar that has it coming, and the rest of its fate stays |
| `CatchUp.CalmStepHelps` | internal/controlplane/server.go:111-240 | No calm step of anybody makes the way longer; the step a sidecar is waiting for makes it shorter and stays due until it is taken |
| `CatchUp.CalmStepFits` | internal/controlplane/subscriber.go:114-456 | No calm step changes what becomes of a sidecar, but that a reset is behind it once taken |
| `CatchUp.NoWorkIffCaughtUp` | internal/controlplane/server.go:107-171 | No work is left exactly when a sidecar reads its stream, trusted, at the journal's revision |
| `CatchUp.ShortWay` | internal/controlplane/subscriber.go:114-170 | Unless it waits for good there is a way to the journal's revision that takes no more steps than there is work left |
| `CatchUp.StalledStaysBehind` | internal/controlplane/journal.go:196-216 | A sidecar heading for a cursor that is gone with all of the history stays behind under every calm schedule, however long |
| `CatchUp.RunWithNextHelps` | internal/controlplane/server.go:111-240 | A run that contains the awaited step leaves less work, whatever else it contains and in whatever order |
| `Revocations.JournalInvariant` | internal/controlplane/journal.go:84-159 | Over all operation sequences: the revision counts the distinct revocations, retained events are the revisions up to it, the snapshot is sorted by kind and then subject, duplicate-free and of length revision |
| `Revocations.RevokedIffRequested` | internal/controlplane/journal.go:84-127 | Exactly the well-formed revocations asked for are committed, however often and in whatever order |
| `Revocations.ReplayAnswers` | internal/controlplane/journal.go:177-233 | The answer for a cursor is exactly the later revisions, one of two errors under exact conditions, or nothing; nothing for a cursor behind exactly when all history is compacted |
| `Revocations.CompactionAnswers` | internal/controlplane/journal.go:290-327 | Compacting through a revision leaves the answer to every cursor there or later as it was; an earlier cursor is refused afterwards, or told there is nothing new once all history is gone; the history itself stays |
| `Revocations.UncompactedStays` | internal/controlplane/journal.go:290-327 | Over all operation sequences: a cursor that no compaction went beyond is always answered with the whole history after it |
| `Revocations.ProjectListsOnly` | internal/evaluate/revocation.go:52-70 | A look-up answers revoked for exactly the subjects of the events of its kinds |
| `Revocations.SnapshotThenReplay` | internal/controlplane/subscriber.go:274-323 | A snapshot followed by the later events gives the same denylist as all events from nothing |
| `Revocations.ReplayOntoProjection` | internal/controlplane/subscriber.go:421-443 | Applying events one by one onto a projected prefix gives the projected longer prefix |
| `Journals.Journal.constructor` | internal/controlplane/journal.go:57-65 | A new journal represents the empty history; its channel is open |
| `Journals.Journal.Revoke` | internal/controlplane/journal.go:84-127 | An empty subject, an unknown kind and a repetition have their own answers and change nothing; everything else is committed at the next revision as the last retained event, closes the current channel and installs a fresh one |
| `Journals.Journal.Snapshot` | internal/controlplane/journal.go:130-159 | The sorted set of everything ever revoked, whatever order the maps are walked in |
| `Journals.Journal.EventsAfter` | internal/controlplane/journal.go:177-233 | Answers as the history does and hands out the channel current at this very revision |
| `Journals.Journal.CompactThrough` | internal/controlplane/journal.go:304-327 | Exactly the retained events after the given revision stay; nothing else changes, and the history compacts as `CompactionAnswers` says |
| `Journals.Journal.OldestAvailableRevision` | internal/controlplane/journal.go:279-288 | The first replayable revision, revision + 1 when there is none |
| `Journals.Flatten` | internal/controlplane/journal.go:134-143 | Every revoked pair once, for any iteration order |
| `Journals.CommitRepresents` | internal/controlplane/journal.go:116-120 | A commit keeps revision, suffix and map in step with the history |
| `WatchStreams.WatchRevocations` | internal/controlplane/server.go:96-241 | The loop against a journal that others change between any two of its lock acquisitions: what it sends is well sent for the journal it ends with; when its context ends, anything missing was committed in the last turn or all of it is compacted away; it resets only a cursor that cannot be replayed and rejects exactly one that is ahead at the first look |
| `WatchStreams.Pass` | internal/controlplane/server.go:111-240 | One pass serves everything there is, or waits; a pass that sends nothing and goes on leaves the journal ahead of what was sent |
| `WatchStreams.Idle` | internal/controlplane/server.go:173-240 | Waiting ends with everything served up to the turn before, and a timer that rings in time yields a heartbeat |
| `WatchStreams.Await` | internal/controlplane/server.go:177-206 | After any interference the channel picked up at a revision is closed iff the journal has moved past it: no wake-up is lost |
| `WatchStreams.Beat` | internal/controlplane/server.go:204-238 | A heartbeat carries the last revision sent, even if the journal moves on between the check and the send |
| `WatchStreams.SendBatch` | internal/controlplane/server.go:152-170 | Sends a batch in order, numbering on |
| `WatchStreams.WellSentAt` | internal/controlplane/server.go:107-241 | The recursive description of a well-sent stream holds at each of its positions |
| `WatchStreams.DeliveredIsHistory` | internal/controlplane/server.go:152-168 | The events of a well-sent stream are the history between its start and the revision it has reached |
| `WatchStreams.StreamActKeeps` | internal/controlplane/server.go:111-240 | Every step keeps the stream valid and only appends |
| `WatchStreams.ExtensionKeeps` | internal/controlplane/journal.go:84-127 | Commits and compactions by others keep it valid |
| `WatchStreams.StalledIffFullyCompacted` | internal/controlplane/journal.go:196-216 | A stream waiting on an open channel lacks a commit iff its cursor is compacted away, and then all history is |
| `WatchStreams.BehindWaitsIffFullyCompacted` | internal/controlplane/journal.go:196-232 | Exact conditions under which a stream that is behind waits, is reset, or is served |
| `Sidecars.EventHandlerInSteps` | internal/controlplane/subscriber.go:395-456 | Store, cursor and freshness written one after the other have the effect of the handler as a whole |
| `Sidecars.SnapshotHandlerInSteps` | internal/controlplane/subscriber.go:263-326 | The same for a snapshot, also for one that is refused |
| `Sidecars.OtherMessageInOneStep` | internal/controlplane/subscriber.go:349-380 | Resets and heartbeats are handled in one step, with the effect of the handler |
| `Sidecars.MessageAnswers` | internal/controlplane/subscriber.go:349-456 | Which messages end a stream and with which error; what ends one changes nothing but condemns the state, which is then fresh at no instant; a repeated event changes nothing; any other message makes the state fresh for exactly the staleness bound |
| `Sidecars.SnapshotAnswers` | internal/controlplane/subscriber.go:274-326 | A snapshot is refused iff an entry has an unknown kind; refused, it replaces nothing and condemns; loaded, it makes the state fresh for exactly the staleness bound |
| `Sidecars.ActRefreshes` | internal/controlplane/state.go:97-157 | The last update is moved by the last write of a snapshot or event handler and by a heartbeat for the revision vouched for, to their time, and by nothing else |
| `Subscribers.RevocationStoreAdapter.Revoke` | internal/controlplane/adapter.go:67-86 | One entry is added under the set its kind is looked up in |
| `Subscribers.RevocationStoreAdapter.ReplaceRevocations` | internal/controlplane/adapter.go:102-126 | The new store holds exactly the three lists and is a fresh object; the old one is untouched |
| `Subscribers.ControlState.constructor` | internal/controlplane/state.go:37-45 | Not fresh, at revision 0; a staleness bound that is not positive becomes five seconds |
| `Subscribers.ControlState.MarkHeartbeat` | internal/controlplane/state.go:135-157 | A match sets the last update and clears the condemnation, a mismatch condemns; neither moves the revision, and nothing else changes |
| `Subscribers.ControlState.MarkEvent` | internal/controlplane/state.go:112-122 | Moves the revision and the last update and clears the condemnation; nothing else changes |
| `Subscribers.ControlState.MarkSnapshot` | internal/controlplane/state.go:97-107 | The same for a snapshot |
| `Subscribers.ControlState.IsFresh` | internal/controlplane/state.go:192-210 | True iff the state is not condemned, was ever updated, and now is no later than the last update plus the staleness bound |
| `Subscribers.Subscriber.ApplyEvent` | internal/controlplane/subscriber.go:395-456 | Skips, condemns or applies, with the error of the first check that fails |
| `Subscribers.Subscriber.LoadSnapshot` | internal/controlplane/subscriber.go:263-326 | Replaces everything held, or condemns and keeps all of it when a kind is unknown |
| `Subscribers.Subscriber.Watch` | internal/controlplane/subscriber.go:331-393 | The loop has the effect of handling the messages in order up to the one that ends the stream |
| `Subscribers.Subscriber.Run` | internal/controlplane/subscriber.go:114-216 | The two loops over the live objects lead to the outcome of a life stated on values: snapshot until one loads, then watch, reconnect, recover |
| `Subscribers.Subscriber.KeepWatching` | internal/controlplane/subscriber.go:121-169 | The loop after the initial snapshot |
| `Subscribers.LifeSettles` | internal/controlplane/subscriber.go:114-216 | Over a whole life with an honest control plane: no violation is ever reported, the denylist is the projection of a prefix that only grows, a failed recovery leaves the state condemned, and otherwise the cursor is at least where the journal was in every complete round after the first snapshot that the context outlives |
| `Subscribers.LifeEndsSafely` | internal/controlplane/subscriber.go:114-216 | Whatever the control plane says, honest or not: a life that ends short of a recovery leaves the state fresh at no instant, one that ends with its context leaves it disconnected |
| `Subscribers.FollowSettles` | internal/controlplane/subscriber.go:121-169 | The same from the initial snapshot on |
| `Subscribers.RoundSettles` | internal/controlplane/subscriber.go:121-169 | One round of watching takes a settled replica to a settled one, never back, and to the journal in a complete round; a context that has ended ends the life there, condemned if a reset was read |
| `Subscribers.LoadSettles` | internal/controlplane/subscriber.go:180-216 | The first snapshot that arrives is loaded and settles the replica at its revision |
| `Subscribers.HandleWellSent` | internal/controlplane/subscriber.go:349-392 | A well-sent stream takes a settled replica exactly to the revision it has reached, and ends only in a reset |
| `Pipelines.AllowsExactlyTheAuthorized` | internal/evaluate/pipeline.go:58-617 | The cascade of early returns allows a call iff every single condition holds, and spends budget exactly for calls that are entitled and within it |
| `Pipelines.AnswersByTheTable` | internal/evaluate/pipeline.go:58-617 | Every answer, PAUSE and DENY with their reasons included: the one the first applicable line of one flat table gives, over everything the call finds, with clocks, skew, checkpoint states and the use limit of one for a token that carries none written out |
| `Pipelines.Add64Wraps` | internal/evaluate/pipeline.go:222-224 | Expiry plus skew is their sum when it fits and off by one turn otherwise |
| `Pipelines.EnvelopeRevocationOnward` | internal/evaluate/pipeline.go:202-370 | The same from the envelope look-up on |
| `Pipelines.TokenOnward` | internal/evaluate/pipeline.go:376-566 | The same from the token key on |
| `Pipelines.SpendOnward` | internal/evaluate/pipeline.go:572-616 | A use that is not granted is a used-up budget; a granted use stays spent when its record fails, which is a traceability failure |
| `Evaluation.Pipeline.Evaluate` | internal/evaluate/pipeline.go:58-617 | The method over the live store, state and ledger allows exactly the authorized calls and leaves exactly the counts stated; its answers are those of `AnswersByTheTable` |
| `Evaluation.Pipeline.EvaluateSigned` | internal/evaluate/pipeline.go:202-370 | The cascade after the envelope's signature |
| `Evaluation.Pipeline.EvaluateToken` | internal/evaluate/pipeline.go:376-566 | The token's part of the cascade |
| `Evaluation.Pipeline.SpendTokenUse` | internal/evaluate/pipeline.go:572-616 | One use, then its record |
| `Enforcement.RevocationEnforced` | internal/evaluate/pipeline.go:173-425 | Once a sidecar vouches for the revision of a revocation of a signer key, token, envelope or parent envelope, no evaluation begun there later that it concerns is ever allowed or spends anything, under every interleaving of protocol and evaluation steps |
| `Enforcement.UntrustedTurnsAway` | internal/evaluate/pipeline.go:91-108 | A condemned or stale state turns a call away at the door, before anything is spent |
| `Enforcement.UntrustedAllowsNothing` | internal/evaluate/pipeline.go:91-108 | Over every run throughout which a sidecar's state is condemned or stale at the calls' clocks, no evaluation begun there is allowed or spends anything; by the times of the actions, see `AllowedEnteredFresh` |
| `Enforcement.AllowedEnteredFresh` | internal/controlplane/state.go:192-210 | Whatever is allowed or spends anything, in any run, took its first step at a moment when the state was not condemned and, by the call's own clock, at most the staleness bound had passed since the last snapshot, event or matching heartbeat of the run |
| `Enforcement.LapsedAllowsNothing` | internal/controlplane/state.go:192-210 | A sidecar whose last refresh in the run lies further back than the bound at every step of a call neither allows the call nor spends for it |
| `Enforcement.FailedRecoveryAllowsNothing` | internal/evaluate/pipeline.go:91-108 | After a subscriber has ended short of a recovery nothing is ever allowed or spent on that sidecar |
| `Enforcement.ListedHolds` | internal/evaluate/pipeline.go:173-425 | While an entry is listed no step takes a call it concerns past the look-up |
| `Enforcement.BudgetsHold` | internal/budget/ledger.go:27-68 | Under every interleaving: allows for a token <= its count = uses granted (failed records included) <= the largest limit presented; the same for autonomy per envelope; neither count moves the other |
| `Enforcement.UsesHold` | internal/evaluate/pipeline.go:572-592 | Under every interleaving: if no token presented under an id says more than n uses, and n is at least one when some say none, at most n calls with it are ever allowed on a sidecar; a token without a limit is good for one |
| `Enforcement.AdvanceSpends` | internal/evaluate/pipeline.go:334-359 | A step spends at most one use of one id, only below the limit it presents |
| `Ledgers.Ledger.ConsumeToken` | internal/budget/ledger.go:27-43 | Grants iff the id is not empty and its count is below the limit; a grant adds one to that count, and nothing else changes |
| `Ledgers.Ledger.ConsumeAutonomy` | internal/budget/ledger.go:49-68 | The same for autonomy |
| `ActionBinding.AllowedIffWithin` | internal/evaluate/pipeline.go:321-361 | With the scope check as the guard: a call is allowed iff its request stays within the scope of its envelope and everything else is in order |
| `ActionBinding.NoActionNeedsOnlyAScope` | internal/evaluate/scope.go:54-59 | Without a proposed action a call is allowed iff it has no token, its envelope has some scope, whatever that grants, and everything else is in order |
| `ActionBinding.EmptyGrantAllowed` | internal/evaluate/scope.go:54-59 | An instance: an envelope that grants nothing and a request without a proposed action |
| `ActionBinding.AllowedStaysWithin` | internal/evaluate/pipeline.go:555-566 | Under every interleaving an allowed call has a scope; its proposed action's attributes pass table, quantity, destination and tool, and if it proposed none it had no token |
| `ActionBinding.TokenBindsAction` | internal/evaluate/pipeline.go:495-533 | Under every interleaving any two allowed calls whose tokens carry one action hash propose one JSON value, however it is written, unless their canonical texts collide under the hash |
| `ActionBinding.RunKeepsBound` | internal/evaluate/pipeline.go:321-566 | Past the guard every evaluation has passed the scope check and, with a token, the action hash |
| `JsonParser.ReadsBack` | internal/wire/jcs.go:32-83 | Unique decodability: an independent parser recovers every value from its canonical text, at the head of any text that does not continue a number |
| `JsonParser.CanonInjective` | internal/wire/jcs.go:32-83 | Canonical texts are equal iff the values are; values are maps, so member order never matters |
| `JsonParser.QuotedReadsBack` | internal/wire/jcs.go:121-146 | Every string is recovered from its escaped form |
| `JsonParser.EscapedRuneReadsBack` | internal/wire/jcs.go:123-144 | Every character is recovered from its escape of section 3.2.2.2 of RFC 8785 or its UTF-8 bytes |
| `Json.EscapeLengths` | internal/wire/jcs.go:123-144 | Seven characters have escapes of two bytes, the other controls of six with lower-case digits, and everything else is its UTF-8 bytes |
| `JsonParser.NumberReadsBack` | internal/wire/jcs.go:87-92 | Every int64 is recovered from its decimal form |
| `Canonicalizer.CanonicalizeValue` | internal/wire/jcs.go:32-83 | The recursion over one shared buffer appends exactly the canonical text |
| `Canonicalizer.CanonicalizeObject` | internal/wire/jcs.go:59-78 | Member names are sorted, so the order the map yields them in does not matter |
| `Canonicalizer.CanonicalizeString` | internal/wire/jcs.go:121-146 | Appends the quoted, escaped text |
| `Canonicalizer.CanonicalizeJSON` | internal/wire/jcs.go:14-29 | The canonical text of the first value, or nothing for a text that does not parse |
| `Canonicalizer.RemoveSignatureField` | internal/wire/jcs.go:153-170 | The canonical text of an object without its top-level signature; a null document counts as an empty object, anything else is refused |
| `Canonicalizer.CanonicalIsNormalForm` | internal/wire/jcs.go:14-29 | Canonicalizing is idempotent, and two texts have one canonical form iff they hold one value |
| `Canonicalizer.PayloadIsUnsigned` | internal/wire/envelope.go:119-146 | The second canonicalization changes nothing: the payload is the canonical form of the object minus its top-level signature |
| `Canonicalizer.PayloadsEqualIff` | internal/wire/token.go:115-141 | Two objects have equal payloads iff they agree on every other member; nested signatures count |
| `Utf8.DecodeEncoded` | internal/wire/jcs.go:142 | Decoding undoes encoding for every character |
| `Utf8.EncodeInjective` | internal/wire/jcs.go:142 | Different strings have different bytes |
| `Utf8.ByteOrderIsRuneOrder` | internal/wire/jcs.go:66 | Comparing names byte by byte is comparing them by code points |
| `Utf8.ByteOrderIsUtf16OrderIff` | internal/wire/jcs.go:66 | The byte order used agrees with the UTF-16 order of section 3.2.3 of RFC 8785 on two names iff they do not straddle the surrogates |
| `Json.SortedNamesUtf16Iff` | internal/wire/jcs.go:62-66 | The members of an object are written in the order of section 3.2.3 of RFC 8785 iff no two of their names straddle |
| `Utf8.OrdersDiffer` | internal/wire/jcs.go:66 | Two names on which the orders differ |
| `Ordering.AscendingUnique` | internal/wire/jcs.go:66 | Sorting gives one result for a set of names, whatever order they come in |
| `Trust.NewSnapshot` | internal/trust/snapshot.go:35-86 | Accepts iff no binding is faulty, fails with the fault of the first faulty one, and holds exactly the bindings |
| `Trust.FaultlessIff` | internal/trust/snapshot.go:45-72 | No binding is faulty iff every id is non-empty, every key has its length and no id has two keys |
| `Trust.OrderDoesNotMatter` | internal/trust/snapshot.go:45-72 | Lists of the same bindings in any order, repeated or not, make one map |
| `Trust.FingerprintKeys` | internal/trust/snapshot.go:160-175 | The hash of the ids in ascending order, each with its key |
| `Trust.PreimageInjective` | internal/trust/snapshot.go:160-175 | For ids free of zero bytes the hashed text is equal iff the key maps are |
| `Trust.Validate` | internal/trust/snapshot.go:113-138 | Accepts exactly the well-formed snapshots whose fingerprint is their own |
| `Trust.NewAtomicTrustStore` | internal/trust/store.go:23-31 | A store with a snapshot exists iff the snapshot is valid, which is then active |
| `Trust.AtomicTrustStore.Replace` | internal/trust/store.go:57-92 | Always activates a valid candidate when nothing is active or it is newer, keeps what is active otherwise, with the error for each case |
| `Trust.ReplaceAnswers` | internal/trust/store.go:57-92 | A newer valid candidate is activated without error; the error is a rollback iff it is older, a conflict iff it has the same revision and another fingerprint, an invalid snapshot iff it is not valid |
| `Trust.LargestRevisionWins` | internal/trust/store.go:57-92 | Over any sequence of attempts a store ends at the largest revision among what it held and the valid candidates, with the first of them that had it |
| `Trust.AtomicTrustStore.ResolveKey` | internal/trust/store.go:36-51 | The active key of an id, always of full length, or the error for an empty id, a store that is not ready, or an unknown id, in this order |
| `Trust.UniqueIffAlone` | internal/trust/snapshot.go:160-175 | The exact condition, for all key maps: no other key map has the same fingerprinted text iff the map has a single id and that id is no fold of two bindings; every map of two or more ids shares its text with another |
| `Trust.UniqueIffSingle` | internal/trust/snapshot.go:160-175 | For ids free of zero bytes: no other key map has the same text iff the map has a single id |
| `Trust.FoldSpellsAlike` | internal/trust/snapshot.go:168-172 | Folding two neighbouring ids into one leaves the text as it is, for maps of any size |
| `Trust.FoldedIsTextIff` | internal/trust/file_loader.go:21-24 | Of two ids that a trust file can hold the fold is one it can hold iff the 32 bytes of the first key are UTF-8 text |
| `Trust.LoadableCollision` | internal/trust/file_loader.go:64-93 | Folding two neighbouring ids, with those behind them free of zero bytes, gives a different map with the same text, and of a map that a trust file can hold one that a file can hold iff the key folded in is UTF-8 text |
| `Trust.LoadableInstance` | internal/trust/file_loader.go:64-93 | Such a pair: ids a and b, the first with the key that is the letter A thirty-two times |
| `Trust.NoRollback` | internal/trust/store.go:57-92 | Over any sequence of attempts the revision never falls and one revision never shows two snapshots, for any hash |
| `Trust.NewRevisionActivates` | internal/trust/store.go:57-92 | An error never changes anything; a success at another revision, or on a store that is not ready, always activates the candidate; for any hash |
| `Trust.SuccessWithOtherKeys` | internal/trust/store.go:84-86 | An instance that trust files can bring about: a candidate with other keys at the active revision succeeds and changes nothing |
| `Trust.SuccessActivatesIff` | internal/trust/store.go:57-92 | If no text collides with the active one under the hash: every success makes the candidate's keys active iff the active map has a single id that is no fold |
| `Trust.SuccessMeansActive` | internal/trust/store.go:57-92 | A success between two maps whose ids are free of zero bytes, and whose texts do not collide, means the candidate's keys are active |
| `RequestTarget.EqualRequestTarget` | internal/evaluate/scope.go:162-187 | Equal iff the targets decode to the same octets and have the same octets percent-encoded, so that only the case of hex digits may differ (section 6.2.2.1 of RFC 3986) |
| `RequestTarget.EqualHex` | internal/evaluate/scope.go:195-203 | Two hex digits are equal iff they have one value |
| `RequestTarget.Aligned` | internal/evaluate/scope.go:167-184 | Why walking both at once suffices although triplets may stand at different places |
| `RequestTarget.NormalizeKeepsMeaning` | internal/evaluate/scope.go:162-187 | The normal form is idempotent and decodes to the same octets |
| `RequestTarget.SameNormalFormIff` | internal/evaluate/scope.go:162-187 | Two targets have one normal form iff they decode to the same octets and have the same octets percent-encoded |
| `Provenance.BoundedFifo` | internal/provenance/ring.go:59-158 | For every capacity, zero included, and every sequence of operations: what was handed off followed by what is pending is what was accepted, in order, and never more than fits is pending |
| `Provenance.PushAppends` | internal/provenance/ring.go:63-78 | A record goes behind all pending ones and overwrites none; refused iff full |
| `Provenance.RingBuffer.constructor` | internal/provenance/ring.go:41-52 | Empty, of the given capacity |
| `Provenance.RingBuffer.Accept` | internal/provenance/ring.go:59-87 | Refuses iff full; otherwise an ALLOW record with the fields of this envelope, token and request goes behind everything pending |
| `Provenance.RingBuffer.AcceptDenied` | internal/provenance/ring.go:90-121 | The same with a DENY record and its reason; nothing is recorded without an envelope and a token |
| `Provenance.RingBuffer.Flush` | internal/provenance/ring.go:143-158 | Copies out the pending window and empties the ring |
| `Boundary.BuildIndex` | internal/scope/matrix.go:83-93 | The index says what the last row of the table for a transition says |
| `Boundary.EvaluateTransition` | internal/scope/matrix.go:97-115 | Staying put is allowed, otherwise the last row of the table for the transition decides, and no row means denial |
| `Boundary.EvaluateBoundaryCrossing` | internal/scope/matrix.go:124-154 | The most restrictive transition; ALLOW iff the value is non-empty and granted, or every granted value (at least one) has an ALLOW row |
| `Boundary.StrictestIs` | internal/scope/matrix.go:144-176 | A denial for any granted value denies; failing that reauthorization prevails over a checkpoint, and a checkpoint over allowing |
| `Boundary.OrderDoesNotMatter` | internal/scope/matrix.go:144-153 | The outcome does not depend on the order or repetition of granted values |
| `Boundary.PassesIff` | internal/scope/matrix.go:43-71 | What passes under the default matrix, for every attribute, grant and value: a value granted, or one that all granted values may move to (inwards, back to what can be undone, down to reading, from and to internal data) |
| `Boundary.CheckTable` | internal/evaluate/scope.go:73-103 | A boundary crossing iff audience, reversibility, externality or data class fails, else an exceeded scope iff verb or resource class does |
| `Boundary.CheckBoundary` | internal/evaluate/scope.go:46-160 | Passes iff scope, table, quantity, destination and tool all do; each failure, a missing attribute included, has its own reason, and the first one counts |
| `ProposedActions.VerbPassesIffGranted` | internal/proxy/proposed_action.go:46-59 | Which granted verbs let a request pass, by its HTTP method: read for GET and HEAD (or a grant of nothing but writing and deleting), write for POST, PUT and PATCH, delete for DELETE, unknown otherwise |
| `ProposedActions.SynthesizedReadsAs` | internal/scope/action.go:23-55 | However the nine-member object of a synthesized action is written down, the attributes read off it are the verb and the copied heads, without quantity, destination and tool |
| `ProposedActions.CanonicalSynthesizedReadsAs` | internal/proxy/proposed_action.go:62-68 | So it is with its canonical text |
| `ProposedActions.ReadsIff` | internal/scope/action.go:23-55 | The attributes read off an object are exactly what its members of nine names say, null and absence alike; a member of another type is an error |
| `ProposedActions.SynthesizedTextsEqualIff` | internal/proxy/proposed_action.go:31-78 | Two synthesized actions have one canonical text, which the action hash binds, iff verb, path, payload hash and the copied heads are the same |
| `ProposedActions.SynthesizedWithinIff` | internal/proxy/proposed_action.go:31-43 | A request that carries the JSON of its synthesized action is within the scope it came from iff the five copied lists have non-empty heads, the verb is granted, no quantity or destination is demanded, and a listed tool is the request's |

## Left out

- gRPC, TLS, protobuf messages, event ids and time stamps of events and snapshots, the payload of a reset message.
- Send errors in the server loop: a stream may be cut at any moment in `Replication`; in `WatchStreams` the loop sends
  until its context ends, and every prefix of a well-sent stream is well sent (`WatchStreams.WellSentAt`).
- The restart of a control plane: the journal lives in memory, so a restarted one does reject a surviving cursor that is
  ahead of it. `Replication.NoFaults` and everything else speak of one journal.
- Timers and back-off: the heartbeat timer may fire at any turn, and reconnecting takes one round.
- Wall-clock bounds on missed revocations: an event refreshes the state even while replay is behind, so no bound holds.
- The wrap-around of uint64 revisions and the saturation of Go's duration arithmetic; expiry arithmetic does wrap.
- A subscriber or pipeline without a `ControlState` in `Replication` and `Enforcement`; `Pipelines` and `Evaluation` have it.
- Evaluation against an `AtomicTrustStore`: the key map is whatever it is at each look-up.
- Subscribers.Subscriber.Run: the control plane and the end of the context are functions of the round;
  `Subscribers.LifeSettles` takes the plane as honest for one history whose revision never falls from round to round, and every interleaving within a round is in
  `Replication`.
- Subscribers.Subscriber.KeepWatching: the same control plane.
- Provenance.RingBuffer.Accept: the record takes its id and hash from the token, so a call without a token, which the
  autonomous path of the pipeline makes (internal/provenance/ring.go:72), is outside this model.
- Writing the file after the hand-off: an open error drops the batch.
- Evaluation.Pipeline.Evaluate: concurrent changes between its look-ups are in `Enforcement`, over `Pipelines.Advance`.
- Boundary.CheckBoundary: decoding of the proposed action is a parameter; `ProposedActions.ParseAttributes` is one
  decoder, which unlike Go's takes member names only as they are spelled. A decoder that yields neither attributes nor an
  error is not modelled.
- ProposedActions.ReadsIff: Go's decoder also takes member names in other cases.
- JsonParser.ReadsBack: numbers are int64; fractions, exponents and integers beyond int64, which the source formats as
  floats, are refused by the parser, and so are escaped surrogates, bytes that are not UTF-8 and whatever else Go's decoder
  repairs or tolerates.
- JsonParser.CanonInjective: int64 numbers only, as for `JsonParser.ReadsBack`.
- Canonicalizer.CanonicalizeValue: the branches for floats and for numbers that are neither int64 nor float.
- Canonicalizer.CanonicalizeJSON: accepts what `JsonParser` accepts; Go's decoder also takes the numbers and repairs named
  above and limits nesting depth.
- Canonicalizer.RemoveSignatureField: the same.
- Canonicalizer.CanonicalIsNormalForm: speaks of the texts `JsonParser` accepts.
- Canonicalizer.PayloadIsUnsigned: the same.
- Canonicalizer.PayloadsEqualIff: the same.
- Ed25519, SHA-256, hexadecimal and base64url; that no text collides with the active one is a hypothesis where needed.
- The required-field checks of envelopes and tokens, `MatchRequestConstraints`, `StaticKeyResolver`: one-step checks.
- Defensive copies of keys and events: the model's are values. `loadedAt` and `source` of a trust snapshot.
- `TokenCount`, `AutonomyCount`, `ResetTokens`, `ResetAutonomy`, `Clear`, `PendingCount` and other accessors.
- HTTP proxying, readiness and administration handlers, configuration, process start-up and shutdown.
