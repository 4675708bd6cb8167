/** Replication and evaluation together: any number of evaluations on any number of sidecars, interleaved step by step with
    each other, with the subscribers and with the control plane. */
module Enforcement {
  import opened Basics
  import opened Revocations
  import opened Sidecars
  import opened Replication
  import opened Ledgers
  import opened Pipelines

  /** A use of budget an evaluation has been granted. */
  datatype Spending = Nothing | TokenUse(id: Bytes) | AutonomyUse(id: Bytes)

  datatype Running = Running(call: Call, sidecar: nat, stage: Stage, spent: Spending) {
    predicate Allowed() {
      stage == Finished(Allow)
    }
  }

  /** Each sidecar process has its own ledger. */
  datatype World = World(system: System, counts: seq<Counts>, calls: seq<Running>)

  datatype Move =
    | Protocol(a: Action)
    | Begin(sidecar: nat, call: Call)
    | Proceed(j: nat, keys: map<Bytes, Bytes>, now: int, recorderAccepts: bool)

  ghost function Look(w: World, sidecar: nat, keys: map<Bytes, Bytes>, now: int, recorderAccepts: bool): Surroundings
    requires sidecar < |w.system.sidecars| && sidecar < |w.counts|
  {
    var replica := w.system.sidecars[sidecar].replica;
    Surroundings(Some(replica.control), replica.deny, keys, now, recorderAccepts, w.counts[sidecar])
  }

  /** What a granted budget step is recorded as. */
  function Spent(r: Running, next: Stage): Spending {
    if (r.stage.SpendToken? || r.stage.SpendAutonomy?) && next == Record then
      if r.stage.SpendToken? && r.call.tok.Some? then TokenUse(r.call.tok.value.id)
      else if r.call.env.Some? then AutonomyUse(r.call.env.value.id) else r.spent
    else r.spent
  }

  ghost function Take(w: World, m: Move, sv: Services): World
    requires w.system.log.Valid() && |w.counts| == |w.system.sidecars|
  {
    match m
    case Protocol(a) => w.(system := Step(w.system, a))
    case Begin(sidecar, call) =>
      if sidecar < |w.counts| then w.(calls := w.calls + [Running(call, sidecar, Arrival, Nothing)]) else w
    case Proceed(j, keys, now, accepts) =>
      if j < |w.calls| && w.calls[j].sidecar < |w.counts| then
        var r := w.calls[j];
        var (next, counts) := Advance(r.call, r.stage, Look(w, r.sidecar, keys, now, accepts), sv);
        w.(counts := w.counts[r.sidecar := counts],
           calls := w.calls[j := r.(stage := next, spent := Spent(r, next))])
      else w
  }

  ghost predicate Sound(w: World) {
    && Invariant(w.system)
    && |w.counts| == |w.system.sidecars|
    && forall j :: 0 <= j < |w.calls| ==> w.calls[j].sidecar < |w.counts|
  }

  lemma TakeKeepsSound(w: World, m: Move, sv: Services)
    requires Sound(w)
    ensures Sound(Take(w, m, sv))
    ensures |w.calls| <= |Take(w, m, sv).calls|
  {
    if m.Protocol? {
      StepKeeps(w.system, m.a);
      StepKeepsLog(w.system, m.a);
    }
  }

  ghost function TakeAll(w: World, moves: seq<Move>, sv: Services): (r: World)
    requires Sound(w)
    ensures Sound(r) && |w.calls| <= |r.calls| && |r.counts| == |w.counts|
    decreases |moves|
  {
    if moves == [] then w
    else
      var front := TakeAll(w, moves[..|moves| - 1], sv);
      TakeKeepsSound(front, moves[|moves| - 1], sv);
      Take(front, moves[|moves| - 1], sv)
  }

  // ------------------------------------------------------------------ revocation

  /** The revocation concerns the call: it names one of the keys that signed it, its envelope or its token. */
  predicate Concerns(e: Entry, call: Call) {
    || (e.kind == KEY && call.env.Some? && call.env.value.signerKeyId == e.subject)
    || (e.kind == KEY && call.tok.Some? && call.tok.value.signerKeyId == e.subject)
    || (e.kind == TOKEN && call.tok.Some? && call.tok.value.id == e.subject)
    || ((e.kind == ENVELOPE || e.kind == PARENT_ENVELOPE) && call.env.Some? && call.env.value.id == e.subject)
  }

  /** The stage whose look-up catches the revocation. */
  function Gate(e: Entry, call: Call): nat {
    if e.kind == KEY && call.env.Some? && call.env.value.signerKeyId == e.subject then 2
    else if e.kind == KEY then 5
    else if e.kind == TOKEN then 6
    else 3
  }

  /** The call has been turned away or has not got past that look-up yet. */
  predicate Held(e: Entry, r: Running) {
    && r.spent == Nothing
    && (r.stage.Finished? ==> r.stage.decision != Allow)
    && (!r.stage.Finished? ==> StageRank(r.stage) <= Gate(e, r.call))
  }

  /** While the entry is listed, no step takes a call it concerns past the look-up, and none spends for it. */
  lemma ListedHolds(e: Entry, r: Running, w: Surroundings, sv: Services)
    requires w.deny.Lists(e) && Concerns(e, r.call) && Held(e, r)
    ensures var (next, counts) := Advance(r.call, r.stage, w, sv);
            Held(e, r.(stage := next, spent := Spent(r, next))) && counts == w.counts
  {
  }

  ghost predicate HeldFrom(e: Entry, i: nat, first: nat, w: World) {
    && i < |w.system.sidecars| && w.system.sidecars[i].replica.deny.Lists(e)
    && forall j :: first <= j < |w.calls| && w.calls[j].sidecar == i && Concerns(e, w.calls[j].call) ==>
         Held(e, w.calls[j])
  }

  lemma ListsStay(d: Denylist, later: Denylist, e: Entry)
    requires d.Within(later) && d.Lists(e)
    ensures later.Lists(e)
  {
  }

  lemma ProtocolKeepsListed(e: Entry, i: nat, s: System, a: Action)
    requires Invariant(s) && i < |s.sidecars| && s.sidecars[i].replica.deny.Lists(e)
    ensures i < |Step(s, a).sidecars| && Step(s, a).sidecars[i].replica.deny.Lists(e)
  {
    hide Denylist.Lists, Denylist.Within, Consistent;
    assert Run(s, [a]) == Step(s, a) by {
      assert [a][..0] == [];
    }
    RunMonotone(s, [a], i);
    ListsStay(s.sidecars[i].replica.deny, Step(s, a).sidecars[i].replica.deny, e);
  }

  lemma TakeKeepsHeld(e: Entry, i: nat, first: nat, w: World, m: Move, sv: Services)
    requires Sound(w) && HeldFrom(e, i, first, w)
    ensures HeldFrom(e, i, first, Take(w, m, sv))
  {
    hide Advance, Spent, Denylist.Lists, Concerns, Step, Invariant;
    match m
    case Protocol(a) => ProtocolKeepsListed(e, i, w.system, a);
    case Begin(_, _) =>
    case Proceed(j, keys, now, accepts) =>
      if first <= j < |w.calls| && w.calls[j].sidecar == i && Concerns(e, w.calls[j].call) {
        ListedHolds(e, w.calls[j], Look(w, i, keys, now, accepts), sv);
      }
  }

  lemma {:induction false} RunKeepsHeld(e: Entry, i: nat, first: nat, w: World, moves: seq<Move>, sv: Services)
    requires Sound(w) && HeldFrom(e, i, first, w)
    ensures HeldFrom(e, i, first, TakeAll(w, moves, sv))
    decreases |moves|
  {
    if moves != [] {
      RunKeepsHeld(e, i, first, w, moves[..|moves| - 1], sv);
      TakeKeepsHeld(e, i, first, TakeAll(w, moves[..|moves| - 1], sv), moves[|moves| - 1], sv);
    }
  }

  /** Once a sidecar vouches for the revision of a revocation, no evaluation that begins there later and that the
      revocation concerns is ever allowed or spends anything, whatever happens in between its steps. */
  lemma RevocationEnforced(w: World, i: nat, revision: nat, moves: seq<Move>, sv: Services, j: nat)
    requires Sound(w) && i < |w.system.sidecars|
    requires 0 < revision <= w.system.sidecars[i].replica.control.revision
    requires |w.calls| <= j < |TakeAll(w, moves, sv).calls|
    ensures revision <= w.system.log.Revision()
    ensures var r := TakeAll(w, moves, sv).calls[j];
            r.sidecar == i && Concerns(w.system.log.history[revision - 1].entry, r.call) ==>
              !r.Allowed() && r.spent == Nothing
  {
    VouchedMeansListed(w.system, i, revision);
    RunKeepsHeld(w.system.log.history[revision - 1].entry, i, |w.calls|, w, moves, sv);
  }

  // ------------------------------------------------------------------ freshness

  predicate TurnedAway(r: Running) {
    && r.spent == Nothing
    && (r.stage == Arrival || (r.stage.Finished? && r.stage.decision != Allow))
  }

  /** A condemned or stale state turns every call away at the door. */
  lemma UntrustedTurnsAway(r: Running, w: Surroundings, sv: Services)
    requires TurnedAway(r) && w.control.Some?
    requires r.call.req.Some? ==> !w.control.value.IsFresh(ControlTime(r.call.req.value, w.now))
    ensures var (next, counts) := Advance(r.call, r.stage, w, sv);
            TurnedAway(r.(stage := next, spent := Spent(r, next))) && counts == w.counts
  {
  }

  /** If the move is a step of a call on this sidecar, the sidecar's state is condemned or stale at the call's clock. */
  ghost predicate Untrusted(i: nat, w: World, m: Move) {
    m.Proceed? && m.j < |w.calls| && w.calls[m.j].sidecar == i < |w.system.sidecars| && w.calls[m.j].call.req.Some? ==>
      !w.system.sidecars[i].replica.control.IsFresh(ControlTime(w.calls[m.j].call.req.value, m.now))
  }

  ghost predicate UntrustedThroughout(i: nat, w: World, moves: seq<Move>, sv: Services)
    requires Sound(w)
    decreases |moves|
  {
    moves == [] ||
    (&& UntrustedThroughout(i, w, moves[..|moves| - 1], sv)
     && Untrusted(i, TakeAll(w, moves[..|moves| - 1], sv), moves[|moves| - 1]))
  }

  ghost predicate ShutFrom(i: nat, first: nat, w: World) {
    forall j :: first <= j < |w.calls| && w.calls[j].sidecar == i ==> TurnedAway(w.calls[j])
  }

  lemma TakeKeepsShut(i: nat, first: nat, w: World, m: Move, sv: Services)
    requires Sound(w) && ShutFrom(i, first, w) && Untrusted(i, w, m)
    ensures ShutFrom(i, first, Take(w, m, sv))
  {
    if m.Proceed? && first <= m.j < |w.calls| && w.calls[m.j].sidecar == i {
      UntrustedTurnsAway(w.calls[m.j], Look(w, i, m.keys, m.now, m.recorderAccepts), sv);
    }
  }

  lemma {:induction false} RunKeepsShut(i: nat, first: nat, w: World, moves: seq<Move>, sv: Services)
    requires Sound(w) && ShutFrom(i, first, w) && UntrustedThroughout(i, w, moves, sv)
    ensures ShutFrom(i, first, TakeAll(w, moves, sv))
    decreases |moves|
  {
    if moves != [] {
      RunKeepsShut(i, first, w, moves[..|moves| - 1], sv);
      TakeKeepsShut(i, first, TakeAll(w, moves[..|moves| - 1], sv), moves[|moves| - 1], sv);
    }
  }

  /** For as long as a sidecar's state is condemned or stale no evaluation that has begun there since is allowed or spends
      anything. */
  lemma UntrustedAllowsNothing(w: World, i: nat, moves: seq<Move>, sv: Services, j: nat)
    requires Sound(w) && UntrustedThroughout(i, w, moves, sv)
    requires |w.calls| <= j < |TakeAll(w, moves, sv).calls|
    ensures var r := TakeAll(w, moves, sv).calls[j];
            r.sidecar == i ==> !r.Allowed() && r.spent == Nothing
  {
    RunKeepsShut(i, |w.calls|, w, moves, sv);
  }

  /** When a sidecar's state was last refreshed, told by the actions of the run, and before them as at its start. */
  ghost function LastRefresh(w: World, i: nat, moves: seq<Move>, sv: Services): Option<int>
    requires Sound(w) && i < |w.system.sidecars|
    decreases |moves|
  {
    if moves == [] then w.system.sidecars[i].replica.control.lastUpdate
    else
      var front, last := TakeAll(w, moves[..|moves| - 1], sv), moves[|moves| - 1];
      if last.Protocol? && last.a.At? && last.a.i == i && RefreshedAt(front.system.sidecars[i], last.a.what).Some? then
        RefreshedAt(front.system.sidecars[i], last.a.what)
      else LastRefresh(w, i, moves[..|moves| - 1], sv)
  }

  lemma {:induction false} LastRefreshIsHeld(w: World, i: nat, moves: seq<Move>, sv: Services)
    requires Sound(w) && i < |w.system.sidecars|
    ensures i < |TakeAll(w, moves, sv).system.sidecars|
    ensures var control := TakeAll(w, moves, sv).system.sidecars[i].replica.control;
            && control.lastUpdate == LastRefresh(w, i, moves, sv)
            && control.maxStaleness == w.system.sidecars[i].replica.control.maxStaleness
    decreases |moves|
  {
    hide Advance, Spent, Sidecar.Act, RefreshedAt, Consistent;
    if moves != [] {
      var front, last := TakeAll(w, moves[..|moves| - 1], sv), moves[|moves| - 1];
      LastRefreshIsHeld(w, i, moves[..|moves| - 1], sv);
      if last.Protocol? && last.a.At? && last.a.i == i {
        ActRefreshes(front.system.sidecars[i], front.system.log, last.a.what);
      }
    }
  }

  /** No state is ever constructed with a bound that is not positive. */
  ghost predicate BoundsPositive(s: System) {
    forall i :: 0 <= i < |s.sidecars| ==> s.sidecars[i].replica.control.maxStaleness > 0
  }

  /** At move p of a run the bound since the sidecar's last refresh has run out, by this clock. */
  ghost predicate Lapsed(w: World, i: nat, moves: seq<Move>, sv: Services, p: nat, clock: int)
    requires Sound(w) && i < |w.system.sidecars| && p < |moves|
  {
    LastRefresh(w, i, moves[..p], sv).None? ||
    clock > LastRefresh(w, i, moves[..p], sv).value + w.system.sidecars[i].replica.control.maxStaleness
  }

  /** Move p of a run is the first step of call j, and the sidecar's state is neither condemned nor stale. */
  ghost predicate EntersFresh(w: World, moves: seq<Move>, sv: Services, p: nat, j: nat, i: nat, call: Call)
    requires Sound(w) && i < |w.system.sidecars| && p < |moves|
  {
    var before := TakeAll(w, moves[..p], sv);
    && moves[p].Proceed? && moves[p].j == j < |before.calls|
    && before.calls[j].sidecar == i && before.calls[j].call == call && before.calls[j].stage == Arrival
    && call.req.Some?
    && !before.system.sidecars[i].replica.control.unsafe
    && !Lapsed(w, i, moves, sv, p, ControlTime(call.req.value, moves[p].now))
  }

  lemma EntersFreshStill(w: World, moves: seq<Move>, sv: Services, p: nat, j: nat, i: nat, call: Call)
    requires Sound(w) && i < |w.system.sidecars| && moves != [] && p < |moves| - 1
    ensures EntersFresh(w, moves[..|moves| - 1], sv, p, j, i, call) <==> EntersFresh(w, moves, sv, p, j, i, call)
  {
    assert moves[..|moves| - 1][..p] == moves[..p];
  }

  lemma TurnedAwayStays(r: Running, w: Surroundings, sv: Services)
    requires TurnedAway(r) && w.control.Some?
    requires r.stage.Finished? || r.call.req.None? || !w.control.value.IsFresh(ControlTime(r.call.req.value, w.now))
    ensures var next := Advance(r.call, r.stage, w, sv).0;
            TurnedAway(r.(stage := next, spent := Spent(r, next)))
  {
  }

  /** The first step of a call either finds a fresh state or turns the call away. */
  lemma DoorStep(w: World, moves: seq<Move>, sv: Services, j: nat)
    requires Sound(w) && BoundsPositive(w.system)
    requires moves != [] && moves[|moves| - 1].Proceed? && moves[|moves| - 1].j == j
    requires var front := TakeAll(w, moves[..|moves| - 1], sv); j < |front.calls| && TurnedAway(front.calls[j])
    ensures var r := TakeAll(w, moves, sv).calls[j];
            TurnedAway(r) || EntersFresh(w, moves, sv, |moves| - 1, j, r.sidecar, r.call)
  {
    hide Advance, Spent, Sidecar.Act, Invariant, Control.IsFresh;
    var front, m := TakeAll(w, moves[..|moves| - 1], sv), moves[|moves| - 1];
    var r := front.calls[j];
    var around := Look(front, r.sidecar, m.keys, m.now, m.recorderAccepts);
    LastRefreshIsHeld(w, r.sidecar, moves[..|moves| - 1], sv);
    if r.stage.Finished? || r.call.req.None? || !around.control.value.IsFresh(ControlTime(r.call.req.value, m.now)) {
      TurnedAwayStays(r, around, sv);
    }
  }

  lemma {:induction false} EnteredFreshOrTurnedAway(w: World, moves: seq<Move>, sv: Services, j: nat)
    requires Sound(w) && BoundsPositive(w.system)
    requires |w.calls| <= j < |TakeAll(w, moves, sv).calls|
    ensures var r := TakeAll(w, moves, sv).calls[j];
            TurnedAway(r) || exists p :: 0 <= p < |moves| && EntersFresh(w, moves, sv, p, j, r.sidecar, r.call)
    decreases |moves|
  {
    hide Advance, Spent, EntersFresh, Invariant, Step;
    var front, m := TakeAll(w, moves[..|moves| - 1], sv), moves[|moves| - 1];
    if j < |front.calls| {
      EnteredFreshOrTurnedAway(w, moves[..|moves| - 1], sv, j);
      var r := front.calls[j];
      if TurnedAway(r) {
        if m.Proceed? && m.j == j {
          DoorStep(w, moves, sv, j);
        }
      } else {
        var p :| 0 <= p < |moves| - 1 && EntersFresh(w, moves[..|moves| - 1], sv, p, j, r.sidecar, r.call);
        EntersFreshStill(w, moves, sv, p, j, r.sidecar, r.call);
      }
    }
  }

  /** Whoever is allowed, or has spent anything, entered at a moment of the run when the state was not condemned and, by the
      call's own clock, no more than the staleness bound had passed since the last snapshot, event or heartbeat. */
  lemma AllowedEnteredFresh(w: World, moves: seq<Move>, sv: Services, j: nat)
    requires Sound(w) && BoundsPositive(w.system)
    requires |w.calls| <= j < |TakeAll(w, moves, sv).calls|
    ensures var r := TakeAll(w, moves, sv).calls[j];
            r.Allowed() || r.spent != Nothing ==>
              exists p :: 0 <= p < |moves| && EntersFresh(w, moves, sv, p, j, r.sidecar, r.call)
  {
    EnteredFreshOrTurnedAway(w, moves, sv, j);
  }

  /** So a sidecar whose last refresh lies further back than the bound at every step of its calls allows and spends
      nothing. */
  lemma LapsedAllowsNothing(w: World, i: nat, moves: seq<Move>, sv: Services, j: nat)
    requires Sound(w) && BoundsPositive(w.system) && i < |w.system.sidecars|
    requires |w.calls| <= j < |TakeAll(w, moves, sv).calls|
    requires var r := TakeAll(w, moves, sv).calls[j];
             r.sidecar == i && r.call.req.Some? ==>
               forall p :: 0 <= p < |moves| && moves[p].Proceed? && moves[p].j == j ==>
                 Lapsed(w, i, moves, sv, p, ControlTime(r.call.req.value, moves[p].now))
    ensures var r := TakeAll(w, moves, sv).calls[j];
            r.sidecar == i ==> !r.Allowed() && r.spent == Nothing
  {
    hide Lapsed;
    AllowedEnteredFresh(w, moves, sv, j);
  }

  lemma StoppedStays(s: System, i: nat, a: Action)
    requires s.log.Valid() && i < |s.sidecars| && s.sidecars[i].place == Stopped(true)
    ensures |Step(s, a).sidecars| == |s.sidecars| && Step(s, a).sidecars[i].place == Stopped(true)
  {
  }

  lemma FailedRecoveryStep(w: World, i: nat, m: Move, sv: Services)
    requires Sound(w) && i < |w.system.sidecars| && w.system.sidecars[i].place == Stopped(true)
    ensures Untrusted(i, w, m)
    ensures i < |Take(w, m, sv).system.sidecars| && Take(w, m, sv).system.sidecars[i].place == Stopped(true)
  {
    assert Consistent(w.system.log, w.system.sidecars[i]);
    if m.Protocol? {
      StoppedStays(w.system, i, m.a);
    }
  }

  lemma {:induction false} FailedRecoveryStays(w: World, i: nat, moves: seq<Move>, sv: Services)
    requires Sound(w) && i < |w.system.sidecars| && w.system.sidecars[i].place == Stopped(true)
    ensures UntrustedThroughout(i, w, moves, sv)
    ensures TakeAll(w, moves, sv).system.sidecars[i].place == Stopped(true)
    decreases |moves|
  {
    if moves != [] {
      FailedRecoveryStays(w, i, moves[..|moves| - 1], sv);
      FailedRecoveryStep(TakeAll(w, moves[..|moves| - 1], sv), i, moves[|moves| - 1], sv);
    }
  }

  /** After a subscriber has ended short of a recovery its sidecar never allows anything again and never spends a budget
      again. */
  lemma FailedRecoveryAllowsNothing(w: World, i: nat, moves: seq<Move>, sv: Services, j: nat)
    requires Sound(w) && i < |w.system.sidecars| && w.system.sidecars[i].place == Stopped(true)
    requires |w.calls| <= j < |TakeAll(w, moves, sv).calls|
    ensures var r := TakeAll(w, moves, sv).calls[j];
            r.sidecar == i ==> !r.Allowed() && r.spent == Nothing
  {
    FailedRecoveryStays(w, i, moves, sv);
    UntrustedAllowsNothing(w, i, moves, sv, j);
  }

  // ------------------------------------------------------------------ budgets

  /** How many running or finished calls satisfy a predicate. */
  function Tally(calls: seq<Running>, p: Running -> bool): nat {
    if calls == [] then 0
    else Tally(calls[..|calls| - 1], p) + if p(calls[|calls| - 1]) then 1 else 0
  }

  /** The largest limit any of the calls presents. */
  function Largest(calls: seq<Running>, limit: Running -> int): nat {
    if calls == [] then 0
    else
      var rest, last := Largest(calls[..|calls| - 1], limit), limit(calls[|calls| - 1]);
      if last > rest then last else rest
  }

  lemma {:induction false} TallyUpdate(calls: seq<Running>, j: nat, r: Running, p: Running -> bool)
    requires j < |calls|
    ensures Tally(calls[j := r], p) + (if p(calls[j]) then 1 else 0) == Tally(calls, p) + if p(r) then 1 else 0
  {
    var front := calls[..|calls| - 1];
    if j < |calls| - 1 {
      TallyUpdate(front, j, r, p);
      assert calls[j := r][..|calls| - 1] == front[j := r];
    } else {
      assert calls[j := r][..|calls| - 1] == front;
    }
  }

  lemma {:induction false} TallyAtMost(calls: seq<Running>, p: Running -> bool, q: Running -> bool)
    requires forall j :: 0 <= j < |calls| && p(calls[j]) ==> q(calls[j])
    ensures Tally(calls, p) <= Tally(calls, q)
  {
    if calls != [] {
      TallyAtMost(calls[..|calls| - 1], p, q);
    }
  }

  lemma {:induction false} LargestUpdate(calls: seq<Running>, j: nat, r: Running, limit: Running -> int)
    requires j < |calls| && limit(r) == limit(calls[j])
    ensures Largest(calls[j := r], limit) == Largest(calls, limit)
  {
    var front := calls[..|calls| - 1];
    if j < |calls| - 1 {
      LargestUpdate(front, j, r, limit);
      assert calls[j := r][..|calls| - 1] == front[j := r];
    } else {
      assert calls[j := r][..|calls| - 1] == front;
    }
  }

  lemma {:induction false} LargestBounds(calls: seq<Running>, j: nat, limit: Running -> int)
    requires j < |calls|
    ensures limit(calls[j]) <= Largest(calls, limit)
  {
    if j < |calls| - 1 {
      LargestBounds(calls[..|calls| - 1], j, limit);
    }
  }

  function SpentTokenAt(i: nat, id: Bytes): Running -> bool {
    (r: Running) => r.sidecar == i && r.spent == TokenUse(id)
  }

  function SpentAutonomyAt(i: nat, id: Bytes): Running -> bool {
    (r: Running) => r.sidecar == i && r.spent == AutonomyUse(id)
  }

  function AllowedTokenAt(i: nat, id: Bytes): Running -> bool {
    (r: Running) => r.sidecar == i && r.Allowed() && r.call.tok.Some? && r.call.tok.value.id == id
  }

  function AllowedAloneAt(i: nat, id: Bytes): Running -> bool {
    (r: Running) =>
      r.sidecar == i && r.Allowed() && r.call.tok.None? && r.call.env.Some? && r.call.env.value.id == id
  }

  function TokenLimitAt(i: nat, id: Bytes): Running -> int {
    (r: Running) => if r.sidecar == i && r.call.tok.Some? && r.call.tok.value.id == id then MaxUses(r.call.tok.value) else 0
  }

  function AutonomyLimitAt(i: nat, id: Bytes): Running -> int {
    (r: Running) =>
      if r.sidecar == i && r.call.tok.None? && r.call.env.Some? && r.call.env.value.id == id
         && r.call.env.value.autonomyMaxActions.Some? then r.call.env.value.autonomyMaxActions.value
      else 0
  }

  /** An allowed call has spent, and what it has spent is its own token or its own envelope. */
  predicate Paid(r: Running) {
    && (!r.stage.Finished? && r.stage != Record ==> r.spent == Nothing)
    && (r.stage == Record || r.Allowed() ==>
          r.call.env.Some? &&
          r.spent == if r.call.tok.Some? then TokenUse(r.call.tok.value.id) else AutonomyUse(r.call.env.value.id))
    && (StageRank(r.stage) in {4, 5, 6} || r.stage.SpendToken? ==> r.call.tok.Some?)
    && (r.stage.SpendAutonomy? ==> r.call.tok.None?)
  }

  ghost predicate TokensBalanced(calls: seq<Running>, counts: Counts, i: nat, id: Bytes) {
    CountOf(counts.tokens, id) == Tally(calls, SpentTokenAt(i, id)) <= Largest(calls, TokenLimitAt(i, id))
  }

  ghost predicate AutonomyBalanced(calls: seq<Running>, counts: Counts, i: nat, id: Bytes) {
    CountOf(counts.autonomy, id) == Tally(calls, SpentAutonomyAt(i, id)) <= Largest(calls, AutonomyLimitAt(i, id))
  }

  ghost predicate Balanced(w: World) {
    && (forall j :: 0 <= j < |w.calls| ==> Paid(w.calls[j]))
    && (forall i, id :: 0 <= i < |w.counts| ==> TokensBalanced(w.calls, w.counts[i], i, id))
    && (forall i, id :: 0 <= i < |w.counts| ==> AutonomyBalanced(w.calls, w.counts[i], i, id))
  }

  lemma AdvanceKeepsPaid(r: Running, w: Surroundings, sv: Services)
    requires Paid(r)
    ensures var next := Advance(r.call, r.stage, w, sv).0;
            Paid(r.(stage := next, spent := Spent(r, next)))
  {
  }

  /** What a step spends is what it adds to the counts, one use of one id, and only below the limit presented. */
  lemma AdvanceSpends(r: Running, w: Surroundings, sv: Services)
    requires Paid(r)
    ensures var (next, counts) := Advance(r.call, r.stage, w, sv);
            var spent := Spent(r, next);
            && (spent == r.spent ==> counts == w.counts)
            && (spent != r.spent ==> r.spent == Nothing && spent != Nothing)
            && (spent != r.spent && spent.TokenUse? ==>
                  && r.call.tok.Some? && spent.id == r.call.tok.value.id
                  && CountOf(w.counts.tokens, spent.id) < MaxUses(r.call.tok.value)
                  && counts == w.counts.(tokens := w.counts.tokens[spent.id := CountOf(w.counts.tokens, spent.id) + 1]))
            && (spent != r.spent && spent.AutonomyUse? ==>
                  && r.call.tok.None? && r.call.env.Some? && spent.id == r.call.env.value.id
                  && r.call.env.value.autonomyMaxActions.Some?
                  && CountOf(w.counts.autonomy, spent.id) < r.call.env.value.autonomyMaxActions.value
                  && counts == w.counts.(autonomy :=
                                 w.counts.autonomy[spent.id := CountOf(w.counts.autonomy, spent.id) + 1]))
  {
  }

  lemma StepKeepsTokens(calls: seq<Running>, j: nat, w: Surroundings, sv: Services, here: bool, i: nat, id: Bytes)
    requires j < |calls| && Paid(calls[j]) && here == (calls[j].sidecar == i)
    requires here ==> TokensBalanced(calls, w.counts, i, id)
    ensures var r := calls[j];
            var (next, counts) := Advance(r.call, r.stage, w, sv);
            var after := calls[j := r.(stage := next, spent := Spent(r, next))];
            && (here ==> TokensBalanced(after, counts, i, id))
            && (!here ==> Tally(after, SpentTokenAt(i, id)) == Tally(calls, SpentTokenAt(i, id))
                          && Largest(after, TokenLimitAt(i, id)) == Largest(calls, TokenLimitAt(i, id)))
  {
    var r := calls[j];
    var (next, counts) := Advance(r.call, r.stage, w, sv);
    AdvanceSpends(r, w, sv);
    TallyUpdate(calls, j, r.(stage := next, spent := Spent(r, next)), SpentTokenAt(i, id));
    LargestUpdate(calls, j, r.(stage := next, spent := Spent(r, next)), TokenLimitAt(i, id));
    LargestBounds(calls, j, TokenLimitAt(i, id));
  }

  lemma StepKeepsAutonomy(calls: seq<Running>, j: nat, w: Surroundings, sv: Services, here: bool, i: nat, id: Bytes)
    requires j < |calls| && Paid(calls[j]) && here == (calls[j].sidecar == i)
    requires here ==> AutonomyBalanced(calls, w.counts, i, id)
    ensures var r := calls[j];
            var (next, counts) := Advance(r.call, r.stage, w, sv);
            var after := calls[j := r.(stage := next, spent := Spent(r, next))];
            && (here ==> AutonomyBalanced(after, counts, i, id))
            && (!here ==> Tally(after, SpentAutonomyAt(i, id)) == Tally(calls, SpentAutonomyAt(i, id))
                          && Largest(after, AutonomyLimitAt(i, id)) == Largest(calls, AutonomyLimitAt(i, id)))
  {
    var r := calls[j];
    var (next, counts) := Advance(r.call, r.stage, w, sv);
    AdvanceSpends(r, w, sv);
    TallyUpdate(calls, j, r.(stage := next, spent := Spent(r, next)), SpentAutonomyAt(i, id));
    LargestUpdate(calls, j, r.(stage := next, spent := Spent(r, next)), AutonomyLimitAt(i, id));
    LargestBounds(calls, j, AutonomyLimitAt(i, id));
  }

  lemma ProceedKeepsBalanced(w: World, m: Move, sv: Services)
    requires Sound(w) && Balanced(w) && m.Proceed? && m.j < |w.calls|
    ensures Balanced(Take(w, m, sv))
  {
    hide Advance, Spent, Paid;
    var r := w.calls[m.j];
    var around := Look(w, r.sidecar, m.keys, m.now, m.recorderAccepts);
    var w' := Take(w, m, sv);
    AdvanceKeepsPaid(r, around, sv);
    forall i, id | 0 <= i < |w'.counts| ensures TokensBalanced(w'.calls, w'.counts[i], i, id) {
      assert TokensBalanced(w.calls, w.counts[i], i, id);
      StepKeepsTokens(w.calls, m.j, around, sv, r.sidecar == i, i, id);
    }
    forall i, id | 0 <= i < |w'.counts| ensures AutonomyBalanced(w'.calls, w'.counts[i], i, id) {
      assert AutonomyBalanced(w.calls, w.counts[i], i, id);
      StepKeepsAutonomy(w.calls, m.j, around, sv, r.sidecar == i, i, id);
    }
  }

  lemma BeginKeepsBalanced(w: World, r: Running)
    requires Balanced(w) && r.stage == Arrival && r.spent == Nothing
    ensures Balanced(w.(calls := w.calls + [r]))
  {
    var more := w.calls + [r];
    assert more[..|w.calls|] == w.calls;
    forall i, id | 0 <= i < |w.counts|
      ensures TokensBalanced(more, w.counts[i], i, id) && AutonomyBalanced(more, w.counts[i], i, id)
    {
      assert TokensBalanced(w.calls, w.counts[i], i, id) && AutonomyBalanced(w.calls, w.counts[i], i, id);
    }
  }

  lemma {:induction false} RunKeepsBalanced(w: World, moves: seq<Move>, sv: Services)
    requires Sound(w) && Balanced(w)
    ensures Balanced(TakeAll(w, moves, sv))
    decreases |moves|
  {
    hide Advance, Spent, TokensBalanced, AutonomyBalanced, Paid;
    if moves != [] {
      var front, last := TakeAll(w, moves[..|moves| - 1], sv), moves[|moves| - 1];
      RunKeepsBalanced(w, moves[..|moves| - 1], sv);
      match last
      case Protocol(_) =>
      case Begin(sidecar, call) =>
        BeginKeepsBalanced(front, Running(call, sidecar, Arrival, Nothing));
      case Proceed(j, _, _, _) =>
        if j < |front.calls| {
          ProceedKeepsBalanced(front, last, sv);
        }
    }
  }

  ghost predicate Opening(w: World) {
    && Initial(w.system) && w.calls == []
    && |w.counts| == |w.system.sidecars|
    && forall i :: 0 <= i < |w.counts| ==> w.counts[i] == Counts(map[], map[])
  }

  /** On every sidecar and under every interleaving: a token's count is the number of uses granted for it, those whose
      record then failed included; it covers every allowed call with that token and never exceeds the largest limit
      presented with it. The same holds for autonomy budgets, and neither count ever moves the other. */
  lemma BudgetsHold(w: World, moves: seq<Move>, sv: Services, i: nat, id: Bytes)
    requires Opening(w) && i < |w.counts|
    ensures Sound(w)
    ensures var after := TakeAll(w, moves, sv);
            && Tally(after.calls, AllowedTokenAt(i, id)) <= CountOf(after.counts[i].tokens, id)
            && CountOf(after.counts[i].tokens, id) == Tally(after.calls, SpentTokenAt(i, id))
            && CountOf(after.counts[i].tokens, id) <= Largest(after.calls, TokenLimitAt(i, id))
            && Tally(after.calls, AllowedAloneAt(i, id)) <= CountOf(after.counts[i].autonomy, id)
            && CountOf(after.counts[i].autonomy, id) == Tally(after.calls, SpentAutonomyAt(i, id))
            && CountOf(after.counts[i].autonomy, id) <= Largest(after.calls, AutonomyLimitAt(i, id))
  {
    InitialConsistent(w.system);
    RunKeepsBalanced(w, moves, sv);
    var after := TakeAll(w, moves, sv);
    assert TokensBalanced(after.calls, after.counts[i], i, id) && AutonomyBalanced(after.calls, after.counts[i], i, id);
    TallyAtMost(after.calls, AllowedTokenAt(i, id), SpentTokenAt(i, id));
    TallyAtMost(after.calls, AllowedAloneAt(i, id), SpentAutonomyAt(i, id));
  }

  lemma {:induction false} LargestAtMost(calls: seq<Running>, limit: Running -> int, n: nat)
    requires forall j :: 0 <= j < |calls| ==> limit(calls[j]) <= n
    ensures Largest(calls, limit) <= n
  {
    if calls != [] {
      LargestAtMost(calls[..|calls| - 1], limit, n);
    }
  }

  /** If no token presented under an id says it may be used more than n times, and n is at least one when some of them do not
      say at all, then no more than n calls with it are ever allowed on one sidecar. In particular a token that carries no
      limit is good for one call. */
  lemma UsesHold(w: World, moves: seq<Move>, sv: Services, i: nat, id: Bytes, n: nat)
    requires Opening(w) && i < |w.counts|
    ensures Sound(w)
    ensures var calls := TakeAll(w, moves, sv).calls;
            (forall j :: 0 <= j < |calls| && calls[j].sidecar == i && calls[j].call.tok.Some?
                         && calls[j].call.tok.value.id == id ==>
               match calls[j].call.tok.value.constraints
               case None => 1 <= n
               case Some(c) => if c.maxUses.Some? then c.maxUses.value <= n else 1 <= n) ==>
              Tally(calls, AllowedTokenAt(i, id)) <= n
  {
    hide Advance, Spent, Take, Sound, AllowedTokenAt, SpentTokenAt, SpentAutonomyAt, AllowedAloneAt, AutonomyLimitAt;
    BudgetsHold(w, moves, sv, i, id);
    var calls := TakeAll(w, moves, sv).calls;
    if forall j :: 0 <= j < |calls| ==> TokenLimitAt(i, id)(calls[j]) <= n {
      LargestAtMost(calls, TokenLimitAt(i, id), n);
    }
  }
}
