/** The pipeline with its services filled in: what the scope guard and the canonicalizer mean for the calls that are
    allowed, one at a time and over whole runs. */
module ActionBinding {
  import opened Basics
  import opened Revocations
  import opened Ledgers
  import opened Pipelines
  import opened Enforcement
  import opened Canonicalizer
  import opened JsonParser
  import B = Boundary

  /** The scope guard of the services is the scope check, with this reading of proposed actions. */
  ghost predicate GuardedBy(sv: Services, parse: Bytes -> Option<B.Attributes>) {
    forall scope, req :: sv.checkBoundary(scope, req).None? <==> B.Within(scope, req, parse)
  }

  ghost predicate Canonicalizes(sv: Services) {
    forall text :: sv.canonicalize(text) == Canonical(text)
  }

  // ------------------------------------------------------------------ one call

  /** Everything but the scope is in order. */
  predicate OtherwiseInOrder(call: Call, w: Surroundings, sv: Services) {
    && call.env.Some? && call.req.Some?
    && var env, req := call.env.value, call.req.value;
    && (w.control.Some? ==> w.control.value.IsFresh(ControlTime(req, w.now)))
    && CheckpointInOrder(req, w, sv)
    && EnvelopeVouched(env, req, w, sv)
    && (if call.tok.Some? then TokenInOrder(env, call.tok.value, req, w, sv) else MayActAlone(env, req))
    && Use(call, w.counts).0 && w.recorderAccepts
  }

  /** A call is allowed exactly when its request stays within the scope of its envelope and everything else is in order. */
  lemma AllowedIffWithin(call: Call, w: Surroundings, sv: Services, parse: Bytes -> Option<B.Attributes>)
    requires GuardedBy(sv, parse)
    ensures Verdict(call, Arrival, w, sv).0 == Allow <==>
            OtherwiseInOrder(call, w, sv) && B.Within(call.env.value.scope, call.req.value, parse)
  {
    hide Verdict, B.Within, TokenInOrder, MayActAlone, CheckpointInOrder, EnvelopeVouched, Use;
    AllowsExactlyTheAuthorized(call, w, sv);
  }

  /** Without a proposed action a call is allowed exactly when it has no token, its envelope has some scope, whatever that
      grants, and everything else is in order. */
  lemma NoActionNeedsOnlyAScope(call: Call, w: Surroundings, sv: Services, parse: Bytes -> Option<B.Attributes>)
    requires GuardedBy(sv, parse)
    requires call.env.Some? && call.req.Some? && call.req.value.proposedAction == []
    ensures Verdict(call, Arrival, w, sv).0 == Allow <==>
            call.tok.None? && call.env.value.scope.Some? && OtherwiseInOrder(call, w, sv)
  {
    hide Verdict, MayActAlone, CheckpointInOrder, EnvelopeVouched, Use;
    AllowedIffWithin(call, w, sv, parse);
  }

  const EMPTY_GRANT := ScopeGrant([], [], [], [], [], [], None, [], [])

  /** An instance: a system envelope that grants nothing, with one action in its budget, and a request without a proposed
      action. */
  lemma EmptyGrantAllowed(sv: Services, parse: Bytes -> Option<B.Attributes>)
    requires GuardedBy(sv, parse) && sv.verify([], [], []) && sv.skew == 0
    ensures var env := Envelope([0x65], "system", Some(EMPTY_GRANT), 100, [0x6B], [], [], Some(1));
            var req := Request("DELETE", [], "", "", 50, [], None, None);
            var w := Surroundings(None, EMPTY_DENYLIST, map[[0x6B] := []], 0, true, Counts(map[], map[]));
            Verdict(Call(Some(env), None, Some(req)), Arrival, w, sv).0 == Allow
  {
    var env := Envelope([0x65], "system", Some(EMPTY_GRANT), 100, [0x6B], [], [], Some(1));
    var req := Request("DELETE", [], "", "", 50, [], None, None);
    var w := Surroundings(None, EMPTY_DENYLIST, map[[0x6B] := []], 0, true, Counts(map[], map[]));
    NoActionNeedsOnlyAScope(Call(Some(env), None, Some(req)), w, sv, parse);
    hide Verdict;
  }

  // ------------------------------------------------------------------ whole runs

  /** Stages behind the scope guard. */
  predicate PastGuard(stage: Stage) {
    stage.SpendToken? || stage.SpendAutonomy? || stage.Record? || stage == Finished(Allow)
  }

  /** What an evaluation has seen to once it is past the guard. */
  predicate Bound(r: Running, sv: Services) {
    PastGuard(r.stage) ==>
      && r.call.env.Some? && r.call.req.Some?
      && var req := r.call.req.value;
      && sv.checkBoundary(r.call.env.value.scope, req).None?
      && (r.call.tok.Some? ==>
            && req.proposedAction != [] && sv.canonicalize(req.proposedAction).Some?
            && r.call.tok.value.actionHash == sv.sha256Hex(sv.canonicalize(req.proposedAction).value))
  }

  lemma AdvanceKeepsBound(r: Running, w: Surroundings, sv: Services, spent: Spending)
    requires Bound(r, sv)
    ensures Bound(r.(stage := Advance(r.call, r.stage, w, sv).0, spent := spent), sv)
  {
    hide ControlTime, Seconds, MaxUses;
  }

  ghost predicate AllBound(w: World, sv: Services) {
    forall j :: 0 <= j < |w.calls| ==> Bound(w.calls[j], sv)
  }

  lemma TakeKeepsBound(w: World, m: Move, sv: Services)
    requires Sound(w) && AllBound(w, sv)
    ensures AllBound(Take(w, m, sv), sv)
  {
    hide Advance, Spent, Bound;
    match m
    case Protocol(_) =>
    case Begin(sidecar, call) => ArrivalBound(call, sidecar, sv);
    case Proceed(j, keys, now, accepts) =>
      if j < |w.calls| {
        var r := w.calls[j];
        var around := Look(w, r.sidecar, keys, now, accepts);
        AdvanceKeepsBound(r, around, sv, Spent(r, Advance(r.call, r.stage, around, sv).0));
      }
  }

  lemma ArrivalBound(call: Call, sidecar: nat, sv: Services)
    ensures Bound(Running(call, sidecar, Arrival, Nothing), sv)
  {
  }

  lemma {:induction false} RunKeepsBound(w: World, moves: seq<Move>, sv: Services)
    requires Sound(w) && AllBound(w, sv)
    ensures AllBound(TakeAll(w, moves, sv), sv)
    decreases |moves|
  {
    hide Bound, AllBound;
    if moves != [] {
      RunKeepsBound(w, moves[..|moves| - 1], sv);
      TakeKeepsBound(TakeAll(w, moves[..|moves| - 1], sv), moves[|moves| - 1], sv);
    }
  }

  /** Under every interleaving a call that has been allowed has a scope and stays within it: with a proposed action, that
      action's attributes pass table, quantity, destination and tool; without one, it had no token. */
  lemma AllowedStaysWithin(w: World, moves: seq<Move>, sv: Services, parse: Bytes -> Option<B.Attributes>, j: nat)
    requires Sound(w) && w.calls == [] && GuardedBy(sv, parse)
    requires j < |TakeAll(w, moves, sv).calls| && TakeAll(w, moves, sv).calls[j].Allowed()
    ensures var call := TakeAll(w, moves, sv).calls[j].call;
            && call.env.Some? && call.req.Some? && call.env.value.scope.Some?
            && var scope, req := call.env.value.scope.value, call.req.value;
            if req.proposedAction == [] then call.tok.None?
            else
              && parse(req.proposedAction).Some?
              && var attrs := parse(req.proposedAction).value;
              && B.TablePasses(scope, attrs) && B.QuantityPasses(scope, attrs)
              && B.DestinationPasses(scope, attrs) && B.ToolPasses(scope, attrs, req)
  {
    hide B.TablePasses, B.QuantityPasses, B.DestinationPasses, B.ToolPasses, TakeAll, Sound;
    RunKeepsBound(w, moves, sv);
  }

  /** The hashed texts of two actions do not collide. */
  ghost predicate NoCollision(sv: Services, a: Bytes, b: Bytes) {
    sv.canonicalize(a).Some? && sv.canonicalize(b).Some?
    && sv.sha256Hex(sv.canonicalize(a).value) == sv.sha256Hex(sv.canonicalize(b).value) ==>
      sv.canonicalize(a) == sv.canonicalize(b)
  }

  /** Any two calls that have been allowed, wherever and whenever, with tokens that carry one action hash propose one JSON
      value, however it is spaced, escaped and ordered; unless their canonical texts collide. */
  lemma TokenBindsAction(w: World, moves: seq<Move>, sv: Services, j: nat, k: nat)
    requires Sound(w) && w.calls == [] && Canonicalizes(sv)
    requires j < |TakeAll(w, moves, sv).calls| && TakeAll(w, moves, sv).calls[j].Allowed()
    requires k < |TakeAll(w, moves, sv).calls| && TakeAll(w, moves, sv).calls[k].Allowed()
    ensures var p, q := TakeAll(w, moves, sv).calls[j].call, TakeAll(w, moves, sv).calls[k].call;
            p.tok.Some? && q.tok.Some? && p.tok.value.actionHash == q.tok.value.actionHash ==>
              && p.req.Some? && q.req.Some?
              && ParseValue(p.req.value.proposedAction).Got? && ParseValue(q.req.value.proposedAction).Got?
              && (NoCollision(sv, p.req.value.proposedAction, q.req.value.proposedAction) ==>
                    ParseValue(p.req.value.proposedAction).value == ParseValue(q.req.value.proposedAction).value)
  {
    hide TakeAll, Sound, ParseValue;
    RunKeepsBound(w, moves, sv);
    var p, q := TakeAll(w, moves, sv).calls[j].call, TakeAll(w, moves, sv).calls[k].call;
    if p.tok.Some? && q.tok.Some? && p.tok.value.actionHash == q.tok.value.actionHash {
      CanonicalIsNormalForm(p.req.value.proposedAction, q.req.value.proposedAction);
    }
  }
}
