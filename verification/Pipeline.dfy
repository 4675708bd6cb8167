/** The evaluation pipeline, cut at every read of state other goroutines change. `Advance` is what happens between two such
    reads; `Verdict` runs them to the end in an unchanging environment, and `Authorized` says outright which calls are
    allowed. */
module Pipelines {
  import opened Basics
  import opened Revocations
  import opened Sidecars
  import opened Ledgers

  const SECOND := 1_000_000_000

  /** Two's-complement addition. */
  function Add64(a: int64, b: int64): int64 {
    (a + b + 0x8000_0000_0000_0000) % 0x1_0000_0000_0000_0000 - 0x8000_0000_0000_0000
  }

  datatype ScopeGrant = ScopeGrant(
    verbs: seq<string>, resourceClasses: seq<string>, audiences: seq<string>, reversibility: seq<string>,
    externality: seq<string>, dataClasses: seq<string>, maxQuantity: Option<int>, destinations: seq<string>,
    toolNames: seq<string>)

  datatype Envelope = Envelope(
    id: Bytes, principalKind: string, scope: Option<ScopeGrant>, expiresAt: int64, signerKeyId: Bytes,
    signature: Bytes, payload: Bytes, autonomyMaxActions: Option<int>)

  datatype Constraints = Constraints(
    method_: string, path: Bytes, toolName: string, payloadHash: string, maxUses: Option<int>)

  datatype Token = Token(
    id: Bytes, envelopeId: Bytes, actionHash: string, signerKeyId: Bytes, expiresAt: int64, decision: string,
    constraints: Option<Constraints>, signature: Bytes, payload: Bytes)

  datatype CheckpointState = Unknown | OpenState | ResolvedAllow | ResolvedDeny | Expired

  datatype Checkpoint = Checkpoint(state: CheckpointState, resolvedByKind: string, expiresAt: int64)

  datatype Policy = Policy(clock: int64, humanRequired: bool)

  datatype Request = Request(
    method_: string, path: Bytes, toolName: string, payloadHash: string, clock: int64, proposedAction: Bytes,
    policy: Option<Policy>, checkpoint: Option<Checkpoint>)
  {
    function EffectiveClock(): int64 {
      if policy.Some? && policy.value.clock > 0 then policy.value.clock else clock
    }

    predicate HumanRequired() {
      policy.Some? && policy.value.humanRequired
    }
  }

  datatype Reason =
    | InvalidEnvelope | InvalidAction | KeyRevoked | SignatureFailure | EnvelopeRevoked | TokenRevoked
    | ControlStateStale | EnvelopeExpired | TokenExpired | ScopeExceeded | BoundaryCrossing | UnknownAttribute
    | BudgetExhausted | TraceabilityFailure | PolicyDenied | HumanRequired | CheckpointOpen | CheckpointTimeout
    | CheckpointDenied | SelfApprovalDenied | EnvelopeBinding

  datatype Decision = Allow | Deny(reason: Reason) | Pause(reason: Reason)

  datatype Call = Call(env: Option<Envelope>, tok: Option<Token>, req: Option<Request>)

  /** What does not change while the process runs: cryptography, canonicalization, the scope guard, the clock skew. */
  datatype Services = Services(
    verify: (Bytes, Bytes, Bytes) -> bool,
    canonicalize: Bytes -> Option<Bytes>,
    sha256Hex: Bytes -> string,
    matchesConstraints: (Option<Constraints>, Request) -> bool,
    checkBoundary: (Option<ScopeGrant>, Request) -> Option<Reason>,
    skew: int64)

  /** What an evaluation finds when it looks: everything here may be different at its next step. */
  datatype Surroundings = Surroundings(
    control: Option<Control>, deny: Denylist, keys: map<Bytes, Bytes>, now: int, recorderAccepts: bool, counts: Counts)

  datatype Stage =
    | Arrival
    | EnvelopeKey
    | EnvelopeKeyRevocation(key: Bytes)
    | EnvelopeRevocation
    | TokenKey(now: int64)
    | TokenKeyRevocation(key: Bytes, now: int64)
    | TokenRevocation(now: int64)
    | SpendToken
    | SpendAutonomy
    | Record
    | Finished(decision: Decision)

  function StageRank(s: Stage): nat {
    match s
    case Arrival => 0
    case EnvelopeKey => 1
    case EnvelopeKeyRevocation(_) => 2
    case EnvelopeRevocation => 3
    case TokenKey(_) => 4
    case TokenKeyRevocation(_, _) => 5
    case TokenRevocation(_) => 6
    case SpendToken => 7
    case SpendAutonomy => 7
    case Record => 8
    case Finished(_) => 9
  }

  /** The instant at which freshness is judged: the request's clock when it has one. */
  function ControlTime(req: Request, now: int): int {
    if req.EffectiveClock() > 0 then req.EffectiveClock() * SECOND else now
  }

  /** The instant, in seconds, at which expiry is judged. */
  function Seconds(req: Request, now: int): int64 {
    if req.EffectiveClock() > 0 then req.EffectiveClock() else Clamp(now / SECOND)
  }

  function Clamp(x: int): int64 {
    if x < -0x8000_0000_0000_0000 then -0x8000_0000_0000_0000
    else if x >= 0x8000_0000_0000_0000 then 0x7fff_ffff_ffff_ffff
    else x
  }

  /** The checkpoint states that stop a call before any credential is looked at. */
  function PauseFirst(req: Request): Option<Decision> {
    if req.checkpoint.None? then None
    else
      var cp := req.checkpoint.value;
      match cp.state
      case OpenState =>
        if cp.expiresAt > 0 && req.EffectiveClock() > cp.expiresAt then Some(Deny(CheckpointTimeout))
        else Some(Pause(CheckpointOpen))
      case ResolvedDeny => Some(Deny(CheckpointDenied))
      case Expired => Some(Deny(CheckpointTimeout))
      case ResolvedAllow => if cp.resolvedByKind == "system" then Some(Deny(SelfApprovalDenied)) else None
      case Unknown => None
  }

  /** Expiry of the envelope and of a checkpoint that did not stop the call earlier; then the choice of path. */
  function ChoosePath(env: Envelope, tok: Option<Token>, req: Request, sv: Services, now: int64): Stage {
    if now > Add64(env.expiresAt, sv.skew) then Finished(Deny(EnvelopeExpired))
    else if req.checkpoint.Some? && req.checkpoint.value.expiresAt > 0
            && now > Add64(req.checkpoint.value.expiresAt, sv.skew) then Finished(Deny(CheckpointTimeout))
    else if tok.Some? then TokenKey(now)
    else if req.HumanRequired() then Finished(Pause(HumanRequired))
    else if env.principalKind != "system" then Finished(Deny(PolicyDenied))
    else if env.autonomyMaxActions.None? then Finished(Pause(HumanRequired))
    else if env.autonomyMaxActions.value <= 0 then Finished(Deny(BudgetExhausted))
    else
      var crossing := sv.checkBoundary(env.scope, req);
      if crossing.Some? then Finished(Deny(crossing.value)) else SpendAutonomy
  }

  /** Everything about a token that is checked after its revocation and before its budget. */
  function CheckToken(env: Envelope, tok: Token, req: Request, sv: Services, now: int64): Stage {
    if now > Add64(tok.expiresAt, sv.skew) then Finished(Deny(TokenExpired))
    else if tok.envelopeId != env.id then Finished(Deny(EnvelopeBinding))
    else if tok.decision == "DENY" then Finished(Deny(PolicyDenied))
    else if tok.decision == "CHECKPOINT" then Finished(Pause(HumanRequired))
    else if tok.decision != "ALLOW" then Finished(Deny(PolicyDenied))
    else if req.proposedAction == [] then Finished(Deny(InvalidAction))
    else
      var canonical := sv.canonicalize(req.proposedAction);
      if canonical.None? then Finished(Deny(InvalidAction))
      else if tok.actionHash != sv.sha256Hex(canonical.value) then Finished(Deny(SignatureFailure))
      else if !sv.matchesConstraints(tok.constraints, req) then Finished(Deny(ScopeExceeded))
      else
        var crossing := sv.checkBoundary(env.scope, req);
        if crossing.Some? then Finished(Deny(crossing.value)) else SpendToken
  }

  function MaxUses(tok: Token): int {
    if tok.constraints.Some? && tok.constraints.value.maxUses.Some? then tok.constraints.value.maxUses.value else 1
  }

  /** From one read of shared state up to the next, with the budget counts it leaves. */
  function Advance(call: Call, stage: Stage, w: Surroundings, sv: Services): (Stage, Counts) {
    if stage.Finished? then (stage, w.counts)
    else if call.env.None? then (Finished(Deny(InvalidEnvelope)), w.counts)
    else if call.req.None? then (Finished(Deny(InvalidAction)), w.counts)
    else
      var env, req := call.env.value, call.req.value;
      match stage
      case Arrival =>
        if w.control.Some? && !w.control.value.IsFresh(ControlTime(req, w.now)) then
          (Finished(Deny(ControlStateStale)), w.counts)
        else (EnvelopeKey, w.counts)
      case EnvelopeKey =>
        if PauseFirst(req).Some? then (Finished(PauseFirst(req).value), w.counts)
        else if env.signerKeyId !in w.keys then (Finished(Deny(SignatureFailure)), w.counts)
        else (EnvelopeKeyRevocation(w.keys[env.signerKeyId]), w.counts)
      case EnvelopeKeyRevocation(key) =>
        if env.signerKeyId in w.deny.keys then (Finished(Deny(KeyRevoked)), w.counts)
        else if !sv.verify(key, env.payload, env.signature) then (Finished(Deny(SignatureFailure)), w.counts)
        else (EnvelopeRevocation, w.counts)
      case EnvelopeRevocation =>
        if env.id in w.deny.envelopes then (Finished(Deny(EnvelopeRevoked)), w.counts)
        else (ChoosePath(env, call.tok, req, sv, Seconds(req, w.now)), w.counts)
      case TokenKey(now) =>
        if call.tok.None? || call.tok.value.signerKeyId !in w.keys then (Finished(Deny(SignatureFailure)), w.counts)
        else (TokenKeyRevocation(w.keys[call.tok.value.signerKeyId], now), w.counts)
      case TokenKeyRevocation(key, now) =>
        if call.tok.None? || call.tok.value.signerKeyId in w.deny.keys then (Finished(Deny(KeyRevoked)), w.counts)
        else if !sv.verify(key, call.tok.value.payload, call.tok.value.signature) then
          (Finished(Deny(SignatureFailure)), w.counts)
        else (TokenRevocation(now), w.counts)
      case TokenRevocation(now) =>
        if call.tok.None? || call.tok.value.id in w.deny.tokens then (Finished(Deny(TokenRevoked)), w.counts)
        else (CheckToken(env, call.tok.value, req, sv, now), w.counts)
      case SpendToken =>
        if call.tok.None? then (Finished(Deny(BudgetExhausted)), w.counts)
        else
          var (granted, counts) := w.counts.SpendToken(call.tok.value.id, MaxUses(call.tok.value));
          (if granted then Record else Finished(Deny(BudgetExhausted)), counts)
      case SpendAutonomy =>
        if env.autonomyMaxActions.None? then (Finished(Deny(BudgetExhausted)), w.counts)
        else
          var (granted, counts) := w.counts.SpendAutonomy(env.id, env.autonomyMaxActions.value);
          (if granted then Record else Finished(Deny(BudgetExhausted)), counts)
      case Record =>
        (Finished(if w.recorderAccepts then Allow else Deny(TraceabilityFailure)), w.counts)
  }

  lemma AdvanceGoesOn(call: Call, stage: Stage, w: Surroundings, sv: Services)
    requires !stage.Finished?
    ensures StageRank(stage) < StageRank(Advance(call, stage, w, sv).0)
  {
  }

  /** The decision and the counts an evaluation ends with when nobody else interferes. */
  function Verdict(call: Call, stage: Stage, w: Surroundings, sv: Services): (Decision, Counts)
    decreases 9 - StageRank(stage)
  {
    if stage.Finished? then (stage.decision, w.counts)
    else
      hide Advance;
      AdvanceGoesOn(call, stage, w, sv);
      var (next, counts) := Advance(call, stage, w, sv);
      Verdict(call, next, w.(counts := counts), sv)
  }

  lemma VerdictUnfolds(call: Call, stage: Stage, w: Surroundings, sv: Services)
    ensures var (next, counts) := Advance(call, stage, w, sv);
            && Verdict(call, stage, w, sv) == Verdict(call, next, w.(counts := counts), sv)
            && (next.Finished? ==> Verdict(call, stage, w, sv) == (next.decision, counts))
  {
  }

  lemma ArrivalOnward(call: Call, w: Surroundings, sv: Services)
    ensures call.env.None? ==> Verdict(call, Arrival, w, sv) == (Deny(InvalidEnvelope), w.counts)
    ensures call.env.Some? && call.req.None? ==> Verdict(call, Arrival, w, sv) == (Deny(InvalidAction), w.counts)
    ensures call.env.Some? && call.req.Some? ==>
              Verdict(call, Arrival, w, sv) ==
              if w.control.Some? && !w.control.value.IsFresh(ControlTime(call.req.value, w.now)) then
                (Deny(ControlStateStale), w.counts)
              else Verdict(call, EnvelopeKey, w, sv)
  {
    VerdictUnfolds(call, Arrival, w, sv);
  }

  lemma EnvelopeKeyOnward(call: Call, w: Surroundings, sv: Services)
    requires call.env.Some? && call.req.Some?
    ensures Verdict(call, EnvelopeKey, w, sv) ==
            if PauseFirst(call.req.value).Some? then (PauseFirst(call.req.value).value, w.counts)
            else if call.env.value.signerKeyId !in w.keys then (Deny(SignatureFailure), w.counts)
            else Verdict(call, EnvelopeKeyRevocation(w.keys[call.env.value.signerKeyId]), w, sv)
  {
    hide PauseFirst;
    VerdictUnfolds(call, EnvelopeKey, w, sv);
  }

  lemma KeyRevocationOnward(call: Call, key: Bytes, w: Surroundings, sv: Services)
    requires call.env.Some? && call.req.Some?
    ensures Verdict(call, EnvelopeKeyRevocation(key), w, sv) ==
            if call.env.value.signerKeyId in w.deny.keys then (Deny(KeyRevoked), w.counts)
            else if !sv.verify(key, call.env.value.payload, call.env.value.signature) then
              (Deny(SignatureFailure), w.counts)
            else Verdict(call, EnvelopeRevocation, w, sv)
  {
    VerdictUnfolds(call, EnvelopeKeyRevocation(key), w, sv);
  }

  // ------------------------------------------------------------------ what is allowed

  /** Everything about an envelope but what it grants. */
  predicate EnvelopeVouched(env: Envelope, req: Request, w: Surroundings, sv: Services) {
    && env.signerKeyId in w.keys && env.signerKeyId !in w.deny.keys
    && sv.verify(w.keys[env.signerKeyId], env.payload, env.signature)
    && env.id !in w.deny.envelopes
    && Seconds(req, w.now) <= Add64(env.expiresAt, sv.skew)
  }

  predicate EnvelopeInOrder(env: Envelope, req: Request, w: Surroundings, sv: Services) {
    EnvelopeVouched(env, req, w, sv) && sv.checkBoundary(env.scope, req).None?
  }

  /** A checkpoint stands in the way unless a human has resolved it in favour, or its state says nothing, and it has not
      expired. */
  predicate CheckpointInOrder(req: Request, w: Surroundings, sv: Services) {
    req.checkpoint.None? ||
    var cp := req.checkpoint.value;
    && (cp.state == Unknown || (cp.state == ResolvedAllow && cp.resolvedByKind != "system"))
    && (cp.expiresAt <= 0 || Seconds(req, w.now) <= Add64(cp.expiresAt, sv.skew))
  }

  predicate TokenInOrder(env: Envelope, tok: Token, req: Request, w: Surroundings, sv: Services) {
    && tok.signerKeyId in w.keys && tok.signerKeyId !in w.deny.keys
    && sv.verify(w.keys[tok.signerKeyId], tok.payload, tok.signature)
    && tok.id !in w.deny.tokens
    && Seconds(req, w.now) <= Add64(tok.expiresAt, sv.skew)
    && tok.envelopeId == env.id
    && tok.decision == "ALLOW"
    && req.proposedAction != []
    && sv.canonicalize(req.proposedAction).Some?
    && tok.actionHash == sv.sha256Hex(sv.canonicalize(req.proposedAction).value)
    && sv.matchesConstraints(tok.constraints, req)
  }

  predicate MayActAlone(env: Envelope, req: Request) {
    !req.HumanRequired() && env.principalKind == "system" && env.autonomyMaxActions.Some?
  }

  /** Everything but budget and provenance is in order. */
  predicate Entitled(call: Call, w: Surroundings, sv: Services) {
    && call.env.Some? && call.req.Some?
    && var env, req := call.env.value, call.req.value;
    && (w.control.Some? ==> w.control.value.IsFresh(ControlTime(req, w.now)))
    && CheckpointInOrder(req, w, sv)
    && EnvelopeInOrder(env, req, w, sv)
    && if call.tok.Some? then TokenInOrder(env, call.tok.value, req, w, sv) else MayActAlone(env, req)
  }

  /** The use the call asks for and what the counts are after it. */
  function Use(call: Call, counts: Counts): (bool, Counts)
    requires call.env.Some?
    requires call.tok.None? ==> call.env.value.autonomyMaxActions.Some?
  {
    if call.tok.Some? then counts.SpendToken(call.tok.value.id, MaxUses(call.tok.value))
    else counts.SpendAutonomy(call.env.value.id, call.env.value.autonomyMaxActions.value)
  }

  predicate Authorized(call: Call, w: Surroundings, sv: Services) {
    Entitled(call, w, sv) && Use(call, w.counts).0 && w.recorderAccepts
  }

  /** The cascade of early returns allows a call exactly when every single condition holds, spends budget exactly for the
      calls that are entitled and within it, and spends nothing on any other, whatever the order of the checks. */
  lemma AllowsExactlyTheAuthorized(call: Call, w: Surroundings, sv: Services)
    ensures Verdict(call, Arrival, w, sv).0 == Allow <==> Authorized(call, w, sv)
    ensures Verdict(call, Arrival, w, sv).1 == if Entitled(call, w, sv) then Use(call, w.counts).1 else w.counts
  {
    hide Verdict, Advance, TokenInOrder, MayActAlone, Use;
    ArrivalOnward(call, w, sv);
    if call.env.Some? && call.req.Some? {
      EnvelopeKeyOnward(call, w, sv);
      if call.env.value.signerKeyId in w.keys {
        KeyRevocationOnward(call, w.keys[call.env.value.signerKeyId], w, sv);
      }
      EnvelopeRevocationOnward(call, w, sv);
    }
  }

  lemma EnvelopeRevocationOnward(call: Call, w: Surroundings, sv: Services)
    requires call.env.Some? && call.req.Some?
    ensures var env, req := call.env.value, call.req.value;
            var onward :=
              && env.id !in w.deny.envelopes
              && Seconds(req, w.now) <= Add64(env.expiresAt, sv.skew)
              && sv.checkBoundary(env.scope, req).None?
              && (req.checkpoint.Some? && req.checkpoint.value.expiresAt > 0 ==>
                    Seconds(req, w.now) <= Add64(req.checkpoint.value.expiresAt, sv.skew))
              && (if call.tok.Some? then TokenInOrder(env, call.tok.value, req, w, sv) else MayActAlone(env, req));
            var (decision, counts) := Verdict(call, EnvelopeRevocation, w, sv);
            && (decision == Allow <==> onward && Use(call, w.counts).0 && w.recorderAccepts)
            && counts == if onward then Use(call, w.counts).1 else w.counts
  {
    var s4 := Advance(call, EnvelopeRevocation, w, sv).0;
    if s4.TokenKey? {
      TokenOnward(call, s4.now, w, sv);
    } else if s4.SpendAutonomy? {
      SpendOnward(call, s4, w, sv);
    }
  }

  lemma TokenOnward(call: Call, now: int64, w: Surroundings, sv: Services)
    requires call.env.Some? && call.req.Some? && call.tok.Some?
    requires now == Seconds(call.req.value, w.now)
    ensures var env, req := call.env.value, call.req.value;
            var onward := TokenInOrder(env, call.tok.value, req, w, sv) && sv.checkBoundary(env.scope, req).None?;
            var (decision, counts) := Verdict(call, TokenKey(now), w, sv);
            && (decision == Allow <==> onward && Use(call, w.counts).0 && w.recorderAccepts)
            && counts == if onward then Use(call, w.counts).1 else w.counts
  {
    var s5 := Advance(call, TokenKey(now), w, sv).0;
    assert Verdict(call, TokenKey(now), w, sv) == Verdict(call, s5, w, sv);
    if s5.TokenKeyRevocation? {
      var s6 := Advance(call, s5, w, sv).0;
      assert Verdict(call, s5, w, sv) == Verdict(call, s6, w, sv);
      if s6.TokenRevocation? {
        var s7 := Advance(call, s6, w, sv).0;
        assert Verdict(call, s6, w, sv) == Verdict(call, s7, w, sv);
        if s7.SpendToken? {
          SpendOnward(call, s7, w, sv);
        }
      }
    }
  }

  lemma SpendOnward(call: Call, stage: Stage, w: Surroundings, sv: Services)
    requires call.env.Some? && call.req.Some?
    requires (stage.SpendToken? && call.tok.Some?) ||
             (stage.SpendAutonomy? && call.tok.None? && call.env.value.autonomyMaxActions.Some?)
    ensures Verdict(call, stage, w, sv).0 ==
            if !Use(call, w.counts).0 then Deny(BudgetExhausted)
            else if !w.recorderAccepts then Deny(TraceabilityFailure) else Allow
    ensures Verdict(call, stage, w, sv).1 == Use(call, w.counts).1
  {
    hide ChoosePath, CheckToken, PauseFirst, MaxUses;
    var (next, counts) := Advance(call, stage, w, sv);
    if next.Record? {
      var last := Advance(call, next, w.(counts := counts), sv).0;
    }
  }

  // ------------------------------------------------------------------ every answer

  /** Sums that fit are sums; the others are off by one turn. */
  lemma Add64Wraps(a: int64, b: int64)
    ensures -0x8000_0000_0000_0000 <= a + b < 0x8000_0000_0000_0000 ==> Add64(a, b) == a + b
    ensures a + b >= 0x8000_0000_0000_0000 ==> Add64(a, b) == a + b - 0x1_0000_0000_0000_0000
    ensures a + b < -0x8000_0000_0000_0000 ==> Add64(a, b) == a + b + 0x1_0000_0000_0000_0000
  {
  }

  /** By the call's own clock, or the real one if it has none, an instant in seconds has passed. */
  predicate Past(instant: int64, req: Request, w: Surroundings) {
    var clock := if req.policy.Some? && req.policy.value.clock > 0 then req.policy.value.clock else req.clock;
    (if clock > 0 then clock else Clamp(w.now / 1_000_000_000)) > instant
  }

  /** The answer to a call with a token whose envelope and checkpoint are in order: the first line that applies. */
  function TokenAnswer(env: Envelope, tok: Token, req: Request, w: Surroundings, sv: Services): Decision {
    var limit := if tok.constraints.Some? && tok.constraints.value.maxUses.Some?
                 then tok.constraints.value.maxUses.value else 1;
    if tok.signerKeyId !in w.keys then Deny(SignatureFailure)
    else if tok.signerKeyId in w.deny.keys then Deny(KeyRevoked)
    else if !sv.verify(w.keys[tok.signerKeyId], tok.payload, tok.signature) then Deny(SignatureFailure)
    else if tok.id in w.deny.tokens then Deny(TokenRevoked)
    else if Past(Add64(tok.expiresAt, sv.skew), req, w) then Deny(TokenExpired)
    else if tok.envelopeId != env.id then Deny(EnvelopeBinding)
    else if tok.decision == "CHECKPOINT" then Pause(HumanRequired)
    else if tok.decision != "ALLOW" then Deny(PolicyDenied)
    else if req.proposedAction == [] || sv.canonicalize(req.proposedAction).None? then Deny(InvalidAction)
    else if sv.sha256Hex(sv.canonicalize(req.proposedAction).value) != tok.actionHash then Deny(SignatureFailure)
    else if !sv.matchesConstraints(tok.constraints, req) then Deny(ScopeExceeded)
    else if sv.checkBoundary(env.scope, req).Some? then Deny(sv.checkBoundary(env.scope, req).value)
    else if tok.id == [] || CountOf(w.counts.tokens, tok.id) >= limit || limit <= 0 then Deny(BudgetExhausted)
    else if !w.recorderAccepts then Deny(TraceabilityFailure)
    else Allow
  }

  /** The same without a token. */
  function AloneAnswer(env: Envelope, req: Request, w: Surroundings, sv: Services): Decision {
    if req.policy.Some? && req.policy.value.humanRequired then Pause(HumanRequired)
    else if env.principalKind != "system" then Deny(PolicyDenied)
    else if env.autonomyMaxActions.None? then Pause(HumanRequired)
    else if env.autonomyMaxActions.value <= 0 then Deny(BudgetExhausted)
    else if sv.checkBoundary(env.scope, req).Some? then Deny(sv.checkBoundary(env.scope, req).value)
    else if env.id == [] || CountOf(w.counts.autonomy, env.id) >= env.autonomyMaxActions.value then Deny(BudgetExhausted)
    else if !w.recorderAccepts then Deny(TraceabilityFailure)
    else Allow
  }

  /** The answer to any call by everything it finds, in one table. */
  function Answer(env: Envelope, tok: Option<Token>, req: Request, w: Surroundings, sv: Services): Decision {
    var clock := if req.policy.Some? && req.policy.value.clock > 0 then req.policy.value.clock else req.clock;
    var instant := if clock > 0 then clock * 1_000_000_000 else w.now;
    if w.control.Some? && (w.control.value.unsafe || w.control.value.lastUpdate.None?
                           || w.control.value.lastUpdate.value + w.control.value.maxStaleness < instant)
    then Deny(ControlStateStale)
    else if req.checkpoint.Some? && req.checkpoint.value.state == OpenState
            && 0 < req.checkpoint.value.expiresAt < clock then Deny(CheckpointTimeout)
    else if req.checkpoint.Some? && req.checkpoint.value.state == OpenState then Pause(CheckpointOpen)
    else if req.checkpoint.Some? && req.checkpoint.value.state == ResolvedDeny then Deny(CheckpointDenied)
    else if req.checkpoint.Some? && req.checkpoint.value.state == Expired then Deny(CheckpointTimeout)
    else if req.checkpoint.Some? && req.checkpoint.value.state == ResolvedAllow
            && req.checkpoint.value.resolvedByKind == "system" then Deny(SelfApprovalDenied)
    else if env.signerKeyId !in w.keys then Deny(SignatureFailure)
    else if env.signerKeyId in w.deny.keys then Deny(KeyRevoked)
    else if !sv.verify(w.keys[env.signerKeyId], env.payload, env.signature) then Deny(SignatureFailure)
    else if env.id in w.deny.envelopes then Deny(EnvelopeRevoked)
    else if Past(Add64(env.expiresAt, sv.skew), req, w) then Deny(EnvelopeExpired)
    else if req.checkpoint.Some? && req.checkpoint.value.expiresAt > 0
            && Past(Add64(req.checkpoint.value.expiresAt, sv.skew), req, w) then Deny(CheckpointTimeout)
    else if tok.Some? then TokenAnswer(env, tok.value, req, w, sv)
    else AloneAnswer(env, req, w, sv)
  }

  lemma TokenAnswers(call: Call, w: Surroundings, sv: Services)
    requires call.env.Some? && call.req.Some? && call.tok.Some?
    ensures Verdict(call, TokenKey(Seconds(call.req.value, w.now)), w, sv).0
            == TokenAnswer(call.env.value, call.tok.value, call.req.value, w, sv)
  {
    hide Verdict, ChoosePath, PauseFirst;
    var s4 := TokenKey(Seconds(call.req.value, w.now));
    var s5 := Advance(call, s4, w, sv).0;
    VerdictUnfolds(call, s4, w, sv);
    if s5.TokenKeyRevocation? {
      var s6 := Advance(call, s5, w, sv).0;
      VerdictUnfolds(call, s5, w, sv);
      if s6.TokenRevocation? {
        var s7 := Advance(call, s6, w, sv).0;
        VerdictUnfolds(call, s6, w, sv);
        if s7.SpendToken? {
          SpendOnward(call, s7, w, sv);
        }
      }
    }
  }

  lemma PathAnswers(call: Call, w: Surroundings, sv: Services)
    requires call.env.Some? && call.req.Some?
    ensures var env, req := call.env.value, call.req.value;
            Verdict(call, EnvelopeRevocation, w, sv).0 ==
            if env.id in w.deny.envelopes then Deny(EnvelopeRevoked)
            else if Past(Add64(env.expiresAt, sv.skew), req, w) then Deny(EnvelopeExpired)
            else if req.checkpoint.Some? && req.checkpoint.value.expiresAt > 0
                    && Past(Add64(req.checkpoint.value.expiresAt, sv.skew), req, w) then Deny(CheckpointTimeout)
            else if call.tok.Some? then TokenAnswer(env, call.tok.value, req, w, sv)
            else AloneAnswer(env, req, w, sv)
  {
    hide TokenAnswer, PauseFirst, CheckToken;
    var next := Advance(call, EnvelopeRevocation, w, sv).0;
    VerdictUnfolds(call, EnvelopeRevocation, w, sv);
    if next.TokenKey? {
      TokenAnswers(call, w, sv);
    } else if next.SpendAutonomy? {
      SpendOnward(call, next, w, sv);
    }
  }

  /** Every answer the cascade gives, at every stage and for every call, is the one the table gives. */
  lemma AnswersByTheTable(call: Call, w: Surroundings, sv: Services)
    requires call.env.Some? && call.req.Some?
    requires w.control.Some? ==> w.control.value.maxStaleness >= 0
    ensures Verdict(call, Arrival, w, sv).0 == Answer(call.env.value, call.tok, call.req.value, w, sv)
  {
    hide Verdict, Advance, TokenAnswer, AloneAnswer;
    ArrivalOnward(call, w, sv);
    EnvelopeKeyOnward(call, w, sv);
    if call.env.value.signerKeyId in w.keys {
      KeyRevocationOnward(call, w.keys[call.env.value.signerKeyId], w, sv);
    }
    PathAnswers(call, w, sv);
  }
}
