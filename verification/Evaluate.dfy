/** The pipeline object: the cascade of early returns over the live store, freshness state and ledger. */
module Evaluation {
  import opened Basics
  import opened Subscribers
  import opened Ledgers
  import opened Pipelines

  class Pipeline {
    const revocation: RevocationStoreAdapter
    const ledger: Ledger
    const controlState: ControlState?
    const services: Services
    var keys: map<Bytes, Bytes>

    constructor (revocation: RevocationStoreAdapter, ledger: Ledger, controlState: ControlState?, services: Services,
                 keys: map<Bytes, Bytes>)
      ensures this.revocation == revocation && this.ledger == ledger && this.controlState == controlState
      ensures this.services == services && this.keys == keys
    {
      this.revocation, this.ledger, this.controlState := revocation, ledger, controlState;
      this.services, this.keys := services, keys;
    }

    ghost function Around(now: int, recorderAccepts: bool): Surroundings
      reads this, revocation, revocation.store, ledger, controlState
    {
      Surroundings(if controlState == null then None else Some(controlState.View()), revocation.View(), keys, now,
                   recorderAccepts, ledger.View())
    }

    /** Decides one call. `recorderAccepts` is what the provenance writer will answer. */
    method Evaluate(call: Call, now: int, recorderAccepts: bool) returns (decision: Decision)
      modifies ledger
      ensures decision == Allow <==> Authorized(call, old(Around(now, recorderAccepts)), services)
      ensures ledger.View() ==
              if Entitled(call, old(Around(now, recorderAccepts)), services) then Use(call, old(ledger.View())).1
              else old(ledger.View())
      ensures (decision, ledger.View()) == Verdict(call, Arrival, old(Around(now, recorderAccepts)), services)
    {
      ghost var w := Around(now, recorderAccepts);
      AllowsExactlyTheAuthorized(call, w, services);
      hide Authorized, Entitled, Verdict, Use, PauseFirst, InMemoryRevocationStore.View, ControlState.View, Ledger.View;
      ArrivalOnward(call, w, services);
      if call.env.None? {
        return Deny(InvalidEnvelope);
      }
      if call.req.None? {
        return Deny(InvalidAction);
      }
      var env, req := call.env.value, call.req.value;
      EnvelopeKeyOnward(call, w, services);

      if controlState != null {
        var controlNow := req.EffectiveClock();
        var isFresh := controlState.IsFresh(if controlNow > 0 then controlNow * SECOND else now);
        if !isFresh {
          return Deny(ControlStateStale);
        }
      }

      var stop := PauseForCheckpoint(req);
      if stop.Some? {
        return stop.value;
      }

      if env.signerKeyId !in keys {
        return Deny(SignatureFailure);
      }
      var envKey := keys[env.signerKeyId];
      KeyRevocationOnward(call, envKey, w, services);
      var revoked := revocation.store.IsKeyRevoked(env.signerKeyId);
      if revoked {
        return Deny(KeyRevoked);
      }
      if !services.verify(envKey, env.payload, env.signature) {
        return Deny(SignatureFailure);
      }
      decision := EvaluateSigned(call, env, req, now, recorderAccepts);
    }

    /** The first look at a checkpoint. */
    method PauseForCheckpoint(req: Request) returns (stop: Option<Decision>)
      ensures stop == PauseFirst(req)
    {
      if req.checkpoint.Some? {
        var cp := req.checkpoint.value;
        match cp.state
        case OpenState =>
          if cp.expiresAt > 0 && req.EffectiveClock() > cp.expiresAt {
            return Some(Deny(CheckpointTimeout));
          }
          return Some(Pause(CheckpointOpen));
        case ResolvedDeny =>
          return Some(Deny(CheckpointDenied));
        case Expired =>
          return Some(Deny(CheckpointTimeout));
        case ResolvedAllow =>
          if cp.resolvedByKind == "system" {
            return Some(Deny(SelfApprovalDenied));
          }
        case Unknown =>
      }
      return None;
    }

    /** The rest of the cascade, once the envelope's signature has been verified. */
    method EvaluateSigned(call: Call, env: Envelope, req: Request, now: int, recorderAccepts: bool)
      returns (decision: Decision)
      requires call.env == Some(env) && call.req == Some(req) && PauseFirst(req).None?
      modifies ledger
      ensures (decision, ledger.View()) ==
              Verdict(call, EnvelopeRevocation, old(Around(now, recorderAccepts)), services)
    {
      hide InMemoryRevocationStore.View, ControlState.View, PauseFirst, MaxUses, CheckToken;
      ghost var w := Around(now, recorderAccepts);
      VerdictUnfolds(call, EnvelopeRevocation, w, services);
      var revoked := revocation.store.IsEnvelopeRevoked(env.id);
      if revoked {
        return Deny(EnvelopeRevoked);
      }
      var seconds: int64 := req.EffectiveClock();
      if seconds <= 0 {
        seconds := Clamp(now / SECOND);
      }
      if seconds > Add64(env.expiresAt, services.skew) {
        return Deny(EnvelopeExpired);
      }
      if req.checkpoint.Some? {
        var cp := req.checkpoint.value;
        if cp.expiresAt > 0 && seconds > Add64(cp.expiresAt, services.skew) {
          return Deny(CheckpointTimeout);
        }
      }
      if call.tok.Some? {
        decision := EvaluateToken(call, env, call.tok.value, req, seconds, now, recorderAccepts);
        return;
      }
      if req.HumanRequired() {
        return Pause(HumanRequired);
      }
      if env.principalKind != "system" {
        return Deny(PolicyDenied);
      }
      if env.autonomyMaxActions.None? {
        return Pause(HumanRequired);
      }
      if env.autonomyMaxActions.value <= 0 {
        return Deny(BudgetExhausted);
      }
      var crossing := services.checkBoundary(env.scope, req);
      if crossing.Some? {
        return Deny(crossing.value);
      }
      decision := SpendAutonomousAction(call, env, now, recorderAccepts);
    }

    /** The two effects of an autonomous call: one action, then its record. */
    method SpendAutonomousAction(call: Call, env: Envelope, now: int, recorderAccepts: bool) returns (decision: Decision)
      requires call.env == Some(env) && call.req.Some? && env.autonomyMaxActions.Some?
      modifies ledger
      ensures (decision, ledger.View()) ==
              Verdict(call, SpendAutonomy, old(Around(now, recorderAccepts)), services)
    {
      var granted := ledger.ConsumeAutonomy(env.id, env.autonomyMaxActions.value);
      if !granted {
        return Deny(BudgetExhausted);
      }
      if !recorderAccepts {
        return Deny(TraceabilityFailure);
      }
      return Allow;
    }

    /** What a token says, once its signature and revocation have been settled. */
    method CheckTokenTerms(env: Envelope, tok: Token, req: Request, seconds: int64) returns (stop: Option<Decision>)
      ensures CheckToken(env, tok, req, services, seconds) ==
              if stop.Some? then Finished(stop.value) else SpendToken
    {
      if seconds > Add64(tok.expiresAt, services.skew) {
        return Some(Deny(TokenExpired));
      }
      if tok.envelopeId != env.id {
        return Some(Deny(EnvelopeBinding));
      }
      if tok.decision == "DENY" {
        return Some(Deny(PolicyDenied));
      } else if tok.decision == "CHECKPOINT" {
        return Some(Pause(HumanRequired));
      } else if tok.decision != "ALLOW" {
        return Some(Deny(PolicyDenied));
      }
      if |req.proposedAction| == 0 {
        return Some(Deny(InvalidAction));
      }
      var canonical := services.canonicalize(req.proposedAction);
      if canonical.None? {
        return Some(Deny(InvalidAction));
      }
      if tok.actionHash != services.sha256Hex(canonical.value) {
        return Some(Deny(SignatureFailure));
      }
      if !services.matchesConstraints(tok.constraints, req) {
        return Some(Deny(ScopeExceeded));
      }
      var crossing := services.checkBoundary(env.scope, req);
      if crossing.Some? {
        return Some(Deny(crossing.value));
      }
      return None;
    }

    method EvaluateToken(call: Call, env: Envelope, tok: Token, req: Request, seconds: int64, now: int,
                         recorderAccepts: bool)
      returns (decision: Decision)
      requires call == Call(Some(env), Some(tok), Some(req))
      modifies ledger
      ensures (decision, ledger.View()) ==
              Verdict(call, TokenKey(seconds), old(Around(now, recorderAccepts)), services)
    {
      hide InMemoryRevocationStore.View, ControlState.View, PauseFirst, MaxUses, CheckToken;
      ghost var w := Around(now, recorderAccepts);
      VerdictUnfolds(call, TokenKey(seconds), w, services);
      if tok.signerKeyId !in keys {
        return Deny(SignatureFailure);
      }
      var tokKey := keys[tok.signerKeyId];
      var revoked := revocation.store.IsKeyRevoked(tok.signerKeyId);
      VerdictUnfolds(call, TokenKeyRevocation(tokKey, seconds), w, services);
      if revoked {
        return Deny(KeyRevoked);
      }
      if !services.verify(tokKey, tok.payload, tok.signature) {
        return Deny(SignatureFailure);
      }
      VerdictUnfolds(call, TokenRevocation(seconds), w, services);
      revoked := revocation.store.IsTokenRevoked(tok.id);
      if revoked {
        return Deny(TokenRevoked);
      }
      var stop := CheckTokenTerms(env, tok, req, seconds);
      if stop.Some? {
        return stop.value;
      }
      decision := SpendTokenUse(call, tok, now, recorderAccepts);
    }

    /** The two effects of a token-bound call: one use, then its record. A use stays spent when the record fails. */
    method SpendTokenUse(call: Call, tok: Token, now: int, recorderAccepts: bool) returns (decision: Decision)
      requires call.env.Some? && call.tok == Some(tok) && call.req.Some?
      modifies ledger
      ensures (decision, ledger.View()) ==
              Verdict(call, SpendToken, old(Around(now, recorderAccepts)), services)
    {
      var maxUses := 1;
      if tok.constraints.Some? && tok.constraints.value.maxUses.Some? {
        maxUses := tok.constraints.value.maxUses.value;
      }
      var granted := ledger.ConsumeToken(tok.id, maxUses);
      if !granted {
        return Deny(BudgetExhausted);
      }
      if !recorderAccepts {
        return Deny(TraceabilityFailure);
      }
      return Allow;
    }
  }
}
