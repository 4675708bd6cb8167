/** The boundary matrix, its index, the fold over a scope's values, and the scope check of a request. */
module Boundary {
  import opened Basics
  import P = Pipelines

  datatype Attribute = Audience | Reversibility | Externality | DataClass | Verb | ResourceClass

  datatype BoundaryAction = Allow | Checkpoint | Reauthorize | Deny

  datatype Key = Key(attribute: Attribute, from: string, to: string)

  datatype Row = Row(key: Key, action: BoundaryAction)

  const DEFAULT_MATRIX: seq<Row> := [
    Row(Key(Audience, "internal", "external"), Reauthorize),
    Row(Key(Audience, "external", "internal"), Allow),
    Row(Key(Reversibility, "reversible", "irreversible"), Reauthorize),
    Row(Key(Reversibility, "irreversible", "reversible"), Allow),
    Row(Key(Externality, "internal", "external"), Reauthorize),
    Row(Key(Externality, "external", "internal"), Allow),
    Row(Key(DataClass, "public", "internal"), Allow),
    Row(Key(DataClass, "internal", "confidential"), Reauthorize),
    Row(Key(DataClass, "confidential", "internal"), Allow),
    Row(Key(DataClass, "internal", "public"), Allow),
    Row(Key(DataClass, "confidential", "public"), Deny),
    Row(Key(Verb, "read", "write"), Reauthorize),
    Row(Key(Verb, "read", "delete"), Reauthorize),
    Row(Key(Verb, "analysis", "action"), Reauthorize),
    Row(Key(Verb, "write", "read"), Allow),
    Row(Key(Verb, "delete", "read"), Allow),
    Row(Key(ResourceClass, "internal", "customer_record"), Reauthorize),
    Row(Key(ResourceClass, "customer_record", "internal"), Allow)
  ]

  /** The table has a row for the transition, and the last such row says this. */
  ghost predicate TableSays(matrix: seq<Row>, key: Key, action: BoundaryAction) {
    exists i :: 0 <= i < |matrix| && matrix[i] == Row(key, action)
                && forall j :: i < j < |matrix| ==> matrix[j].key != key
  }

  /** The moves the table allows: inwards, back to what can be undone, down to reading, and from and to internal data. */
  predicate AllowedMove(attribute: Attribute, from: string, to: string) {
    match attribute
    case Audience => from == "external" && to == "internal"
    case Reversibility => from == "irreversible" && to == "reversible"
    case Externality => from == "external" && to == "internal"
    case DataClass => (to == "internal" && (from == "public" || from == "confidential"))
                      || (to == "public" && from == "internal")
    case Verb => to == "read" && (from == "write" || from == "delete")
    case ResourceClass => from == "customer_record" && to == "internal"
  }

  lemma AudienceMoves(from: string, to: string)
    ensures TableSays(DEFAULT_MATRIX, Key(Audience, from, to), Allow) <==> AllowedMove(Audience, from, to)
  {
    var key := Key(Audience, from, to);
    if from == "external" && to == "internal" {
      assert DEFAULT_MATRIX[1] == Row(key, Allow);
      assert TableSays(DEFAULT_MATRIX, key, Allow);
    }
  }

  lemma ReversibilityMoves(from: string, to: string)
    ensures TableSays(DEFAULT_MATRIX, Key(Reversibility, from, to), Allow) <==> AllowedMove(Reversibility, from, to)
  {
    var key := Key(Reversibility, from, to);
    if from == "irreversible" && to == "reversible" {
      assert DEFAULT_MATRIX[3] == Row(key, Allow);
      assert TableSays(DEFAULT_MATRIX, key, Allow);
    }
  }

  lemma ExternalityMoves(from: string, to: string)
    ensures TableSays(DEFAULT_MATRIX, Key(Externality, from, to), Allow) <==> AllowedMove(Externality, from, to)
  {
    var key := Key(Externality, from, to);
    if from == "external" && to == "internal" {
      assert DEFAULT_MATRIX[5] == Row(key, Allow);
      assert TableSays(DEFAULT_MATRIX, key, Allow);
    }
  }

  lemma ToInternal(from: string)
    requires from == "public" || from == "confidential"
    ensures TableSays(DEFAULT_MATRIX, Key(DataClass, from, "internal"), Allow)
  {
    assert DEFAULT_MATRIX[if from == "public" then 6 else 8] == Row(Key(DataClass, from, "internal"), Allow);
  }

  lemma DataClassMoves(from: string, to: string)
    ensures TableSays(DEFAULT_MATRIX, Key(DataClass, from, to), Allow) <==> AllowedMove(DataClass, from, to)
  {
    if to == "internal" && (from == "public" || from == "confidential") {
      ToInternal(from);
    } else if from == "internal" && to == "public" {
      assert DEFAULT_MATRIX[9] == Row(Key(DataClass, from, to), Allow);
      assert TableSays(DEFAULT_MATRIX, Key(DataClass, from, to), Allow);
    }
  }

  lemma VerbMoves(from: string, to: string)
    ensures TableSays(DEFAULT_MATRIX, Key(Verb, from, to), Allow) <==> AllowedMove(Verb, from, to)
  {
    var key := Key(Verb, from, to);
    if from == "write" && to == "read" {
      assert DEFAULT_MATRIX[14] == Row(key, Allow);
      assert TableSays(DEFAULT_MATRIX, key, Allow);
    } else if from == "delete" && to == "read" {
      assert DEFAULT_MATRIX[15] == Row(key, Allow);
      assert TableSays(DEFAULT_MATRIX, key, Allow);
    }
  }

  lemma ResourceClassMoves(from: string, to: string)
    ensures TableSays(DEFAULT_MATRIX, Key(ResourceClass, from, to), Allow) <==> AllowedMove(ResourceClass, from, to)
  {
    var key := Key(ResourceClass, from, to);
    if from == "customer_record" && to == "internal" {
      assert DEFAULT_MATRIX[17] == Row(key, Allow);
      assert TableSays(DEFAULT_MATRIX, key, Allow);
    }
  }

  /** The index is filled row by row; a later row for the same transition replaces an earlier one. */
  method BuildIndex(matrix: seq<Row>) returns (index: map<Key, BoundaryAction>)
    ensures Indexes(index, matrix)
  {
    index := map[];
    for i := 0 to |matrix|
      invariant Indexes(index, matrix[..i])
    {
      IndexExtends(index, matrix[..i], matrix[i]);
      assert matrix[..i + 1] == matrix[..i] + [matrix[i]];
      index := index[matrix[i].key := matrix[i].action];
    }
    assert matrix[..|matrix|] == matrix;
  }

  ghost predicate Indexes(index: map<Key, BoundaryAction>, matrix: seq<Row>) {
    && (forall key :: key in index ==> TableSays(matrix, key, index[key]))
    && (forall i :: 0 <= i < |matrix| ==> matrix[i].key in index)
  }

  lemma IndexExtends(index: map<Key, BoundaryAction>, matrix: seq<Row>, row: Row)
    requires Indexes(index, matrix)
    ensures Indexes(index[row.key := row.action], matrix + [row])
  {
    var more, wider := matrix + [row], index[row.key := row.action];
    forall key | key in wider ensures TableSays(more, key, wider[key]) {
      if key == row.key {
        assert more[|matrix|] == Row(key, wider[key]);
      } else {
        var i :| 0 <= i < |matrix| && matrix[i] == Row(key, index[key])
                 && forall j :: i < j < |matrix| ==> matrix[j].key != key;
        assert more[i] == Row(key, wider[key]);
      }
    }
  }

  /** At most one row is the last for a transition. */
  lemma TableSaysOne(matrix: seq<Row>, key: Key, a: BoundaryAction, b: BoundaryAction)
    requires TableSays(matrix, key, a) && TableSays(matrix, key, b)
    ensures a == b
  {
    var i :| 0 <= i < |matrix| && matrix[i] == Row(key, a) && forall j :: i < j < |matrix| ==> matrix[j].key != key;
    var k :| 0 <= k < |matrix| && matrix[k] == Row(key, b) && forall j :: k < j < |matrix| ==> matrix[j].key != key;
    assert i == k;
  }

  method EvaluateTransition(matrix: seq<Row>, index: map<Key, BoundaryAction>, attribute: Attribute, from: string,
                            to: string)
    returns (a: BoundaryAction)
    requires Indexes(index, matrix)
    ensures a == Transition(matrix, attribute, from, to)
    ensures from == to ==> a == Allow
    ensures from != to ==> TableSays(matrix, Key(attribute, from, to), a)
                           || (a == Deny && forall b :: !TableSays(matrix, Key(attribute, from, to), b))
  {
    if from == to {
      return Allow;
    }
    if Key(attribute, from, to) in index {
      assert TableSays(matrix, Key(attribute, from, to), index[Key(attribute, from, to)]);
      TransitionIs(matrix, attribute, from, to, index[Key(attribute, from, to)]);
      return index[Key(attribute, from, to)];
    }
    return Deny;
  }

  /** Straight from the table: staying is allowed, a transition without a row is denied. */
  ghost function Transition(matrix: seq<Row>, attribute: Attribute, from: string, to: string): BoundaryAction {
    if from == to then Allow
    else if exists a :: TableSays(matrix, Key(attribute, from, to), a) then
      var a :| TableSays(matrix, Key(attribute, from, to), a); a
    else Deny
  }

  lemma TransitionIs(matrix: seq<Row>, attribute: Attribute, from: string, to: string, a: BoundaryAction)
    requires from != to && TableSays(matrix, Key(attribute, from, to), a)
    ensures Transition(matrix, attribute, from, to) == a
  {
    TableSaysOne(matrix, Key(attribute, from, to), a, Transition(matrix, attribute, from, to));
  }

  function Rank(a: BoundaryAction): nat {
    match a
    case Allow => 0
    case Checkpoint => 1
    case Reauthorize => 2
    case Deny => 3
  }

  /** The most restrictive transition from any of the values. */
  ghost predicate Strictest(matrix: seq<Row>, attribute: Attribute, values: seq<string>, to: string,
                            a: BoundaryAction)
  {
    && (forall i :: 0 <= i < |values| ==> Rank(Transition(matrix, attribute, values[i], to)) <= Rank(a))
    && (a != Allow ==> exists i :: 0 <= i < |values| && Transition(matrix, attribute, values[i], to) == a)
  }

  /** A denial anywhere denies; failing that reauthorization prevails, then a checkpoint. */
  lemma StrictestIs(matrix: seq<Row>, attribute: Attribute, values: seq<string>, to: string, a: BoundaryAction)
    requires Strictest(matrix, attribute, values, to, a)
    ensures var says := (b: BoundaryAction) =>
              exists i :: 0 <= i < |values| && Transition(matrix, attribute, values[i], to) == b;
            a == if says(Deny) then Deny else if says(Reauthorize) then Reauthorize
                 else if says(Checkpoint) then Checkpoint else Allow
  {
    hide Transition;
  }

  ghost predicate Crosses(matrix: seq<Row>, attribute: Attribute, values: seq<string>, to: string, a: BoundaryAction) {
    if values == [] || to == "" then a == Deny
    else if to in values then a == Allow
    else Strictest(matrix, attribute, values, to, a)
  }

  method EvaluateBoundaryCrossing(matrix: seq<Row>, index: map<Key, BoundaryAction>, attribute: Attribute,
                                  values: seq<string>, to: string)
    returns (a: BoundaryAction)
    requires Indexes(index, matrix)
    ensures Crosses(matrix, attribute, values, to, a)
    ensures a == Allow <==> Passes(matrix, attribute, values, to)
  {
    hide Transition, TableSays, Indexes;
    if |values| == 0 || to == "" {
      return Deny;
    }
    for i := 0 to |values|
      invariant to !in values[..i]
    {
      if values[i] == to {
        return Allow;
      }
    }
    assert values[..|values|] == values;
    a := Allow;
    for i := 0 to |values|
      invariant Strictest(matrix, attribute, values[..i], to, a)
    {
      var step := EvaluateTransition(matrix, index, attribute, values[i], to);
      ghost var before := a;
      if Rank(step) > Rank(a) {
        a := step;
      }
      StrictestExtends(matrix, attribute, values[..i], values[i], to, before, a);
      assert values[..i + 1] == values[..i] + [values[i]];
    }
    AllowIffPasses(matrix, attribute, values, to, a);
  }

  lemma StrictestExtends(matrix: seq<Row>, attribute: Attribute, values: seq<string>, next: string, to: string,
                         a: BoundaryAction, b: BoundaryAction)
    requires Strictest(matrix, attribute, values, to, a)
    requires var step := Transition(matrix, attribute, next, to); b == if Rank(step) > Rank(a) then step else a
    ensures Strictest(matrix, attribute, values + [next], to, b)
  {
    var more := values + [next];
    assert more[|values|] == next;
    assert forall i :: 0 <= i < |values| ==> more[i] == values[i];
    if b != Allow && b == a {
      var i :| 0 <= i < |values| && Transition(matrix, attribute, values[i], to) == a;
      assert Transition(matrix, attribute, more[i], to) == b;
    }
  }

  /** A value passes when it is one of those granted, or when every one granted has an ALLOW row leading to it; an empty
      value and an empty grant never do. */
  ghost predicate Passes(matrix: seq<Row>, attribute: Attribute, values: seq<string>, to: string) {
    && values != [] && to != ""
    && (to in values || forall i :: 0 <= i < |values| ==> TableSays(matrix, Key(attribute, values[i], to), Allow))
  }

  lemma AllowIffPasses(matrix: seq<Row>, attribute: Attribute, values: seq<string>, to: string, a: BoundaryAction)
    requires Crosses(matrix, attribute, values, to, a)
    ensures a == Allow <==> Passes(matrix, attribute, values, to)
  {
    if values != [] && to != "" && to !in values {
      forall i | 0 <= i < |values|
        ensures Transition(matrix, attribute, values[i], to) == Allow <==>
                TableSays(matrix, Key(attribute, values[i], to), Allow)
      {
        if TableSays(matrix, Key(attribute, values[i], to), Allow) {
          TransitionIs(matrix, attribute, values[i], to, Allow);
        }
      }
    }
  }

  lemma TableAllows(attribute: Attribute, from: string, to: string)
    ensures TableSays(DEFAULT_MATRIX, Key(attribute, from, to), Allow) <==> AllowedMove(attribute, from, to)
  {
    hide TableSays, AllowedMove;
    match attribute
    case Audience => AudienceMoves(from, to);
    case Reversibility => ReversibilityMoves(from, to);
    case Externality => ExternalityMoves(from, to);
    case DataClass => DataClassMoves(from, to);
    case Verb => VerbMoves(from, to);
    case ResourceClass => ResourceClassMoves(from, to);
  }

  /** What passes under the default table, for every attribute and every grant: what is granted, and what every one of the
      granted values may move to. */
  lemma PassesIff(attribute: Attribute, values: seq<string>, to: string)
    ensures Passes(DEFAULT_MATRIX, attribute, values, to) <==>
            && values != [] && to != ""
            && (to in values || forall i :: 0 <= i < |values| ==> AllowedMove(attribute, values[i], to))
  {
    hide TableSays, AllowedMove;
    forall i | 0 <= i < |values|
      ensures TableSays(DEFAULT_MATRIX, Key(attribute, values[i], to), Allow) <==> AllowedMove(attribute, values[i], to)
    {
      TableAllows(attribute, values[i], to);
    }
  }

  /** The outcome depends on which values are granted, not on their order or repetition. */
  lemma OrderDoesNotMatter(matrix: seq<Row>, attribute: Attribute, v: seq<string>, w: seq<string>, to: string,
                           a: BoundaryAction, b: BoundaryAction)
    requires forall x :: x in v <==> x in w
    requires Crosses(matrix, attribute, v, to, a) && Crosses(matrix, attribute, w, to, b)
    ensures a == b
  {
    hide Transition;
    if v != [] && to != "" && to !in v {
      assert v[0] in w;
      if a != Allow {
        var i :| 0 <= i < |v| && Transition(matrix, attribute, v[i], to) == a;
        assert v[i] in w;
      }
      if b != Allow {
        var i :| 0 <= i < |w| && Transition(matrix, attribute, w[i], to) == b;
        assert w[i] in v;
      }
      assert Rank(a) <= Rank(b) <= Rank(a);
    } else if w != [] {
      assert w[0] in v;
    }
  }

  // ------------------------------------------------------------------ the scope check

  datatype Attributes = Attributes(
    verb: string, resourceClass: string, audience: string, reversibility: string, externality: string,
    dataClass: string, quantity: Option<int>, destination: Option<string>, toolName: Option<string>)

  /** The four attributes whose failure is a boundary crossing. */
  ghost predicate CrossesNothing(scope: P.ScopeGrant, attrs: Attributes) {
    && Passes(DEFAULT_MATRIX, Audience, scope.audiences, attrs.audience)
    && Passes(DEFAULT_MATRIX, Reversibility, scope.reversibility, attrs.reversibility)
    && Passes(DEFAULT_MATRIX, Externality, scope.externality, attrs.externality)
    && Passes(DEFAULT_MATRIX, DataClass, scope.dataClasses, attrs.dataClass)
  }

  /** All six attributes that are looked up in the table. */
  ghost predicate TablePasses(scope: P.ScopeGrant, attrs: Attributes) {
    && CrossesNothing(scope, attrs)
    && Passes(DEFAULT_MATRIX, Verb, scope.verbs, attrs.verb)
    && Passes(DEFAULT_MATRIX, ResourceClass, scope.resourceClasses, attrs.resourceClass)
  }

  predicate QuantityPasses(scope: P.ScopeGrant, attrs: Attributes) {
    scope.maxQuantity.Some? ==> attrs.quantity.Some? && attrs.quantity.value <= scope.maxQuantity.value
  }

  predicate DestinationPasses(scope: P.ScopeGrant, attrs: Attributes) {
    scope.destinations != [] ==> attrs.destination.Some? && attrs.destination.value in scope.destinations
  }

  /** The tool that counts: the one the action names, else the request's. */
  function EffectiveTool(attrs: Attributes, req: P.Request): Option<string> {
    if attrs.toolName.Some? then attrs.toolName
    else if req.toolName != "" then Some(req.toolName) else None
  }

  predicate ToolPasses(scope: P.ScopeGrant, attrs: Attributes, req: P.Request) {
    scope.toolNames != [] ==>
      EffectiveTool(attrs, req).Some? && EffectiveTool(attrs, req).value in scope.toolNames
  }

  /** The request stays within the scope. Without a proposed action there is nothing to compare. */
  ghost predicate Within(scope: Option<P.ScopeGrant>, req: P.Request, parse: Bytes -> Option<Attributes>) {
    && scope.Some?
    && (req.proposedAction == [] ||
        (&& parse(req.proposedAction).Some?
         && var attrs := parse(req.proposedAction).value;
         && TablePasses(scope.value, attrs)
         && QuantityPasses(scope.value, attrs)
         && DestinationPasses(scope.value, attrs)
         && ToolPasses(scope.value, attrs, req)))
  }

  /** The first attribute that fails decides the reason. */
  method CheckTable(index: map<Key, BoundaryAction>, scope: P.ScopeGrant, attrs: Attributes)
    returns (reason: Option<P.Reason>)
    requires Indexes(index, DEFAULT_MATRIX)
    ensures reason == if !CrossesNothing(scope, attrs) then Some(P.BoundaryCrossing)
                      else if !TablePasses(scope, attrs) then Some(P.ScopeExceeded)
                      else None
  {
    hide Passes, Indexes;
    var checks := [
      (Audience, scope.audiences, attrs.audience),
      (Reversibility, scope.reversibility, attrs.reversibility),
      (Externality, scope.externality, attrs.externality),
      (DataClass, scope.dataClasses, attrs.dataClass),
      (Verb, scope.verbs, attrs.verb),
      (ResourceClass, scope.resourceClasses, attrs.resourceClass)
    ];
    for i := 0 to |checks|
      invariant i > 0 ==> Passes(DEFAULT_MATRIX, Audience, scope.audiences, attrs.audience)
      invariant i > 1 ==> Passes(DEFAULT_MATRIX, Reversibility, scope.reversibility, attrs.reversibility)
      invariant i > 2 ==> Passes(DEFAULT_MATRIX, Externality, scope.externality, attrs.externality)
      invariant i > 3 ==> Passes(DEFAULT_MATRIX, DataClass, scope.dataClasses, attrs.dataClass)
      invariant i > 4 ==> Passes(DEFAULT_MATRIX, Verb, scope.verbs, attrs.verb)
      invariant i > 5 ==> Passes(DEFAULT_MATRIX, ResourceClass, scope.resourceClasses, attrs.resourceClass)
    {
      var check := checks[i];
      var action := EvaluateBoundaryCrossing(DEFAULT_MATRIX, index, check.0, check.1, check.2);
      if action != Allow {
        if check.0 == Audience || check.0 == Reversibility || check.0 == Externality || check.0 == DataClass {
          return Some(P.BoundaryCrossing);
        }
        return Some(P.ScopeExceeded);
      }
    }
    return None;
  }

  method Contains(names: seq<string>, name: string) returns (found: bool)
    ensures found <==> name in names
  {
    found := false;
    for i := 0 to |names|
      invariant !found && name !in names[..i]
    {
      if names[i] == name {
        return true;
      }
    }
    assert names[..|names|] == names;
  }

  /** No reason is given exactly for the requests within the scope. */
  method CheckBoundary(index: map<Key, BoundaryAction>, scope: Option<P.ScopeGrant>, req: P.Request,
                       parse: Bytes -> Option<Attributes>)
    returns (reason: Option<P.Reason>)
    requires Indexes(index, DEFAULT_MATRIX)
    ensures reason.None? <==> Within(scope, req, parse)
    ensures scope.None? ==> reason == Some(P.ScopeExceeded)
    ensures scope.Some? && req.proposedAction != [] ==>
              match parse(req.proposedAction)
              case None => reason == Some(P.ScopeExceeded)
              case Some(attrs) =>
                reason ==
                if !CrossesNothing(scope.value, attrs) then Some(P.BoundaryCrossing)
                else if !TablePasses(scope.value, attrs) then Some(P.ScopeExceeded)
                else if scope.value.maxQuantity.Some? && attrs.quantity.None? then Some(P.UnknownAttribute)
                else if scope.value.maxQuantity.Some? && attrs.quantity.value > scope.value.maxQuantity.value then
                  Some(P.ScopeExceeded)
                else if scope.value.destinations != [] && attrs.destination.None? then Some(P.UnknownAttribute)
                else if scope.value.destinations != [] && attrs.destination.value !in scope.value.destinations then
                  Some(P.BoundaryCrossing)
                else if scope.value.toolNames != [] && attrs.toolName.None? && req.toolName == "" then
                  Some(P.UnknownAttribute)
                else if scope.value.toolNames != []
                        && (if attrs.toolName.Some? then attrs.toolName.value else req.toolName)
                           !in scope.value.toolNames then Some(P.BoundaryCrossing)
                else None
  {
    hide Passes, Indexes;
    if scope.None? {
      return Some(P.ScopeExceeded);
    }
    if |req.proposedAction| == 0 {
      return None;
    }
    if parse(req.proposedAction).None? {
      return Some(P.ScopeExceeded);
    }
    var grant, attrs := scope.value, parse(req.proposedAction).value;
    reason := CheckTable(index, grant, attrs);
    if reason.Some? {
      return;
    }
    if grant.maxQuantity.Some? {
      if attrs.quantity.None? {
        return Some(P.UnknownAttribute);
      }
      if attrs.quantity.value > grant.maxQuantity.value {
        return Some(P.ScopeExceeded);
      }
    }
    if |grant.destinations| > 0 {
      if attrs.destination.None? {
        return Some(P.UnknownAttribute);
      }
      var allowed := Contains(grant.destinations, attrs.destination.value);
      if !allowed {
        return Some(P.BoundaryCrossing);
      }
    }
    if |grant.toolNames| > 0 {
      var effective := "";
      if attrs.toolName.Some? {
        effective := attrs.toolName.value;
      } else if req.toolName != "" {
        effective := req.toolName;
      } else {
        return Some(P.UnknownAttribute);
      }
      var allowed := Contains(grant.toolNames, effective);
      if !allowed {
        return Some(P.BoundaryCrossing);
      }
    }
    return None;
  }
}
