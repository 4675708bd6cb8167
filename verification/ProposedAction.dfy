/** Proposed actions: what the scope check reads off their JSON text, and the action the proxy makes up for a plain HTTP
    request. */
module ProposedActions {
  import opened Basics
  import opened Boundary
  import opened Json
  import opened JsonParser

  // ------------------------------------------------------------------ reading attributes

  /** A member that holds text; absent and null read as the empty text, anything else is an error. */
  function TextMember(members: map<string, Json>, name: string): Option<string> {
    if name !in members || members[name].Null? then Some("")
    else if members[name].Str? then Some(members[name].s)
    else None
  }

  /** A member that may be absent or null. */
  function OptionalText(members: map<string, Json>, name: string): Option<Option<string>> {
    if name !in members || members[name].Null? then Some(None)
    else if members[name].Str? then Some(Some(members[name].s))
    else None
  }

  function OptionalNumber(members: map<string, Json>, name: string): Option<Option<int>> {
    if name !in members || members[name].Null? then Some(None)
    else if members[name].Num? then Some(Some(members[name].n))
    else None
  }

  function ReadAttributes(members: map<string, Json>): Option<Attributes> {
    var verb, resourceClass := TextMember(members, "verb"), TextMember(members, "resource_class");
    var audience, reversibility := TextMember(members, "audience"), TextMember(members, "reversibility");
    var externality, dataClass := TextMember(members, "externality"), TextMember(members, "data_class");
    var quantity := OptionalNumber(members, "quantity");
    var destination, toolName := OptionalText(members, "destination"), OptionalText(members, "tool_name");
    if verb.None? || resourceClass.None? || audience.None? || reversibility.None? || externality.None?
       || dataClass.None? || quantity.None? || destination.None? || toolName.None? then None
    else
      Some(Attributes(verb.value, resourceClass.value, audience.value, reversibility.value, externality.value,
                      dataClass.value, quantity.value, destination.value, toolName.value))
  }

  /** A member that is absent counts as null. */
  function Member(members: map<string, Json>, name: string): Json {
    if name in members then members[name] else Null
  }

  predicate SaysText(members: map<string, Json>, name: string, s: string) {
    Member(members, name) == Str(s) || (Member(members, name) == Null && s == "")
  }

  predicate SaysOptionalText(members: map<string, Json>, name: string, s: Option<string>) {
    Member(members, name) == if s.Some? then Str(s.value) else Null
  }

  /** Exactly these members are read, by these names; a member of another type is an error, and other members do not
      matter. */
  lemma ReadsIff(members: map<string, Json>, a: Attributes)
    ensures ReadAttributes(members) == Some(a) <==>
            && SaysText(members, "verb", a.verb) && SaysText(members, "resource_class", a.resourceClass)
            && SaysText(members, "audience", a.audience) && SaysText(members, "reversibility", a.reversibility)
            && SaysText(members, "externality", a.externality) && SaysText(members, "data_class", a.dataClass)
            && SaysOptionalText(members, "destination", a.destination)
            && SaysOptionalText(members, "tool_name", a.toolName)
            && match Member(members, "quantity")
               case Num(n) => a.quantity == Some(n)
               case Null => a.quantity == None
               case _ => false
  {
    hide TextMember, SaysText, OptionalText, SaysOptionalText;
    TextMemberSays(members, "verb");
    TextMemberSays(members, "resource_class");
    TextMemberSays(members, "audience");
    TextMemberSays(members, "reversibility");
    TextMemberSays(members, "externality");
    TextMemberSays(members, "data_class");
    OptionalTextSays(members, "destination");
    OptionalTextSays(members, "tool_name");
  }

  lemma TextMemberSays(members: map<string, Json>, name: string)
    ensures forall s :: TextMember(members, name) == Some(s) <==> SaysText(members, name, s)
  {
  }

  lemma OptionalTextSays(members: map<string, Json>, name: string)
    ensures forall s :: OptionalText(members, name) == Some(s) <==> SaysOptionalText(members, name, s)
  {
  }

  /** The attributes of one JSON document; nothing but space may follow it. */
  function ParseAttributes(text: Bytes): Option<Attributes> {
    var parsed := ParseValue(text);
    if parsed.Fail? || SkipSpace(parsed.rest) != [] then None
    else
      match parsed.value
      case Obj(members) => ReadAttributes(members)
      case Null => ReadAttributes(map[])
      case _ => None
  }

  // ------------------------------------------------------------------ synthesized actions

  function HTTPMethodToVerb(method_: string): string {
    if method_ == "GET" || method_ == "HEAD" then "read"
    else if method_ == "POST" || method_ == "PUT" || method_ == "PATCH" then "write"
    else if method_ == "DELETE" then "delete"
    else "unknown"
  }

  function FirstOrEmpty(s: seq<string>): string {
    if s == [] then "" else s[0]
  }

  /** The attributes of the action the proxy makes up: the verb from the method, the rest from the heads of the grant. */
  function Synthesized(method_: string, scope: P.ScopeGrant): Attributes {
    Attributes(HTTPMethodToVerb(method_), FirstOrEmpty(scope.resourceClasses), FirstOrEmpty(scope.audiences),
               FirstOrEmpty(scope.reversibility), FirstOrEmpty(scope.externality), FirstOrEmpty(scope.dataClasses),
               None, None, None)
  }

  predicate HasHead(s: seq<string>) {
    s != [] && s[0] != ""
  }

  lemma HeadPasses(attribute: Attribute, values: seq<string>)
    ensures Passes(DEFAULT_MATRIX, attribute, values, FirstOrEmpty(values)) <==> HasHead(values)
  {
  }

  /** Which verbs a grant must have for a request of this method to pass: its own, or, for reading only, nothing but
      writing and deleting. */
  predicate VerbGranted(verbs: seq<string>, method_: string) {
    if method_ == "GET" || method_ == "HEAD" then
      "read" in verbs || (verbs != [] && forall i :: 0 <= i < |verbs| ==> verbs[i] == "write" || verbs[i] == "delete")
    else if method_ == "POST" || method_ == "PUT" || method_ == "PATCH" then "write" in verbs
    else if method_ == "DELETE" then "delete" in verbs
    else "unknown" in verbs
  }

  lemma VerbPassesIffGranted(verbs: seq<string>, method_: string)
    ensures Passes(DEFAULT_MATRIX, Verb, verbs, HTTPMethodToVerb(method_)) <==> VerbGranted(verbs, method_)
  {
    hide Passes;
    PassesIff(Verb, verbs, HTTPMethodToVerb(method_));
    assert verbs != [] ==> (AllowedMove(Verb, verbs[0], HTTPMethodToVerb(method_)) ==> HTTPMethodToVerb(method_) == "read");
  }

  /** The JSON object of that action. */
  function SynthesizedObject(method_: string, resourceId: string, payloadHash: string, scope: P.ScopeGrant)
    : map<string, Json>
  {
    map[
      "hacp_version" := Str("0.9"),
      "verb" := Str(HTTPMethodToVerb(method_)),
      "resource_class" := Str(FirstOrEmpty(scope.resourceClasses)),
      "resource_id" := Str(resourceId),
      "audience" := Str(FirstOrEmpty(scope.audiences)),
      "reversibility" := Str(FirstOrEmpty(scope.reversibility)),
      "externality" := Str(FirstOrEmpty(scope.externality)),
      "data_class" := Str(FirstOrEmpty(scope.dataClasses)),
      "payload_hash" := Str(payloadHash)
    ]
  }

  lemma SynthesizedTexts(method_: string, resourceId: string, payloadHash: string, scope: P.ScopeGrant)
    ensures var members := SynthesizedObject(method_, resourceId, payloadHash, scope);
            && TextMember(members, "verb") == Some(HTTPMethodToVerb(method_))
            && TextMember(members, "resource_class") == Some(FirstOrEmpty(scope.resourceClasses))
            && TextMember(members, "audience") == Some(FirstOrEmpty(scope.audiences))
            && TextMember(members, "reversibility") == Some(FirstOrEmpty(scope.reversibility))
            && TextMember(members, "externality") == Some(FirstOrEmpty(scope.externality))
            && TextMember(members, "data_class") == Some(FirstOrEmpty(scope.dataClasses))
  {
    hide HTTPMethodToVerb, FirstOrEmpty;
  }

  lemma SynthesizedLacks(method_: string, resourceId: string, payloadHash: string, scope: P.ScopeGrant)
    ensures var members := SynthesizedObject(method_, resourceId, payloadHash, scope);
            "quantity" !in members && "destination" !in members && "tool_name" !in members
  {
  }

  /** However that object is written down, these are the attributes that are read off it. */
  lemma SynthesizedReadsAs(text: Bytes, method_: string, resourceId: string, payloadHash: string, scope: P.ScopeGrant)
    requires ParseValue(text) == Got(Obj(SynthesizedObject(method_, resourceId, payloadHash, scope)), [])
    ensures ParseAttributes(text) == Some(Synthesized(method_, scope))
  {
    hide ParseValue, SynthesizedObject, TextMember;
    SynthesizedTexts(method_, resourceId, payloadHash, scope);
    SynthesizedLacks(method_, resourceId, payloadHash, scope);
    assert SkipSpace([]) == [];
  }

  lemma CanonicalSynthesizedReadsAs(method_: string, resourceId: string, payloadHash: string, scope: P.ScopeGrant)
    ensures ParseAttributes(Canon(Obj(SynthesizedObject(method_, resourceId, payloadHash, scope))))
            == Some(Synthesized(method_, scope))
  {
    hide ParseValue, Canon, SynthesizedObject, Synthesized, ParseAttributes;
    var v := Obj(SynthesizedObject(method_, resourceId, payloadHash, scope));
    assert Canon(v) + [] == Canon(v);
    ReadsBack(v, []);
    SynthesizedReadsAs(Canon(v), method_, resourceId, payloadHash, scope);
  }

  /** Two synthesized actions have one canonical text, so one action hash, exactly when verb, path, payload hash and the
      copied heads are the same; the rest of method and grant does not enter. */
  lemma SynthesizedTextsEqualIff(m: string, r: string, p: string, scope: P.ScopeGrant,
                                 n: string, q: string, h: string, other: P.ScopeGrant)
    ensures Canon(Obj(SynthesizedObject(m, r, p, scope))) == Canon(Obj(SynthesizedObject(n, q, h, other))) <==>
            r == q && p == h && Synthesized(m, scope) == Synthesized(n, other)
  {
    hide Canon, HTTPMethodToVerb, FirstOrEmpty;
    var a, b := SynthesizedObject(m, r, p, scope), SynthesizedObject(n, q, h, other);
    CanonInjective(Obj(a), Obj(b));
    SynthesizedSame(m, r, p, scope, n, q, h, other);
  }

  lemma SynthesizedSame(m: string, r: string, p: string, scope: P.ScopeGrant,
                        n: string, q: string, h: string, other: P.ScopeGrant)
    ensures SynthesizedObject(m, r, p, scope) == SynthesizedObject(n, q, h, other) <==>
            r == q && p == h && Synthesized(m, scope) == Synthesized(n, other)
  {
    hide HTTPMethodToVerb, FirstOrEmpty;
    var a, b := SynthesizedObject(m, r, p, scope), SynthesizedObject(n, q, h, other);
    if a == b {
      SynthesizedTexts(m, r, p, scope);
      SynthesizedTexts(n, q, h, other);
      assert a["resource_id"] == Str(r) && b["resource_id"] == Str(q);
      assert a["payload_hash"] == Str(p) && b["payload_hash"] == Str(h);
    }
  }

  /** A made-up action is within the scope it was made up from exactly when the five copied lists have a non-empty head,
      the verb is granted, no quantity or destination is demanded, and the tool, when tools are listed, is the request's
      and listed. */
  lemma SynthesizedWithinIff(scope: P.ScopeGrant, req: P.Request, resourceId: string, payloadHash: string)
    requires ParseValue(req.proposedAction) == Got(Obj(SynthesizedObject(req.method_, resourceId, payloadHash, scope)), [])
    ensures Within(Some(scope), req, ParseAttributes) <==>
            && HasHead(scope.audiences) && HasHead(scope.reversibility) && HasHead(scope.externality)
            && HasHead(scope.dataClasses) && HasHead(scope.resourceClasses)
            && VerbGranted(scope.verbs, req.method_)
            && scope.maxQuantity.None? && scope.destinations == []
            && (scope.toolNames == [] || (req.toolName != "" && req.toolName in scope.toolNames))
  {
    hide ParseValue, ParseAttributes, SynthesizedObject, TablePasses, VerbGranted, HasHead;
    SynthesizedReadsAs(req.proposedAction, req.method_, resourceId, payloadHash, scope);
    SynthesizedTablePasses(scope, req.method_);
    assert req.proposedAction != [] by {
      EmptyIsNoValue();
    }
  }

  lemma EmptyIsNoValue()
    ensures ParseValue([]).Fail?
  {
  }

  lemma SynthesizedTablePasses(scope: P.ScopeGrant, method_: string)
    ensures TablePasses(scope, Synthesized(method_, scope)) <==>
            && HasHead(scope.audiences) && HasHead(scope.reversibility) && HasHead(scope.externality)
            && HasHead(scope.dataClasses) && HasHead(scope.resourceClasses)
            && VerbGranted(scope.verbs, method_)
  {
    hide Passes, VerbGranted, HasHead;
    HeadPasses(Audience, scope.audiences);
    HeadPasses(Reversibility, scope.reversibility);
    HeadPasses(Externality, scope.externality);
    HeadPasses(DataClass, scope.dataClasses);
    HeadPasses(ResourceClass, scope.resourceClasses);
    VerbPassesIffGranted(scope.verbs, method_);
  }
}
