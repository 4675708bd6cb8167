/** Canonicalization as the source runs it, appending to one buffer; and what signing rests on: one text per value, texts
    that are their own canonical form, and payloads that ignore the top-level signature and nothing else. */
module Canonicalizer {
  import opened Basics
  import opened Ordering
  import opened Utf8
  import opened Json
  import opened JsonParser

  class Buffer {
    var data: Bytes

    constructor ()
      ensures data == []
    {
      data := [];
    }

    method Write(b: Bytes)
      modifies this
      ensures data == old(data) + b
    {
      data := data + b;
    }
  }

  method WriteEscaped(buf: Buffer, c: char)
    modifies buf
    ensures buf.data == old(buf.data) + EscapeRune(c)
  {
    if c == '\"' {
      buf.Write([BACKSLASH, QUOTE]);
    } else if c == '\\' {
      buf.Write([BACKSLASH, BACKSLASH]);
    } else if c == '\U{8}' {
      buf.Write([BACKSLASH, 0x62]);
    } else if c == '\U{C}' {
      buf.Write([BACKSLASH, 0x66]);
    } else if c == '\n' {
      buf.Write([BACKSLASH, 0x6E]);
    } else if c == '\r' {
      buf.Write([BACKSLASH, 0x72]);
    } else if c == '\t' {
      buf.Write([BACKSLASH, 0x74]);
    } else if c < ' ' {
      buf.Write([BACKSLASH, 0x75, 0x30, 0x30, HexDigit(c as int / 16), HexDigit(c as int % 16)]);
    } else {
      buf.Write(EncodeRune(c));
    }
  }

  method CanonicalizeString(buf: Buffer, s: string)
    modifies buf
    ensures buf.data == old(buf.data) + Quoted(s)
  {
    hide EscapeRune, Escape;
    buf.Write([QUOTE]);
    ghost var start := buf.data;
    EscapeNothing();
    for i := 0 to |s|
      invariant buf.data == start + Escape(s[..i])
    {
      EscapeAppend(s[..i], s[i]);
      assert s[..i + 1] == s[..i] + [s[i]];
      WriteEscaped(buf, s[i]);
    }
    assert s[..|s|] == s && s[..0] == [];
    buf.Write([QUOTE]);
    BracketRegroups(old(buf.data), [QUOTE], Escape(s), [QUOTE]);
  }

  lemma EscapeNothing()
    ensures Escape([]) == []
  {
  }

  lemma {:induction false} EscapeAppend(s: string, c: char)
    ensures Escape(s + [c]) == Escape(s) + EscapeRune(c)
  {
    hide EscapeRune;
    if s == [] {
      assert [c][1..] == [] && s + [c] == [c];
    } else {
      EscapeAppend(s[1..], c);
      assert (s + [c])[1..] == s[1..] + [c];
    }
  }

  /** Appends the canonical text of a value. */
  method CanonicalizeValue(buf: Buffer, v: Json)
    modifies buf
    ensures buf.data == old(buf.data) + Canon(v)
    decreases v, 3
  {
    match v
    case Null => buf.Write(NULL);
    case Bool(b) =>
      if b {
        buf.Write(TRUE);
      } else {
        buf.Write(FALSE);
      }
    case Num(n) => buf.Write(FormatInt(n));
    case Str(s) => CanonicalizeString(buf, s);
    case Arr(items) => CanonicalizeArray(buf, v);
    case Obj(members) => CanonicalizeObject(buf, v);
  }

  method CanonicalizeArray(buf: Buffer, v: Json)
    requires v.Arr?
    modifies buf
    ensures buf.data == old(buf.data) + Canon(v)
    decreases v, 2
  {
    buf.Write([LBRACKET]);
    CanonicalizeItems(buf, v);
    buf.Write([RBRACKET]);
    BracketRegroups(old(buf.data), [LBRACKET], CanonItems(v.items), [RBRACKET]);
  }

  method CanonicalizeItems(buf: Buffer, v: Json)
    requires v.Arr?
    modifies buf
    ensures buf.data == old(buf.data) + CanonItems(v.items)
    decreases v, 1
  {
    hide Canon, CanonItems;
    var items := v.items;
    assert items[..0] == [];
    NoItems(v);
    for i := 0 to |items|
      invariant buf.data == old(buf.data) + CanonItems(items[..i])
    {
      if i > 0 {
        buf.Write([COMMA]);
      }
      CanonicalizeValue(buf, items[i]);
      BracketRegroups(old(buf.data), CanonItems(items[..i]), if i > 0 then [COMMA] else [], Canon(items[i]));
      ItemsAppend(items[..i], items[i]);
      assert items[..i + 1] == items[..i] + [items[i]];
    }
    assert items[..|items|] == items;
  }

  lemma NoItems(v: Json)
    ensures CanonItems([]) == []
    ensures v.Obj? ==> CanonMembers(v, []) == []
  {
  }

  /** Member names are collected in whatever order the map yields them and then sorted; the text does not depend on that
      order. */
  method CanonicalizeObject(buf: Buffer, v: Json)
    requires v.Obj?
    modifies buf
    ensures buf.data == old(buf.data) + Canon(v)
    decreases v, 2
  {
    buf.Write([LBRACE]);
    var names := CollectNames(v.members);
    ByteOrderIsStrict();
    names := Sort(ByteOrder, names);
    assert names == SortedNames(v.members);
    CanonicalizeMembers(buf, v, names);
    buf.Write([RBRACE]);
    BracketRegroups(old(buf.data), [LBRACE], CanonMembers(v, names), [RBRACE]);
  }

  method CanonicalizeMembers(buf: Buffer, v: Json, names: seq<string>)
    requires v.Obj? && forall k :: 0 <= k < |names| ==> names[k] in v.members
    modifies buf
    ensures buf.data == old(buf.data) + CanonMembers(v, names)
    decreases v, 1
  {
    hide CanonMembers, CanonMember;
    assert names[..0] == [];
    NoItems(v);
    for i := 0 to |names|
      invariant buf.data == old(buf.data) + CanonMembers(v, names[..i])
    {
      if i > 0 {
        buf.Write([COMMA]);
      }
      CanonicalizeMember(buf, v, names[i]);
      BracketRegroups(old(buf.data), CanonMembers(v, names[..i]), if i > 0 then [COMMA] else [], CanonMember(v, names[i]));
      MembersAppend(v, names[..i], names[i]);
      assert names[..i + 1] == names[..i] + [names[i]];
    }
    assert names[..|names|] == names;
  }

  method CanonicalizeMember(buf: Buffer, v: Json, name: string)
    requires v.Obj? && name in v.members
    modifies buf
    ensures buf.data == old(buf.data) + CanonMember(v, name)
    decreases v, 0
  {
    CanonicalizeString(buf, name);
    buf.Write([COLON]);
    CanonicalizeValue(buf, v.members[name]);
    BracketRegroups(old(buf.data), Quoted(name), [COLON], Canon(v.members[name]));
  }

  /** The names of a map, in any order. */
  method CollectNames(members: map<string, Json>) returns (names: seq<string>)
    ensures Distinct(names) && Elements(names) == members.Keys
  {
    names := [];
    var left := members.Keys;
    while left != {}
      invariant left <= members.Keys && Distinct(names) && Elements(names) == members.Keys - left
      decreases left
    {
      var name :| name in left;
      assert name !in Elements(names);
      AppendNew(names, name);
      names := names + [name];
      left := left - {name};
    }
  }

  lemma TailRegroups(first: Bytes, middle: Bytes, last: Bytes)
    ensures first + [COMMA] + (middle + [COMMA] + last) == (first + [COMMA] + middle) + [COMMA] + last
  {
  }

  lemma {:induction false} ItemsAppend(items: seq<Json>, v: Json)
    ensures CanonItems(items + [v]) == CanonItems(items) + (if items == [] then [] else [COMMA]) + Canon(v)
  {
    if items != [] {
      ItemsAppend(items[1..], v);
      assert (items + [v])[1..] == items[1..] + [v];
      if |items| > 1 {
        TailRegroups(Canon(items[0]), CanonItems(items[1..]), Canon(v));
      }
    }
  }

  lemma {:induction false} MembersAppend(v: Json, names: seq<string>, name: string)
    requires v.Obj? && name in v.members && forall i :: 0 <= i < |names| ==> names[i] in v.members
    ensures CanonMembers(v, names + [name])
            == CanonMembers(v, names) + (if names == [] then [] else [COMMA]) + CanonMember(v, name)
    decreases |names|
  {
    if names != [] {
      MembersAppend(v, names[1..], name);
      assert (names + [name])[1..] == names[1..] + [name];
      if |names| > 1 {
        TailRegroups(CanonMember(v, names[0]), CanonMembers(v, names[1..]), CanonMember(v, name));
      }
    }
  }

  // ------------------------------------------------------------------ documents

  /** The canonical form of the first value in a text. */
  ghost function Canonical(text: Bytes): Option<Bytes> {
    var parsed := ParseValue(text);
    if parsed.Fail? then None else Some(Canon(parsed.value))
  }

  const SIGNATURE := "signature"

  function WithoutSignature(members: map<string, Json>): map<string, Json> {
    members - {SIGNATURE}
  }

  /** The canonical form without the top-level signature. A null document counts as an empty object. */
  ghost function Unsigned(text: Bytes): Option<Bytes> {
    var parsed := ParseValue(text);
    if parsed.Fail? then None
    else
      match parsed.value
      case Obj(members) => Some(Canon(Obj(WithoutSignature(members))))
      case Null => Some(Canon(Obj(map[])))
      case _ => None
  }

  /** What is signed: the unsigned form, canonicalized once more. */
  ghost function Payload(text: Bytes): Option<Bytes> {
    var unsigned := Unsigned(text);
    if unsigned.None? then None else Canonical(unsigned.value)
  }

  method CanonicalizeJSON(text: Bytes) returns (out: Option<Bytes>)
    ensures out == Canonical(text)
  {
    var parsed := ParseValue(text);
    if parsed.Fail? {
      return None;
    }
    var buf := new Buffer();
    CanonicalizeValue(buf, parsed.value);
    assert [] + Canon(parsed.value) == Canon(parsed.value);
    return Some(buf.data);
  }

  method RemoveSignatureField(text: Bytes) returns (out: Option<Bytes>)
    ensures out == Unsigned(text)
  {
    var parsed := ParseValue(text);
    if parsed.Fail? || !(parsed.value.Obj? || parsed.value.Null?) {
      return None;
    }
    var members := if parsed.value.Obj? then parsed.value.members else map[];
    members := members - {SIGNATURE};
    var buf := new Buffer();
    CanonicalizeValue(buf, Obj(members));
    assert [] + Canon(Obj(members)) == Canon(Obj(members));
    return Some(buf.data);
  }

  lemma CanonParses(v: Json)
    ensures ParseValue(Canon(v)) == Got(v, [])
  {
    assert Canon(v) + [] == Canon(v);
    ReadsBack(v, []);
  }

  /** Canonical texts are their own canonical form, and two documents have one canonical form exactly when they hold one
      value, however they are spaced, escaped and ordered. */
  lemma CanonicalIsNormalForm(a: Bytes, b: Bytes)
    ensures Canonical(a).Some? ==> Canonical(Canonical(a).value) == Canonical(a)
    ensures Canonical(a).Some? && Canonical(b).Some? ==>
              (Canonical(a) == Canonical(b) <==> ParseValue(a).value == ParseValue(b).value)
  {
    if Canonical(a).Some? {
      CanonParses(ParseValue(a).value);
      if Canonical(b).Some? {
        CanonInjective(ParseValue(a).value, ParseValue(b).value);
      }
    }
  }

  /** The payload is the unsigned form itself: the second canonicalization changes nothing. */
  lemma PayloadIsUnsigned(text: Bytes)
    ensures Payload(text) == Unsigned(text)
    ensures ParseValue(text).Got? && ParseValue(text).value.Obj? ==>
              Payload(text) == Some(Canon(Obj(WithoutSignature(ParseValue(text).value.members))))
  {
    if Unsigned(text).Some? {
      var v := if ParseValue(text).value.Null? then Obj(map[]) else
                 Obj(WithoutSignature(ParseValue(text).value.members));
      CanonParses(v);
    }
  }

  ghost predicate AgreeButForSignature(m: map<string, Json>, n: map<string, Json>) {
    forall k :: k != "signature" ==> (k in m <==> k in n) && (k in m && k in n ==> m[k] == n[k])
  }

  lemma AgreeMeansEqualWithout(m: map<string, Json>, n: map<string, Json>)
    ensures AgreeButForSignature(m, n) <==> WithoutSignature(m) == WithoutSignature(n)
  {
    var p, q := WithoutSignature(m), WithoutSignature(n);
    if AgreeButForSignature(m, n) {
      assert p.Keys == q.Keys;
      assert p == q;
    }
    if p == q {
      forall k | k != "signature" ensures (k in m <==> k in n) && (k in m && k in n ==> m[k] == n[k]) {
        assert (k in m <==> k in p) && (k in n <==> k in q);
        assert (k in m ==> m[k] == p[k]) && (k in n ==> n[k] == q[k]);
      }
    }
  }

  /** Two objects have equal payloads exactly when they agree on every member but the top-level signature; signatures
      nested deeper are signed like anything else. */
  lemma PayloadsEqualIff(a: Bytes, b: Bytes)
    requires ParseValue(a).Got? && ParseValue(a).value.Obj?
    requires ParseValue(b).Got? && ParseValue(b).value.Obj?
    ensures Payload(a) == Payload(b) <==>
            AgreeButForSignature(ParseValue(a).value.members, ParseValue(b).value.members)
  {
    PayloadIsUnsigned(a);
    PayloadIsUnsigned(b);
    var m, n := ParseValue(a).value.members, ParseValue(b).value.members;
    CanonInjective(Obj(WithoutSignature(m)), Obj(WithoutSignature(n)));
    AgreeMeansEqualWithout(m, n);
  }
}
