/** JSON values with int64 numbers, and their canonical text. */
module Json {
  import opened Basics
  import opened Ordering
  import opened Utf8

  /** Strings are Unicode scalar values, as they come out of a decoder; an object is a map, so its members have no order. */
  datatype Json =
    | Null
    | Bool(b: bool)
    | Num(n: int64)
    | Str(s: string)
    | Arr(items: seq<Json>)
    | Obj(members: map<string, Json>)

  const QUOTE: byte := 0x22
  const BACKSLASH: byte := 0x5C
  const COMMA: byte := 0x2C
  const COLON: byte := 0x3A
  const LBRACKET: byte := 0x5B
  const RBRACKET: byte := 0x5D
  const LBRACE: byte := 0x7B
  const RBRACE: byte := 0x7D
  const MINUS: byte := 0x2D
  const NULL: Bytes := [0x6E, 0x75, 0x6C, 0x6C]
  const TRUE: Bytes := [0x74, 0x72, 0x75, 0x65]
  const FALSE: Bytes := [0x66, 0x61, 0x6C, 0x73, 0x65]

  /** The bytes are those of these characters. */
  lemma Punctuation()
    ensures [LBRACE as char, RBRACE as char, LBRACKET as char, RBRACKET as char, COLON as char, COMMA as char, QUOTE as char,
             BACKSLASH as char, MINUS as char] == "{}[]:,\"\\-"
    ensures Encode("null") == NULL && Encode("true") == TRUE && Encode("false") == FALSE
  {
    Letters(NULL, "null");
    Letters(TRUE, "true");
    Letters(FALSE, "false");
  }

  lemma {:induction false} Letters(b: Bytes, s: string)
    requires |b| == |s| && forall i :: 0 <= i < |s| ==> b[i] < 0x80 && b[i] as char == s[i]
    ensures Encode(s) == b
  {
    if s != [] {
      Letters(b[1..], s[1..]);
      assert b == [b[0]] + b[1..];
    }
  }

  /** Lower-case hexadecimal. */
  function HexDigit(n: nat): (d: byte)
    requires n < 16
    ensures IsHex(d) && HexValue(d) == n && !(0x41 <= d <= 0x46)
  {
    if n < 10 then (0x30 + n) as byte else (0x57 + n) as byte
  }

  /** Section 3.2.2.2 of RFC 8785: two-character escapes where there are any, \u00xx for other controls, and every other
      character as it is. */
  function EscapeRune(c: char): (b: Bytes)
    ensures b != []
  {
    if c == '\"' then [BACKSLASH, QUOTE]
    else if c == '\\' then [BACKSLASH, BACKSLASH]
    else if c == '\U{8}' then [BACKSLASH, 0x62]
    else if c == '\U{C}' then [BACKSLASH, 0x66]
    else if c == '\n' then [BACKSLASH, 0x6E]
    else if c == '\r' then [BACKSLASH, 0x72]
    else if c == '\t' then [BACKSLASH, 0x74]
    else if c < ' ' then [BACKSLASH, 0x75, 0x30, 0x30, HexDigit(c as int / 16), HexDigit(c as int % 16)]
    else EncodeRune(c)
  }

  /** Which characters are escaped, and how long an escape is; what it stands for is for a reader to say. */
  lemma EscapeLengths(c: char)
    ensures var escaped := EscapeRune(c);
            && (c in ['\"', '\\', '\U{8}', '\U{C}', '\n', '\r', '\t'] ==> |escaped| == 2)
            && (c < ' ' && c !in ['\U{8}', '\U{C}', '\n', '\r', '\t'] ==>
                  |escaped| == 6 && forall i :: 0 <= i < 6 ==> !(0x41 <= escaped[i] <= 0x46))
            && (c >= ' ' && c != '\"' && c != '\\' ==> escaped == EncodeRune(c))
  {
  }

  function Escape(s: string): Bytes {
    if s == [] then [] else EscapeRune(s[0]) + Escape(s[1..])
  }

  function Quoted(s: string): Bytes {
    [QUOTE] + Escape(s) + [QUOTE]
  }

  function Digits(n: nat): (b: Bytes)
    ensures b != [] && (b[0] == 0x30 <==> n == 0)
    ensures forall i :: 0 <= i < |b| ==> 0x30 <= b[i] <= 0x39
  {
    if n < 10 then [(0x30 + n) as byte] else Digits(n / 10) + [(0x30 + n % 10) as byte]
  }

  function FormatInt(n: int): Bytes {
    if n < 0 then [MINUS] + Digits(-n) else Digits(n)
  }

  /** The canonical text of a value: no space, members in byte order of their names. */
  ghost function Canon(v: Json): Bytes
    decreases v, 2, 0
  {
    match v
    case Null => NULL
    case Bool(b) => if b then TRUE else FALSE
    case Num(n) => FormatInt(n)
    case Str(s) => Quoted(s)
    case Arr(items) => [LBRACKET] + CanonItems(items) + [RBRACKET]
    case Obj(members) => [LBRACE] + CanonMembers(v, SortedNames(members)) + [RBRACE]
  }

  ghost function CanonItems(items: seq<Json>): Bytes
    decreases items, 0, 0
  {
    if items == [] then []
    else if |items| == 1 then Canon(items[0])
    else Canon(items[0]) + [COMMA] + CanonItems(items[1..])
  }

  ghost function SortedNames(members: map<string, Json>): (names: seq<string>)
    ensures Ascending(ByteOrder, names) && Elements(names) == members.Keys
  {
    ByteOrderIsStrict();
    SortedOf(ByteOrder, members.Keys)
  }

  /** The listed members of an object, in the order listed. */
  ghost function CanonMembers(v: Json, names: seq<string>): Bytes
    requires v.Obj? && forall i :: 0 <= i < |names| ==> names[i] in v.members
    decreases v, 1, |names|
  {
    if names == [] then []
    else if |names| == 1 then CanonMember(v, names[0])
    else CanonMember(v, names[0]) + [COMMA] + CanonMembers(v, names[1..])
  }

  ghost function CanonMember(v: Json, name: string): Bytes
    requires v.Obj? && name in v.members
    decreases v, 0, 0
  {
    Quoted(name) + [COLON] + Canon(v.members[name])
  }

  lemma NoneStraddles(names: seq<string>, p: string, q: string)
    requires Ascending(ByteOrder, names) && Ascending(Utf16Order, names) && p in names && q in names
    ensures !Straddles(p, q)
  {
    hide ByteOrder, Utf16Order, Straddles;
    var i :| 0 <= i < |names| && names[i] == p;
    var j :| 0 <= j < |names| && names[j] == q;
    StraddlesSymmetric(p, q);
    if i < j {
      ByteOrderIsUtf16OrderIff(p, q);
    } else if j < i {
      ByteOrderIsUtf16OrderIff(q, p);
    } else {
      StraddlesIrreflexive(p);
    }
  }

  /** The members of an object are written in the order section 3.2.3 of RFC 8785 asks for exactly when no two of their
      names straddle the surrogates. */
  lemma SortedNamesUtf16Iff(members: map<string, Json>)
    ensures Ascending(Utf16Order, SortedNames(members)) <==>
            forall p, q :: p in members && q in members ==> !Straddles(p, q)
  {
    hide ByteOrder, Utf16Order, Straddles;
    var names := SortedNames(members);
    assert forall k :: k in members <==> k in Elements(names);
    if Ascending(Utf16Order, names) {
      forall p, q | p in members && q in members ensures !Straddles(p, q) {
        NoneStraddles(names, p, q);
      }
    }
    if forall p, q :: p in members && q in members ==> !Straddles(p, q) {
      forall i, j | 0 <= i < j < |names| ensures Utf16Order(names[i], names[j]) {
        assert names[i] in Elements(names) && names[j] in Elements(names);
        ByteOrderIsUtf16OrderIff(names[i], names[j]);
      }
    }
  }
}
