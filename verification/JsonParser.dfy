/** A parser for JSON texts whose numbers are int64 integers, written from the grammar of RFC 8259 and independently of
    the printer; and the proof that it reads back what the printer writes. */
module JsonParser {
  import opened Basics
  import opened Ordering
  import opened Utf8
  import opened Json

  datatype Parsed<+T> = Fail | Got(value: T, rest: Bytes)

  predicate Space(b: byte) {
    b == 0x20 || b == 0x09 || b == 0x0A || b == 0x0D
  }

  function SkipSpace(b: Bytes): (r: Bytes)
    ensures |r| <= |b|
    ensures b == [] || !Space(b[0]) ==> r == b
  {
    if b != [] && Space(b[0]) then SkipSpace(b[1..]) else b
  }

  predicate Digit(b: byte) {
    0x30 <= b <= 0x39
  }

  /** One character of a string, escaped or not. Escaped surrogates are refused. */
  function ParseRune(b: Bytes): (r: Parsed<char>)
    requires b != []
    ensures r.Got? ==> |r.rest| < |b|
  {
    if b[0] == BACKSLASH then
      if |b| < 2 then Fail
      else if b[1] == QUOTE || b[1] == BACKSLASH || b[1] == 0x2F then Got(b[1] as char, b[2..])
      else if b[1] == 0x62 then Got('\U{8}', b[2..])
      else if b[1] == 0x66 then Got('\U{C}', b[2..])
      else if b[1] == 0x6E then Got('\n', b[2..])
      else if b[1] == 0x72 then Got('\r', b[2..])
      else if b[1] == 0x74 then Got('\t', b[2..])
      else if b[1] == 0x75 && |b| >= 6 then
        if IsHex(b[2]) && IsHex(b[3]) && IsHex(b[4]) && IsHex(b[5]) then
          var n := HexValue(b[2]) * 4096 + HexValue(b[3]) * 256 + HexValue(b[4]) * 16 + HexValue(b[5]);
          if Scalar(n) then Got(n as char, b[6..]) else Fail
        else Fail
      else Fail
    else if b[0] < 0x20 || b[0] == QUOTE then Fail
    else
      var decoded := DecodeRune(b);
      if decoded.Some? then Got(decoded.value.0, b[decoded.value.1..]) else Fail
  }

  /** The rest of a string, its opening quote already read. */
  function ParseString(b: Bytes): (r: Parsed<string>)
    ensures r.Got? ==> |r.rest| < |b|
    decreases |b|
  {
    if b == [] then Fail
    else if b[0] == QUOTE then Got([], b[1..])
    else
      var first := ParseRune(b);
      if first.Fail? then Fail
      else
        var more := ParseString(first.rest);
        if more.Fail? then Fail else Got([first.value] + more.value, more.rest)
  }

  function ScanDigits(b: Bytes, acc: nat): (r: (nat, Bytes))
    ensures |r.1| <= |b|
    ensures b != [] && Digit(b[0]) ==> |r.1| < |b|
    decreases |b|
  {
    if b != [] && Digit(b[0]) then ScanDigits(b[1..], acc * 10 + (b[0] as int - 0x30)) else (acc, b)
  }

  /** What cannot follow an integer: another digit, a fraction or an exponent. */
  predicate Continued(b: Bytes) {
    b != [] && (Digit(b[0]) || b[0] == 0x2E || b[0] == 0x65 || b[0] == 0x45)
  }

  function ParseNumber(b: Bytes): (r: Parsed<Json>)
    ensures r.Got? ==> |r.rest| < |b|
  {
    var negative := b != [] && b[0] == MINUS;
    var body := if negative then b[1..] else b;
    if body == [] || !Digit(body[0]) then Fail
    else
      var (n, rest) := if body[0] == 0x30 then (0, body[1..]) else ScanDigits(body, 0);
      var value: int := if negative then 0 - n as int else n;
      if Continued(rest) || !(-0x8000_0000_0000_0000 <= value < 0x8000_0000_0000_0000) then Fail
      else Got(Num(value), rest)
  }

  function ParseWord(b: Bytes, word: Bytes, v: Json): (r: Parsed<Json>)
    requires word != []
    ensures r.Got? ==> |r.rest| < |b|
  {
    if word <= b then Got(v, b[|word|..]) else Fail
  }

  /** One value, space before it allowed. */
  function ParseValue(text: Bytes): (r: Parsed<Json>)
    ensures r.Got? ==> |r.rest| < |text|
    decreases |text|, 3
  {
    var b := SkipSpace(text);
    if b == [] then Fail
    else if b[0] == 0x6E then ParseWord(b, NULL, Null)
    else if b[0] == 0x74 then ParseWord(b, TRUE, Bool(true))
    else if b[0] == 0x66 then ParseWord(b, FALSE, Bool(false))
    else if b[0] == QUOTE then
      var s := ParseString(b[1..]);
      if s.Fail? then Fail else Got(Str(s.value), s.rest)
    else if b[0] == LBRACKET then ParseArray(b[1..])
    else if b[0] == LBRACE then ParseObject(b[1..])
    else ParseNumber(b)
  }

  /** The rest of an array, its opening bracket already read. */
  function ParseArray(text: Bytes): (r: Parsed<Json>)
    ensures r.Got? ==> |r.rest| < |text|
    decreases |text|, 5
  {
    var inside := SkipSpace(text);
    if inside != [] && inside[0] == RBRACKET then Got(Arr([]), inside[1..])
    else
      var items := ParseItems(text);
      if items.Fail? then Fail else Got(Arr(items.value), items.rest)
  }

  function ParseObject(text: Bytes): (r: Parsed<Json>)
    ensures r.Got? ==> |r.rest| < |text|
    decreases |text|, 5
  {
    var inside := SkipSpace(text);
    if inside != [] && inside[0] == RBRACE then Got(Obj(map[]), inside[1..])
    else
      var members := ParseMembers(text, map[]);
      if members.Fail? then Fail else Got(Obj(members.value), members.rest)
  }

  function ParseItems(text: Bytes): (r: Parsed<seq<Json>>)
    ensures r.Got? ==> |r.rest| < |text|
    decreases |text|, 4
  {
    var first := ParseValue(text);
    if first.Fail? then Fail
    else
      var b := SkipSpace(first.rest);
      if b == [] then Fail
      else if b[0] == RBRACKET then Got([first.value], b[1..])
      else if b[0] == COMMA then
        var more := ParseItems(b[1..]);
        if more.Fail? then Fail else Got([first.value] + more.value, more.rest)
      else Fail
  }

  /** Members in any order; a name that is repeated keeps its last value. */
  function ParseMembers(text: Bytes, acc: map<string, Json>): (r: Parsed<map<string, Json>>)
    ensures r.Got? ==> |r.rest| < |text|
    decreases |text|, 4
  {
    var b := SkipSpace(text);
    if b == [] || b[0] != QUOTE then Fail
    else
      var name := ParseString(b[1..]);
      if name.Fail? then Fail
      else
        var afterName := SkipSpace(name.rest);
        if afterName == [] || afterName[0] != COLON then Fail
        else
          var value := ParseValue(afterName[1..]);
          if value.Fail? then Fail
          else
            var next := SkipSpace(value.rest);
            if next == [] then Fail
            else if next[0] == RBRACE then Got(acc[name.value := value.value], next[1..])
            else if next[0] == COMMA then ParseMembers(next[1..], acc[name.value := value.value])
            else Fail
  }

  // ------------------------------------------------------------------ reading back what was printed

  lemma EscapedRuneReadsBack(c: char, rest: Bytes)
    ensures ParseRune(EscapeRune(c) + rest) == Got(c, rest)
    ensures EscapeRune(c)[0] != QUOTE
  {
    if c >= ' ' && c != '\"' && c != '\\' {
      PlainRuneReadsBack(c, rest);
    } else if |EscapeRune(c)| == 2 {
      ShortEscapeReadsBack(c, rest);
    } else {
      LongEscapeReadsBack(c, rest);
    }
  }

  lemma ShortEscapeReadsBack(c: char, rest: Bytes)
    requires (c < ' ' || c == '\"' || c == '\\') && |EscapeRune(c)| == 2
    ensures ParseRune(EscapeRune(c) + rest) == Got(c, rest)
    ensures EscapeRune(c)[0] != QUOTE
  {
    hide DecodeRune, EncodeRune, HexValue, HexDigit;
    assert (EscapeRune(c) + rest)[2..] == rest;
  }

  lemma LongEscapeReadsBack(c: char, rest: Bytes)
    requires c < ' ' && |EscapeRune(c)| != 2
    ensures ParseRune(EscapeRune(c) + rest) == Got(c, rest)
    ensures EscapeRune(c)[0] != QUOTE
  {
    hide DecodeRune, EncodeRune;
    assert (EscapeRune(c) + rest)[6..] == rest;
  }

  lemma PlainRuneReadsBack(c: char, rest: Bytes)
    requires c >= ' ' && c != '\"' && c != '\\'
    ensures ParseRune(EncodeRune(c) + rest) == Got(c, rest)
    ensures EncodeRune(c)[0] != QUOTE
  {
    DecodeEncoded(c, rest);
    LeadByteIsPlain(c);
    hide DecodeRune, EncodeRune;
    assert (EncodeRune(c) + rest)[|EncodeRune(c)|..] == rest;
  }

  lemma LeadByteIsPlain(c: char)
    requires c >= ' ' && c != '\"' && c != '\\'
    ensures EncodeRune(c)[0] >= 0x20 && EncodeRune(c)[0] != QUOTE && EncodeRune(c)[0] != BACKSLASH
  {
  }

  lemma {:induction false} QuotedReadsBack(s: string, rest: Bytes)
    ensures ParseString(Escape(s) + [QUOTE] + rest) == Got(s, rest)
  {
    if s == [] {
      assert Escape(s) + [QUOTE] + rest == [QUOTE] + rest;
      assert ([QUOTE] + rest)[1..] == rest;
    } else {
      var tail := Escape(s[1..]) + [QUOTE] + rest;
      assert Escape(s) + [QUOTE] + rest == EscapeRune(s[0]) + tail;
      EscapedRuneReadsBack(s[0], tail);
      QuotedReadsBack(s[1..], rest);
      assert [s[0]] + s[1..] == s;
    }
  }

  lemma {:induction false} DigitsReadBack(n: nat, rest: Bytes)
    ensures ScanDigits(Digits(n) + rest, 0) == ScanDigits(rest, n)
    decreases n
  {
    if n < 10 {
      assert (Digits(n) + rest)[1..] == rest;
    } else {
      var last := [(0x30 + n % 10) as byte];
      assert Digits(n) + rest == Digits(n / 10) + (last + rest);
      DigitsReadBack(n / 10, last + rest);
      assert (last + rest)[1..] == rest;
    }
  }

  lemma MagnitudeReadsBack(m: nat, rest: Bytes)
    requires !Continued(rest)
    ensures var body := Digits(m) + rest;
            && Digit(body[0])
            && (if body[0] == 0x30 then (0, body[1..]) else ScanDigits(body, 0)) == (m, rest)
  {
    DigitsReadBack(m, rest);
    assert (Digits(0) + rest)[1..] == rest;
  }

  lemma PositiveReadsBack(m: nat, rest: Bytes)
    requires !Continued(rest) && m < 0x8000_0000_0000_0000
    ensures ParseNumber(Digits(m) + rest) == Got(Num(m), rest)
  {
    hide Digits, ScanDigits;
    MagnitudeReadsBack(m, rest);
  }

  lemma NegativeReadsBack(m: nat, rest: Bytes)
    requires !Continued(rest) && m <= 0x8000_0000_0000_0000
    ensures ParseNumber([MINUS] + Digits(m) + rest) == Got(Num(0 - m as int), rest)
  {
    hide Digits, ScanDigits;
    MagnitudeReadsBack(m, rest);
    assert ([MINUS] + Digits(m) + rest)[1..] == Digits(m) + rest;
  }

  lemma NumberReadsBack(n: int64, rest: Bytes)
    requires !Continued(rest)
    ensures ParseNumber(FormatInt(n) + rest) == Got(Num(n), rest)
  {
    if n < 0 {
      NegativeReadsBack(0 - n as int, rest);
    } else {
      PositiveReadsBack(n, rest);
    }
  }

  /** How canonical texts begin. */
  lemma FirstByte(v: Json)
    ensures Canon(v) != [] && !Space(Canon(v)[0]) && Canon(v)[0] != RBRACKET && Canon(v)[0] != RBRACE
  {
  }

  lemma ArrayInside(inner: Bytes, items: seq<Json>, rest: Bytes)
    requires inner != [] && !Space(inner[0]) && inner[0] != RBRACKET
    requires ParseItems(inner) == Got(items, rest)
    ensures ParseArray(inner) == Got(Arr(items), rest)
  {
  }

  lemma ObjectInside(inner: Bytes, members: map<string, Json>, rest: Bytes)
    requires inner != [] && !Space(inner[0]) && inner[0] != RBRACE
    requires ParseMembers(inner, map[]) == Got(members, rest)
    ensures ParseObject(inner) == Got(Obj(members), rest)
  {
  }

  lemma BracketStep(inner: Bytes, v: Json, rest: Bytes)
    ensures ParseArray(inner) == Got(v, rest) ==> ParseValue([LBRACKET] + inner) == Got(v, rest)
    ensures ParseObject(inner) == Got(v, rest) ==> ParseValue([LBRACE] + inner) == Got(v, rest)
  {
    assert ([LBRACKET] + inner)[1..] == inner && ([LBRACE] + inner)[1..] == inner;
  }

  lemma EmptyContainers(rest: Bytes)
    ensures ParseValue([LBRACKET, RBRACKET] + rest) == Got(Arr([]), rest)
    ensures ParseValue([LBRACE, RBRACE] + rest) == Got(Obj(map[]), rest)
  {
    var a, o := [LBRACKET, RBRACKET] + rest, [LBRACE, RBRACE] + rest;
    assert a[1..] == [RBRACKET] + rest && a[1..][1..] == rest;
    assert o[1..] == [RBRACE] + rest && o[1..][1..] == rest;
  }

  lemma ScalarReadsBack(v: Json, rest: Bytes)
    requires !v.Arr? && !v.Obj? && (v.Num? ==> !Continued(rest))
    ensures ParseValue(Canon(v) + rest) == Got(v, rest)
  {
    match v
    case Num(n) => NumReadsBack(n, rest);
    case Str(s) => StrReadsBack(s, rest);
    case _ => WordReadsBack(v, rest);
  }

  lemma WordReadsBack(v: Json, rest: Bytes)
    requires v.Null? || v.Bool?
    ensures ParseValue(Canon(v) + rest) == Got(v, rest)
  {
    hide ParseString, ParseNumber, ParseArray, ParseObject;
    var b := Canon(v) + rest;
    assert b[|Canon(v)|..] == rest;
  }

  lemma NumReadsBack(n: int64, rest: Bytes)
    requires !Continued(rest)
    ensures ParseValue(Canon(Num(n)) + rest) == Got(Num(n), rest)
  {
    NumberReadsBack(n, rest);
    hide ParseString, ParseNumber, ParseArray, ParseObject, ParseWord;
    FirstByte(Num(n));
  }

  lemma StrReadsBack(s: string, rest: Bytes)
    ensures ParseValue(Canon(Str(s)) + rest) == Got(Str(s), rest)
  {
    hide ParseString, ParseNumber, ParseArray, ParseObject, ParseWord, Escape;
    assert (Canon(Str(s)) + rest)[1..] == Escape(s) + [QUOTE] + rest;
    QuotedReadsBack(s, rest);
  }

  lemma BracketRegroups(left: Bytes, inside: Bytes, right: Bytes, rest: Bytes)
    ensures left + inside + right + rest == left + (inside + right + rest)
  {
  }

  /** Unique decodability: a canonical text is recognized as its value at the head of any text that does not continue a
      number. */
  lemma {:induction false} ReadsBack(v: Json, rest: Bytes)
    requires v.Num? ==> !Continued(rest)
    ensures ParseValue(Canon(v) + rest) == Got(v, rest)
    decreases v, 2, 0
  {
    hide ParseValue, Canon;
    if v.Arr? {
      ArrayReadsBack(v, rest);
    } else if v.Obj? {
      ObjectReadsBack(v, rest);
    } else {
      ScalarReadsBack(v, rest);
    }
  }

  lemma {:induction false} ArrayReadsBack(v: Json, rest: Bytes)
    requires v.Arr?
    ensures ParseValue(Canon(v) + rest) == Got(v, rest)
    decreases v, 1, 0
  {
    hide ParseValue, ParseArray, ParseItems, Canon, CanonItems;
    CanonOfArray(v);
    if v.items == [] {
      EmptyContainers(rest);
    } else {
      var inner := ItemsReadBack(v.items, rest);
      FirstByte(v.items[0]);
      ArrayInside(inner, v.items, rest);
      BracketStep(inner, v, rest);
      BracketRegroups([LBRACKET], CanonItems(v.items), [RBRACKET], rest);
    }
  }

  lemma CanonOfArray(v: Json)
    requires v.Arr?
    ensures Canon(v) == [LBRACKET] + CanonItems(v.items) + [RBRACKET]
    ensures v.items == [] ==> Canon(v) == [LBRACKET, RBRACKET]
  {
  }

  lemma CanonOfObject(v: Json)
    requires v.Obj?
    ensures Canon(v) == [LBRACE] + CanonMembers(v, SortedNames(v.members)) + [RBRACE]
    ensures SortedNames(v.members) == [] ==> Canon(v) == [LBRACE, RBRACE]
  {
    hide SortedNames;
  }

  lemma SortedNamesComplete(members: map<string, Json>)
    ensures map[] + Chosen(members, SortedNames(members)) == members
    ensures SortedNames(members) == [] ==> members == map[]
  {
    var names := SortedNames(members);
    assert forall k :: k in members <==> k in Elements(names);
  }

  lemma {:induction false} ObjectReadsBack(v: Json, rest: Bytes)
    requires v.Obj?
    ensures ParseValue(Canon(v) + rest) == Got(v, rest)
    decreases v, 1, 0
  {
    hide ParseValue, ParseObject, ParseMembers, Canon, CanonMembers, SortedNames, Chosen;
    var names := SortedNames(v.members);
    SortedNamesComplete(v.members);
    CanonOfObject(v);
    if names == [] {
      EmptyContainers(rest);
      assert v == Obj(map[]);
    } else {
      var inner := MembersReadBack(v, names, map[], rest);
      ObjectInside(inner, v.members, rest);
      BracketStep(inner, v, rest);
      BracketRegroups([LBRACE], CanonMembers(v, names), [RBRACE], rest);
    }
  }

  lemma ItemsStep(text: Bytes, first: Json, tail: Bytes, more: seq<Json>, rest: Bytes)
    requires ParseValue(text) == Got(first, tail) && tail != []
    requires tail[0] == RBRACKET || (tail[0] == COMMA && ParseItems(tail[1..]) == Got(more, rest))
    ensures tail[0] == RBRACKET ==> ParseItems(text) == Got([first], tail[1..])
    ensures tail[0] == COMMA ==> ParseItems(text) == Got([first] + more, rest)
  {
  }

  lemma ItemsText(items: seq<Json>, rest: Bytes) returns (tail: Bytes)
    requires items != []
    ensures CanonItems(items) + [RBRACKET] + rest == Canon(items[0]) + tail
    ensures |items| == 1 ==> tail == [RBRACKET] + rest && tail[1..] == rest
    ensures |items| > 1 ==>
              tail != [] && tail[0] == COMMA && tail[1..] == CanonItems(items[1..]) + [RBRACKET] + rest
  {
    var more := if |items| == 1 then rest else CanonItems(items[1..]) + [RBRACKET] + rest;
    tail := [if |items| == 1 then RBRACKET else COMMA] + more;
    assert tail[1..] == more;
  }

  lemma {:induction false} ItemsReadBack(items: seq<Json>, rest: Bytes) returns (text: Bytes)
    requires items != []
    ensures text == CanonItems(items) + [RBRACKET] + rest
    ensures Canon(items[0]) <= text
    ensures ParseItems(text) == Got(items, rest)
    decreases items, 0, 0
  {
    hide ParseValue, ParseItems, Canon, CanonItems;
    var tail := ItemsText(items, rest);
    text := CanonItems(items) + [RBRACKET] + rest;
    ReadsBack(items[0], tail);
    if |items| > 1 {
      var more := ItemsReadBack(items[1..], rest);
    }
    ItemsStep(text, items[0], tail, items[1..], rest);
    assert [items[0]] + items[1..] == items && (|items| == 1 ==> items == [items[0]]);
  }

  /** The members with the given names. */
  function Chosen(members: map<string, Json>, names: seq<string>): map<string, Json>
    requires forall i :: 0 <= i < |names| ==> names[i] in members
  {
    map k | k in names :: members[k]
  }

  lemma AtOnce(b: Bytes)
    ensures b != [] && (b[0] == QUOTE || b[0] == COLON || b[0] == COMMA || b[0] == RBRACE) ==> SkipSpace(b) == b
  {
  }

  lemma MembersStep(text: Bytes, acc: map<string, Json>, name: string, afterName: Bytes, value: Json, tail: Bytes,
                    more: map<string, Json>, rest: Bytes)
    requires text != [] && text[0] == QUOTE && ParseString(text[1..]) == Got(name, afterName)
    requires afterName != [] && afterName[0] == COLON && ParseValue(afterName[1..]) == Got(value, tail)
    requires tail != []
    requires tail[0] == RBRACE ||
             (tail[0] == COMMA && ParseMembers(tail[1..], acc[name := value]) == Got(more, rest))
    ensures tail[0] == RBRACE ==> ParseMembers(text, acc) == Got(acc[name := value], tail[1..])
    ensures tail[0] == COMMA ==> ParseMembers(text, acc) == Got(more, rest)
  {
    hide ParseString, ParseValue, SkipSpace;
    AtOnce(text);
    AtOnce(afterName);
    AtOnce(tail);
  }

  lemma MembersText(v: Json, names: seq<string>, rest: Bytes) returns (afterName: Bytes, tail: Bytes)
    requires v.Obj? && names != [] && forall i :: 0 <= i < |names| ==> names[i] in v.members
    ensures var text := CanonMembers(v, names) + [RBRACE] + rest;
            text[0] == QUOTE && text[1..] == Escape(names[0]) + [QUOTE] + afterName
    ensures afterName != [] && afterName[0] == COLON && afterName[1..] == Canon(v.members[names[0]]) + tail
    ensures |names| == 1 ==> tail == [RBRACE] + rest && tail[1..] == rest
    ensures |names| > 1 ==> tail != [] && tail[0] == COMMA && tail[1..] == CanonMembers(v, names[1..]) + [RBRACE] + rest
  {
    var more := if |names| == 1 then rest else CanonMembers(v, names[1..]) + [RBRACE] + rest;
    tail := [if |names| == 1 then RBRACE else COMMA] + more;
    afterName := [COLON] + (Canon(v.members[names[0]]) + tail);
    MemberRegroups(Escape(names[0]), Canon(v.members[names[0]]), tail);
    var text := CanonMembers(v, names) + [RBRACE] + rest;
    assert text == CanonMember(v, names[0]) + tail;
    assert text == [QUOTE] + (Escape(names[0]) + [QUOTE] + afterName);
  }

  lemma MemberRegroups(name: Bytes, value: Bytes, tail: Bytes)
    ensures ([QUOTE] + name + [QUOTE]) + [COLON] + value + tail
            == [QUOTE] + (name + [QUOTE] + ([COLON] + (value + tail)))
  {
  }

  lemma {:induction false} MembersReadBack(v: Json, names: seq<string>, acc: map<string, Json>, rest: Bytes)
    returns (text: Bytes)
    requires v.Obj? && names != [] && forall i :: 0 <= i < |names| ==> names[i] in v.members
    ensures text == CanonMembers(v, names) + [RBRACE] + rest
    ensures text[0] == QUOTE && ParseMembers(text, acc) == Got(acc + Chosen(v.members, names), rest)
    decreases v, 0, |names|
  {
    hide ParseValue, ParseMembers, ParseString, Canon, CanonMembers, Escape, Chosen;
    var afterName, tail := MembersText(v, names, rest);
    text := CanonMembers(v, names) + [RBRACE] + rest;
    var name, value := names[0], v.members[names[0]];
    var next := acc[name := value];
    QuotedReadsBack(name, afterName);
    ReadsBack(value, tail);
    if |names| == 1 {
      MembersStep(text, acc, name, afterName, value, tail, next, rest);
    } else {
      var more := MembersReadBack(v, names[1..], next, rest);
      MembersStep(text, acc, name, afterName, value, tail, next + Chosen(v.members, names[1..]), rest);
    }
    ChosenFirst(v.members, names, acc);
  }

  lemma ChosenFirst(members: map<string, Json>, names: seq<string>, acc: map<string, Json>)
    requires names != [] && forall i :: 0 <= i < |names| ==> names[i] in members
    ensures acc + Chosen(members, names) == acc[names[0] := members[names[0]]] + Chosen(members, names[1..])
    ensures |names| == 1 ==> acc + Chosen(members, names) == acc[names[0] := members[names[0]]]
  {
    assert names == [names[0]] + names[1..];
  }

  /** Two values with the same canonical text are the same value. */
  lemma CanonInjective(v: Json, w: Json)
    ensures Canon(v) == Canon(w) <==> v == w
  {
    if Canon(v) == Canon(w) {
      assert Canon(v) + [] == Canon(v) && Canon(w) + [] == Canon(w);
      ReadsBack(v, []);
      ReadsBack(w, []);
    }
  }
}
