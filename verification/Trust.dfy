/** Trust snapshots: validation of bindings, the text that is fingerprinted, and the store that replaces them. */
module Trust {
  import opened Basics
  import opened Ordering
  import Utf8

  const KEY_SIZE := 32

  datatype KeyBinding = KeyBinding(keyId: Bytes, publicKey: Bytes)

  datatype TrustSnapshot = TrustSnapshot(revision: nat, keys: map<Bytes, Bytes>, fingerprint: string)

  datatype TrustError =
    | EmptyTrustSnapshot | InvalidKeyId | InvalidPublicKey | ConflictingKeyBinding | InvalidTrustSnapshot
    | RevisionRollback | RevisionConflict | KeyNotFound | TrustNotReady

  datatype Result<+T> = Ok(value: T) | Err(error: TrustError)

  predicate WellFormed(keys: map<Bytes, Bytes>) {
    keys != map[] && forall id :: id in keys ==> id != [] && |keys[id]| == KEY_SIZE
  }

  /** What is hashed for a list of ids: each id and its key, both closed by a zero byte. */
  function Spell(ids: seq<Bytes>, keys: map<Bytes, Bytes>): Bytes
    requires forall i :: 0 <= i < |ids| ==> ids[i] in keys
  {
    if ids == [] then [] else ids[0] + [0] + keys[ids[0]] + [0] + Spell(ids[1..], keys)
  }

  ghost function SortedIds(keys: map<Bytes, Bytes>): (ids: seq<Bytes>)
    ensures Ascending(LexLess, ids) && Elements(ids) == keys.Keys
    ensures forall i :: 0 <= i < |ids| ==> ids[i] in keys
  {
    LexIsStrictOrder();
    var ids := SortedOf(LexLess, keys.Keys);
    assert forall i :: 0 <= i < |ids| ==> ids[i] in Elements(ids);
    ids
  }

  ghost function Preimage(keys: map<Bytes, Bytes>): Bytes {
    Spell(SortedIds(keys), keys)
  }

  ghost predicate Valid(s: TrustSnapshot, hash: Bytes -> string) {
    WellFormed(s.keys) && s.fingerprint != "" && s.fingerprint == hash(Preimage(s.keys))
  }

  // ------------------------------------------------------------------ building a snapshot

  /** What is wrong with binding i, given those before it. */
  ghost function Fault(bindings: seq<KeyBinding>, i: nat): Option<TrustError>
    requires i < |bindings|
  {
    if bindings[i].keyId == [] then Some(InvalidKeyId)
    else if |bindings[i].publicKey| != KEY_SIZE then Some(InvalidPublicKey)
    else if exists j :: 0 <= j < i && bindings[j].keyId == bindings[i].keyId
                        && bindings[j].publicKey != bindings[i].publicKey then Some(ConflictingKeyBinding)
    else None
  }

  ghost predicate Faultless(bindings: seq<KeyBinding>) {
    forall i :: 0 <= i < |bindings| ==> Fault(bindings, i).None?
  }

  /** Every binding is complete, and no two of them give one id two keys. */
  lemma FaultlessIff(bindings: seq<KeyBinding>)
    ensures Faultless(bindings) <==>
            && (forall b :: b in bindings ==> b.keyId != [] && |b.publicKey| == KEY_SIZE)
            && (forall b, c :: b in bindings && c in bindings && b.keyId == c.keyId ==> b == c)
  {
    if forall b :: b in bindings ==> b.keyId != [] && |b.publicKey| == KEY_SIZE {
      if b, c :| b in bindings && c in bindings && b.keyId == c.keyId && b != c {
        var i :| 0 <= i < |bindings| && bindings[i] == b;
        var j :| 0 <= j < |bindings| && bindings[j] == c;
        assert i < j ==> Fault(bindings, j).Some?;
        assert j < i ==> Fault(bindings, i).Some?;
      }
    } else {
      var i :| 0 <= i < |bindings| && (bindings[i].keyId == [] || |bindings[i].publicKey| != KEY_SIZE);
      assert Fault(bindings, i).Some?;
    }
  }

  /** The map holds exactly these bindings. */
  ghost predicate Holds(keys: map<Bytes, Bytes>, bindings: seq<KeyBinding>) {
    && (forall i :: 0 <= i < |bindings| ==> bindings[i].keyId in keys && keys[bindings[i].keyId] == bindings[i].publicKey)
    && (forall id :: id in keys ==> exists i :: 0 <= i < |bindings| && bindings[i].keyId == id)
  }

  method FingerprintKeys(keys: map<Bytes, Bytes>, hash: Bytes -> string) returns (f: string)
    ensures f == hash(Preimage(keys))
  {
    var ids: seq<Bytes> := [];
    var left := keys.Keys;
    while left != {}
      invariant left <= keys.Keys && Distinct(ids) && Elements(ids) == keys.Keys - left
      decreases left
    {
      var id :| id in left;
      assert id !in Elements(ids);
      AppendNew(ids, id);
      ids := ids + [id];
      left := left - {id};
    }
    LexIsStrictOrder();
    ids := Sort(LexLess, ids);
    PreimageIs(keys, ids);
    var written := Write(ids, keys);
    return hash(written);
  }

  /** Writes ids and keys one after the other, as into a running hash. */
  method Write(ids: seq<Bytes>, keys: map<Bytes, Bytes>) returns (written: Bytes)
    requires forall i :: 0 <= i < |ids| ==> ids[i] in keys
    ensures written == Spell(ids, keys)
  {
    written := [];
    for i := 0 to |ids|
      invariant written + Spell(ids[i..], keys) == Spell(ids, keys)
    {
      assert ids[i..][1..] == ids[i + 1..];
      SpellRegroups(written, ids[i], keys[ids[i]], Spell(ids[i + 1..], keys));
      written := written + ids[i] + [0] + keys[ids[i]] + [0];
    }
    assert written + [] == written;
  }

  /** Any ascending list of the ids is the one that is spelled. */
  lemma PreimageIs(keys: map<Bytes, Bytes>, ids: seq<Bytes>)
    requires Ascending(LexLess, ids) && Elements(ids) == keys.Keys
    ensures forall i :: 0 <= i < |ids| ==> ids[i] in keys
    ensures Preimage(keys) == Spell(ids, keys)
  {
    LexIsStrictOrder();
    AscendingUnique(LexLess, ids, SortedIds(keys));
  }

  lemma SpellRegroups(before: Bytes, id: Bytes, key: Bytes, rest: Bytes)
    ensures before + id + [0] + key + [0] + rest == before + (id + [0] + key + [0] + rest)
  {
  }

  lemma Associates(p: Bytes, q: Bytes, r: Bytes)
    ensures p + (q + r) == (p + q) + r
  {
  }

  lemma SpellOne(id: Bytes, keys: map<Bytes, Bytes>)
    requires id in keys
    ensures Spell([id], keys) == id + [0] + keys[id] + [0]
  {
    assert [id][1..] == [];
    assert id + [0] + keys[id] + [0] + [] == id + [0] + keys[id] + [0];
  }

  lemma SpellTwo(a: Bytes, b: Bytes, keys: map<Bytes, Bytes>)
    requires a in keys && b in keys
    ensures Spell([a, b], keys) == a + [0] + keys[a] + [0] + (b + [0] + keys[b] + [0])
  {
    assert [a, b][1..] == [b];
    SpellOne(b, keys);
  }

  /** Accepts the bindings exactly when each is fine on its own and none contradicts an earlier one; the first that is not
      decides the error. The snapshot holds exactly these bindings, so their order and repetitions do not matter. */
  method NewSnapshot(revision: nat, bindings: seq<KeyBinding>, hash: Bytes -> string) returns (r: Result<TrustSnapshot>)
    requires forall b :: hash(b) != ""
    ensures r.Ok? <==> bindings != [] && Faultless(bindings)
    ensures r.Ok? ==> Valid(r.value, hash) && r.value.revision == revision && Holds(r.value.keys, bindings)
    ensures r.Err? && bindings == [] ==> r.error == EmptyTrustSnapshot
    ensures r.Err? && bindings != [] ==>
              exists i :: 0 <= i < |bindings| && Fault(bindings, i) == Some(r.error) && Faultless(bindings[..i])
    ensures r.Err? && bindings != [] ==>
              match r.error
              case InvalidKeyId => exists b :: b in bindings && b.keyId == []
              case InvalidPublicKey => exists b :: b in bindings && b.keyId != [] && |b.publicKey| != 32
              case ConflictingKeyBinding =>
                exists b, c :: b in bindings && c in bindings && b.keyId == c.keyId && b.publicKey != c.publicKey
              case _ => false
  {
    if |bindings| == 0 {
      return Err(EmptyTrustSnapshot);
    }
    var keys: map<Bytes, Bytes> := map[];
    for i := 0 to |bindings|
      invariant Holds(keys, bindings[..i]) && Faultless(bindings[..i])
      invariant forall id :: id in keys ==> id != [] && |keys[id]| == KEY_SIZE
    {
      var binding := bindings[i];
      assert bindings[..i + 1] == bindings[..i] + [binding];
      if binding.keyId == [] {
        assert Fault(bindings, i) == Some(InvalidKeyId);
        return Err(InvalidKeyId);
      }
      if |binding.publicKey| != KEY_SIZE {
        assert Fault(bindings, i) == Some(InvalidPublicKey);
        return Err(InvalidPublicKey);
      }
      if binding.keyId in keys && keys[binding.keyId] != binding.publicKey {
        var j :| 0 <= j < i && bindings[..i][j].keyId == binding.keyId;
        assert bindings[j].publicKey == keys[binding.keyId];
        assert Fault(bindings, i) == Some(ConflictingKeyBinding);
        return Err(ConflictingKeyBinding);
      }
      FaultlessExtends(bindings, i, keys);
      HoldsExtends(keys, bindings[..i], binding);
      keys := keys[binding.keyId := binding.publicKey];
    }
    assert bindings[..|bindings|] == bindings;
    assert bindings[0].keyId in keys;
    var fingerprint := FingerprintKeys(keys, hash);
    return Ok(TrustSnapshot(revision, keys, fingerprint));
  }

  lemma FaultlessExtends(bindings: seq<KeyBinding>, i: nat, keys: map<Bytes, Bytes>)
    requires i < |bindings| && Faultless(bindings[..i]) && Holds(keys, bindings[..i])
    requires bindings[i].keyId != [] && |bindings[i].publicKey| == KEY_SIZE
    requires bindings[i].keyId in keys ==> keys[bindings[i].keyId] == bindings[i].publicKey
    ensures Faultless(bindings[..i + 1])
  {
    var more := bindings[..i + 1];
    forall k | 0 <= k < |more| ensures Fault(more, k).None? {
      if k < i {
        assert Fault(bindings[..i], k).None?;
      } else {
        assert forall j :: 0 <= j < i ==> more[j] == bindings[..i][j];
      }
    }
  }

  lemma HoldsExtends(keys: map<Bytes, Bytes>, bindings: seq<KeyBinding>, b: KeyBinding)
    requires Holds(keys, bindings) && (b.keyId in keys ==> keys[b.keyId] == b.publicKey)
    ensures Holds(keys[b.keyId := b.publicKey], bindings + [b])
  {
    var more, wider := bindings + [b], keys[b.keyId := b.publicKey];
    forall id | id in wider ensures exists i :: 0 <= i < |more| && more[i].keyId == id {
      if id == b.keyId {
        assert more[|bindings|].keyId == id;
      } else {
        var i :| 0 <= i < |bindings| && bindings[i].keyId == id;
        assert more[i].keyId == id;
      }
    }
  }

  /** Lists of the same bindings, in whatever order and however often repeated, make the same map. */
  lemma OrderDoesNotMatter(m: map<Bytes, Bytes>, n: map<Bytes, Bytes>, a: seq<KeyBinding>, b: seq<KeyBinding>)
    requires Holds(m, a) && Holds(n, b)
    requires forall x :: x in a <==> x in b
    ensures m == n
  {
    forall id | id in m ensures id in n && n[id] == m[id] {
      var i :| 0 <= i < |a| && a[i].keyId == id;
      assert a[i] in b;
    }
    forall id | id in n ensures id in m {
      var i :| 0 <= i < |b| && b[i].keyId == id;
      assert b[i] in a;
    }
  }

  // ------------------------------------------------------------------ the fingerprinted text

  predicate NulFree(id: Bytes) {
    forall i :: 0 <= i < |id| ==> id[i] != 0
  }

  predicate NulFreeKeys(keys: map<Bytes, Bytes>) {
    forall id :: id in keys ==> NulFree(id)
  }

  lemma {:induction false} NulEndsId(a: Bytes, b: Bytes, x: Bytes, y: Bytes)
    requires NulFree(a) && NulFree(b) && a + [0] + x == b + [0] + y
    ensures a == b && x == y
  {
    var p, q := a + [0] + x, b + [0] + y;
    assert p[|a|] == 0 && q[|b|] == 0;
    assert forall k :: 0 <= k < |a| ==> p[k] != 0;
    assert forall k :: 0 <= k < |b| ==> q[k] != 0;
    assert a == p[..|a|] && b == q[..|b|];
    assert x == p[|a| + 1..] && y == q[|b| + 1..];
  }

  lemma KeyEnds(x: Bytes, y: Bytes, s: Bytes, t: Bytes)
    requires x + [0] + s == y + [0] + t && |x| == |y|
    ensures x == y && s == t
  {
    var p, q := x + [0] + s, y + [0] + t;
    assert p[..|x|] == x && q[..|y|] == y && p[|x| + 1..] == s && q[|y| + 1..] == t;
  }

  lemma KeyRegroups(id: Bytes, key: Bytes, rest: Bytes)
    ensures id + [0] + key + [0] + rest == id + [0] + (key + [0] + rest)
  {
  }

  lemma {:induction false} SpellInjective(ids: seq<Bytes>, m: map<Bytes, Bytes>, jds: seq<Bytes>, n: map<Bytes, Bytes>)
    requires forall i :: 0 <= i < |ids| ==> ids[i] in m && NulFree(ids[i]) && |m[ids[i]]| == KEY_SIZE
    requires forall i :: 0 <= i < |jds| ==> jds[i] in n && NulFree(jds[i]) && |n[jds[i]]| == KEY_SIZE
    requires Spell(ids, m) == Spell(jds, n)
    ensures ids == jds && forall i :: 0 <= i < |ids| ==> m[ids[i]] == n[ids[i]]
  {
    if ids != [] && jds != [] {
      var x, y := m[ids[0]] + [0] + Spell(ids[1..], m), n[jds[0]] + [0] + Spell(jds[1..], n);
      KeyRegroups(ids[0], m[ids[0]], Spell(ids[1..], m));
      KeyRegroups(jds[0], n[jds[0]], Spell(jds[1..], n));
      NulEndsId(ids[0], jds[0], x, y);
      KeyEnds(m[ids[0]], n[jds[0]], Spell(ids[1..], m), Spell(jds[1..], n));
      SpellInjective(ids[1..], m, jds[1..], n);
      assert ids == [ids[0]] + ids[1..] && jds == [jds[0]] + jds[1..];
    }
  }

  /** As long as no id contains a zero byte the fingerprinted text determines the key map. */
  lemma PreimageInjective(m: map<Bytes, Bytes>, n: map<Bytes, Bytes>)
    requires WellFormed(m) && WellFormed(n) && NulFreeKeys(m) && NulFreeKeys(n)
    ensures Preimage(m) == Preimage(n) <==> m == n
  {
    if Preimage(m) == Preimage(n) {
      SpellInjective(SortedIds(m), m, SortedIds(n), n);
      assert m.Keys == n.Keys;
      forall id | id in m ensures m[id] == n[id] {
        assert id in Elements(SortedIds(m));
      }
    }
  }

  // ------------------------------------------------------------------ when it does not

  /** An id and its key folded into the id that follows. */
  function Folded(a: Bytes, x: Bytes, b: Bytes): Bytes {
    a + [0] + x + [0] + b
  }

  /** What follows a zero-free id in order still follows whatever continues the id with a zero byte. */
  lemma {:induction false} ContinuedBefore(a: Bytes, t: Bytes, c: Bytes)
    requires LexLess(a, c) && NulFree(c)
    ensures LexLess(a + [0] + t, c)
  {
    if a != [] && a[0] == c[0] {
      ContinuedBefore(a[1..], t, c[1..]);
      assert (a + [0] + t)[1..] == a[1..] + [0] + t;
    }
  }

  lemma {:induction false} ContinuedAfter(p: Bytes, a: Bytes, t: Bytes)
    requires LexLess(p, a)
    ensures LexLess(p, a + t)
  {
    if p != [] && p[0] == a[0] {
      ContinuedAfter(p[1..], a[1..], t);
      assert (a + t)[1..] == a[1..] + t;
    }
  }

  lemma {:induction false} SpellSplits(first: seq<Bytes>, second: seq<Bytes>, keys: map<Bytes, Bytes>)
    requires forall i :: 0 <= i < |first| ==> first[i] in keys
    requires forall i :: 0 <= i < |second| ==> second[i] in keys
    ensures Spell(first + second, keys) == Spell(first, keys) + Spell(second, keys)
  {
    if first == [] {
      assert first + second == second;
    } else {
      SpellSplits(first[1..], second, keys);
      assert (first + second)[1..] == first[1..] + second;
      Associates(first[0] + [0] + keys[first[0]] + [0], Spell(first[1..], keys), Spell(second, keys));
    }
  }

  lemma SpellAround(front: seq<Bytes>, inner: seq<Bytes>, rest: seq<Bytes>, keys: map<Bytes, Bytes>)
    requires forall i :: 0 <= i < |front| ==> front[i] in keys
    requires forall i :: 0 <= i < |inner| ==> inner[i] in keys
    requires forall i :: 0 <= i < |rest| ==> rest[i] in keys
    ensures forall i :: 0 <= i < |front + inner + rest| ==> (front + inner + rest)[i] in keys
    ensures Spell(front + inner + rest, keys) == Spell(front, keys) + Spell(inner, keys) + Spell(rest, keys)
  {
    SpellSplits(front + inner, rest, keys);
    SpellSplits(front, inner, keys);
  }

  lemma {:induction false} SpellAgrees(ids: seq<Bytes>, m: map<Bytes, Bytes>, n: map<Bytes, Bytes>)
    requires forall i :: 0 <= i < |ids| ==> ids[i] in m && ids[i] in n && m[ids[i]] == n[ids[i]]
    ensures Spell(ids, m) == Spell(ids, n)
  {
    if ids != [] {
      SpellAgrees(ids[1..], m, n);
    }
  }

  lemma FoldRegroups(a: Bytes, x: Bytes, b: Bytes, y: Bytes)
    ensures a + [0] + x + [0] + (b + [0] + y + [0]) == Folded(a, x, b) + [0] + y + [0]
  {
  }

  /** The ids with the two at position i folded into one. */
  function FoldedIds(ids: seq<Bytes>, keys: map<Bytes, Bytes>, i: nat): seq<Bytes>
    requires i + 1 < |ids| && ids[i] in keys
  {
    ids[..i] + [Folded(ids[i], keys[ids[i]], ids[i + 1])] + ids[i + 2..]
  }

  lemma FoldedAscending(ids: seq<Bytes>, keys: map<Bytes, Bytes>, i: nat)
    requires Ascending(LexLess, ids) && i + 1 < |ids| && ids[i] in keys
    requires forall k :: i + 2 <= k < |ids| ==> NulFree(ids[k])
    ensures Ascending(LexLess, FoldedIds(ids, keys, i))
  {
    var folded, t := Folded(ids[i], keys[ids[i]], ids[i + 1]), keys[ids[i]] + [0] + ids[i + 1];
    assert folded == ids[i] + [0] + t && folded == ids[i] + ([0] + t);
    forall k | 0 <= k < i ensures LexLess(ids[k], folded) {
      ContinuedAfter(ids[k], ids[i], [0] + t);
    }
    forall k | i + 2 <= k < |ids| ensures LexLess(folded, ids[k]) {
      ContinuedBefore(ids[i], t, ids[k]);
    }
  }

  /** The key map with two neighbouring ids folded into one, which keeps the key of the second. */
  ghost function FoldAt(m: map<Bytes, Bytes>, i: nat): map<Bytes, Bytes>
    requires i + 1 < |SortedIds(m)|
  {
    var ids := SortedIds(m);
    (m - {ids[i], ids[i + 1]})[Folded(ids[i], m[ids[i]], ids[i + 1]) := m[ids[i + 1]]]
  }

  lemma FoldedMembers(ids: seq<Bytes>, folded: Bytes, i: nat, id: Bytes)
    requires Distinct(ids) && i + 1 < |ids|
    ensures id in ids[..i] + [folded] + ids[i + 2..] <==>
            id == folded || (id in ids && id != ids[i] && id != ids[i + 1])
  {
    assert ids == ids[..i] + [ids[i], ids[i + 1]] + ids[i + 2..];
    if id in ids[..i] {
      var k :| 0 <= k < i && ids[..i][k] == id;
      assert ids[k] == id;
    }
    if id in ids[i + 2..] {
      var k :| 0 <= k < |ids| - i - 2 && ids[i + 2..][k] == id;
      assert ids[i + 2 + k] == id;
    }
  }

  lemma SortedIdsDistinct(m: map<Bytes, Bytes>)
    ensures Distinct(SortedIds(m))
    ensures forall id :: id in SortedIds(m) <==> id in m
  {
    var ids := SortedIds(m);
    forall p, q | 0 <= p < q < |ids| ensures ids[p] != ids[q] {
      LexIrreflexive(ids[p]);
    }
    assert forall id :: id in ids <==> id in Elements(ids);
  }

  lemma FoldedElements(m: map<Bytes, Bytes>, i: nat)
    requires i + 1 < |SortedIds(m)|
    ensures Elements(FoldedIds(SortedIds(m), m, i)) == FoldAt(m, i).Keys
  {
    var ids := SortedIds(m);
    SortedIdsDistinct(m);
    forall id ensures id in Elements(FoldedIds(ids, m, i)) <==> id in FoldAt(m, i).Keys {
      FoldedMembers(ids, Folded(ids[i], m[ids[i]], ids[i + 1]), i, id);
    }
  }

  lemma FoldWellFormed(m: map<Bytes, Bytes>, i: nat)
    requires WellFormed(m) && i + 1 < |SortedIds(m)|
    ensures WellFormed(FoldAt(m, i))
  {
    var ids := SortedIds(m);
    assert Folded(ids[i], m[ids[i]], ids[i + 1]) in FoldAt(m, i);
  }

  /** Folding two neighbouring ids leaves the text as it is, as long as the ids behind them are free of zero bytes. */
  lemma FoldSpellsAlike(m: map<Bytes, Bytes>, i: nat)
    requires WellFormed(m) && i + 1 < |SortedIds(m)|
    requires forall k :: i + 2 <= k < |SortedIds(m)| ==> NulFree(SortedIds(m)[k])
    ensures WellFormed(FoldAt(m, i)) && FoldAt(m, i) != m && Preimage(FoldAt(m, i)) == Preimage(m)
    ensures SortedIds(FoldAt(m, i)) == FoldedIds(SortedIds(m), m, i)
  {
    FoldWellFormed(m, i);
    FoldSorts(m, i);
    FoldPreimage(m, i);
    assert SortedIds(FoldAt(m, i)) != SortedIds(m);
  }

  lemma FoldSorts(m: map<Bytes, Bytes>, i: nat)
    requires i + 1 < |SortedIds(m)|
    requires forall k :: i + 2 <= k < |SortedIds(m)| ==> NulFree(SortedIds(m)[k])
    ensures SortedIds(FoldAt(m, i)) == FoldedIds(SortedIds(m), m, i)
    ensures |SortedIds(FoldAt(m, i))| == |SortedIds(m)| - 1
  {
    FoldedAscending(SortedIds(m), m, i);
    FoldedElements(m, i);
    LexIsStrictOrder();
    AscendingUnique(LexLess, FoldedIds(SortedIds(m), m, i), SortedIds(FoldAt(m, i)));
  }

  lemma FoldPreimage(m: map<Bytes, Bytes>, i: nat)
    requires i + 1 < |SortedIds(m)|
    requires forall k :: i + 2 <= k < |SortedIds(m)| ==> NulFree(SortedIds(m)[k])
    ensures Preimage(FoldAt(m, i)) == Preimage(m)
  {
    FoldSorts(m, i);
    var ids, n := SortedIds(m), FoldAt(m, i);
    var folded := Folded(ids[i], m[ids[i]], ids[i + 1]);
    SortedIdsDistinct(m);
    SortedIdsDistinct(n);
    forall k | 0 <= k < |ids| && k != i && k != i + 1 ensures ids[k] in n && n[ids[k]] == m[ids[k]] {
      FoldedKeepsOthers(m, i, k);
    }
    FoldedText(m, n, ids, i);
  }

  lemma FoldedKeepsOthers(m: map<Bytes, Bytes>, i: nat, k: nat)
    requires i + 1 < |SortedIds(m)| && k < |SortedIds(m)| && k != i && k != i + 1
    requires forall k :: i + 2 <= k < |SortedIds(m)| ==> NulFree(SortedIds(m)[k])
    ensures SortedIds(m)[k] in FoldAt(m, i) && FoldAt(m, i)[SortedIds(m)[k]] == m[SortedIds(m)[k]]
  {
    var ids, next := SortedIds(m), SortedIds(FoldAt(m, i));
    FoldSorts(m, i);
    SortedIdsDistinct(m);
    SortedIdsDistinct(FoldAt(m, i));
    FoldedPlaces(ids, m, i, k);
    hide FoldedIds, Folded;
    assert next[i] != next[if k < i then k else k - 1];
  }

  lemma FoldedPlaces(ids: seq<Bytes>, keys: map<Bytes, Bytes>, i: nat, k: nat)
    requires i + 1 < |ids| && ids[i] in keys && k < |ids| && k != i && k != i + 1
    ensures |FoldedIds(ids, keys, i)| == |ids| - 1
    ensures FoldedIds(ids, keys, i)[i] == Folded(ids[i], keys[ids[i]], ids[i + 1])
    ensures FoldedIds(ids, keys, i)[if k < i then k else k - 1] == ids[k]
  {
  }

  lemma FoldedText(m: map<Bytes, Bytes>, n: map<Bytes, Bytes>, ids: seq<Bytes>, i: nat)
    requires i + 1 < |ids| && forall k :: 0 <= k < |ids| ==> ids[k] in m
    requires var folded := Folded(ids[i], m[ids[i]], ids[i + 1]); folded in n && n[folded] == m[ids[i + 1]]
    requires forall k :: 0 <= k < |ids| && k != i && k != i + 1 ==> ids[k] in n && n[ids[k]] == m[ids[k]]
    ensures forall k :: 0 <= k < |FoldedIds(ids, m, i)| ==> FoldedIds(ids, m, i)[k] in n
    ensures Spell(FoldedIds(ids, m, i), n) == Spell(ids, m)
  {
    var a, b := ids[i], ids[i + 1];
    var front, rest, folded := ids[..i], ids[i + 2..], Folded(a, m[a], b);
    SpellAround(front, [folded], rest, n);
    SpellAround(front, [a, b], rest, m);
    hide Spell, Folded;
    assert ids == front + [a, b] + rest;
    SpellAgrees(front, m, n);
    SpellAgrees(rest, m, n);
    SpellOne(folded, n);
    SpellTwo(a, b, m);
    FoldRegroups(a, m[a], b, m[b]);
  }

  lemma LastBinding(z: Bytes, y: Bytes, id: Bytes, x: Bytes)
    requires z + [0] + y + [0] == id + [0] + x + [0] && |x| == |y|
    ensures z == id && x == y
  {
    var p, q := z + [0] + y + [0], id + [0] + x + [0];
    assert p[..|z|] == z && q[..|id|] == id;
    assert p[|z| + 1..|p| - 1] == y && q[|id| + 1..|q| - 1] == x;
  }

  lemma SortedIdsLength(m: map<Bytes, Bytes>)
    ensures |SortedIds(m)| == |m|
  {
    LexIsStrictOrder();
    AscendingLength(LexLess, SortedIds(m));
  }

  /** Any text of two or more bindings is the text of exactly two: the last two ids can always be folded. */
  lemma {:induction false} ReducesToTwo(m: map<Bytes, Bytes>) returns (n: map<Bytes, Bytes>)
    requires WellFormed(m) && |SortedIds(m)| >= 2
    ensures WellFormed(n) && |SortedIds(n)| == 2 && Preimage(n) == Preimage(m)
    decreases |SortedIds(m)|
  {
    n := m;
    if |SortedIds(m)| > 2 {
      FoldSpellsAlike(m, |SortedIds(m)| - 2);
      n := ReducesToTwo(FoldAt(m, |SortedIds(m)| - 2));
    }
  }

  /** An id that two bindings can be folded into. */
  ghost predicate IsFold(id: Bytes) {
    exists a, x, b :: a != [] && b != [] && LexLess(a, b) && |x| == KEY_SIZE && id == Folded(a, x, b)
  }

  /** A key map of one id that is no fold. */
  ghost predicate Alone(m: map<Bytes, Bytes>) {
    |m| == 1 && forall id :: id in m ==> !IsFold(id)
  }

  lemma OneBinding(m: map<Bytes, Bytes>) returns (id: Bytes)
    requires |SortedIds(m)| == 1
    ensures id in m && m == map[id := m[id]] && Preimage(m) == id + [0] + m[id] + [0]
  {
    id := SortedIds(m)[0];
    assert SortedIds(m) == [id];
    SpellOne(id, m);
    assert m.Keys == {id};
  }

  lemma TwoBindings(m: map<Bytes, Bytes>) returns (a: Bytes, b: Bytes)
    requires |SortedIds(m)| == 2
    ensures a in m && b in m && LexLess(a, b) && Preimage(m) == Folded(a, m[a], b) + [0] + m[b] + [0]
  {
    a, b := SortedIds(m)[0], SortedIds(m)[1];
    assert SortedIds(m) == [a, b];
    SpellTwo(a, b, m);
    FoldRegroups(a, m[a], b, m[b]);
  }

  lemma AloneIsUnique(m: map<Bytes, Bytes>, n: map<Bytes, Bytes>)
    requires WellFormed(m) && WellFormed(n)
    ensures Alone(m) && Preimage(n) == Preimage(m) ==> n == m
  {
    hide Preimage, SortedIds, IsFold;
    if Alone(m) && Preimage(n) == Preimage(m) {
      SortedIdsLength(m);
      SortedIdsLength(n);
      var id := OneBinding(m);
      if |n| >= 2 {
        var two := ReducesToTwo(n);
        TwoMakeAFold(two, id, m[id]);
        assert false;
      }
      assert n.Keys == {} ==> n == map[];
      var jd := OneBinding(n);
      LastBinding(jd, n[jd], id, m[id]);
    }
  }

  lemma TwoMakeAFold(two: map<Bytes, Bytes>, id: Bytes, x: Bytes)
    requires WellFormed(two) && |SortedIds(two)| == 2 && |x| == KEY_SIZE
    requires Preimage(two) == id + [0] + x + [0]
    ensures IsFold(id)
  {
    hide Preimage, SortedIds;
    var a, b := TwoBindings(two);
    LastBinding(Folded(a, two[a], b), two[b], id, x);
  }

  lemma HasPartner(m: map<Bytes, Bytes>) returns (n: map<Bytes, Bytes>)
    requires WellFormed(m) && !Alone(m)
    ensures WellFormed(n) && n != m && Preimage(n) == Preimage(m)
  {
    hide Preimage, SortedIds, Folded;
    SortedIdsLength(m);
    assert |m| > 0 by {
      assert m != map[];
    }
    if |m| >= 2 {
      FoldSpellsAlike(m, |m| - 2);
      n := FoldAt(m, |m| - 2);
    } else {
      var id := OneBinding(m);
      var a, x, b :| a != [] && b != [] && LexLess(a, b) && |x| == KEY_SIZE && id == Folded(a, x, b);
      n := Unfolded(a, x, b, m[id]);
    }
  }

  lemma Unfolded(a: Bytes, x: Bytes, b: Bytes, y: Bytes) returns (n: map<Bytes, Bytes>)
    requires a != [] && b != [] && LexLess(a, b) && |x| == |y| == KEY_SIZE
    ensures WellFormed(n) && |n| == 2 && Preimage(n) == Folded(a, x, b) + [0] + y + [0]
  {
    n := map[a := x, b := y];
    LexIrreflexive(a);
    SortedPair(n, a, b);
    SpellTwo(a, b, n);
    FoldRegroups(a, x, b, y);
    assert a in n && n.Keys == {a, b};
  }

  lemma SortedPair(m: map<Bytes, Bytes>, a: Bytes, b: Bytes)
    requires m.Keys == {a, b} && LexLess(a, b)
    ensures SortedIds(m) == [a, b]
  {
    LexIsStrictOrder();
    assert Elements([a, b]) == m.Keys;
    AscendingUnique(LexLess, [a, b], SortedIds(m));
  }

  /** The exact condition under which the fingerprinted text determines a key map among all key maps: it has one id, and
      that id is no fold of two bindings. Every key map of two or more ids shares its text with another. */
  lemma UniqueIffAlone(m: map<Bytes, Bytes>)
    requires WellFormed(m)
    ensures (forall n :: WellFormed(n) && Preimage(n) == Preimage(m) ==> n == m) <==> Alone(m)
  {
    if Alone(m) {
      forall n | WellFormed(n) && Preimage(n) == Preimage(m) ensures n == m {
        AloneIsUnique(m, n);
      }
    } else {
      var n := HasPartner(m);
    }
  }

  lemma NulFreeIsNoFold(id: Bytes)
    requires NulFree(id)
    ensures !IsFold(id)
  {
    forall a: Bytes, x: Bytes, b: Bytes ensures id != Folded(a, x, b) {
      assert Folded(a, x, b)[|a|] == 0;
    }
  }

  /** For ids free of zero bytes: among all key maps one alone has its text exactly when it has a single id. */
  lemma UniqueIffSingle(m: map<Bytes, Bytes>)
    requires WellFormed(m) && NulFreeKeys(m)
    ensures (forall n :: WellFormed(n) && Preimage(n) == Preimage(m) ==> n == m) <==> |m| == 1
  {
    UniqueIffAlone(m);
    forall id | id in m ensures !IsFold(id) {
      NulFreeIsNoFold(id);
    }
  }

  // ------------------------------------------------------------------ ids as a trust file can hold them

  /** Ids read from JSON are the UTF-8 encoding of some text. */
  ghost predicate IsText(b: Bytes) {
    exists s :: Utf8.Encode(s) == b
  }

  /** No character but U+0000 is encoded with a zero byte. */
  lemma NoZeroInside(c: char, k: nat)
    requires k < |Utf8.EncodeRune(c)| && Utf8.EncodeRune(c)[k] == 0
    ensures k == 0 && |Utf8.EncodeRune(c)| == 1
  {
  }

  lemma {:induction false} EncodeAppend(s: string, t: string)
    ensures Utf8.Encode(s + t) == Utf8.Encode(s) + Utf8.Encode(t)
  {
    if s == [] {
      assert s + t == t;
    } else {
      EncodeAppend(s[1..], t);
      assert (s + t)[1..] == s[1..] + t;
      hide Utf8.EncodeRune;
      Associates(Utf8.EncodeRune(s[0]), Utf8.Encode(s[1..]), Utf8.Encode(t));
    }
  }

  /** A text falls into texts at every zero byte. */
  lemma {:induction false} TextSplits(s: string, p: Bytes, q: Bytes)
    requires Utf8.Encode(s) == p + [0] + q
    ensures IsText(p) && IsText(q)
  {
    var b := Utf8.Encode(s);
    var head, tail := Utf8.EncodeRune(s[0]), Utf8.Encode(s[1..]);
    assert b[|p|] == 0 && b == head + tail;
    if |p| < |head| {
      assert head[|p|] == 0;
      NoZeroInside(s[0], |p|);
      assert p == Utf8.Encode([]) && q == b[1..] == tail;
    } else {
      var rest := p[|head|..];
      HeadComesOff(head, tail, p, q);
      TextSplits(s[1..], rest, q);
      var t :| Utf8.Encode(t) == rest;
      assert ([s[0]] + t)[1..] == t;
      assert Utf8.Encode([s[0]] + t) == p;
    }
  }

  lemma HeadComesOff(head: Bytes, tail: Bytes, p: Bytes, q: Bytes)
    requires head + tail == p + [0] + q && |head| <= |p|
    ensures p == head + p[|head|..] && tail == p[|head|..] + [0] + q
  {
    var b := head + tail;
    assert p == b[..|p|] && head == b[..|head|] && tail == b[|head|..];
  }

  lemma TextsJoin(p: Bytes, q: Bytes)
    requires IsText(p) && IsText(q)
    ensures IsText(p + [0] + q)
  {
    var s, t :| Utf8.Encode(s) == p && Utf8.Encode(t) == q;
    assert Utf8.Encode(['\0']) == [0] by {
      assert ['\0'][1..] == [];
      assert Utf8.EncodeRune('\0') == [0];
    }
    EncodeAppend(s, ['\0']);
    EncodeAppend(s + ['\0'], t);
  }

  /** Folding two ids that a trust file can hold makes one that it can hold exactly when the key folded in is text. */
  lemma FoldedIsTextIff(a: Bytes, x: Bytes, b: Bytes)
    requires IsText(a) && IsText(b)
    ensures IsText(Folded(a, x, b)) <==> IsText(x)
  {
    if IsText(Folded(a, x, b)) {
      var s :| Utf8.Encode(s) == Folded(a, x, b);
      assert Folded(a, x, b) == a + [0] + (x + [0] + b);
      TextSplits(s, a, x + [0] + b);
      var t :| Utf8.Encode(t) == x + [0] + b;
      TextSplits(t, x, b);
    }
    if IsText(x) {
      TextsJoin(a, x);
      TextsJoin(a + [0] + x, b);
    }
  }

  ghost predicate Loadable(m: map<Bytes, Bytes>) {
    WellFormed(m) && forall id :: id in m ==> IsText(id)
  }

  /** Of a key map that a trust file can hold, the fold at a position is one it can hold exactly when the key folded in is
      text; and the two share their text. */
  lemma LoadableCollision(m: map<Bytes, Bytes>, i: nat)
    requires WellFormed(m) && i + 1 < |SortedIds(m)|
    requires forall k :: i + 2 <= k < |SortedIds(m)| ==> NulFree(SortedIds(m)[k])
    ensures Loadable(m) ==> (Loadable(FoldAt(m, i)) <==> IsText(m[SortedIds(m)[i]]))
    ensures FoldAt(m, i) != m && Preimage(FoldAt(m, i)) == Preimage(m)
  {
    hide IsText, Preimage, Folded;
    var ids := SortedIds(m);
    assert forall k :: 0 <= k < |ids| ==> ids[k] in Elements(ids);
    FoldSpellsAlike(m, i);
    if Loadable(m) {
      var folded := Folded(ids[i], m[ids[i]], ids[i + 1]);
      assert folded in FoldAt(m, i);
      FoldedIsTextIff(ids[i], m[ids[i]], ids[i + 1]);
    }
  }

  /** An instance: the ids a and b, the first with the key that is the letter A thirty-two times. */
  lemma LoadableInstance(y: Bytes)
    requires |y| == KEY_SIZE
    ensures var x: Bytes := seq(KEY_SIZE, _ => 0x41);
            var two, one := map[[0x61] := x, [0x62] := y], map[Folded([0x61], x, [0x62]) := y];
            Loadable(two) && Loadable(one) && two != one && Preimage(two) == Preimage(one)
  {
    var x: Bytes := seq(KEY_SIZE, _ => 0x41);
    LettersAreText(0x41, KEY_SIZE);
    LettersAreText(0x61, 1);
    LettersAreText(0x62, 1);
    assert seq(1, _ => 0x61 as byte) == [0x61] && seq(1, _ => 0x62 as byte) == [0x62];
    PairCollides([0x61], x, [0x62], y);
  }

  lemma PairCollides(a: Bytes, x: Bytes, b: Bytes, y: Bytes)
    requires a != [] && b != [] && LexLess(a, b) && |x| == |y| == KEY_SIZE
    requires IsText(a) && IsText(b) && IsText(x)
    ensures var two, one := map[a := x, b := y], map[Folded(a, x, b) := y];
            Loadable(two) && Loadable(one) && two != one && Preimage(two) == Preimage(one)
  {
    hide Preimage, IsText, LexLess;
    var two := map[a := x, b := y];
    LexIrreflexive(a);
    SortedPair(two, a, b);
    LoadableCollision(two, 0);
    assert two - {a, b} == map[];
  }

  lemma {:induction false} LettersAreText(b: byte, n: nat)
    requires b < 0x80
    ensures IsText(seq(n, _ => b))
  {
    var s: string := seq(n, _ => b as char);
    LettersEncode(b, n);
    assert Utf8.Encode(s) == seq(n, _ => b);
  }

  lemma {:induction false} LettersEncode(b: byte, n: nat)
    requires b < 0x80
    ensures Utf8.Encode(seq(n, _ => b as char)) == seq(n, _ => b)
  {
    if n > 0 {
      LettersEncode(b, n - 1);
      assert seq(n, _ => b as char)[1..] == seq(n - 1, _ => b as char);
      assert [b] + seq(n - 1, _ => b) == seq(n, _ => b);
    }
  }

  // ------------------------------------------------------------------ replacing

  /** The store after an attempt to replace its snapshot, and the error if there is one. */
  ghost function Replaced(current: Option<TrustSnapshot>, candidate: TrustSnapshot, hash: Bytes -> string)
    : (Option<TrustSnapshot>, Option<TrustError>)
  {
    if !Valid(candidate, hash) then (current, Some(InvalidTrustSnapshot))
    else if current.None? then (Some(candidate), None)
    else if candidate.revision < current.value.revision then (current, Some(RevisionRollback))
    else if candidate.revision == current.value.revision then
      (current, if candidate.fingerprint == current.value.fingerprint then None else Some(RevisionConflict))
    else (Some(candidate), None)
  }

  method Validate(s: TrustSnapshot, hash: Bytes -> string) returns (ok: bool)
    ensures ok <==> Valid(s, hash)
    ensures ok <==> && s.keys != map[] && (forall id :: id in s.keys ==> id != [] && |s.keys[id]| == 32)
                    && s.fingerprint != "" && s.fingerprint == hash(Preimage(s.keys))
  {
    hide Preimage;
    if |s.keys| == 0 {
      return false;
    }
    var left := s.keys.Keys;
    while left != {}
      invariant left <= s.keys.Keys
      invariant forall id :: id in s.keys && id !in left ==> id != [] && |s.keys[id]| == KEY_SIZE
      decreases left
    {
      var id :| id in left;
      if id == [] || |s.keys[id]| != KEY_SIZE {
        return false;
      }
      left := left - {id};
    }
    if s.fingerprint == "" {
      return false;
    }
    var want := FingerprintKeys(s.keys, hash);
    return want == s.fingerprint;
  }

  /** A store with a snapshot exists only for a valid one, which is then active. */
  method NewAtomicTrustStore(snapshot: TrustSnapshot, hash: Bytes -> string) returns (store: AtomicTrustStore?)
    ensures store != null <==> Valid(snapshot, hash)
    ensures store != null ==> fresh(store) && store.Sound() && store.hash == hash && store.state == Some(snapshot)
  {
    var ok := Validate(snapshot, hash);
    if !ok {
      return null;
    }
    store := new AtomicTrustStore(hash);
    store.state := Some(snapshot);
  }

  class AtomicTrustStore {
    var state: Option<TrustSnapshot>
    const hash: Bytes -> string

    ghost predicate Sound()
      reads this
    {
      state.Some? ==> Valid(state.value, hash)
    }

    /** A store without a snapshot is not ready. */
    constructor (hash: Bytes -> string)
      ensures Sound() && state.None? && this.hash == hash
    {
      state, this.hash := None, hash;
    }

    method Replace(candidate: TrustSnapshot) returns (error: Option<TrustError>)
      requires Sound()
      modifies this
      ensures Sound() && (state, error) == Replaced(old(state), candidate, hash)
      ensures Valid(candidate, hash) && (old(state).None? || candidate.revision > old(state).value.revision) ==>
                state == Some(candidate) && error.None?
    {
      var ok := Validate(candidate, hash);
      if !ok {
        return Some(InvalidTrustSnapshot);
      }
      if state.Some? {
        var current := state.value;
        if candidate.revision < current.revision {
          return Some(RevisionRollback);
        } else if candidate.revision == current.revision && candidate.fingerprint != current.fingerprint {
          return Some(RevisionConflict);
        } else if candidate.revision == current.revision && candidate.fingerprint == current.fingerprint {
          return None;
        }
      }
      state := Some(candidate);
      return None;
    }

    method ResolveKey(keyId: Bytes) returns (r: Result<Bytes>)
      requires Sound()
      ensures r.Ok? ==> |r.value| == KEY_SIZE
      ensures r == if keyId == [] then Err(InvalidKeyId)
                   else if state.None? then Err(TrustNotReady)
                   else if keyId in state.value.keys then Ok(state.value.keys[keyId])
                   else Err(KeyNotFound)
    {
      if keyId == [] {
        return Err(InvalidKeyId);
      }
      if state.None? {
        return Err(TrustNotReady);
      }
      if keyId !in state.value.keys {
        return Err(KeyNotFound);
      }
      return Ok(state.value.keys[keyId]);
    }
  }

  ghost function ReplaceAll(s: Option<TrustSnapshot>, candidates: seq<TrustSnapshot>, hash: Bytes -> string)
    : Option<TrustSnapshot>
  {
    if candidates == [] then s
    else Replaced(ReplaceAll(s, candidates[..|candidates| - 1], hash), candidates[|candidates| - 1], hash).0
  }

  /** Over any sequence of attempts a store stays ready once it is, the revision never falls, and while it stays the same
      so does everything else: one revision never shows two key maps. */
  lemma {:induction false} NoRollback(s: TrustSnapshot, candidates: seq<TrustSnapshot>, hash: Bytes -> string)
    ensures var now := ReplaceAll(Some(s), candidates, hash);
            now.Some? && s.revision <= now.value.revision && (now.value.revision == s.revision ==> now.value == s)
  {
    if candidates != [] {
      NoRollback(s, candidates[..|candidates| - 1], hash);
    }
  }

  /** Which candidates are activated, which are taken for what is active already, and what each of the others is refused
      for. */
  lemma ReplaceAnswers(current: Option<TrustSnapshot>, candidate: TrustSnapshot, hash: Bytes -> string)
    ensures var (now, error) := Replaced(current, candidate, hash);
            && (Valid(candidate, hash) && (current.None? || candidate.revision > current.value.revision) ==>
                  now == Some(candidate) && error.None?)
            && (error == Some(InvalidTrustSnapshot) <==> !Valid(candidate, hash))
            && (error == Some(RevisionRollback) <==>
                  Valid(candidate, hash) && current.Some? && candidate.revision < current.value.revision)
            && (error == Some(RevisionConflict) <==>
                  Valid(candidate, hash) && current.Some? && candidate.revision == current.value.revision
                  && candidate.fingerprint != current.value.fingerprint)
            && (error.None? ==> now.Some? && now.value.revision == candidate.revision
                                && now.value.fingerprint == candidate.fingerprint)
  {
  }

  /** No valid candidate has a larger revision than this. */
  ghost predicate NoneNewer(candidates: seq<TrustSnapshot>, revision: nat, hash: Bytes -> string) {
    forall k :: 0 <= k < |candidates| && Valid(candidates[k], hash) ==> candidates[k].revision <= revision
  }

  /** This candidate is valid, and newer than every valid one before it and than what was active. */
  ghost predicate Overtakes(s: Option<TrustSnapshot>, candidates: seq<TrustSnapshot>, k: nat, hash: Bytes -> string)
    requires k < |candidates|
  {
    && Valid(candidates[k], hash)
    && (s.Some? ==> s.value.revision < candidates[k].revision)
    && forall m :: 0 <= m < k && Valid(candidates[m], hash) ==> candidates[m].revision < candidates[k].revision
  }

  lemma ReplacedKeepsOrTakes(current: Option<TrustSnapshot>, candidate: TrustSnapshot, hash: Bytes -> string)
    ensures var now := Replaced(current, candidate, hash).0;
            if Valid(candidate, hash) && (current.Some? ==> current.value.revision < candidate.revision)
            then now == Some(candidate) else now == current
  {
  }

  /** Over any sequence of attempts, of any validity and in any order, a store ends at the largest revision among what it
      held and the valid candidates, and with the first of them that had it. */
  lemma {:induction false} LargestRevisionWins(s: Option<TrustSnapshot>, candidates: seq<TrustSnapshot>,
                                               hash: Bytes -> string)
    ensures var now := ReplaceAll(s, candidates, hash);
            && (s.Some? ==> now.Some? && s.value.revision <= now.value.revision)
            && (now.None? ==> forall k :: 0 <= k < |candidates| ==> !Valid(candidates[k], hash))
            && (now.Some? ==> NoneNewer(candidates, now.value.revision, hash))
            && (now == s ||
                exists k :: 0 <= k < |candidates| && now == Some(candidates[k]) && Overtakes(s, candidates, k, hash))
  {
    hide Valid, Replaced;
    if candidates != [] {
      var front, last := candidates[..|candidates| - 1], candidates[|candidates| - 1];
      LargestRevisionWins(s, front, hash);
      var before, now := ReplaceAll(s, front, hash), ReplaceAll(s, candidates, hash);
      ReplacedKeepsOrTakes(before, last, hash);
      if now != before {
        assert Overtakes(s, candidates, |candidates| - 1, hash);
      } else if now != s {
        var k :| 0 <= k < |front| && now == Some(front[k]) && Overtakes(s, front, k, hash);
        assert Overtakes(s, candidates, k, hash);
      }
    }
  }

  /** An error never changes anything, and a success at another revision always activates the candidate, for any hash. */
  lemma NewRevisionActivates(current: Option<TrustSnapshot>, candidate: TrustSnapshot, hash: Bytes -> string)
    ensures var (now, error) := Replaced(current, candidate, hash);
            && (error.Some? ==> now == current)
            && (error.None? && (current.Some? ==> candidate.revision != current.value.revision) ==>
                  now == Some(candidate))
  {
  }

  /** The candidate's keys are active after every attempt that succeeds. */
  ghost predicate SuccessActivates(current: TrustSnapshot, hash: Bytes -> string) {
    forall candidate ::
      Replaced(Some(current), candidate, hash).1.None? ==>
        Replaced(Some(current), candidate, hash).0.value.keys == candidate.keys
  }

  /** Whether success can be relied on: if no other text collides with that of the active key map, exactly when that map has
      one id and the id is no fold of two bindings. */
  lemma SuccessActivatesIff(current: TrustSnapshot, hash: Bytes -> string)
    requires Valid(current, hash)
    requires forall n :: WellFormed(n) && hash(Preimage(n)) == hash(Preimage(current.keys)) ==>
               Preimage(n) == Preimage(current.keys)
    ensures SuccessActivates(current, hash) <==> Alone(current.keys)
  {
    hide Preimage, Alone;
    if Alone(current.keys) {
      forall candidate | Replaced(Some(current), candidate, hash).1.None?
        ensures Replaced(Some(current), candidate, hash).0.value.keys == candidate.keys
      {
        if candidate.revision == current.revision {
          AloneIsUnique(current.keys, candidate.keys);
        }
      }
    } else {
      var n := HasPartner(current.keys);
      var candidate := TrustSnapshot(current.revision, n, current.fingerprint);
      assert Replaced(Some(current), candidate, hash) == (Some(current), None);
    }
  }

  /** An instance that trust files can bring about: at one revision a candidate with other keys is taken for the active
      snapshot, and success is reported. */
  lemma SuccessWithOtherKeys(revision: nat, y: Bytes, hash: Bytes -> string)
    requires |y| == KEY_SIZE && forall t :: hash(t) != ""
    ensures var x: Bytes := seq(KEY_SIZE, _ => 0x41);
            var two, one := map[[0x61] := x, [0x62] := y], map[Folded([0x61], x, [0x62]) := y];
            var current, candidate := TrustSnapshot(revision, two, hash(Preimage(two))),
                                      TrustSnapshot(revision, one, hash(Preimage(one)));
            && Loadable(two) && Loadable(one) && Valid(current, hash) && Valid(candidate, hash)
            && Replaced(Some(current), candidate, hash) == (Some(current), None)
            && current.keys != candidate.keys
  {
    hide Preimage;
    LoadableInstance(y);
  }

  /** With the active ids and the candidate's both free of zero bytes success can always be relied on. */
  lemma SuccessMeansActive(current: TrustSnapshot, candidate: TrustSnapshot, hash: Bytes -> string)
    requires Valid(current, hash) && NulFreeKeys(current.keys) && NulFreeKeys(candidate.keys)
    requires hash(Preimage(current.keys)) == hash(Preimage(candidate.keys)) ==>
               Preimage(current.keys) == Preimage(candidate.keys)
    ensures var (now, error) := Replaced(Some(current), candidate, hash);
            && (error.None? ==> now.value.keys == candidate.keys && now.value.revision == candidate.revision)
            && (error.Some? ==> now == Some(current))
  {
    hide Preimage, NulFreeKeys;
    if Valid(candidate, hash) {
      PreimageInjective(current.keys, candidate.keys);
    }
  }
}
