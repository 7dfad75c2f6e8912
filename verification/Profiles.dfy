/**
 Browser profile partitions. A profile id is the hash of a transcript of the authority scope,
 the persistence and, for private sessions, a fresh number. The registry keeps one id for each
 persistent key and never hands the same private id out twice, until its counter saturates.
 */
module Profiles {
  import opened Basics
  import opened Transcripts

  datatype Scope =
    | Active(deviceId: Bytes, connectionId: Bytes)
    | Sunset(installationId: Bytes, workspaceId: Bytes, credentialGeneration: nat,
             signingKeyId: Bytes, signingKeyVersion: nat, providerConnectionId: Bytes)

  datatype Persistence = Persistent | Private
  datatype Key = Key(scope: Scope, persistence: Persistence)

  predicate BoundedId(id: Bytes) {
    1 <= |id| <= 256
  }

  /** What the identity constructors let through. */
  predicate ValidKey(k: Key) {
    match k.scope
    case Active(d, c) => BoundedId(d) && BoundedId(c)
    case Sunset(i, w, g, s, v, c) =>
      BoundedId(i) && BoundedId(w) && BoundedId(s) && BoundedId(c)
      && 1 <= g <= CounterMax && 1 <= v <= CounterMax
  }

  function ProfileDomain(): Bytes {
    Ascii("GOODDEALER-BROWSER-PROFILE-V1\0")
  }

  /** A bounded id with its length in four bytes. */
  function Appended(id: Bytes): Bytes {
    BigEndian(|id|, 4) + id
  }

  function ScopeBytes(s: Scope): Bytes {
    match s
    case Active(d, c) => [1] + (Appended(d) + Appended(c))
    case Sunset(i, w, g, k, v, c) =>
      [2] + SunsetBytes(s)
  }

  function SunsetBytes(s: Scope): Bytes
    requires s.Sunset?
  {
    Appended(s.installationId) + (Appended(s.workspaceId) + (BigEndian(s.credentialGeneration, 8)
      + KeyTail(s.signingKeyId, s.signingKeyVersion, s.providerConnectionId)))
  }

  function KeyTail(k: Bytes, v: nat, c: Bytes): Bytes {
    Appended(k) + (BigEndian(v, 8) + Appended(c))
  }

  function PersistenceBytes(p: Persistence, nonce: nat): Bytes {
    if p.Persistent? then [1] else [2] + BigEndian(nonce, 8)
  }

  function Transcript(k: Key, nonce: nat): Bytes {
    ProfileDomain() + (ScopeBytes(k.scope) + PersistenceBytes(k.persistence, nonce))
  }

  /** The transcript, written part by part. */
  method WriteTranscript(k: Key, nonce: nat) returns (buffer: Bytes)
    ensures buffer == Transcript(k, nonce)
  {
    var scope: Bytes;
    match k.scope {
      case Active(device, connection) =>
        scope := [1];
        scope := scope + (BigEndian(|device|, 4) + device);
        scope := scope + (BigEndian(|connection|, 4) + connection);
        Regroup([1], Appended(device), Appended(connection));
      case Sunset(installation, workspace, generation, keyId, version, connection) =>
        scope := [2];
        scope := scope + (BigEndian(|installation|, 4) + installation);
        scope := scope + (BigEndian(|workspace|, 4) + workspace);
        scope := scope + BigEndian(generation, 8);
        scope := scope + (BigEndian(|keyId|, 4) + keyId);
        scope := scope + BigEndian(version, 8);
        scope := scope + (BigEndian(|connection|, 4) + connection);
        RegroupSeven([2], Appended(installation), Appended(workspace), BigEndian(generation, 8), Appended(keyId),
                     BigEndian(version, 8), Appended(connection));
    }
    buffer := Ascii("GOODDEALER-BROWSER-PROFILE-V1\0") + scope;
    Regroup(ProfileDomain(), scope, PersistenceBytes(k.persistence, nonce));
    if k.persistence.Persistent? {
      buffer := buffer + [1];
    } else {
      buffer := buffer + ([2] + BigEndian(nonce, 8));
    }
  }

  lemma RegroupSeven(a: Bytes, b: Bytes, c: Bytes, d: Bytes, e: Bytes, f: Bytes, g: Bytes)
    ensures a + b + c + d + e + f + g == a + (b + (c + (d + (e + (f + g)))))
  {
    Regroup(a + b + c + d + e, f, g);
    Regroup(a + b + c + d, e, f + g);
    Regroup(a + b + c, d, e + (f + g));
    Regroup(a + b, c, d + (e + (f + g)));
    Regroup(a, b, c + (d + (e + (f + g))));
  }

  // ----- The transcript is injective -----

  lemma CutId(x: Bytes, y: Bytes, r: Bytes, s: Bytes)
    requires BoundedId(x) && BoundedId(y) && Appended(x) + r == Appended(y) + s
    ensures x == y && r == s
  {
    var t := Appended(x) + r;
    assert t[..4] == BigEndian(|x|, 4) && t[..4] == BigEndian(|y|, 4);
    Pow256Values();
    BigEndianInjective(|x|, |y|, 4);
    assert t[4..4 + |x|] == x && t[4..4 + |y|] == y;
    assert t[4 + |x|..] == r && t[4 + |y|..] == s;
  }

  lemma CutNumber(a: nat, b: nat, r: Bytes, s: Bytes)
    requires a <= CounterMax && b <= CounterMax && BigEndian(a, 8) + r == BigEndian(b, 8) + s
    ensures a == b && r == s
  {
    var t := BigEndian(a, 8) + r;
    assert t[..8] == BigEndian(a, 8) && t[..8] == BigEndian(b, 8);
    Pow256Values();
    BigEndianInjective(a, b, 8);
    assert t[8..] == r && t[8..] == s;
  }

  lemma Regroup(a: Bytes, b: Bytes, r: Bytes)
    ensures (a + b) + r == a + (b + r)
  {}

  lemma ActiveInjective(d: Bytes, c: Bytes, d': Bytes, c': Bytes, r: Bytes, s: Bytes)
    requires BoundedId(d) && BoundedId(c) && BoundedId(d') && BoundedId(c')
    requires (Appended(d) + Appended(c)) + r == (Appended(d') + Appended(c')) + s
    ensures d == d' && c == c' && r == s
  {
    Regroup(Appended(d), Appended(c), r);
    Regroup(Appended(d'), Appended(c'), s);
    CutId(d, d', Appended(c) + r, Appended(c') + s);
    CutId(c, c', r, s);
  }

  lemma KeyTailInjective(k: Bytes, v: nat, c: Bytes, k': Bytes, v': nat, c': Bytes, r: Bytes, s: Bytes)
    requires BoundedId(k) && BoundedId(c) && BoundedId(k') && BoundedId(c') && v <= CounterMax && v' <= CounterMax
    requires KeyTail(k, v, c) + r == KeyTail(k', v', c') + s
    ensures k == k' && v == v' && c == c' && r == s
  {
    Regroup(Appended(k), BigEndian(v, 8) + Appended(c), r);
    Regroup(Appended(k'), BigEndian(v', 8) + Appended(c'), s);
    CutId(k, k', (BigEndian(v, 8) + Appended(c)) + r, (BigEndian(v', 8) + Appended(c')) + s);
    Regroup(BigEndian(v, 8), Appended(c), r);
    Regroup(BigEndian(v', 8), Appended(c'), s);
    CutNumber(v, v', Appended(c) + r, Appended(c') + s);
    CutId(c, c', r, s);
  }

  lemma SunsetInjective(i: Bytes, w: Bytes, g: nat, t: Bytes, i': Bytes, w': Bytes, g': nat, t': Bytes,
                        r: Bytes, s: Bytes)
    requires BoundedId(i) && BoundedId(w) && BoundedId(i') && BoundedId(w') && g <= CounterMax && g' <= CounterMax
    requires (Appended(i) + (Appended(w) + (BigEndian(g, 8) + t))) + r
          == (Appended(i') + (Appended(w') + (BigEndian(g', 8) + t'))) + s
    ensures i == i' && w == w' && g == g' && t + r == t' + s
  {
    Regroup(Appended(i), Appended(w) + (BigEndian(g, 8) + t), r);
    Regroup(Appended(i'), Appended(w') + (BigEndian(g', 8) + t'), s);
    CutId(i, i', (Appended(w) + (BigEndian(g, 8) + t)) + r, (Appended(w') + (BigEndian(g', 8) + t')) + s);
    Regroup(Appended(w), BigEndian(g, 8) + t, r);
    Regroup(Appended(w'), BigEndian(g', 8) + t', s);
    CutId(w, w', (BigEndian(g, 8) + t) + r, (BigEndian(g', 8) + t') + s);
    Regroup(BigEndian(g, 8), t, r);
    Regroup(BigEndian(g', 8), t', s);
    CutNumber(g, g', t + r, t' + s);
  }

  lemma TagCut(x: Bytes, y: Bytes, r: Bytes, s: Bytes)
    requires x != [] && y != [] && x + r == y + s
    ensures x[0] == y[0] && x[1..] + r == y[1..] + s
  {
    assert (x + r)[0] == x[0] && (y + s)[0] == y[0];
    assert (x + r)[1..] == x[1..] + r && (y + s)[1..] == y[1..] + s;
  }

  lemma TailOf(tag: byte, x: Bytes)
    ensures ([tag] + x)[1..] == x
  {}

  lemma ScopeInjective(a: Scope, b: Scope, r: Bytes, s: Bytes)
    requires ValidKey(Key(a, Private)) && ValidKey(Key(b, Private)) && ScopeBytes(a) + r == ScopeBytes(b) + s
    ensures a == b && r == s
  {
    TagCut(ScopeBytes(a), ScopeBytes(b), r, s);
    if a.Active? {
      TailOf(1, Appended(a.deviceId) + Appended(a.connectionId));
      TailOf(1, Appended(b.deviceId) + Appended(b.connectionId));
      ActiveInjective(a.deviceId, a.connectionId, b.deviceId, b.connectionId, r, s);
    } else {
      TailOf(2, SunsetBytes(a));
      TailOf(2, SunsetBytes(b));
      var t := KeyTail(a.signingKeyId, a.signingKeyVersion, a.providerConnectionId);
      var t' := KeyTail(b.signingKeyId, b.signingKeyVersion, b.providerConnectionId);
      SunsetInjective(a.installationId, a.workspaceId, a.credentialGeneration, t,
                      b.installationId, b.workspaceId, b.credentialGeneration, t', r, s);
      KeyTailInjective(a.signingKeyId, a.signingKeyVersion, a.providerConnectionId,
                       b.signingKeyId, b.signingKeyVersion, b.providerConnectionId, r, s);
    }
  }

  lemma PersistenceInjective(p: Persistence, n: nat, q: Persistence, m: nat)
    requires n <= CounterMax && m <= CounterMax
    ensures PersistenceBytes(p, n) == PersistenceBytes(q, m) <==> p == q && (p.Private? ==> n == m)
  {
    var x, y := PersistenceBytes(p, n), PersistenceBytes(q, m);
    if x == y {
      assert x[0] == y[0];
      if p.Private? {
        assert x[1..] == BigEndian(n, 8) && y[1..] == BigEndian(m, 8);
        Pow256Values();
        BigEndianInjective(n, m, 8);
      }
    }
  }

  /** Transcripts are equal exactly for the same key and, when private, the same number. */
  lemma TranscriptInjective(k: Key, n: nat, l: Key, m: nat)
    requires ValidKey(k) && ValidKey(l) && n <= CounterMax && m <= CounterMax
    ensures Transcript(k, n) == Transcript(l, m) <==> k == l && (k.persistence.Private? ==> n == m)
  {
    var d := ProfileDomain();
    var x, y := PersistenceBytes(k.persistence, n), PersistenceBytes(l.persistence, m);
    PersistenceInjective(k.persistence, n, l.persistence, m);
    if Transcript(k, n) == Transcript(l, m) {
      assert Transcript(k, n)[|d|..] == ScopeBytes(k.scope) + x && Transcript(l, m)[|d|..] == ScopeBytes(l.scope) + y;
      ScopeInjective(k.scope, l.scope, x, y);
    }
  }

  // ----- The registry -----

  ghost predicate Injective<Id(!new)>(hash: Bytes -> Id) {
    forall x, y :: hash(x) == hash(y) ==> x == y
  }

  class ProfileRegistry<Id(==)> {
    const hash: Bytes -> Id
    var persistent: map<Key, Id>
    var nextPrivateNonce: nat

    ghost predicate Valid()
      reads this
    {
      nextPrivateNonce <= CounterMax
      && forall k :: k in persistent ==> k.persistence.Persistent? && persistent[k] == hash(Transcript(k, 0))
    }

    constructor (hash: Bytes -> Id)
      ensures Valid() && nextPrivateNonce == 0 && persistent == map[] && this.hash == hash
    {
      this.hash := hash;
      persistent := map[];
      nextPrivateNonce := 0;
    }

    method Resolve(key: Key) returns (id: Id)
      requires Valid()
      modifies this
      ensures Valid()
      ensures id == ResolvedId(hash, key, old(nextPrivateNonce))
      ensures nextPrivateNonce == NextNonce(key, old(nextPrivateNonce))
      ensures persistent == if key.persistence.Persistent? then old(persistent)[key := id] else old(persistent)
    {
      if key.persistence.Persistent? {
        if key !in persistent {
          var transcript := WriteTranscript(key, 0);
          persistent := persistent[key := hash(transcript)];
        }
        return persistent[key];
      }
      nextPrivateNonce := if nextPrivateNonce < CounterMax then nextPrivateNonce + 1 else CounterMax;
      var transcript := WriteTranscript(key, nextPrivateNonce);
      id := hash(transcript);
    }
  }

  function NextNonce(key: Key, nonce: nat): nat {
    if key.persistence.Private? && nonce < CounterMax then nonce + 1 else nonce
  }

  function ResolvedId<Id>(hash: Bytes -> Id, key: Key, nonce: nat): Id {
    hash(Transcript(key, if key.persistence.Private? then NextNonce(key, nonce) else 0))
  }

  // ----- Runs -----

  /** How many of the keys are private. */
  function Privates(keys: seq<Key>): nat {
    if keys == [] then 0 else Privates(keys[..|keys| - 1]) + if keys[|keys| - 1].persistence.Private? then 1 else 0
  }

  /** The counter after resolving the keys one after another from an empty registry. */
  function NonceAfter(keys: seq<Key>): nat {
    if keys == [] then 0 else NextNonce(keys[|keys| - 1], NonceAfter(keys[..|keys| - 1]))
  }

  function IdAt<Id>(hash: Bytes -> Id, keys: seq<Key>, i: nat): Id
    requires i < |keys|
  {
    ResolvedId(hash, keys[i], NonceAfter(keys[..i]))
  }

  lemma {:induction false} NonceCountsPrivates(keys: seq<Key>)
    ensures NonceAfter(keys) == if Privates(keys) <= CounterMax then Privates(keys) else CounterMax
  {
    if keys != [] {
      NonceCountsPrivates(keys[..|keys| - 1]);
    }
  }

  lemma {:induction false} PrivatesMonotone(keys: seq<Key>, i: nat, j: nat)
    requires i <= j <= |keys|
    ensures Privates(keys[..i]) <= Privates(keys[..j])
    ensures i < j && keys[j - 1].persistence.Private? ==> Privates(keys[..i]) < Privates(keys[..j])
    decreases j
  {
    if i < j {
      PrivatesMonotone(keys, i, j - 1);
      assert keys[..j][..j - 1] == keys[..j - 1];
    }
  }

  lemma ResolvedIdInjective<Id(!new)>(hash: Bytes -> Id, k: Key, n: nat, l: Key, m: nat)
    requires Injective(hash) && ValidKey(k) && ValidKey(l) && n <= CounterMax && m <= CounterMax
    ensures ResolvedId(hash, k, n) == ResolvedId(hash, l, m)
       <==> k == l && (k.persistence.Private? ==> NextNonce(k, n) == NextNonce(l, m))
  {
    var x := if k.persistence.Private? then NextNonce(k, n) else 0;
    var y := if l.persistence.Private? then NextNonce(l, m) else 0;
    TranscriptInjective(k, x, l, y);
  }

  lemma Reading(keys: seq<Key>, i: nat)
    requires i < |keys|
    ensures NonceAfter(keys[..i]) <= CounterMax
    ensures NextNonce(keys[i], NonceAfter(keys[..i])) == NonceAfter(keys[..i + 1])
    ensures NonceAfter(keys[..i + 1])
         == if Privates(keys[..i + 1]) <= CounterMax then Privates(keys[..i + 1]) else CounterMax
  {
    assert keys[..i + 1][..i] == keys[..i];
    NonceCountsPrivates(keys[..i]);
    NonceCountsPrivates(keys[..i + 1]);
  }

  lemma SaturatedExactly(keys: seq<Key>, i: nat, j: nat)
    requires i < j < |keys|
    ensures NonceAfter(keys[..i]) <= CounterMax && NonceAfter(keys[..j]) <= CounterMax
    ensures keys[j].persistence.Private? ==>
      (NextNonce(keys[i], NonceAfter(keys[..i])) == NextNonce(keys[j], NonceAfter(keys[..j]))
       <==> Privates(keys[..i + 1]) >= CounterMax)
  {
    Reading(keys, i);
    Reading(keys, j);
    PrivatesMonotone(keys, i + 1, j + 1);
  }

  /**
   With a hash without collisions, two resolves of a run return the same id exactly when both
   are for the same persistent key, or for the same private key after the counter has saturated.
   */
  lemma EqualIdsExactly<Id(!new)>(hash: Bytes -> Id, keys: seq<Key>, i: nat, j: nat)
    requires Injective(hash) && i < j < |keys| && forall n :: 0 <= n < |keys| ==> ValidKey(keys[n])
    ensures IdAt(hash, keys, i) == IdAt(hash, keys, j)
       <==> keys[i] == keys[j] && (keys[i].persistence.Persistent? || Privates(keys[..i + 1]) >= CounterMax)
  {
    SaturatedExactly(keys, i, j);
    ResolvedIdInjective(hash, keys[i], NonceAfter(keys[..i]), keys[j], NonceAfter(keys[..j]));
  }

  /** Up to 2^64 - 1 private resolves, a private id is never handed out again. */
  lemma PrivateNeverReused<Id(!new)>(hash: Bytes -> Id, keys: seq<Key>, i: nat, j: nat)
    requires Injective(hash) && i < j < |keys| && forall n :: 0 <= n < |keys| ==> ValidKey(keys[n])
    requires Privates(keys) <= CounterMax && (keys[i].persistence.Private? || keys[j].persistence.Private?)
    ensures IdAt(hash, keys, i) != IdAt(hash, keys, j)
  {
    if keys[i] == keys[j] {
      PrivatesMonotone(keys, i + 1, j + 1);
      PrivatesMonotone(keys, j + 1, |keys|);
      assert keys[..|keys|] == keys;
    }
    EqualIdsExactly(hash, keys, i, j);
  }
}
