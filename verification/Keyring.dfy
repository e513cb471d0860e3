/**
 Envelope encryption: a keyring whose first key seals new values and whose
 every key can open what names it.
   envelope = version(1) | key tag(4) | nonce(12) | ciphertext and tag
 */
module Keyring {
  import opened Wrappers
  import opened Ordering

  /** A Go byte slice: nil, or bytes. */
  datatype Blob = Nil | Data(bytes: Bytes)

  function BytesOf(b: Blob): Bytes
  {
    if b.Nil? then [] else b.bytes
  }

  /** Equal up to the difference between a nil and an empty slice. */
  predicate Same(a: Blob, b: Blob)
  {
    BytesOf(a) == BytesOf(b)
  }

  /** The authenticated cipher and the digest of key ids, as functions. */
  datatype Crypto = Crypto(
    seal: (Bytes, Bytes, Bytes, string) -> Bytes,          // secret, nonce, plaintext, associated data
    open: (Bytes, Bytes, Bytes, string) -> Option<Bytes>,  // secret, nonce, ciphertext, associated data
    keyTag: string -> Bytes)

  /**
   Opening what was sealed under the same secret, nonce and associated data gives it back (NIST SP 800-38D, 7.1 and
   7.2).
   */
  ghost predicate Lawful(c: Crypto)
  {
    && (forall secret, nonce, plain, aad ::
          c.open(secret, nonce, c.seal(secret, nonce, plain, aad), aad) == Some(plain))
    && (forall id :: |c.keyTag(id)| == KEY_TAG_LEN)
  }

  /** Opening never gives more bytes than it was given (NIST SP 800-38D, 7.2: as many as there are besides the tag). */
  ghost predicate NeverExpands(c: Crypto)
  {
    forall secret, nonce, sealed, aad :: c.open(secret, nonce, sealed, aad).Some? ==>
      |c.open(secret, nonce, sealed, aad).value| <= |sealed|
  }

  const ENVELOPE_VERSION: Byte := 1
  const KEY_TAG_LEN: nat := 4
  const NONCE_LEN: nat := 12
  const HEADER_LEN: nat := 1 + KEY_TAG_LEN + NONCE_LEN
  const SECRET_LEN: nat := 32

  datatype KeySpec = KeySpec(id: string, secret: Bytes)
  datatype Key = Key(tag: Bytes, secret: Bytes)
  datatype Keyring = Keyring(active: Key, byTag: map<Bytes, Key>)

  ghost predicate Valid(kr: Keyring)
  {
    && kr.active.tag in kr.byTag && kr.byTag[kr.active.tag] == kr.active
    && forall t :: t in kr.byTag ==> |t| == KEY_TAG_LEN && kr.byTag[t].tag == t
  }

  datatype RingError = NoKeys | EmptyId(i: nat) | BadSecret(i: nat) | TagCollision(i: nat)

  /** What is wrong with spec `i`, given the ones before it. */
  function Fault(c: Crypto, specs: seq<KeySpec>, i: nat): Option<RingError>
    requires i < |specs|
  {
    if specs[i].id == "" then Some(EmptyId(i))
    else if |specs[i].secret| != SECRET_LEN then Some(BadSecret(i))
    else if exists j :: 0 <= j < i && c.keyTag(specs[j].id) == c.keyTag(specs[i].id) then Some(TagCollision(i))
    else None
  }

  function FirstFault(c: Crypto, specs: seq<KeySpec>, i: nat): Option<RingError>
    requires i <= |specs|
    decreases |specs| - i
  {
    if i == |specs| then None
    else if Fault(c, specs, i).Some? then Fault(c, specs, i)
    else FirstFault(c, specs, i + 1)
  }

  /** `byTag` holds exactly the keys of `specs`, each under the tag of its id. */
  ghost predicate RingOver(c: Crypto, specs: seq<KeySpec>, byTag: map<Bytes, Key>)
  {
    && (forall i :: 0 <= i < |specs| ==>
          c.keyTag(specs[i].id) in byTag && byTag[c.keyTag(specs[i].id)] == Key(c.keyTag(specs[i].id), specs[i].secret))
    && (forall t :: t in byTag ==> exists i :: 0 <= i < |specs| && t == c.keyTag(specs[i].id))
  }

  method NewKeyring(c: Crypto, specs: seq<KeySpec>) returns (r: Result<Keyring, RingError>)
    requires Lawful(c)
    ensures specs == [] ==> r == Err(NoKeys)
    ensures specs != [] ==> (r.Err? <==> FirstFault(c, specs, 0).Some?)
    ensures specs != [] && r.Err? ==> Some(r.error) == FirstFault(c, specs, 0)
    ensures r.Ok? ==> Valid(r.value) && RingOver(c, specs, r.value.byTag)
    ensures r.Ok? ==> r.value.active == Key(c.keyTag(specs[0].id), specs[0].secret)
  {
    if |specs| == 0 {
      return Err(NoKeys);
    }
    var byTag: map<Bytes, Key> := map[];
    var active := Key([], []);
    for i := 0 to |specs|
      invariant FirstFault(c, specs, 0) == FirstFault(c, specs, i)
      invariant RingOver(c, specs[..i], byTag)
      invariant forall t :: t in byTag ==> |t| == KEY_TAG_LEN && byTag[t].tag == t
      invariant i > 0 ==> active == Key(c.keyTag(specs[0].id), specs[0].secret)
    {
      var spec := specs[i];
      if spec.id == "" {
        return Err(EmptyId(i));
      }
      if |spec.secret| != SECRET_LEN {
        return Err(BadSecret(i));
      }
      var k := Key(c.keyTag(spec.id), spec.secret);
      TagTaken(c, specs, i, byTag);
      if k.tag in byTag {
        return Err(TagCollision(i));
      }
      RingGrows(c, specs, i, byTag);
      byTag := byTag[k.tag := k];
      if i == 0 {
        active := k;
      }
    }
    assert specs[..|specs|] == specs;
    return Ok(Keyring(active, byTag));
  }

  lemma TagTaken(c: Crypto, specs: seq<KeySpec>, i: nat, byTag: map<Bytes, Key>)
    requires i < |specs| && RingOver(c, specs[..i], byTag)
    ensures c.keyTag(specs[i].id) in byTag <==> exists j :: 0 <= j < i && c.keyTag(specs[j].id) == c.keyTag(specs[i].id)
  {
    assert forall j :: 0 <= j < i ==> specs[..i][j] == specs[j];
  }

  lemma RingGrows(c: Crypto, specs: seq<KeySpec>, i: nat, byTag: map<Bytes, Key>)
    requires i < |specs| && RingOver(c, specs[..i], byTag) && c.keyTag(specs[i].id) !in byTag
    ensures var t := c.keyTag(specs[i].id); RingOver(c, specs[..i + 1], byTag[t := Key(t, specs[i].secret)])
  {
    var before, after := specs[..i], specs[..i + 1];
    assert after == before + [specs[i]];
    forall t | t in byTag ensures exists j :: 0 <= j < |after| && t == c.keyTag(after[j].id) {
      var j :| 0 <= j < |before| && t == c.keyTag(before[j].id);
      assert after[j] == before[j];
    }
    assert after[i] == specs[i];
  }

  /** Seal with the active key. A nil plaintext stays nil; an empty one is sealed. */
  function Encrypt(c: Crypto, kr: Keyring, nonce: Bytes, plain: Blob, aad: string): Blob
  {
    if plain.Nil? then Nil
    else Data([ENVELOPE_VERSION] + kr.active.tag + nonce + c.seal(kr.active.secret, nonce, plain.bytes, aad))
  }

  predicate IsEnvelope(b: Bytes)
  {
    |b| >= HEADER_LEN && b[0] == ENVELOPE_VERSION
  }

  function TagOf(envelope: Bytes): Bytes
    requires IsEnvelope(envelope)
  {
    envelope[1..1 + KEY_TAG_LEN]
  }

  datatype DecryptError = NotAnEnvelope | NoKeyForTag(tag: Bytes) | AuthFailed

  /** Opening into a nil slice gives a nil slice back when there is nothing to append to it. */
  function Decrypt(c: Crypto, kr: Keyring, envelope: Blob, aad: string): Result<Blob, DecryptError>
  {
    if envelope.Nil? then Ok(Nil)
    else if !IsEnvelope(envelope.bytes) then Err(NotAnEnvelope)
    else
      var tag := TagOf(envelope.bytes);
      if tag !in kr.byTag then Err(NoKeyForTag(tag))
      else
        var nonce, sealed := envelope.bytes[1 + KEY_TAG_LEN..HEADER_LEN], envelope.bytes[HEADER_LEN..];
        match c.open(kr.byTag[tag].secret, nonce, sealed, aad)
        case Some(plain) => Ok(if plain == [] then Nil else Data(plain))
        case None => Err(AuthFailed)
  }

  // ----- Round trip and rotation -----

  /** What a ring sealed has the shape of an envelope and names the ring's active key. */
  lemma SealedShape(c: Crypto, kr: Keyring, nonce: Bytes, plain: Bytes, aad: string)
    requires Valid(kr) && |nonce| == NONCE_LEN
    ensures var e := Encrypt(c, kr, nonce, Data(plain), aad).bytes;
      && IsEnvelope(e) && TagOf(e) == kr.active.tag
      && e[1 + KEY_TAG_LEN..HEADER_LEN] == nonce
      && e[HEADER_LEN..] == c.seal(kr.active.secret, nonce, plain, aad)
  {
    var head := [ENVELOPE_VERSION] + kr.active.tag + nonce;
    assert |head| == HEADER_LEN;
  }

  /** Any ring that still has the sealing key, wherever it stands, opens the value; an empty one comes back as nil. */
  lemma OpensWhatWasSealed(c: Crypto, sealer: Keyring, opener: Keyring, nonce: Bytes, plain: Blob, aad: string)
    requires Lawful(c) && Valid(sealer) && |nonce| == NONCE_LEN
    requires sealer.active.tag in opener.byTag && opener.byTag[sealer.active.tag] == sealer.active
    ensures Decrypt(c, opener, Encrypt(c, sealer, nonce, plain, aad), aad) ==
              Ok(if plain == Data([]) then Nil else plain)
  {
    if plain.Data? {
      SealedShape(c, sealer, nonce, plain.bytes, aad);
    }
  }

  /** A ring without the sealing key's tag never opens it. */
  lemma RetiredKeyFails(c: Crypto, sealer: Keyring, opener: Keyring, nonce: Bytes, plain: Bytes, aad: string)
    requires Valid(sealer) && |nonce| == NONCE_LEN && sealer.active.tag !in opener.byTag
    ensures Decrypt(c, opener, Encrypt(c, sealer, nonce, Data(plain), aad), aad) == Err(NoKeyForTag(sealer.active.tag))
  {
    SealedShape(c, sealer, nonce, plain, aad);
  }

  /** The order of the keys decides only which one seals: rings over the same specs open alike. */
  lemma RingOrderIsIrrelevant(c: Crypto, specs1: seq<KeySpec>, kr1: Keyring, specs2: seq<KeySpec>, kr2: Keyring,
                              envelope: Blob, aad: string)
    requires Elems(specs1) == Elems(specs2)
    requires RingOver(c, specs1, kr1.byTag) && RingOver(c, specs2, kr2.byTag)
    ensures kr1.byTag == kr2.byTag
    ensures Decrypt(c, kr1, envelope, aad) == Decrypt(c, kr2, envelope, aad)
  {
    SameKeys(c, specs1, kr1.byTag, specs2, kr2.byTag);
    SameKeys(c, specs2, kr2.byTag, specs1, kr1.byTag);
  }

  lemma SameKeys(c: Crypto, specs1: seq<KeySpec>, byTag1: map<Bytes, Key>, specs2: seq<KeySpec>,
                 byTag2: map<Bytes, Key>)
    requires Elems(specs1) <= Elems(specs2) && RingOver(c, specs1, byTag1) && RingOver(c, specs2, byTag2)
    ensures forall t :: t in byTag1 ==> t in byTag2 && byTag2[t] == byTag1[t]
  {
    forall t | t in byTag1 ensures t in byTag2 && byTag2[t] == byTag1[t] {
      var i :| 0 <= i < |specs1| && t == c.keyTag(specs1[i].id);
      assert specs1[i] in Elems(specs2);
      var j :| 0 <= j < |specs2| && specs2[j] == specs1[i];
    }
  }

  // ----- Stored values behind an encrypting driver -----

  /** What an encrypting driver is built from; a rotation or a flag change builds another over the same store. */
  datatype Wrapper = Wrapper(kr: Keyring, allowPlaintext: bool)

  /**
   An empty value was never sealed; a value that is no envelope is passed through when plaintext reads are allowed.
   */
  function OpenStored(c: Crypto, w: Wrapper, aad: string, stored: Blob): Result<Blob, DecryptError>
  {
    if BytesOf(stored) == [] then Ok(stored)
    else if w.allowPlaintext && !IsEnvelope(BytesOf(stored)) then Ok(stored)
    else Decrypt(c, w.kr, stored, aad)
  }

  /** How a stored value may stand for a plain one: empty, sealed under a key of the ring, or left as plaintext. */
  ghost predicate StandsFor(c: Crypto, w: Wrapper, aad: string, stored: Blob, plain: Blob)
  {
    var bytes := BytesOf(stored);
    if bytes == [] then BytesOf(plain) == []
    else if IsEnvelope(bytes) then
      var got := Decrypt(c, w.kr, stored, aad);
      got.Ok? && Same(got.value, plain)
    else w.allowPlaintext && Same(stored, plain)
  }

  /** With plaintext reads allowed, a plaintext is read as it is exactly when it is not shaped like an envelope. */
  lemma PlaintextReadsExactly(c: Crypto, w: Wrapper, aad: string, plain: Bytes)
    requires NeverExpands(c) && w.allowPlaintext
    ensures OpenStored(c, w, aad, Data(plain)) == Ok(Data(plain)) <==> !IsEnvelope(plain)
    ensures StandsFor(c, w, aad, Data(plain), Data(plain)) <==> !IsEnvelope(plain)
  {
    if IsEnvelope(plain) && TagOf(plain) in w.kr.byTag {
      var got := c.open(w.kr.byTag[TagOf(plain)].secret, plain[1 + KEY_TAG_LEN..HEADER_LEN], plain[HEADER_LEN..], aad);
      assert got.Some? ==> |got.value| < |plain|;
    }
  }

  lemma SealedStands(c: Crypto, w: Wrapper, aad: string, nonce: Bytes, plain: Blob)
    requires Lawful(c) && Valid(w.kr) && |nonce| == NONCE_LEN
    ensures StandsFor(c, w, aad, Encrypt(c, w.kr, nonce, plain, aad), plain)
  {
    if plain.Data? {
      SealedShape(c, w.kr, nonce, plain.bytes, aad);
      OpensWhatWasSealed(c, w.kr, w.kr, nonce, plain, aad);
    }
  }

  /**
   A rebuilt wrapper still reads a stored value when it keeps the key an envelope names, and still allows
   plaintext reads for plaintext.
   */
  predicate StillReads(w: Wrapper, next: Wrapper, stored: Blob)
  {
    var bytes := BytesOf(stored);
    if bytes == [] then true
    else if IsEnvelope(bytes) then
      TagOf(bytes) in w.kr.byTag ==>
          TagOf(bytes) in next.kr.byTag && next.kr.byTag[TagOf(bytes)] == w.kr.byTag[TagOf(bytes)]
    else next.allowPlaintext
  }

  lemma StillStands(c: Crypto, w: Wrapper, next: Wrapper, aad: string, stored: Blob, plain: Blob)
    requires StandsFor(c, w, aad, stored, plain) && StillReads(w, next, stored)
    ensures StandsFor(c, next, aad, stored, plain)
  {
  }
}
