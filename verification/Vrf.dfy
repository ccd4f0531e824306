/** The VRF: the oracle's prover, its verifier on points, and the program's
    verifier on encodings.  The hash and the key derivation are parameters. */
module Vrf {
  import opened Bytes
  import opened Group

  const HASH_TO_POINT_MAX_ATTEMPTS: nat := 512

  function Ascii(s: string): seq<byte>
  {
    seq(|s|, i requires 0 <= i < |s| => s[i] as int % 256)
  }

  // Domain prefixes of the oracle's crate and of the program's crate.
  const HOST_PREFIX_HASH_TO_POINT: string := "VRF-Ephem-v2-HashToRistretto"
  const HOST_PREFIX_HASH_TO_SCALAR: string := "VRF-Ephem-HashToScalar"
  const HOST_PREFIX_CHALLENGE: string := "VRF-Ephem-Challenge"
  const HOST_PREFIX_NONCE: string := "VRF-Ephem-Nonce"
  const HOST_NONCE_INFO: string := "VRF-Nonce"
  const HOST_KEY_SALT: string := "VRF-Solana-SecretKey"
  const HOST_KEY_INFO: string := "VRF-Key"
  const CHAIN_PREFIX_HASH_TO_POINT: string := "VRF-Ephem-v2-HashToRistretto"
  const CHAIN_PREFIX_HASH_TO_SCALAR: string := "VRF-Ephem-HashToScalar"
  const CHAIN_PREFIX_CHALLENGE: string := "VRF-Ephem-Challenge"

  /** What the code calls: the curve, SHA-256, HKDF with SHA-512 (salt, key material,
      info, 64 bytes out) and the basepoint's encoding as a constant of the program. */
  datatype Suite<!P> = Suite(
    g: Curve<P>,
    hash: seq<byte> -> Bytes32,
    hkdf: (seq<byte>, seq<byte>, seq<byte>) -> Bytes64,
    baseBytes: Bytes32)

  ghost predicate ValidSuite<P(!new)>(s: Suite<P>)
  {
    Lawful(s.g) && s.baseBytes == s.g.encode(s.g.base)
  }

  /** `Scalar::from_bytes_mod_order`. */
  function ScalarOf(order: nat, b: Bytes32): nat
    requires order > 0
  {
    UnLE(b) % order
  }

  function ScalarBytes(v: nat): Bytes32 { LE(v, 32) }

  // ------------------------------------------------------------- the oracle

  datatype HostProof = HostProof(base: Bytes32, hash: Bytes32, s: nat)

  /** Either an answer or a panic (no counter gives a point). */
  datatype Verdict = Answer(accepted: bool) | Panic

  /** The first counter from `counter` on whose candidate decodes. */
  function HostHashToPoint<P>(v: Suite<P>, input: Bytes32, counter: nat): Option<P>
    decreases HASH_TO_POINT_MAX_ATTEMPTS - counter
  {
    if counter >= HASH_TO_POINT_MAX_ATTEMPTS then None
    else
      var candidate := v.hash(Ascii(HOST_PREFIX_HASH_TO_POINT) + LE(counter, 2) + input);
      if v.g.decode(candidate).Some? then v.g.decode(candidate)
      else HostHashToPoint(v, input, counter + 1)
  }

  function HostChallenge<P>(v: Suite<P>, output: Bytes32, base: Bytes32, hash: Bytes32, pk: Bytes32, input: Bytes32): nat
    requires v.g.order > 0
  {
    var digest := v.hash(Ascii(HOST_PREFIX_CHALLENGE) + output + base + hash + pk + input);
    ScalarOf(v.g.order, v.hash(Ascii(HOST_PREFIX_HASH_TO_SCALAR) + digest))
  }

  /** `generate_vrf_keypair`: secret and public key from the 64-byte identity keypair. */
  function GenerateKeypair<P>(v: Suite<P>, keypair: Bytes64): (nat, P)
    requires v.g.order > 0
  {
    var sk := ScalarOf(v.g.order, v.hkdf(Ascii(HOST_KEY_SALT), keypair, Ascii(HOST_KEY_INFO))[..32]);
    (sk, v.g.mul(sk, v.g.base))
  }

  /** The nonce: derived from the secret key and the input. */
  function HostNonce<P>(v: Suite<P>, sk: nat, input: Bytes32): nat
    requires v.g.order > 0
  {
    ScalarOf(v.g.order, v.hkdf(Ascii(HOST_PREFIX_NONCE), LE(sk, 32) + input, Ascii(HOST_NONCE_INFO))[..32])
  }

  /** `compute_vrf`; None where the code panics. */
  function ComputeVrf<P>(v: Suite<P>, sk: nat, input: Bytes32): Option<(Bytes32, HostProof)>
    requires v.g.order > 0
  {
    match HostHashToPoint(v, input, 0)
    case None => None
    case Some(h) =>
      var g := v.g;
      var output := g.encode(g.mul(sk, h));
      var pk := g.mul(sk, g.base);
      var k := HostNonce(v, sk, input);
      var base := g.encode(g.mul(k, g.base));
      var hash := g.encode(g.mul(k, h));
      var c := HostChallenge(v, output, base, hash, g.encode(pk), input);
      Some((output, HostProof(base, hash, (k + c * sk) % g.order)))
  }

  /** The two Schnorr equations. */
  predicate Accepts<P(==)>(g: Curve<P>, pk: P, h: P, output: P, u: P, w: P, c: int, s: int)
  {
    g.mul(s, g.base) == g.add(u, g.mul(c, pk)) && g.mul(s, h) == g.add(w, g.mul(c, output))
  }

  /** `verify_vrf` of the oracle's crate. */
  function HostVerify<P(==)>(v: Suite<P>, pk: P, input: Bytes32, output: Bytes32, proof: HostProof): Verdict
    requires v.g.order > 0
  {
    var g := v.g;
    match (g.decode(output), g.decode(proof.base), g.decode(proof.hash))
    case (Some(out), Some(u), Some(w)) =>
      (match HostHashToPoint(v, input, 0)
       case None => Panic
       case Some(h) =>
         var c := HostChallenge(v, output, proof.base, proof.hash, g.encode(pk), input);
         Answer(Accepts(g, pk, h, out, u, w, c, proof.s)))
    case _ => Answer(false)
  }

  // ------------------------------------------------------------ the program

  datatype ChainProof = ChainProof(base: Bytes32, hash: Bytes32, s: Bytes32)

  /** `multiply_ristretto`: refuses a scalar that is not canonical or a point that
      does not decode. */
  function MultiplyRistretto<P>(g: Curve<P>, s: Bytes32, p: Bytes32): Option<Bytes32>
  {
    if UnLE(s) < g.order && g.decode(p).Some? then Some(g.encode(g.mul(UnLE(s), g.decode(p).value))) else None
  }

  function AddRistretto<P>(g: Curve<P>, p: Bytes32, q: Bytes32): Option<Bytes32>
  {
    if g.decode(p).Some? && g.decode(q).Some?
    then Some(g.encode(g.add(g.decode(p).value, g.decode(q).value))) else None
  }

  function ChainHashToPoint<P>(v: Suite<P>, input: Bytes32, counter: nat): Option<Bytes32>
    decreases HASH_TO_POINT_MAX_ATTEMPTS - counter
  {
    if counter >= HASH_TO_POINT_MAX_ATTEMPTS then None
    else
      var candidate := v.hash(Ascii(CHAIN_PREFIX_HASH_TO_POINT) + LE(counter, 2) + input);
      if v.g.decode(candidate).Some? then Some(candidate) else ChainHashToPoint(v, input, counter + 1)
  }

  function ChainChallenge<P>(v: Suite<P>, output: Bytes32, base: Bytes32, hash: Bytes32, pk: Bytes32, input: Bytes32): Bytes32
    requires v.g.order > 0
  {
    var digest := v.hash(Ascii(CHAIN_PREFIX_CHALLENGE) + output + base + hash + pk + input);
    ScalarBytes(ScalarOf(v.g.order, v.hash(Ascii(CHAIN_PREFIX_HASH_TO_SCALAR) + digest)))
  }

  /** One side of an equation: commitment + c * p, on encodings. */
  function RightSide<P>(g: Curve<P>, commitment: Bytes32, c: Bytes32, p: Bytes32): Option<Bytes32>
  {
    match MultiplyRistretto(g, c, p)
    case None => None
    case Some(product) => AddRistretto(g, commitment, product)
  }

  /** `verify_vrf` of the program's crate. */
  function ChainVerify<P>(v: Suite<P>, pk: Bytes32, input: Bytes32, output: Bytes32, proof: ChainProof): bool
    requires v.g.order > 0
  {
    match ChainHashToPoint(v, input, 0)
    case None => false
    case Some(h) =>
      var c := ChainChallenge(v, output, proof.base, proof.hash, pk, input);
      var lhsBase := MultiplyRistretto(v.g, proof.s, v.baseBytes);
      var rhsBase := RightSide(v.g, proof.base, c, pk);
      var lhsHash := MultiplyRistretto(v.g, proof.s, h);
      var rhsHash := RightSide(v.g, proof.hash, c, output);
      && lhsBase.Some? && rhsBase.Some? && lhsHash.Some? && rhsHash.Some?
      && lhsBase == rhsBase && lhsHash == rhsHash
  }

  // ------------------------------------------------ what is hashed, in numbers

  const HASH_TO_POINT_TAG: seq<byte> := [
    86, 82, 70, 45, 69, 112, 104, 101, 109, 45, 118, 50, 45, 72, 97, 115, 104, 84, 111, 82, 105, 115, 116,
    114, 101, 116, 116, 111]
  const HASH_TO_SCALAR_TAG: seq<byte> := [
    86, 82, 70, 45, 69, 112, 104, 101, 109, 45, 72, 97, 115, 104, 84, 111, 83, 99, 97, 108, 97, 114]
  const CHALLENGE_TAG: seq<byte> := [
    86, 82, 70, 45, 69, 112, 104, 101, 109, 45, 67, 104, 97, 108, 108, 101, 110, 103, 101]
  const NONCE_TAG: seq<byte> := [
    86, 82, 70, 45, 69, 112, 104, 101, 109, 45, 78, 111, 110, 99, 101]
  const NONCE_INFO: seq<byte> := [
    86, 82, 70, 45, 78, 111, 110, 99, 101]
  const KEY_SALT: seq<byte> := [
    86, 82, 70, 45, 83, 111, 108, 97, 110, 97, 45, 83, 101, 99, 114, 101, 116, 75, 101, 121]
  const KEY_INFO: seq<byte> := [
    86, 82, 70, 45, 75, 101, 121]

  lemma PointTag()
    ensures Ascii(HOST_PREFIX_HASH_TO_POINT) == HASH_TO_POINT_TAG
  {
  }

  lemma ScalarTag()
    ensures Ascii(HOST_PREFIX_HASH_TO_SCALAR) == HASH_TO_SCALAR_TAG
  {
  }

  lemma ChallengeTag()
    ensures Ascii(HOST_PREFIX_CHALLENGE) == CHALLENGE_TAG
  {
  }

  lemma NonceTags()
    ensures Ascii(HOST_PREFIX_NONCE) == NONCE_TAG && Ascii(HOST_NONCE_INFO) == NONCE_INFO
  {
  }

  lemma KeyTags()
    ensures Ascii(HOST_KEY_SALT) == KEY_SALT && Ascii(HOST_KEY_INFO) == KEY_INFO
  {
  }

  lemma SamePrefixes()
    ensures HOST_PREFIX_HASH_TO_POINT == CHAIN_PREFIX_HASH_TO_POINT
    ensures HOST_PREFIX_HASH_TO_SCALAR == CHAIN_PREFIX_HASH_TO_SCALAR
    ensures HOST_PREFIX_CHALLENGE == CHAIN_PREFIX_CHALLENGE
  {
  }

  /** The domain tags, which both crates share, as bytes. */
  lemma TagBytes()
    ensures Ascii(HOST_PREFIX_HASH_TO_POINT) == HASH_TO_POINT_TAG == Ascii(CHAIN_PREFIX_HASH_TO_POINT)
    ensures Ascii(HOST_PREFIX_HASH_TO_SCALAR) == HASH_TO_SCALAR_TAG == Ascii(CHAIN_PREFIX_HASH_TO_SCALAR)
    ensures Ascii(HOST_PREFIX_CHALLENGE) == CHALLENGE_TAG == Ascii(CHAIN_PREFIX_CHALLENGE)
    ensures Ascii(HOST_PREFIX_NONCE) == NONCE_TAG && Ascii(HOST_NONCE_INFO) == NONCE_INFO
    ensures Ascii(HOST_KEY_SALT) == KEY_SALT && Ascii(HOST_KEY_INFO) == KEY_INFO
  {
    hide Ascii, HASH_TO_POINT_TAG, HASH_TO_SCALAR_TAG, CHALLENGE_TAG, NONCE_TAG, NONCE_INFO, KEY_SALT, KEY_INFO;
    PointTag();
    ScalarTag();
    ChallengeTag();
    NonceTags();
    KeyTags();
    SamePrefixes();
  }

  /** The bytes a challenge commits to. */
  function Transcript(output: Bytes32, base: Bytes32, hash: Bytes32, pk: Bytes32, input: Bytes32): (r: seq<byte>)
    ensures |r| == 179
  {
    CHALLENGE_TAG + (output + (base + (hash + (pk + input))))
  }

  /** The transcript determines all five parts. */
  lemma TranscriptInjective(
    output: Bytes32, base: Bytes32, hash: Bytes32, pk: Bytes32, input: Bytes32,
    output': Bytes32, base': Bytes32, hash': Bytes32, pk': Bytes32, input': Bytes32)
    requires Transcript(output, base, hash, pk, input) == Transcript(output', base', hash', pk', input')
    ensures output == output' && base == base' && hash == hash' && pk == pk' && input == input'
  {
    ConcatInjective(CHALLENGE_TAG, output + (base + (hash + (pk + input))),
                    CHALLENGE_TAG, output' + (base' + (hash' + (pk' + input'))));
    ConcatInjective(output, base + (hash + (pk + input)), output', base' + (hash' + (pk' + input')));
    ConcatInjective(base, hash + (pk + input), base', hash' + (pk' + input'));
    ConcatInjective(hash, pk + input, hash', pk' + input');
    ConcatInjective(pk, input, pk', input');
  }

  /** The challenge as a number: the transcript is hashed, that digest is hashed again
      under its own tag, and the result is read little-endian modulo the order. */
  function Challenge<P>(v: Suite<P>, output: Bytes32, base: Bytes32, hash: Bytes32, pk: Bytes32, input: Bytes32): nat
    requires v.g.order > 0
  {
    UnLE(v.hash(HASH_TO_SCALAR_TAG + v.hash(Transcript(output, base, hash, pk, input)))) % v.g.order
  }

  /** Both sides compute that number. */
  lemma ChallengeIs<P>(v: Suite<P>, output: Bytes32, base: Bytes32, hash: Bytes32, pk: Bytes32, input: Bytes32)
    requires v.g.order > 0
    ensures HostChallenge(v, output, base, hash, pk, input) == Challenge(v, output, base, hash, pk, input)
    ensures ChainChallenge(v, output, base, hash, pk, input) == LE(Challenge(v, output, base, hash, pk, input), 32)
  {
    hide Ascii, UnLE, LE;
    TagBytes();
    assert CHALLENGE_TAG + output + base + hash + pk + input == Transcript(output, base, hash, pk, input);
  }

  /** What is decoded at that counter. */
  function Candidate<P>(v: Suite<P>, input: Bytes32, counter: nat): Bytes32
  {
    v.hash(HASH_TO_POINT_TAG + [counter % 256, counter / 256 % 256] + input)
  }

  /** The hash point of an input: the first of 512 candidates that decodes. */
  ghost predicate IsHashPoint<P(!new)>(v: Suite<P>, input: Bytes32, from: nat, p: P)
  {
    exists c :: from <= c < 512 && v.g.decode(Candidate(v, input, c)) == Some(p)
             && forall d :: from <= d < c ==> v.g.decode(Candidate(v, input, d)).None?
  }

  lemma CandidateIs<P>(v: Suite<P>, input: Bytes32, counter: nat)
    ensures v.hash(Ascii(HOST_PREFIX_HASH_TO_POINT) + LE(counter, 2) + input) == Candidate(v, input, counter)
  {
    hide Ascii;
    TagBytes();
    assert LE(counter, 2) == [counter % 256] + LE(counter / 256, 1);
    assert LE(counter / 256, 1) == [counter / 256 % 256] + LE(counter / 256 / 256, 0);
    assert LE(counter, 2) == [counter % 256, counter / 256 % 256];
  }

  /** The search finds the first candidate that decodes, if any does. */
  lemma {:induction false} HashToPointExactly<P(!new)>(v: Suite<P>, input: Bytes32, counter: nat)
    ensures HostHashToPoint(v, input, counter).Some?
            ==> IsHashPoint(v, input, counter, HostHashToPoint(v, input, counter).value)
    ensures HostHashToPoint(v, input, counter).None?
            <==> forall c :: counter <= c < 512 ==> v.g.decode(Candidate(v, input, c)).None?
    decreases HASH_TO_POINT_MAX_ATTEMPTS - counter
  {
    hide Ascii, LE, Candidate;
    if counter < HASH_TO_POINT_MAX_ATTEMPTS {
      CandidateIs(v, input, counter);
      HashToPointExactly(v, input, counter + 1);
      if v.g.decode(Candidate(v, input, counter)).None? && HostHashToPoint(v, input, counter + 1).Some? {
        var p := HostHashToPoint(v, input, counter + 1).value;
        var c :| counter + 1 <= c < 512 && v.g.decode(Candidate(v, input, c)) == Some(p)
              && forall d :: counter + 1 <= d < c ==> v.g.decode(Candidate(v, input, d)).None?;
        assert IsHashPoint(v, input, counter, p);
      }
    }
  }

  /** The secret nonce as a number: the first half of the HKDF output for the key's
      bytes followed by the input. */
  function Nonce<P>(v: Suite<P>, sk: nat, input: Bytes32): nat
    requires v.g.order > 0
  {
    UnLE(v.hkdf(NONCE_TAG, LE(sk, 32) + input, NONCE_INFO)[..32]) % v.g.order
  }

  /** The key material of the nonce determines key and input. */
  lemma NonceMaterialInjective(sk: nat, input: Bytes32, sk': nat, input': Bytes32)
    requires sk < Pow256(32) && sk' < Pow256(32) && LE(sk, 32) + input == LE(sk', 32) + input'
    ensures sk == sk' && input == input'
  {
    hide LE, Pow256;
    ConcatInjective(LE(sk, 32), input, LE(sk', 32), input');
    LEInjective(sk, sk', 32);
  }

  /** What the prover publishes: x times the hash point, commitments to the derived
      nonce on both bases, and the nonce masked by the challenge times the key. */
  lemma ComputedTranscript<P(!new)>(v: Suite<P>, sk: nat, input: Bytes32)
    requires v.g.order > 0 && HostHashToPoint(v, input, 0).Some?
    ensures ComputeVrf(v, sk, input).Some?
    ensures var g := v.g;
            var h := HostHashToPoint(v, input, 0).value;
            var k := Nonce(v, sk, input);
            var (output, proof) := ComputeVrf(v, sk, input).value;
            && output == g.encode(g.mul(sk, h))
            && proof.base == g.encode(g.mul(k, g.base)) && proof.hash == g.encode(g.mul(k, h))
            && proof.s == (k + Challenge(v, output, proof.base, proof.hash, g.encode(g.mul(sk, g.base)), input) * sk) % g.order
  {
    hide Ascii, UnLE, LE, HostHashToPoint, HostChallenge, Challenge;
    TagBytes();
    var (output, proof) := ComputeVrf(v, sk, input).value;
    ChallengeIs(v, output, proof.base, proof.hash, v.g.encode(v.g.mul(sk, v.g.base)), input);
  }

  /** The generated key pair belongs together and is derived from the whole keypair. */
  lemma KeypairDerived<P>(v: Suite<P>, keypair: Bytes64)
    requires v.g.order > 0
    ensures var (sk, pk) := GenerateKeypair(v, keypair);
            sk == UnLE(v.hkdf(KEY_SALT, keypair, KEY_INFO)[..32]) % v.g.order && pk == v.g.mul(sk, v.g.base)
  {
    hide Ascii, UnLE;
    TagBytes();
  }

  // ------------------------------------------------------------ completeness

  /** An honest response satisfies both equations. */
  lemma HonestAccepts<P(!new)>(g: Curve<P>, sk: nat, k: nat, c: nat, h: P)
    requires Lawful(g) && g.order > 0
    ensures Accepts(g, g.mul(sk, g.base), h, g.mul(sk, h), g.mul(k, g.base), g.mul(k, h), c, (k + c * sk) % g.order)
  {
    hide Lawful;
    HonestSide(g, sk, k, c, g.base);
    HonestSide(g, sk, k, c, h);
  }

  lemma HonestSide<P(!new)>(g: Curve<P>, sk: nat, k: nat, c: nat, p: P)
    requires Lawful(g) && g.order > 0
    ensures g.mul((k + c * sk) % g.order, p) == g.add(g.mul(k, p), g.mul(c, g.mul(sk, p)))
  {
    hide Lawful;
    var x := k + c * sk;
    ModMultiple(x, g.order);
    MulMod(g, x % g.order, x, p);
    MulRules(g, k, c * sk, p, p);
    MulRules(g, c, sk, p, p);
  }

  lemma ModMultiple(x: int, n: nat)
    requires n > 0
    ensures (x % n - x) % n == 0
  {
    var k := x / n;
    assert x % n - x == (-k) * n;
    MultipleMod(-k, n);
  }

  lemma MultipleMod(k: int, n: nat)
    requires n > 0
    ensures (k * n) % n == 0
  {
    var r, d := (k * n) % n, (k * n) / n;
    assert k * n == d * n + r;
    assert r == (k - d) * n;
    var m: int := n;
    assert k - d >= 1 ==> (k - d) * m >= m;
    assert k - d <= -1 ==> (k - d) * m <= -m;
  }

  /** For every secret key and input for which some counter gives a point, the
      oracle's own verifier accepts what it computes. */
  lemma Completeness<P(!new)>(v: Suite<P>, sk: nat, input: Bytes32)
    requires ValidSuite(v) && v.g.order > 0
    ensures HostHashToPoint(v, input, 0).Some? ==>
              && ComputeVrf(v, sk, input).Some?
              && var (output, proof) := ComputeVrf(v, sk, input).value;
                 && proof.s < v.g.order
                 && HostVerify(v, v.g.mul(sk, v.g.base), input, output, proof) == Answer(true)
  {
    hide Lawful, HostHashToPoint, HostChallenge, HostNonce, Accepts;
    if HostHashToPoint(v, input, 0).Some? {
      var g := v.g;
      var h := HostHashToPoint(v, input, 0).value;
      var k := HostNonce(v, sk, input);
      EncodingRules(g, input, g.mul(sk, h));
      EncodingRules(g, input, g.mul(k, g.base));
      EncodingRules(g, input, g.mul(k, h));
      var (output, proof) := ComputeVrf(v, sk, input).value;
      var c := HostChallenge(v, output, proof.base, proof.hash, g.encode(g.mul(sk, g.base)), input);
      HonestAccepts(g, sk, k, c, h);
    }
  }

  // --------------------------------------------------------------- agreement

  lemma {:induction false} HashToPointAgrees<P(!new)>(v: Suite<P>, input: Bytes32, counter: nat)
    requires ValidSuite(v)
    ensures HostHashToPoint(v, input, counter).Some? <==> ChainHashToPoint(v, input, counter).Some?
    ensures ChainHashToPoint(v, input, counter).Some? ==>
              v.g.decode(ChainHashToPoint(v, input, counter).value) == HostHashToPoint(v, input, counter)
    decreases HASH_TO_POINT_MAX_ATTEMPTS - counter
  {
    hide Lawful, LE;
    if counter < HASH_TO_POINT_MAX_ATTEMPTS {
      HashToPointAgrees(v, input, counter + 1);
    }
  }

  lemma ScalarRoundTrip(order: nat, x: nat)
    requires 0 < order <= Pow256(32) && x < order
    ensures UnLE(ScalarBytes(x)) == x
  {
    hide LE, UnLE, Pow256;
    UnLELE(x, 32);
  }

  lemma ChallengeAgrees<P(!new)>(v: Suite<P>, output: Bytes32, base: Bytes32, hash: Bytes32, pk: Bytes32, input: Bytes32)
    requires ValidSuite(v) && v.g.order > 0
    ensures UnLE(ChainChallenge(v, output, base, hash, pk, input)) == HostChallenge(v, output, base, hash, pk, input)
    ensures HostChallenge(v, output, base, hash, pk, input) < v.g.order
  {
    hide Lawful, LE, UnLE;
    OrderRules(v.g, 0, v.g.base);
    ScalarRoundTrip(v.g.order, HostChallenge(v, output, base, hash, pk, input));
  }

  /** Equality of encodings is equality of points. */
  lemma EncodeInjective<P(!new)>(g: Curve<P>, p: P, q: P)
    requires Lawful(g)
    ensures g.encode(p) == g.encode(q) <==> p == q
  {
    hide Lawful;
    EncodingRules(g, g.encode(p), p);
    EncodingRules(g, g.encode(q), q);
  }

  lemma RightSideIs<P(!new)>(g: Curve<P>, commitment: Bytes32, c: Bytes32, p: Bytes32)
    requires Lawful(g) && UnLE(c) < g.order
    ensures RightSide(g, commitment, c, p).Some? <==> g.decode(commitment).Some? && g.decode(p).Some?
    ensures RightSide(g, commitment, c, p).Some? ==>
              RightSide(g, commitment, c, p).value
              == g.encode(g.add(g.decode(commitment).value, g.mul(UnLE(c), g.decode(p).value)))
  {
    hide Lawful, UnLE;
    if g.decode(p).Some? {
      EncodingRules(g, c, g.mul(UnLE(c), g.decode(p).value));
    }
  }

  /** The program's verifier in terms of points. */
  lemma ChainVerifyIs<P(!new)>(v: Suite<P>, pk: P, input: Bytes32, output: Bytes32, proof: ChainProof)
    requires ValidSuite(v) && v.g.order > 0
    ensures var g := v.g;
            ChainVerify(v, g.encode(pk), input, output, proof) <==>
              && HostHashToPoint(v, input, 0).Some?
              && g.decode(output).Some? && g.decode(proof.base).Some? && g.decode(proof.hash).Some?
              && UnLE(proof.s) < g.order
              && Accepts(g, pk, HostHashToPoint(v, input, 0).value, g.decode(output).value,
                         g.decode(proof.base).value, g.decode(proof.hash).value,
                         Challenge(v, output, proof.base, proof.hash, g.encode(pk), input), UnLE(proof.s))
  {
    hide Lawful, UnLE, HostHashToPoint, ChainHashToPoint, HostChallenge, ChainChallenge, RightSide, Challenge;
    var g := v.g;
    ChallengeIs(v, output, proof.base, proof.hash, g.encode(pk), input);
    HashToPointAgrees(v, input, 0);
    if HostHashToPoint(v, input, 0).Some? {
      var h := HostHashToPoint(v, input, 0).value;
      var c := ChainChallenge(v, output, proof.base, proof.hash, g.encode(pk), input);
      ChallengeAgrees(v, output, proof.base, proof.hash, g.encode(pk), input);
      EncodingRules(g, input, g.base);
      EncodingRules(g, input, pk);
      RightSideIs(g, proof.base, c, g.encode(pk));
      RightSideIs(g, proof.hash, c, output);
      if g.decode(output).Some? && g.decode(proof.base).Some? && g.decode(proof.hash).Some? {
        var s := UnLE(proof.s);
        EncodeInjective(g, g.mul(s, g.base), g.add(g.decode(proof.base).value, g.mul(UnLE(c), pk)));
        EncodeInjective(g, g.mul(s, h), g.add(g.decode(proof.hash).value, g.mul(UnLE(c), g.decode(output).value)));
      }
    }
  }

  /** The two verifiers agree on every input: where the oracle's answers, the
      program's gives the same answer; where the oracle's would panic because no
      counter gives a point, the program's refuses. */
  lemma VerifiersAgree<P(!new)>(v: Suite<P>, pk: P, input: Bytes32, output: Bytes32, proof: HostProof)
    requires ValidSuite(v) && v.g.order > 0 && proof.s < v.g.order
    ensures var chain := ChainVerify(v, v.g.encode(pk), input, output, ChainProof(proof.base, proof.hash, ScalarBytes(proof.s)));
            match HostVerify(v, pk, input, output, proof)
            case Answer(accepted) => chain == accepted
            case Panic => !chain && HostHashToPoint(v, input, 0).None?
  {
    hide Lawful, UnLE, LE, HostHashToPoint, HostChallenge, ChainVerify, Accepts, Pow256, Challenge;
    OrderRules(v.g, 0, v.g.base);
    ChallengeIs(v, output, proof.base, proof.hash, v.g.encode(pk), input);
    ScalarRoundTrip(v.g.order, proof.s);
    ChainVerifyIs(v, pk, input, output, ChainProof(proof.base, proof.hash, ScalarBytes(proof.s)));
  }

  /** A computed proof passes on chain. */
  lemma ComputedProofAcceptedOnChain<P(!new)>(v: Suite<P>, sk: nat, input: Bytes32)
    requires ValidSuite(v) && v.g.order > 0 && ComputeVrf(v, sk, input).Some?
    ensures var (output, proof) := ComputeVrf(v, sk, input).value;
            ChainVerify(v, v.g.encode(v.g.mul(sk, v.g.base)), input, output,
                        ChainProof(proof.base, proof.hash, ScalarBytes(proof.s)))
  {
    hide Lawful, HostVerify, ChainVerify, HostChallenge, HostHashToPoint, LE;
    Completeness(v, sk, input);
    var (output, proof) := ComputeVrf(v, sk, input).value;
    VerifiersAgree(v, v.g.mul(sk, v.g.base), input, output, proof);
  }

  // --------------------------------------------------------------- soundness

  lemma ResponseDifference<P(!new)>(g: Curve<P>, p: P, q: P, u: P, c1: int, s1: int, c2: int, s2: int)
    requires Lawful(g)
    requires g.mul(s1, p) == g.add(u, g.mul(c1, q)) && g.mul(s2, p) == g.add(u, g.mul(c2, q))
    ensures g.mul(s1 - s2, p) == g.mul(c1 - c2, q)
  {
    hide Lawful;
    MulSub(g, s1, s2, p);
    CancelCommon(g, u, g.mul(c1, q), g.mul(c2, q));
    MulSub(g, c1, c2, q);
  }

  lemma EqualMultiples<P(!new)>(g: Curve<P>, a: int, b: int, p: P)
    requires Lawful(g) && g.order > 0 && p != g.zero && g.mul(a, p) == g.mul(b, p)
    ensures (a - b) % g.order == 0
  {
    hide Lawful;
    MulSub(g, a, b, p);
    SubSelf(g, g.mul(a, p));
    OrderRules(g, a - b, p);
  }

  /** Special soundness: two accepted responses to different challenges for the same
      commitments are possible only for the correct output. */
  lemma SpecialSoundness<P(!new)>(
    g: Curve<P>, x: int, h: P, output: P, u: P, w: P, c1: int, s1: int, c2: int, s2: int)
    requires Lawful(g) && g.order > 0
    requires Accepts(g, g.mul(x, g.base), h, output, u, w, c1, s1)
    requires Accepts(g, g.mul(x, g.base), h, output, u, w, c2, s2)
    ensures output == g.mul(x, h) || (c1 - c2) % g.order == 0
  {
    hide Lawful, Pow256;
    var d := c1 - c2;
    ResponseDifference(g, g.base, g.mul(x, g.base), u, c1, s1, c2, s2);
    ResponseDifference(g, h, output, w, c1, s1, c2, s2);
    MulRules(g, d, x, g.base, h);
    MulRules(g, d, x, h, h);
    OrderRules(g, 0, g.base);
    EqualMultiples(g, s1 - s2, d * x, g.base);
    MulMod(g, s1 - s2, d * x, h);
    assert g.mul(d, g.mul(x, h)) == g.mul(d, output);
    DifferenceOfMultiples(g, d, g.mul(x, h), output);
  }

  lemma DifferenceOfMultiples<P(!new)>(g: Curve<P>, d: int, p: P, q: P)
    requires Lawful(g) && g.order > 0 && g.mul(d, p) == g.mul(d, q)
    ensures p == q || d % g.order == 0
  {
    hide Lawful;
    var nq := g.mul(-1, q);
    MulRules(g, d, -1, q, q);
    MulRules(g, -1, d, q, q);
    MulRules(g, d, 0, p, nq);
    assert d * -1 == -1 * d;
    SubSelf(g, g.mul(d, q));
    OrderRules(g, d, g.add(p, nq));
    if g.add(p, nq) == g.zero { SubZero(g, p, q); }
  }

  /** The response is determined: with the same commitments, output and input the
      program accepts at most one scalar, so a proof cannot be altered. */
  lemma ResponseUnique<P(!new)>(v: Suite<P>, pk: P, input: Bytes32, output: Bytes32, a: ChainProof, b: ChainProof)
    requires ValidSuite(v) && v.g.order > 0
    requires a.base == b.base && a.hash == b.hash
    requires ChainVerify(v, v.g.encode(pk), input, output, a) && ChainVerify(v, v.g.encode(pk), input, output, b)
    ensures a == b
  {
    hide Lawful, UnLE, LE, HostHashToPoint, Challenge, ChainVerify, Pow256;
    var g := v.g;
    ChainVerifyIs(v, pk, input, output, a);
    ChainVerifyIs(v, pk, input, output, b);
    OrderRules(g, 0, g.base);
    EqualMultiples(g, UnLE(a.s), UnLE(b.s), g.base);
    CloseMultiples(UnLE(a.s), UnLE(b.s), g.order);
    LEUnLE(a.s);
    LEUnLE(b.s);
  }

  lemma CloseMultiples(x: nat, y: nat, n: nat)
    requires n > 0 && x < n && y < n && (x - y) % n == 0
    ensures x == y
  {
    var k := (x - y) / n;
    var m: int := n;
    assert x - y == k * m;
    assert k >= 1 ==> k * m >= m;
    assert k <= -1 ==> k * m <= -m;
  }

  /** What an accepted wrong output would take: its challenge, a hash of the
      transcript, has to be the one value modulo the order that any response to
      these commitments can answer. */
  lemma WrongOutputPinsChallenge<P(!new)>(
    v: Suite<P>, x: nat, input: Bytes32, output: Bytes32, proof: ChainProof, c: int, s: int)
    requires ValidSuite(v) && v.g.order > 0
    requires ChainVerify(v, v.g.encode(v.g.mul(x, v.g.base)), input, output, proof)
    requires HostHashToPoint(v, input, 0).Some?
    requires v.g.decode(output).Some? && v.g.decode(proof.base).Some? && v.g.decode(proof.hash).Some?
    requires v.g.decode(output).value != v.g.mul(x, HostHashToPoint(v, input, 0).value)
    requires Accepts(v.g, v.g.mul(x, v.g.base), HostHashToPoint(v, input, 0).value, v.g.decode(output).value,
                     v.g.decode(proof.base).value, v.g.decode(proof.hash).value, c, s)
    ensures (Challenge(v, output, proof.base, proof.hash, v.g.encode(v.g.mul(x, v.g.base)), input) - c) % v.g.order == 0
  {
    hide Lawful, UnLE, HostHashToPoint, Challenge, ChainVerify, Accepts;
    var g := v.g;
    ChainVerifyIs(v, g.mul(x, g.base), input, output, proof);
    SpecialSoundness(g, x, HostHashToPoint(v, input, 0).value, g.decode(output).value,
      g.decode(proof.base).value, g.decode(proof.hash).value,
      Challenge(v, output, proof.base, proof.hash, g.encode(g.mul(x, g.base)), input), UnLE(proof.s), c, s);
  }
}
