/** What a request's id is the hash of. */
module RequestId {
  import opened Bytes

  /** The fields hashed into an id, in order. */
  datatype Seed = Seed(
    callerSeed: Bytes32, slot: u64, slothash: Bytes32, disc: seq<byte>,
    programId: Bytes32, time: i64, pos: u32)

  /** Caller seed, slot, slot hash. */
  function Front(s: Seed): (r: seq<byte>)
    ensures |r| == 72
  {
    s.callerSeed + (LE(s.slot, 8) + s.slothash)
  }

  /** Program id, time, insertion position. */
  function Back(s: Seed): (r: seq<byte>)
    ensures |r| == 44
  {
    s.programId + (I64Bytes(s.time) + LE(s.pos, 4))
  }

  /** The concatenation passed to `hashv`: only the discriminator varies in length. */
  function Preimage(s: Seed): seq<byte> { Front(s) + (s.disc + Back(s)) }

  /** The concatenation determines every field. */
  lemma PreimageInjective(s: Seed, t: Seed)
    requires Preimage(s) == Preimage(t)
    ensures s == t
  {
    hide LE, I64Bytes;
    assert |Preimage(s)| == 72 + |s.disc| + 44 && |Preimage(t)| == 72 + |t.disc| + 44;
    ConcatInjective(Front(s), s.disc + Back(s), Front(t), t.disc + Back(t));
    ConcatInjective(s.disc, Back(s), t.disc, Back(t));
    FrontInjective(s, t);
    BackInjective(s, t);
  }

  lemma FrontInjective(s: Seed, t: Seed)
    requires Front(s) == Front(t)
    ensures s.callerSeed == t.callerSeed && s.slot == t.slot && s.slothash == t.slothash
  {
    hide LE;
    ConcatInjective(s.callerSeed, LE(s.slot, 8) + s.slothash, t.callerSeed, LE(t.slot, 8) + t.slothash);
    ConcatInjective(LE(s.slot, 8), s.slothash, LE(t.slot, 8), t.slothash);
    Pow256Values();
    LEInjective(s.slot, t.slot, 8);
  }

  lemma BackInjective(s: Seed, t: Seed)
    requires Back(s) == Back(t)
    ensures s.programId == t.programId && s.time == t.time && s.pos == t.pos
  {
    hide LE, I64Bytes;
    ConcatInjective(s.programId, I64Bytes(s.time) + LE(s.pos, 4), t.programId, I64Bytes(t.time) + LE(t.pos, 4));
    ConcatInjective(I64Bytes(s.time), LE(s.pos, 4), I64Bytes(t.time), LE(t.pos, 4));
    I64BytesInjective(s.time, t.time);
    Pow256Values();
    LEInjective(s.pos, t.pos, 4);
  }
}
