/** Transport encryption: a session key from user name and challenge, and from key and sequence number
    one key stream for each message. */
module Transport {
  import opened Bytes
  import opened Ciphers

  const KEY_SIZE: nat := 16

  /** Sixteen bytes, each the fourth of four generator steps, after sixteen discarded ones. */
  function SessionKey(name: seq<byte>, challenge: seq<byte>): (key: seq<byte>)
    ensures |key| == KEY_SIZE
  {
    var seed := SeedFrom(SeedFrom(0, name), challenge);
    seq(KEY_SIZE, i requires 0 <= i < KEY_SIZE => (LcgSkip(seed, 16 + 4 * (i + 1)) % 256) as byte)
  }

  /** The seed of one message: key hash, low and high half of the sequence number. */
  function MessageSeed(key: seq<byte>, seqNum: nat): nat {
    XorBits(XorBits(SeedFrom(0, key), seqNum % U32, 32), seqNum / U32, 32)
  }

  function Sealed(key: seq<byte>, plain: seq<byte>, seqNum: nat): (r: seq<byte>)
    ensures |r| == |plain|
  {
    XorAll(plain, KeyStream(LcgSkip(MessageSeed(key, seqNum), 8), |plain|))
  }

  /** Opening with the same key and number gives the plain text back. */
  lemma {:induction false} SealedTwice(key: seq<byte>, plain: seq<byte>, seqNum: nat)
    ensures Sealed(key, Sealed(key, plain, seqNum), seqNum) == plain
  {
    hide MessageSeed, KeyStream, LcgSkip;
    XorAllTwice(plain, KeyStream(LcgSkip(MessageSeed(key, seqNum), 8), |plain|));
  }

  lemma {:induction false} SkipAdd(state: nat, m: nat, n: nat)
    ensures LcgSkip(LcgSkip(state, m), n) == LcgSkip(state, m + n)
  {
    if n == 0 {
    } else {
      SkipAdd(state, m, n - 1);
    }
  }

  lemma {:induction false} StepAfterSkip(state: nat, n: nat)
    ensures LcgStep(LcgSkip(state, n)) == LcgSkip(state, n + 1)
  {
  }

  method DeriveKey(seed: nat) returns (key: seq<byte>)
    ensures |key| == KEY_SIZE && forall k :: 0 <= k < KEY_SIZE ==> key[k] == LcgSkip(seed, 16 + 4 * (k + 1)) % 256
  {
    var lcg := new Lcg(seed);
    lcg.Skip(16);
    key := [];
    hide LcgSkip, LcgStep;
    for i := 0 to KEY_SIZE
      invariant lcg.state == LcgSkip(seed, 16 + 4 * i)
      invariant |key| == i && forall k :: 0 <= k < i ==> key[k] == LcgSkip(seed, 16 + 4 * (k + 1)) % 256
    {
      SkipAdd(seed, 16 + 4 * i, 3);
      StepAfterSkip(seed, 16 + 4 * i + 3);
      lcg.Skip(3);
      var b := lcg.Next();
      key := key + [b];
    }
  }

  class TransportEncryptor {
    var active: bool
    var sessionKey: seq<byte>

    constructor ()
      ensures !active && sessionKey == []
    {
      active, sessionKey := false, [];
    }

    method InitSession(name: seq<byte>, challenge: seq<byte>)
      modifies this
      ensures active && sessionKey == SessionKey(name, challenge)
    {
      var seed := ComputeSeed(0, name);
      seed := ComputeSeed(seed, challenge);
      var key := DeriveKey(seed);
      hide LcgSkip;
      sessionKey, active := key, true;
    }

    /** encrypt and decrypt are the same operation; before initSession both are the identity. */
    method Encrypt(plain: seq<byte>, seqNum: nat) returns (r: seq<byte>)
      requires seqNum < U64
      ensures r == if active then Sealed(sessionKey, plain, seqNum) else plain
    {
      if !active {
        return plain;
      }
      var seed := ComputeSeed(0, sessionKey);
      seed := XorBits(seed, seqNum % U32, 32);
      seed := XorBits(seed, seqNum / U32, 32);
      var lcg := new Lcg(seed);
      lcg.Skip(8);
      r := XorWithStream(plain, lcg);
    }
  }
}
