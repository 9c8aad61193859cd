/** The stand-in library of the host tests, which shows that the assumed laws can all be met. */
module ToyCipher {
  import opened Bytes
  import opened Bits
  import opened Crypto
  import opened Cred
  import opened CtapCommand
  import opened CtapFields
  import opened CtapStatus
  import opened Passkey
  import M = MakeCredential
  import A = GetAssertion
  import MR = CredentialRequest
  import AR = AssertionRequest

  const ROOT: seq<byte> := [
    0x91, 0x82, 0x73, 0x64, 0x55, 0x46, 0x37, 0x28, 0x19, 0x0a, 0xfb, 0xec, 0xdd, 0xce, 0xbf, 0xa0,
    0x12, 0x24, 0x36, 0x48, 0x5a, 0x6c, 0x7e, 0x80, 0x92, 0xa4, 0xb6, 0xc8, 0xda, 0xec, 0xfe, 0x10]

  /** The bytes from `first` on, counting up. */
  function Counting(first: byte, n: nat): (s: seq<byte>)
    requires first + n <= 0x100
    ensures |s| == n
  {
    seq(n, i requires 0 <= i < n => first + i)
  }

  function Xored(a: byte, b: byte): byte {
    XorStaysBelow(a, b, 8);
    Xor(a, b)
  }

  /** Masks one byte; masking it again restores it. */
  function Masked(key: seq<byte>, nonce: seq<byte>, i: nat, b: byte): byte
    requires |key| == KEY_LEN && |nonce| == NONCE_LEN
  {
    Xored(Xored(Xored(b, key[i % KEY_LEN]), nonce[i % NONCE_LEN]), 0xa5)
  }

  function MaskedAll(key: seq<byte>, nonce: seq<byte>, s: seq<byte>): (r: seq<byte>)
    requires |key| == KEY_LEN && |nonce| == NONCE_LEN
    ensures |r| == |s|
  {
    seq(|s|, i requires 0 <= i < |s| => Masked(key, nonce, i, s[i]))
  }

  /** Stirs `data` into a tag, byte by byte. */
  function Stirred(tag: seq<byte>, data: seq<byte>, step: nat): (r: seq<byte>)
    requires |tag| == TAG_LEN
    ensures |r| == TAG_LEN
    decreases |data|
  {
    if data == [] then tag
    else
      var i := |data| - 1;
      var before := Stirred(tag, data[..i], step);
      before[i % TAG_LEN := Xored(before[i % TAG_LEN], (data[i] + i * step) % 0x100)]
  }

  function Tag(key: seq<byte>, nonce: seq<byte>, aad: seq<byte>, cipher: seq<byte>): (r: seq<byte>)
    requires |key| == KEY_LEN && |nonce| == NONCE_LEN
    ensures |r| == TAG_LEN
  {
    var start := seq(TAG_LEN, i requires 0 <= i < TAG_LEN => Xored(Xored(0x6d, key[i]), key[i + 16]));
    Stirred(Stirred(Stirred(start, nonce, 1), aad, 3), cipher, 5)
  }

  function Seal(key: seq<byte>, nonce: seq<byte>, aad: seq<byte>, plain: seq<byte>): Option<Sealed> {
    if |key| != KEY_LEN || |nonce| != NONCE_LEN then None
    else
      var cipher := MaskedAll(key, nonce, plain);
      Some(Sealed(cipher, Tag(key, nonce, aad, cipher)))
  }

  function Unseal(key: seq<byte>, nonce: seq<byte>, aad: seq<byte>, cipher: seq<byte>, tag: seq<byte>): Unsealed {
    if |key| != KEY_LEN || |nonce| != NONCE_LEN then Broken
    else if tag != Tag(key, nonce, aad, cipher) then Forged
    else Plain(MaskedAll(key, nonce, cipher))
  }

  const EXAMPLE_COM: seq<byte> := [0x65, 0x78, 0x61, 0x6d, 0x70, 0x6c, 0x65, 0x2e, 0x63, 0x6f, 0x6d]
  const EXAMPLE_HASH: seq<byte> := [
    0xa3, 0x79, 0xa6, 0xf6, 0xee, 0xaf, 0xb9, 0xa5, 0x5e, 0x37, 0x8c, 0x11, 0x80, 0x34, 0xe2, 0x75,
    0x1e, 0x68, 0x2f, 0xab, 0x9f, 0x2d, 0x30, 0xab, 0x13, 0xd2, 0x12, 0x55, 0x86, 0xce, 0x19, 0x47]

  const ASSERT_DIGEST: seq<byte> := [
    0x5f, 0xa3, 0x53, 0xcf, 0x29, 0xf8, 0xb9, 0xfd, 0x28, 0x29, 0xb2, 0x12, 0x92, 0x7e, 0xd2, 0x3a,
    0x83, 0x5f, 0x39, 0x96, 0x0f, 0xe0, 0xdb, 0x5e, 0xe1, 0x7c, 0x9f, 0x6c, 0x24, 0xc5, 0x8c, 0xff]

  const ASSERT_SIGNATURE: seq<byte> := [
    0x30, 0x45, 0x02, 0x21, 0x00, 0xf1, 0x5e, 0x0b, 0x89, 0x08, 0x91, 0x8c, 0x64, 0xcc, 0x3d, 0x3a, 0xf3, 0x26,
    0x96, 0xd0, 0xe8, 0x4a, 0x94, 0x25, 0xbd, 0xf9, 0x08, 0x30, 0x49, 0xf1, 0xa5, 0xb7, 0x18, 0x0e, 0xab, 0x20,
    0x25, 0x02, 0x20, 0x00, 0xb3, 0x34, 0xf5, 0x67, 0x8b, 0x74, 0x71, 0x24, 0x84, 0xa1, 0xc9, 0xcd, 0x1d, 0xe5,
    0x1e, 0xf5, 0x90, 0xd0, 0x46, 0x4b, 0xd5, 0xd9, 0x76, 0xe5, 0x89, 0x10, 0xdb, 0x27, 0xf8, 0xab, 0x62]

  /** One relying party, one input to be signed, and one key pair are known. */
  function Sha(m: seq<byte>): Option<seq<byte>> {
    if m == EXAMPLE_COM then Some(EXAMPLE_HASH) else if |m| == 69 then Some(ASSERT_DIGEST) else None
  }

  function Pub(scalar: seq<byte>): PublicKey {
    if scalar == Counting(1, 32) then PublicKey(Counting(0x20, 32), Counting(0x80, 32)) else NoKey
  }

  function Sign(scalar: seq<byte>, digest: seq<byte>): Option<seq<byte>> {
    if scalar == Counting(1, 32) && digest == ASSERT_DIGEST then Some(ASSERT_SIGNATURE) else None
  }

  predicate Verify(x: seq<byte>, y: seq<byte>, digest: seq<byte>, signature: seq<byte>) {
    x == Counting(0x20, 32) && y == Counting(0x80, 32) && digest == ASSERT_DIGEST && signature == ASSERT_SIGNATURE
  }

  const TOY: Library := Library(Sha, Seal, Unseal, Pub, Sign, Verify)

  lemma MaskedTwice(key: seq<byte>, nonce: seq<byte>, i: nat, b: byte)
    requires |key| == KEY_LEN && |nonce| == NONCE_LEN
    ensures Masked(key, nonce, i, Masked(key, nonce, i, b)) == b
  {
    var k, n := key[i % KEY_LEN], nonce[i % NONCE_LEN];
    var bk := Xor(b, k);
    var bkn := Xor(bk, n);
    XorSwap(bkn, 0xa5, k);
    XorSwap(Xor(bkn, k), 0xa5, n);
    XorCancels(Xor(Xor(bkn, k), n), 0xa5);
    XorSwap(bk, n, k);
    XorCancels(b, k);
    XorCancels(b, n);
  }

  /** The laws hold of the stand-in, and credentials do get wrapped with it. */
  lemma TheLawsCanBeMet(nonce: seq<byte>, rpHash: seq<byte>)
    requires |nonce| == NONCE_LEN && |rpHash| == HASH_LEN
    ensures Sized(TOY) && Opens(TOY) && Verifies(TOY)
    ensures Wrapping(TOY, Some(ROOT), Some(nonce), rpHash, Counting(1, 32)).Got?
  {
    forall k: seq<byte>, n, a, p | Seal(k, n, a, p).Some?
      ensures Unseal(k, n, a, Seal(k, n, a, p).value.cipher, Seal(k, n, a, p).value.tag) == Plain(p)
    {
      var cipher := MaskedAll(k, n, p);
      forall i | 0 <= i < |p|
        ensures MaskedAll(k, n, cipher)[i] == p[i]
      {
        MaskedTwice(k, n, i, p[i]);
      }
      assert MaskedAll(k, n, cipher) == p;
    }
  }

  /** A device with the stand-in libraries and a user who agrees. */
  function Device(nonce: seq<byte>): World
    requires |nonce| == NONCE_LEN
  {
    World(TOY, (n: nat) => Some(ROOT), Some(ROOT), Some(nonce),
          Some(KeyPair(Counting(1, 32), Counting(0x20, 32), Counting(0x80, 32))), PRESS_OK, (n: nat) => false)
  }

  const REGISTRATION: MR.Request := MR.Request(EXAMPLE_COM, [], true, false)

  /** On that device a registration succeeds, and so does an assertion with what it registered. */
  lemma RegistersAndAsserts(nonce: seq<byte>, clientHash: seq<byte>, cap: nat)
    requires |nonce| == NONCE_LEN && |clientHash| == HASH_LEN && cap <= 2048
    ensures var w := Device(nonce);
            && Sound(w) && Opens(w.lib) && Verifies(w.lib) && KeepsRoot(w, ROOT)
            && M.Decision(w, REGISTRATION, cap) == OK
            && var p := AR.Request(EXAMPLE_COM, clientHash, [Desc(RegisteredId(w, REGISTRATION, cap), true)], false);
               A.Decision(w, p, cap) == OK
  {
    var w := Device(nonce);
    TheLawsCanBeMet(nonce, EXAMPLE_HASH);
    hide Seal, Unseal, Sized, Opens, Verifies;
    DeviceIsSound(nonce);
    M.MadeExactlyWhen(w, REGISTRATION, cap);
    var p := AR.Request(EXAMPLE_COM, clientHash, [Desc(RegisteredId(w, REGISTRATION, cap), true)], false);
    RegisteredIsFound(w, REGISTRATION, cap, ROOT, w, p.allow, 0);
    assert |A.AuthData(EXAMPLE_HASH) + clientHash| == 69;
  }

  lemma DeviceIsSound(nonce: seq<byte>)
    requires |nonce| == NONCE_LEN
    ensures Sound(Device(nonce)) && KeepsRoot(Device(nonce), ROOT)
  {
    TheLawsCanBeMet(nonce, EXAMPLE_HASH);
  }
}
