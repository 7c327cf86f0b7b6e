/** Channel names and the hash that places them in the table. */
module Names {

  /** The bytes of a C string, without its terminator. */
  type Name = seq<bv8>

  /** Size of a stored channel name, terminator included. */
  const CHANNEL_LEN: nat := 16

  /** The part of a requested name that the table stores and compares. */
  function Truncate(channel: Name): Name {
    if |channel| > CHANNEL_LEN - 1 then channel[..CHANNEL_LEN - 1] else channel
  }

  /** The stored name is the requested one, cut after 15 bytes. */
  lemma StoredName(channel: Name)
    ensures Truncate(channel) == if |channel| < 15 then channel else channel[..15]
  {
  }

  /** Two requested names are one channel if and only if they are equal or agree in their first 15 bytes. */
  lemma SameStoredName(a: Name, b: Name)
    ensures Truncate(a) == Truncate(b) <==> a == b || (|a| >= 15 && |b| >= 15 && a[..15] == b[..15])
  {
  }

  /** A `char` converted to `size_t`, for a platform whose plain `char` is signed or not. */
  function Widen(b: bv8, signedChar: bool): bv64 {
    if signedChar && b >= 0x80 then 0xFFFF_FFFF_FFFF_FF00 | (b as bv64) else b as bv64
  }

  /** Multiplication by 33 modulo 2^64. */
  function Times33(h: bv64): bv64 {
    33 * h
  }

  /** One round of the hash. */
  function Mix(h: bv64, x: bv64): bv64 {
    Times33(h) ^ x
  }

  function HashFrom(h: bv64, key: Name, signedChar: bool): bv64
    decreases |key|
  {
    if key == [] then h else HashFrom(Mix(h, Widen(key[0], signedChar)), key[1..], signedChar)
  }

  const HASH_SEED: bv64 := 5381

  /** Plain `char` is signed on the x86-64 targets of the library. */
  const CHAR_IS_SIGNED := true

  /** The full hash of a stored name, as the number that is reduced modulo the capacity. */
  function HashOf(key: Name): nat {
    HashFrom(HASH_SEED, key, CHAR_IS_SIGNED) as nat
  }

  lemma HashIsSeeded(key: Name)
    ensures HashOf(key) == HashFrom(5381, key, true) as nat
  {
    hide HashFrom;
  }

  lemma ShiftAddIsTimes33(h: bv64)
    ensures h + (h << 5) == Times33(h)
  {
  }

  lemma MixByShift(h: bv64, x: bv64)
    ensures (h + (h << 5)) ^ x == Mix(h, x)
  {
    ShiftAddIsTimes33(h);
  }

  lemma HashFromSnoc(h: bv64, key: Name, b: bv8, signedChar: bool)
    ensures HashFrom(h, key + [b], signedChar) == Mix(HashFrom(h, key, signedChar), Widen(b, signedChar))
    decreases |key|
  {
    if key == [] {
      assert key + [b] == [b];
    } else {
      assert (key + [b])[1..] == key[1..] + [b];
      HashFromSnoc(Mix(h, Widen(key[0], signedChar)), key[1..], b, signedChar);
    }
  }

  /** What one byte does to a hash: 33 times the hash is xored with the value of the byte. */
  lemma ByteEnters(h: bv64, b: bv8, signedChar: bool)
    requires b < 0x80 || !signedChar
    ensures HashFrom(h, [b], signedChar) == (33 * h) ^ (b as bv64)
  {
    assert [b][1..] == [];
  }

  /** Where plain `char` is signed, a byte from 128 on brings 56 ones above its own eight bits. */
  lemma HighByteEnters(h: bv64, b: bv8)
    requires b >= 0x80
    ensures HashFrom(h, [b], true) == (33 * h) ^ (0xFFFF_FFFF_FFFF_FF00 + (b as bv64))
  {
    assert [b][1..] == [];
  }

  /** The bytes are folded in one after the other. */
  lemma {:induction false} HashFromConcat(h: bv64, a: Name, b: Name, signedChar: bool)
    ensures HashFrom(h, [], signedChar) == h
    ensures HashFrom(h, a + b, signedChar) == HashFrom(HashFrom(h, a, signedChar), b, signedChar)
    decreases |a|
  {
    hide Mix, Widen;
    if a == [] {
      assert a + b == b;
    } else {
      assert (a + b)[1..] == a[1..] + b;
      HashFromConcat(Mix(h, Widen(a[0], signedChar)), a[1..], b, signedChar);
    }
  }

  /** The hashes of "a", of "ab", and of the single byte 0xE9 with signed `char`, as numbers. */
  lemma HashNumbers()
    ensures HashOf([]) == 5381
    ensures HashOf([0x61]) == 177604
    ensures HashOf([0x61, 0x62]) == 5860902
    ensures HashOf([0xE9]) == 18446744073709374028
  {
    assert [0x61, 0x62][1..] == [0x62];
  }

  /** The two statements of the loop body, with the shift the code uses in place of the product. */
  method HashRound(h0: bv64, x: bv64) returns (h: bv64)
    ensures h == Mix(h0, x)
  {
    MixByShift(h0, x);
    h := h0 + (h0 << 5);
    h := h ^ x;
  }

  /** The hash loop reads exactly `length` bytes and folds them with `Mix`. */
  method HashFn(key: Name, length: nat, signedChar: bool) returns (h: bv64)
    requires length <= |key|
    ensures h == HashFrom(HASH_SEED, key[..length], signedChar)
  {
    h := HASH_SEED;
    var i := 0;
    while i < length
      invariant 0 <= i <= length
      invariant h == HashFrom(HASH_SEED, key[..i], signedChar)
    {
      HashFromSnoc(HASH_SEED, key[..i], key[i], signedChar);
      assert key[..i + 1] == key[..i] + [key[i]];
      h := HashRound(h, Widen(key[i], signedChar));
      i := i + 1;
    }
  }

  /** Multiplication by the inverse of 33 modulo 2^64. */
  function Over33(h: bv64): bv64 {
    0x0F83_E0F8_3E0F_83E1 * h
  }

  lemma Over33InvertsProduct(h: bv64)
    ensures Over33(33 * h) == h
  {
  }

  lemma Over33Inverts(h: bv64)
    ensures Over33(Times33(h)) == h
  {
    hide Over33;
    Over33InvertsProduct(h);
  }

  lemma XorUndoesMix(h: bv64, x: bv64)
    ensures Mix(h, x) ^ x == Times33(h)
    ensures Mix(h, x) ^ Times33(h) == x
  {
    hide Times33;
  }

  lemma MixInjectiveInHash(g: bv64, h: bv64, x: bv64)
    ensures Mix(g, x) == Mix(h, x) ==> g == h
  {
    hide Mix, Times33, Over33;
    XorUndoesMix(g, x);
    XorUndoesMix(h, x);
    Over33Inverts(g);
    Over33Inverts(h);
  }

  lemma WidenInjective(b: bv8, c: bv8, signedChar: bool)
    ensures Widen(b, signedChar) == Widen(c, signedChar) ==> b == c
  {
  }

  lemma MixInjectiveInByte(h: bv64, b: bv8, c: bv8, signedChar: bool)
    ensures Mix(h, Widen(b, signedChar)) == Mix(h, Widen(c, signedChar)) ==> b == c
  {
    hide Mix, Times33, Widen;
    XorUndoesMix(h, Widen(b, signedChar));
    XorUndoesMix(h, Widen(c, signedChar));
    WidenInjective(b, c, signedChar);
  }

  lemma {:induction false} SeedsStayApart(g: bv64, h: bv64, key: Name, signedChar: bool)
    requires g != h
    ensures HashFrom(g, key, signedChar) != HashFrom(h, key, signedChar)
    decreases |key|
  {
    hide Mix, Widen;
    if key == [] {
    } else {
      var x := Widen(key[0], signedChar);
      MixInjectiveInHash(g, h, x);
      SeedsStayApart(Mix(g, x), Mix(h, x), key[1..], signedChar);
    }
  }

  /** Two keys that differ in exactly one byte never share a full hash, whatever the seed. */
  lemma {:induction false} OneByteChangesHash(h: bv64, a: Name, b: Name, i: nat, signedChar: bool)
    requires |a| == |b| && i < |a| && a[i] != b[i]
    requires a[..i] == b[..i] && a[i + 1..] == b[i + 1..]
    ensures HashFrom(h, a, signedChar) != HashFrom(h, b, signedChar)
    decreases |a|
  {
    hide Mix, Widen;
    var g, k := Mix(h, Widen(a[0], signedChar)), Mix(h, Widen(b[0], signedChar));
    if i == 0 {
      MixInjectiveInByte(h, a[0], b[0], signedChar);
      SeedsStayApart(g, k, a[1..], signedChar);
    } else {
      assert a[0] == a[..i][0] == b[..i][0] == b[0];
      assert a[1..][..i - 1] == a[..i][1..] == b[..i][1..] == b[1..][..i - 1];
      assert a[1..][i..] == a[i + 1..] && b[1..][i..] == b[i + 1..];
      OneByteChangesHash(g, a[1..], b[1..], i - 1, signedChar);
    }
  }
}
