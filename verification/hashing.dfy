/** `hash_password`: the legacy byte-wise obfuscation of the password with the
    server-issued hash key, before it is sent in the A request. */
module Hashing {

  /** One obfuscated byte. `bv8` subtraction and addition wrap modulo 256,
      which is what the `u8` arithmetic of the source does in a release build. */
  function HashByte(p: bv8, k: bv8): bv8
  {
    ((p - 0x20) ^ k) + 0x20
  }

  /** Undoing the offset and the xor gives the byte back. */
  lemma HashByteInvolution(p: bv8, k: bv8)
    ensures HashByte(HashByte(p, k), k) == p
  {
  }

  function Min(a: nat, b: nat): nat { if a <= b then a else b }

  /** `password.zip(hash_key).map(..)`: bytes are paired position by position
      and pairing stops at the shorter of the two sequences. */
  function HashPassword(password: seq<bv8>, key: seq<bv8>): (r: seq<bv8>)
    ensures |r| == Min(|password|, |key|)
    ensures forall i :: 0 <= i < |r| ==> r[i] == HashByte(password[i], key[i])
  {
    if password == [] || key == [] then []
    else [HashByte(password[0], key[0])] + HashPassword(password[1..], key[1..])
  }

  /** Hashing twice with the same key gives back the password, cut to the
      key's length. */
  lemma HashPasswordTwice(password: seq<bv8>, key: seq<bv8>)
    ensures HashPassword(HashPassword(password, key), key) == password[..Min(|password|, |key|)]
  {
    var once := HashPassword(password, key);
    var twice := HashPassword(once, key);
    forall i | 0 <= i < |twice| ensures twice[i] == password[i] {
      HashByteInvolution(password[i], key[i]);
    }
  }

  /** With a key at least as long as the password, hashing is its own inverse. */
  lemma HashPasswordInvolution(password: seq<bv8>, key: seq<bv8>)
    requires |password| <= |key|
    ensures HashPassword(HashPassword(password, key), key) == password
  {
    HashPasswordTwice(password, key);
    assert password[..|password|] == password;
  }

  /** Password bytes beyond the key's length do not reach the output. */
  lemma {:induction false} HashPasswordDropsExcess(password: seq<bv8>, extra: seq<bv8>, key: seq<bv8>)
    requires |key| <= |password|
    ensures HashPassword(password + extra, key) == HashPassword(password, key)
  {
    if key != [] {
      assert (password + extra)[1..] == password[1..] + extra;
      HashPasswordDropsExcess(password[1..], extra, key[1..]);
    }
  }

  lemma HashPasswordExample()
    ensures HashPassword([0x41, 0x42, 0x43], [0x01, 0x02, 0x03]) == [0x40, 0x40, 0x40]
    ensures HashPassword([0x61, 0x62], [0x07, 0x1F, 0x33]) == [0x66, 0x7D]
    // 0x05 - 0x20 wraps to 0xE5; 0xE5 ^ 0x80 = 0x65; 0x65 + 0x20 = 0x85
    ensures HashPassword([0x05], [0x80]) == [0x85]
    // 0x10 - 0x20 wraps to 0xF0; 0xF0 ^ 0x0F = 0xFF; 0xFF + 0x20 wraps to 0x1F
    ensures HashPassword([0x10], [0x0F]) == [0x1F]
  {
  }
}
