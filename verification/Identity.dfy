/** Symbolic stand-ins for the key material of native-port-identity.mjs.
    A public key is named by its owner's number; constructors are injective, which is the
    usual perfect-cryptography reading of SHA-256 and Ed25519. */
module Identity {

  type Byte = b: int | 0 <= b < 256
  type Bytes = seq<Byte>

  datatype Option<+T> = None | Some(value: T)

  /** An Ed25519 public key. */
  datatype SigningKey = Ed25519(owner: nat)

  /** 'strata:port:ed25519:' followed by the digest of the public key. */
  datatype PortId = PortOf(key: SigningKey)

  predicate InRange(c: char, lo: char, hi: char) { lo <= c <= hi }

  predicate LowerHex(c: char) { InRange(c, '0', '9') || InRange(c, 'a', 'f') }

  /** The pattern [a-f0-9]{n}, anchored. */
  predicate HexText(s: string, n: nat) {
    |s| == n && forall i :: 0 <= i < |s| ==> LowerHex(s[i])
  }

  /** 2^53 - 1 bounds Number.isSafeInteger on both sides. */
  predicate SafeInteger(n: int) { -9007199254740991 <= n <= 9007199254740991 }

  ghost predicate NoDuplicates<T>(s: seq<T>) {
    forall i, j :: 0 <= i < j < |s| ==> s[i] != s[j]
  }
}
