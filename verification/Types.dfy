/** Values shared by every module: bytes, options and the status codes of the public API. */
module Types {
  type byte = b: int | 0 <= b < 256

  type Bytes = seq<byte>

  function Zeros(n: nat): (z: Bytes)
    ensures |z| == n
  {
    seq(n, _ => 0)
  }

  /** At most the first n: what a loop over sqlite3_step collects when the statement delivers n rows and ends. */
  function UpTo<T>(s: seq<T>, n: nat): seq<T> { if n < |s| then s[..n] else s }

  datatype Option<+T> = None | Some(value: T)

  // ssm_status, include/ssm/ssm.h
  datatype Status = Ok | ErrAuth | ErrNotFound | ErrExpired | ErrIntegrity | ErrInternal
}

/**
 Cryptography as ideal functions. A `Suite` is any choice of the seven primitives the vault
 calls; `Ideal` lists the only facts about them that the proofs use. A `Token` is a byte string
 that the vault stores and passes on without looking inside: a hash, salt, key, nonce or tag.
 */
module Crypto {
  import opened Types

  datatype Token = Text(s: string) | Raw(n: nat) | Pair(left: Token, right: Token)

  datatype Sealed = Sealed(ciphertext: Bytes, tag: Token)

  datatype Suite = Suite(
    hashPassword: (string, Token) -> Token,
    verifyPassword: (string, Token) -> bool,
    derive: (Token, Token) -> Token,
    wrap: (Token, Token) -> Token,
    unwrap: (Token, Token) -> Option<Token>,
    seal: (Token, Token, Bytes) -> Sealed,
    open: (Token, Token, Sealed) -> Option<Bytes>)

  ghost predicate Ideal(c: Suite) {
    // A password verifies against a hash exactly when it is the password that was hashed.
    && (forall p, q, salt :: c.verifyPassword(p, c.hashPassword(q, salt)) <==> p == q)
    // For a fixed salt, different password hashes derive different wrapping keys.
    && (forall h, h', salt :: c.derive(h, salt) == c.derive(h', salt) ==> h == h')
    // AES-KW: unwrapping inverts wrapping, and no blob unwraps under two keys.
    && (forall w, k :: c.unwrap(w, c.wrap(w, k)) == Some(k))
    && (forall w, w', blob :: c.unwrap(w, blob).Some? && c.unwrap(w', blob).Some? ==> w == w')
    // AES-GCM: opening inverts sealing, keeps the length, and no box opens under two keys.
    && (forall k, n, p :: c.open(k, n, c.seal(k, n, p)) == Some(p))
    && (forall k, n, p :: |c.seal(k, n, p).ciphertext| == |p|)
    && (forall k, n, box :: c.open(k, n, box).Some? ==> |c.open(k, n, box).value| == |box.ciphertext|)
    && (forall k, k', n, box :: c.open(k, n, box).Some? && c.open(k', n, box).Some? ==> k == k')
  }

  /** The symbolic suite: every blob simply records what it was made from. */
  function Symbolic(): Suite {
    Suite(
      (p: string, salt: Token) => Pair(Text(p), salt),
      (p: string, h: Token) => h.Pair? && h.left == Text(p),
      (h: Token, salt: Token) => Pair(h, salt),
      (w: Token, k: Token) => Pair(w, k),
      (w: Token, blob: Token) => if blob.Pair? && blob.left == w then Some(blob.right) else None,
      (k: Token, n: Token, p: Bytes) => Sealed(p, Pair(k, n)),
      (k: Token, n: Token, box: Sealed) => if box.tag == Pair(k, n) then Some(box.ciphertext) else None)
  }

  /** The laws are consistent: the symbolic suite satisfies all of them. */
  lemma SymbolicIsIdeal()
    ensures Ideal(Symbolic())
  {
  }
}
