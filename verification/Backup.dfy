/**
 The backup container: a 32-byte header, the encrypted database image, a 16-byte GCM tag and a 32-byte
 HMAC over everything before it. The header is also the associated data of the encryption.
 */
module Backup {
  import opened Types

  const MAGIC: Bytes := [86, 65, 85, 76, 84, 66, 75, 80]  // "VAULTBKP"
  const HEADER_LEN := 32
  const NONCE_LEN := 12
  const TAG_LEN := 16
  const HMAC_LEN := 32
  const VERSION := 2
  const ENC_LABEL: Bytes := [115, 115, 109, 45, 98, 97, 99, 107, 117, 112, 45, 101, 110, 99]        // "ssm-backup-enc"
  const AUTH_LABEL: Bytes := [115, 115, 109, 45, 98, 97, 99, 107, 117, 112, 45, 97, 117, 116, 104]  // "ssm-backup-auth"

  datatype Box = Box(ciphertext: Bytes, tag: Bytes)

  datatype Primitives = Primitives(
    sha256: Bytes -> Bytes,
    hmac: (Bytes, Bytes) -> Bytes,
    seal: (Bytes, Bytes, Bytes, Bytes) -> Box,                // key, nonce, associated data, plaintext
    open: (Bytes, Bytes, Bytes, Box) -> Option<Bytes>)

  /** Lengths, decryption inverts encryption, and what decrypts is what encryption produces. */
  ghost predicate Lawful(b: Primitives) {
    && (forall k, m :: |b.hmac(k, m)| == HMAC_LEN)
    && (forall k, n, a, p :: |b.seal(k, n, a, p).ciphertext| == |p| && |b.seal(k, n, a, p).tag| == TAG_LEN)
    && (forall k, n, a, p :: b.open(k, n, a, b.seal(k, n, a, p)) == Some(p))
    && (forall k, n, a, box :: b.open(k, n, a, box).Some? ==> b.seal(k, n, a, b.open(k, n, a, box).value) == box)
  }

  lemma LawfulExists()
    ensures exists b :: Lawful(b)
  {
    var b := Primitives(
      (m: Bytes) => m,
      (k: Bytes, m: Bytes) => Zeros(HMAC_LEN),
      (k: Bytes, n: Bytes, a: Bytes, p: Bytes) => Box(p, Zeros(TAG_LEN)),
      (k: Bytes, n: Bytes, a: Bytes, box: Box) => if box.tag == Zeros(TAG_LEN) then Some(box.ciphertext) else None);
    assert Lawful(b);
  }

  // ---- little-endian fields ----

  function Pow256(w: nat): nat { if w == 0 then 1 else 256 * Pow256(w - 1) }

  function LittleEndian(n: nat, w: nat): (s: Bytes)
    ensures |s| == w
  {
    if w == 0 then [] else [n % 256] + LittleEndian(n / 256, w - 1)
  }

  function ReadLittleEndian(s: Bytes): nat {
    if s == [] then 0 else s[0] + 256 * ReadLittleEndian(s[1..])
  }

  lemma {:induction false} ReadInvertsWrite(n: nat, w: nat)
    requires n < Pow256(w)
    ensures ReadLittleEndian(LittleEndian(n, w)) == n
  {
    if w == 0 {
    } else {
      ReadInvertsWrite(n / 256, w - 1);
    }
  }

  lemma {:induction false} WriteInvertsRead(s: Bytes)
    ensures ReadLittleEndian(s) < Pow256(|s|)
    ensures LittleEndian(ReadLittleEndian(s), |s|) == s
  {
    if s == [] {
    } else {
      WriteInvertsRead(s[1..]);
      var rest := ReadLittleEndian(s[1..]);
      assert (s[0] + 256 * rest) / 256 == rest && (s[0] + 256 * rest) % 256 == s[0];
      assert s == [s[0]] + s[1..];
    }
  }

  /** struct backup_header, packed, on a little-endian machine */
  function Header(timestamp: nat, nonce: Bytes): (h: Bytes)
    ensures |nonce| == NONCE_LEN ==> |h| == HEADER_LEN
  {
    MAGIC + LittleEndian(VERSION, 2) + LittleEndian(timestamp, 8) + nonce + Zeros(2)
  }

  // ---- the two calls as functions ----

  function EncKey(b: Primitives, key: Bytes): Bytes { b.sha256(ENC_LABEL + key) }

  function AuthKey(b: Primitives, key: Bytes): Bytes { b.sha256(AUTH_LABEL + key) }

  /** The nonce field of a header. */
  function NonceOf(header: Bytes): Bytes
    requires |header| == HEADER_LEN
  {
    header[18..30]
  }

  /** The container around a header and a plaintext. */
  function Container(b: Primitives, key: Bytes, header: Bytes, image: Bytes): Bytes
    requires |header| == HEADER_LEN
  {
    var box := b.seal(EncKey(b, key), NonceOf(header), header, image);
    var body := header + box.ciphertext + box.tag;
    body + b.hmac(AuthKey(b, key), body)
  }

  /** backup_create: an empty image cannot be read, and the key must have 32 bytes. */
  function Create(b: Primitives, key: Bytes, image: Bytes, timestamp: nat, nonce: Bytes): Option<Bytes>
    requires |nonce| == NONCE_LEN
  {
    if |key| != 32 || image == [] then None
    else Some(Container(b, key, Header(timestamp, nonce), image))
  }

  /** backup_restore */
  function Restore(b: Primitives, key: Bytes, file: Bytes): Option<Bytes> {
    if |key| != 32 || |file| < HEADER_LEN + TAG_LEN + HMAC_LEN then None
    else
      var header := file[..HEADER_LEN];
      if header[..8] != MAGIC || ReadLittleEndian(header[8..10]) != VERSION then None
      else
        var n := |file| - HEADER_LEN - TAG_LEN - HMAC_LEN;
        var ciphertext := file[HEADER_LEN..HEADER_LEN + n];
        var tag := file[HEADER_LEN + n..HEADER_LEN + n + TAG_LEN];
        if b.hmac(AuthKey(b, key), header + ciphertext + tag) != file[HEADER_LEN + n + TAG_LEN..] then None
        else b.open(EncKey(b, key), NonceOf(header), header, Box(ciphertext, tag))
  }

  // ---- the program's buffers ----

  class Mac {
    const b: Primitives
    const key: Bytes
    var absorbed: Bytes

    constructor (b: Primitives, key: Bytes)
      ensures this.b == b && this.key == key && absorbed == []
    {
      this.b, this.key, absorbed := b, key, [];
    }

    method Update(data: Bytes)
      modifies this
      ensures absorbed == old(absorbed) + data
    {
      absorbed := absorbed + data;
    }

    method Final() returns (mac: Bytes)
      ensures mac == b.hmac(key, absorbed)
    {
      mac := b.hmac(key, absorbed);
    }
  }

  method CopyInto(out: array<byte>, at: nat, data: Bytes)
    requires at + |data| <= out.Length
    modifies out
    ensures out[..] == old(out[..at]) + data + old(out[at + |data|..])
  {
    for i := 0 to |data|
      invariant out[..at] == old(out[..at]) && out[at..at + i] == data[..i]
      invariant out[at + i..] == old(out[at + i..])
    {
      out[at + i] := data[i];
      assert data[..i + 1] == data[..i] + [data[i]];
      assert out[at..at + i + 1] == out[at..at + i] + [out[at + i]];
    }
  }

  /** The four parts of a backup file, copied to their offsets. */
  method Assemble(header: Bytes, ciphertext: Bytes, tag: Bytes, hmac: Bytes) returns (out: array<byte>)
    requires |header| == HEADER_LEN && |tag| == TAG_LEN && |hmac| == HMAC_LEN
    ensures fresh(out) && out[..] == header + ciphertext + tag + hmac
  {
    var n := |ciphertext|;
    out := new byte[HEADER_LEN + n + TAG_LEN + HMAC_LEN];
    CopyInto(out, 0, header);
    CopyInto(out, HEADER_LEN, ciphertext);
    CopyInto(out, HEADER_LEN + n, tag);
    CopyInto(out, HEADER_LEN + n + TAG_LEN, hmac);
    Slices(out[..], header, ciphertext, tag, hmac);
  }

  lemma Slices(s: Bytes, a: Bytes, b: Bytes, c: Bytes, d: Bytes)
    requires |s| == |a| + |b| + |c| + |d| && s[..|a|] == a && s[|a|..|a| + |b|] == b
    requires s[|a| + |b|..|a| + |b| + |c|] == c && s[|a| + |b| + |c|..] == d
    ensures s == a + b + c + d
  {
    assert s == s[..|a|] + s[|a|..|a| + |b|] + s[|a| + |b|..|a| + |b| + |c|] + s[|a| + |b| + |c|..];
  }

  method BackupCreate(b: Primitives, key: Bytes, image: Bytes, timestamp: nat, nonce: Bytes)
    returns (file: Option<Bytes>)
    requires Lawful(b) && |nonce| == NONCE_LEN
    ensures file == Create(b, key, image, timestamp, nonce)
  {
    if |key| != 32 { return None; }
    var encKey, authKey := b.sha256(ENC_LABEL + key), b.sha256(AUTH_LABEL + key);
    if |image| == 0 { return None; }
    var header := MAGIC + LittleEndian(VERSION, 2) + LittleEndian(timestamp, 8) + nonce + Zeros(2);
    var box := b.seal(encKey, nonce, header, image);
    var state := new Mac(b, authKey);
    state.Update(header);
    state.Update(box.ciphertext);
    state.Update(box.tag);
    var hmac := state.Final();
    var out := Assemble(header, box.ciphertext, box.tag, hmac);
    assert NonceOf(header) == nonce;
    assert [] + header == header;
    return Some(out[..]);
  }

  method BackupRestore(b: Primitives, key: Bytes, file: Bytes) returns (image: Option<Bytes>)
    ensures image == Restore(b, key, file)
  {
    if |key| != 32 { return None; }
    var encKey, authKey := b.sha256(ENC_LABEL + key), b.sha256(AUTH_LABEL + key);
    if |file| < HEADER_LEN + TAG_LEN + HMAC_LEN { return None; }
    var header := file[..HEADER_LEN];
    if header[..8] != MAGIC { return None; }
    if ReadLittleEndian(header[8..10]) != VERSION { return None; }
    var n := |file| - HEADER_LEN - TAG_LEN - HMAC_LEN;
    var ciphertext, tag := file[HEADER_LEN..HEADER_LEN + n], file[HEADER_LEN + n..HEADER_LEN + n + TAG_LEN];
    var state := new Mac(b, authKey);
    state.Update(header);
    state.Update(ciphertext);
    state.Update(tag);
    assert [] + header + ciphertext + tag == header + ciphertext + tag;
    var computed := state.Final();
    if computed != file[HEADER_LEN + n + TAG_LEN..] { return None; }
    return b.open(encKey, header[18..30], header, Box(ciphertext, tag));
  }

  // ---- what they guarantee ----

  /** How a container divides into its parts again. */
  lemma ContainerParts(b: Primitives, key: Bytes, header: Bytes, image: Bytes)
    requires Lawful(b) && |header| == HEADER_LEN
    ensures var file := Container(b, key, header, image);
      var box := b.seal(EncKey(b, key), NonceOf(header), header, image);
      && |file| == |image| + 80
      && file[..HEADER_LEN] == header
      && file[HEADER_LEN..HEADER_LEN + |image|] == box.ciphertext
      && file[HEADER_LEN + |image|..HEADER_LEN + |image| + TAG_LEN] == box.tag
      && file[HEADER_LEN + |image| + TAG_LEN..] == b.hmac(AuthKey(b, key), header + box.ciphertext + box.tag)
  {
  }

  /**
   Restore accepts a file, with a plaintext, if and only if the key has 32 bytes and the file is the container
   that its own first 32 bytes and that plaintext give, with the right magic and version.
   */
  lemma RestoreIsCanonical(b: Primitives, key: Bytes, file: Bytes, image: Bytes)
    requires Lawful(b)
    ensures Restore(b, key, file) == Some(image) <==>
      && |key| == 32 && |file| >= HEADER_LEN && file[..8] == MAGIC && ReadLittleEndian(file[8..10]) == VERSION
      && file == Container(b, key, file[..HEADER_LEN], image)
  {
    if |file| >= HEADER_LEN {
      var header := file[..HEADER_LEN];
      assert header[..8] == file[..8] && header[8..10] == file[8..10];
      ContainerParts(b, key, header, image);
      if Restore(b, key, file) == Some(image) {
        var n := |file| - HEADER_LEN - TAG_LEN - HMAC_LEN;
        var ciphertext, tag := file[HEADER_LEN..HEADER_LEN + n], file[HEADER_LEN + n..HEADER_LEN + n + TAG_LEN];
        assert b.seal(EncKey(b, key), NonceOf(header), header, image) == Box(ciphertext, tag);
        assert file == header + ciphertext + tag + file[HEADER_LEN + n + TAG_LEN..];
      }
    }
  }

  lemma HeaderFields(timestamp: nat, nonce: Bytes)
    requires |nonce| == NONCE_LEN
    ensures var h := Header(timestamp, nonce);
      && h[..8] == MAGIC && h[8..10] == LittleEndian(VERSION, 2) && h[10..18] == LittleEndian(timestamp, 8)
      && NonceOf(h) == nonce && h[30..] == Zeros(2)
      && ReadLittleEndian(h[8..10]) == VERSION
  {
    assert Pow256(2) == 65536;
    ReadInvertsWrite(VERSION, 2);
  }

  /** Create needs a key of 32 bytes and an image; restore inverts it, and the file is 80 bytes longer. */
  lemma RestoreInvertsCreate(b: Primitives, key: Bytes, image: Bytes, timestamp: nat, nonce: Bytes)
    requires Lawful(b) && |nonce| == NONCE_LEN
    ensures var file := Create(b, key, image, timestamp, nonce);
      && (file.Some? <==> |key| == 32 && image != [])
      && (file.Some? ==> |file.value| == |image| + 80 && Restore(b, key, file.value) == Some(image))
  {
    var header := Header(timestamp, nonce);
    HeaderFields(timestamp, nonce);
    ContainerParts(b, key, header, image);
    var file := Container(b, key, header, image);
    assert file[..8] == header[..8] && file[8..10] == header[8..10];
    RestoreIsCanonical(b, key, file, image);
  }

  function Ascii(s: string): (b: Bytes)
    ensures |b| == |s|
  {
    seq(|s|, i requires 0 <= i < |s| => s[i] as int % 256)
  }

  lemma Labels()
    ensures MAGIC == Ascii("VAULTBKP") && ENC_LABEL == Ascii("ssm-backup-enc") && AUTH_LABEL == Ascii("ssm-backup-auth")
  {
  }

  /** A backup file byte by byte, with the two keys that are derived from the caller's. */
  lemma FileLayout(b: Primitives, key: Bytes, image: Bytes, timestamp: nat, nonce: Bytes)
    requires Lawful(b) && |key| == 32 && image != [] && |nonce| == 12 && timestamp < Pow256(8)
    ensures var file, n := Create(b, key, image, timestamp, nonce).value, |image|;
      && |file| == 32 + n + 16 + 32
      && file[..8] == Ascii("VAULTBKP") && file[8..10] == [2, 0] && ReadLittleEndian(file[10..18]) == timestamp
      && file[18..30] == nonce && file[30..32] == [0, 0]
      && var box := b.seal(b.sha256(Ascii("ssm-backup-enc") + key), nonce, file[..32], image);
         && file[32..32 + n] == box.ciphertext && file[32 + n..48 + n] == box.tag
         && file[48 + n..] == b.hmac(b.sha256(Ascii("ssm-backup-auth") + key), file[..48 + n])
  {
    Labels();
    hide Ascii;
    var header := Header(timestamp, nonce);
    HeaderFields(timestamp, nonce);
    ReadInvertsWrite(timestamp, 8);
    assert LittleEndian(2, 2) == [2, 0] && Zeros(2) == [0, 0];
    ContainerParts(b, key, header, image);
    var file, n := Container(b, key, header, image), |image|;
    hide Header;
    hide Container;
    hide LittleEndian;
    hide ReadLittleEndian;
    assert file[..32] == header;
    assert file[..8] == header[..8] && file[8..10] == header[8..10] && file[10..18] == header[10..18];
    assert file[18..30] == header[18..30] && file[30..32] == header[30..];
  }

  /** The header that create writes for these fields, if the reserved bytes are zero. */
  lemma HeaderOfFields(header: Bytes)
    requires |header| == HEADER_LEN && header[..8] == MAGIC && ReadLittleEndian(header[8..10]) == VERSION
    requires header[30..] == Zeros(2)
    ensures ReadLittleEndian(header[10..18]) < Pow256(8)
    ensures header == Header(ReadLittleEndian(header[10..18]), NonceOf(header))
  {
    WriteInvertsRead(header[8..10]);
    WriteInvertsRead(header[10..18]);
    assert header == header[..8] + header[8..10] + header[10..18] + header[18..30] + header[30..];
  }

  /**
   An accepted file is one that create would build, for some time and nonce, if and only if its reserved
   bytes are zero and its image is not empty: restore checks neither, create guarantees both.
   */
  lemma AcceptedMeansCreated(b: Primitives, key: Bytes, file: Bytes, image: Bytes)
    requires Lawful(b) && Restore(b, key, file) == Some(image)
    ensures |file| >= HEADER_LEN
    ensures (exists timestamp, nonce :: 0 <= timestamp < Pow256(8) && |nonce| == NONCE_LEN
               && Create(b, key, image, timestamp, nonce) == Some(file))
            <==> file[30..32] == Zeros(2) && image != []
  {
    RestoreIsCanonical(b, key, file, image);
    var header := file[..HEADER_LEN];
    assert header[..8] == file[..8] && header[8..10] == file[8..10] && header[30..] == file[30..32];
    if file[30..32] == Zeros(2) && image != [] {
      HeaderOfFields(header);
      assert Create(b, key, image, ReadLittleEndian(header[10..18]), NonceOf(header)) == Some(file);
    }
    forall timestamp: nat, nonce: Bytes | |nonce| == NONCE_LEN && Create(b, key, image, timestamp, nonce) == Some(file)
      ensures file[30..32] == Zeros(2)
    {
      HeaderFields(timestamp, nonce);
      ContainerParts(b, key, Header(timestamp, nonce), image);
    }
  }
}
