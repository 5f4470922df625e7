/** The foreign primitives the backup pipeline calls, kept abstract: PBKDF2-SHA256
    key derivation (100 000 iterations, 256-bit AES key), AES-GCM, UTF-8
    (`TextEncoder`/`TextDecoder`), base64 (`btoa`/`atob`) and JSON.
    A `Suite` is any choice of these functions; `Sound` states the laws the
    proofs rely on instead of axioms. */
module Primitives {
  import opened Wrappers
  import opened Json

  newtype byte = x: int | 0 <= x < 256
  type Bytes = seq<byte>

  /** Bytes of random salt per encryption (`new Uint8Array(16)`). */
  const SaltLength: nat := 16
  /** Bytes of random AES-GCM nonce per encryption (`new Uint8Array(12)`). */
  const IvLength: nat := 12
  /** AES-GCM appends a 128-bit authentication tag to the ciphertext. */
  const GcmTagLength: nat := 16

  datatype Suite = Suite(
    /** PBKDF2(password, salt) -> AES key */
    deriveKey: (string, Bytes) -> Bytes,
    /** AES-GCM encryption (key, iv, plaintext) -> ciphertext with tag */
    seal: (Bytes, Bytes, Bytes) -> Bytes,
    /** AES-GCM decryption; None is an authentication failure, which `crypto.subtle.decrypt` throws */
    open: (Bytes, Bytes, Bytes) -> Option<Bytes>,
    utf8Encode: string -> Bytes,
    utf8Decode: Bytes -> string,
    /** `btoa(String.fromCharCode(...bytes))`, for bytes within `maxArgs` */
    base64Encode: Bytes -> string,
    /** The engine's limit on the arguments of one call: spreading more bytes
        into `String.fromCharCode` throws a RangeError */
    maxArgs: nat,
    /** `atob`; None when the text is not valid base64 (atob throws) */
    base64Decode: string -> Option<Bytes>,
    /** `JSON.stringify` */
    stringify: Json -> string,
    /** `JSON.parse`; None when the text is not JSON (a SyntaxError) */
    parse: string -> Option<Json>)

  /** The round-trip laws of the primitives. */
  ghost predicate Sound(p: Suite) {
    && (forall key, iv, pt :: p.open(key, iv, p.seal(key, iv, pt)) == Some(pt))
    && (forall key, iv, pt :: |p.seal(key, iv, pt)| == |pt| + GcmTagLength)
    && (forall s :: p.utf8Decode(p.utf8Encode(s)) == s)
    && (forall b :: p.base64Decode(p.base64Encode(b)) == Some(b))
    && (forall j :: p.parse(p.stringify(j)) == Some(j))
    && (forall j :: p.stringify(j) != "")
  }

  /** Round trips make the encoders injective. */
  lemma Base64Injective(p: Suite, a: Bytes, b: Bytes)
    requires Sound(p)
    requires p.base64Encode(a) == p.base64Encode(b)
    ensures a == b
  {
    assert Some(a) == p.base64Decode(p.base64Encode(a));
  }
}
