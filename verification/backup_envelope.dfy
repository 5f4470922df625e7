/** The encrypted envelope of a wallet backup (`encryptData` / `decryptData`):
    the text `v1-gcm:` followed by base64 of salt(16) ‖ iv(12) ‖ AES-GCM ciphertext. */
module BackupEnvelope {
  import opened Wrappers
  import opened Text
  import opened Json
  import opened Primitives

  const VersionPrefix: string := "v1-gcm:"
  /** The smallest decoded body accepted: salt, iv and at least one ciphertext byte. */
  const MinPayloadLength: nat := SaltLength + IvLength + 1
  const EncryptFailed: string := "Failed to encrypt wallet data"
  const DecryptFailed: string := "Failed to decrypt wallet backup. Invalid password or corrupted file."

  /** The decoded body: salt ‖ iv ‖ ciphertext. */
  function Frame(salt: Bytes, iv: Bytes, ciphertext: Bytes): Bytes {
    salt + iv + ciphertext
  }

  /** The bytes `encryptData` spreads into `String.fromCharCode`: salt ‖ iv ‖ the
      AES-GCM ciphertext of the UTF-8 JSON text. */
  function Payload(p: Suite, data: Json, password: Json, salt: Bytes, iv: Bytes): Bytes {
    Frame(salt, iv, p.seal(p.deriveKey(JsString(password), salt), iv, p.utf8Encode(p.stringify(data))))
  }

  /** The payload is short enough to be passed as the arguments of one call. */
  predicate Fits(p: Suite, data: Json, password: Json, salt: Bytes, iv: Bytes) {
    |Payload(p, data, password, salt, iv)| <= p.maxArgs
  }

  /** `encryptData(data, password)` with the random salt and iv given as inputs.
      The password is whatever value the key fetch produced: a falsy one makes it
      fail with the generic encryption error, and any other is used in its
      `String()` form, as `TextEncoder` reads it. A payload too long for the
      spread into `String.fromCharCode` throws a RangeError, which the same
      `catch` turns into the generic error. */
  function Encrypt(p: Suite, data: Json, password: Json, salt: Bytes, iv: Bytes): (r: Result<string>)
    requires |salt| == SaltLength && |iv| == IvLength
    ensures r.Err? <==> !Truthy(password) || !Fits(p, data, password, salt, iv)
    ensures r.Err? ==> r.message == EncryptFailed
    ensures r.Ok? ==> StartsWith(r.value, VersionPrefix)
  {
    if !Truthy(password) then Err(EncryptFailed)
    else
      var key := p.deriveKey(JsString(password), salt);
      var ciphertext := p.seal(key, iv, p.utf8Encode(p.stringify(data)));
      var payload := Frame(salt, iv, ciphertext);
      if |payload| > p.maxArgs then Err(EncryptFailed)
      else Ok(VersionPrefix + p.base64Encode(payload))
  }

  /** Under sound primitives the payload has a known length: 28 bytes of salt and
      iv, the UTF-8 JSON text, and the 16-byte tag; it fits exactly when that sum
      is within the argument limit. */
  lemma PayloadLength(p: Suite, data: Json, password: Json, salt: Bytes, iv: Bytes)
    requires Sound(p)
    requires |salt| == SaltLength && |iv| == IvLength
    ensures |Payload(p, data, password, salt, iv)| == SaltLength + IvLength + |p.utf8Encode(p.stringify(data))| + GcmTagLength
    ensures Fits(p, data, password, salt, iv) <==>
              SaltLength + IvLength + |p.utf8Encode(p.stringify(data))| + GcmTagLength <= p.maxArgs
  {
  }

  /** `decryptData(ciphertext, password)`. `Ok(JNull)` is the source's `return null`
      (wrong prefix or body too short); every thrown error is rewritten to `DecryptFailed`.
      A `ciphertext` that is not a string fails like any other exception inside the `try`. */
  function Decrypt(p: Suite, ciphertext: Json, password: Json): (r: Result<Json>)
    ensures r.Err? ==> r.message == DecryptFailed
    ensures !Truthy(password) ==> r == Err(DecryptFailed)
    ensures Truthy(password) && !ciphertext.JStr? ==> r == Err(DecryptFailed)
    ensures Truthy(password) && ciphertext.JStr? && !StartsWith(ciphertext.s, VersionPrefix) ==> r == Ok(JNull)
    ensures Truthy(password) && ciphertext.JStr? && StartsWith(ciphertext.s, VersionPrefix) ==>
              match p.base64Decode(ciphertext.s[|VersionPrefix|..])
              case None => r == Err(DecryptFailed)
              case Some(raw) => |raw| < MinPayloadLength ==> r == Ok(JNull)
  {
    if !Truthy(password) then Err(DecryptFailed)
    else if !ciphertext.JStr? then Err(DecryptFailed)
    else if !StartsWith(ciphertext.s, VersionPrefix) then Ok(JNull)
    else
      match p.base64Decode(ciphertext.s[|VersionPrefix|..])
      case None => Err(DecryptFailed)
      case Some(raw) =>
        if |raw| < MinPayloadLength then Ok(JNull)
        else
          var salt, iv, body := raw[..SaltLength], raw[SaltLength..SaltLength + IvLength], raw[SaltLength + IvLength..];
          match p.open(p.deriveKey(JsString(password), salt), iv, body)
          case None => Err(DecryptFailed)
          case Some(plain) =>
            match p.parse(p.utf8Decode(plain))
            case None => Err(DecryptFailed)
            case Some(doc) => Ok(doc)
  }

  /** The slicing offsets recover the three parts of a frame. */
  lemma FrameSlices(salt: Bytes, iv: Bytes, ciphertext: Bytes)
    requires |salt| == SaltLength && |iv| == IvLength
    ensures |Frame(salt, iv, ciphertext)| == SaltLength + IvLength + |ciphertext|
    ensures Frame(salt, iv, ciphertext)[..SaltLength] == salt
    ensures Frame(salt, iv, ciphertext)[SaltLength..SaltLength + IvLength] == iv
    ensures Frame(salt, iv, ciphertext)[SaltLength + IvLength..] == ciphertext
  {
    var f := Frame(salt, iv, ciphertext);
    assert f[..SaltLength] == salt;
    assert f[SaltLength..SaltLength + IvLength] == iv;
  }

  /** The byte layout of an encryption: the text after the prefix decodes to
      salt ‖ iv ‖ ciphertext, the ciphertext being AES-GCM of the UTF-8 JSON text,
      and the body is always long enough to pass the decryptor's length check. */
  lemma EncryptLayout(p: Suite, data: Json, password: Json, salt: Bytes, iv: Bytes)
    requires Sound(p)
    requires |salt| == SaltLength && |iv| == IvLength && Truthy(password)
    ensures Encrypt(p, data, password, salt, iv).Ok? <==> Fits(p, data, password, salt, iv)
    ensures Encrypt(p, data, password, salt, iv).Ok? ==>
            var text := Encrypt(p, data, password, salt, iv).value;
            var ct := p.seal(p.deriveKey(JsString(password), salt), iv, p.utf8Encode(p.stringify(data)));
            && text[..|VersionPrefix|] == VersionPrefix
            && p.base64Decode(text[|VersionPrefix|..]) == Some(salt + iv + ct)
            && |salt + iv + ct| >= SaltLength + IvLength + GcmTagLength
  {
    if Encrypt(p, data, password, salt, iv).Ok? {
      var text := Encrypt(p, data, password, salt, iv).value;
      var ct := p.seal(p.deriveKey(JsString(password), salt), iv, p.utf8Encode(p.stringify(data)));
      assert text == VersionPrefix + p.base64Encode(Frame(salt, iv, ct));
      assert text[|VersionPrefix|..] == p.base64Encode(Frame(salt, iv, ct));
    }
  }

  /** Round trip: with sound primitives, an encryption that succeeds (a truthy
      password and a payload within the argument limit) decrypts under the same
      password to the original document. */
  lemma RoundTrip(p: Suite, data: Json, password: Json, salt: Bytes, iv: Bytes)
    requires Sound(p)
    requires |salt| == SaltLength && |iv| == IvLength && Truthy(password)
    ensures Encrypt(p, data, password, salt, iv).Ok? <==> Fits(p, data, password, salt, iv)
    ensures Encrypt(p, data, password, salt, iv).Ok? ==>
              Decrypt(p, JStr(Encrypt(p, data, password, salt, iv).value), password) == Ok(data)
  {
    EncryptLayout(p, data, password, salt, iv);
    if !Fits(p, data, password, salt, iv) { return; }
    var key := p.deriveKey(JsString(password), salt);
    var plain := p.utf8Encode(p.stringify(data));
    var ct := p.seal(key, iv, plain);
    FrameSlices(salt, iv, ct);
    assert p.open(key, iv, ct) == Some(plain);
    assert p.utf8Decode(plain) == p.stringify(data);
  }

  /** An authentication failure of AES-GCM is an error, never the `null` of a format rejection. */
  lemma AuthFailureThrows(p: Suite, text: string, password: Json, raw: Bytes)
    requires Truthy(password) && StartsWith(text, VersionPrefix)
    requires p.base64Decode(text[|VersionPrefix|..]) == Some(raw) && |raw| >= MinPayloadLength
    requires p.open(p.deriveKey(JsString(password), raw[..16]), raw[16..28], raw[28..]).None?
    ensures Decrypt(p, JStr(text), password) == Err(DecryptFailed)
  {
  }

  /** `null` comes back only when the prefix is wrong, the decoded body is under
      29 bytes, or the body authenticates under the password and its JSON text is
      itself `null`. */
  lemma NullOnlyFromFormat(p: Suite, text: string, password: Json)
    requires Truthy(password)
    requires Decrypt(p, JStr(text), password) == Ok(JNull)
    ensures || !StartsWith(text, VersionPrefix)
            || (p.base64Decode(text[|VersionPrefix|..]).Some? && |p.base64Decode(text[|VersionPrefix|..]).value| < MinPayloadLength)
            || (p.base64Decode(text[|VersionPrefix|..]).Some? &&
                var raw := p.base64Decode(text[|VersionPrefix|..]).value;
                |raw| >= MinPayloadLength &&
                var plain := p.open(p.deriveKey(JsString(password), raw[..SaltLength]),
                                    raw[SaltLength..SaltLength + IvLength], raw[SaltLength + IvLength..]);
                plain.Some? && p.parse(p.utf8Decode(plain.value)) == Some(JNull))
  {
  }

  /** Every call draws a fresh salt and iv: two encryptions with different random
      inputs give different texts, and both decrypt to the same document. */
  lemma FreshRandomnessDiffers(p: Suite, data: Json, password: Json, salt1: Bytes, iv1: Bytes, salt2: Bytes, iv2: Bytes)
    requires Sound(p)
    requires |salt1| == SaltLength && |iv1| == IvLength && |salt2| == SaltLength && |iv2| == IvLength
    requires Truthy(password) && (salt1 != salt2 || iv1 != iv2)
    ensures Encrypt(p, data, password, salt1, iv1).Ok? ==>
              Encrypt(p, data, password, salt1, iv1) != Encrypt(p, data, password, salt2, iv2)
  {
    var plain := p.utf8Encode(p.stringify(data));
    var f1 := Frame(salt1, iv1, p.seal(p.deriveKey(JsString(password), salt1), iv1, plain));
    var f2 := Frame(salt2, iv2, p.seal(p.deriveKey(JsString(password), salt2), iv2, plain));
    if Encrypt(p, data, password, salt1, iv1).Ok? && Encrypt(p, data, password, salt1, iv1) == Encrypt(p, data, password, salt2, iv2) {
      assert VersionPrefix + p.base64Encode(f1) == VersionPrefix + p.base64Encode(f2);
      assert p.base64Encode(f1) == (VersionPrefix + p.base64Encode(f1))[|VersionPrefix|..];
      assert p.base64Encode(f2) == (VersionPrefix + p.base64Encode(f2))[|VersionPrefix|..];
      Base64Injective(p, f1, f2);
      FrameSlices(salt1, iv1, p.seal(p.deriveKey(JsString(password), salt1), iv1, plain));
      FrameSlices(salt2, iv2, p.seal(p.deriveKey(JsString(password), salt2), iv2, plain));
      assert false;
    }
  }
}
