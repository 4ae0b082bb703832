/**
 * Encrypted values: the key set, AES-256-GCM envelopes that name their key, and the migration of
 * legacy CBC values.
 *
 * The ciphers and the text encodings are parameters; `Lawful` says what is expected of them:
 * they undo each other and keep to their alphabets.  A Go string holding a plaintext is a
 * sequence of bytes here.
 */
module Encryption {
  import opened Prelude
  import opened Padding
  import opened Envelope

  type Bytes = seq<byte>

  const MINIMUM_ENCRYPTION_KEY_LEN: nat := 32
  const NONCE_SIZE: nat := 12
  const OVERHEAD: nat := 16
  const BLOCK_SIZE: nat := 16

  datatype Crypto = Crypto(
    seal: (Bytes, Bytes, Bytes, string) -> Bytes,
    unseal: (Bytes, Bytes, Bytes, string) -> Option<Bytes>,
    cbcEncrypt: (Bytes, Bytes, Bytes) -> Bytes,
    cbcDecrypt: (Bytes, Bytes, Bytes) -> Bytes,
    encodeURL: Bytes -> string,
    decodeURL: string -> Option<Bytes>,
    encodeHex: Bytes -> string,
    decodeHex: string -> Option<Bytes>,
    decodeRawStd: string -> Option<Bytes>,
    decodeStd: string -> Option<Bytes>)
  {
    ghost predicate Lawful() {
      && (forall key, nonce, plain, aad :: |key| == MINIMUM_ENCRYPTION_KEY_LEN && |nonce| == NONCE_SIZE ==>
            && |seal(key, nonce, plain, aad)| == |plain| + OVERHEAD
            && unseal(key, nonce, seal(key, nonce, plain, aad), aad) == Some(plain))
      && (forall key, iv, plain :: |key| in {16, 24, 32} && |iv| == BLOCK_SIZE && |plain| % BLOCK_SIZE == 0 ==>
            && |cbcEncrypt(key, iv, plain)| == |plain|
            && cbcDecrypt(key, iv, cbcEncrypt(key, iv, plain)) == plain)
      && (forall bytes :: decodeURL(encodeURL(bytes)) == Some(bytes)
            && ':' !in encodeURL(bytes) && (encodeURL(bytes) == "" ==> bytes == []))
      && (forall bytes :: decodeHex(encodeHex(bytes)) == Some(bytes) && ':' !in encodeHex(bytes))
    }
  }

  /** The expectations do not contradict each other: ciphers that hide nothing meet them. */
  lemma LawfulIsPossible() returns (c: Crypto)
    ensures c.Lawful()
  {
    c := Crypto(
      (key, nonce, plain, aad) => plain + Repeat(0, OVERHEAD),
      (key, nonce, sealed, aad) => if |sealed| < OVERHEAD then None else Some(sealed[..|sealed| - OVERHEAD]),
      (key, iv, text) => text, (key, iv, text) => text,
      Spell, Unspell, Spell, Unspell, Unspell, Unspell);
    forall bytes ensures Unspell(Spell(bytes)) == Some(bytes) {
      assert Unspell(Spell(bytes)).value == bytes;
    }
    forall plain: Bytes ensures (plain + Repeat(0, OVERHEAD))[..|plain|] == plain {
    }
  }

  /** One character for each byte, none of them a colon. */
  function Spell(bytes: Bytes): string {
    seq(|bytes|, i requires 0 <= i < |bytes| => (bytes[i] as int + 0x100) as char)
  }

  function Unspell(text: string): Option<Bytes> {
    Some(seq(|text|, i requires 0 <= i < |text| => (text[i] as int % 0x100) as byte))
  }

  // ----- The key set -----

  /** The configured JSON text: absent, not JSON, or these two members. */
  datatype KeysetConfig = Missing | Malformed | KeysetConfig(activeKID: string, keys: map<string, string>)

  datatype Keyset = Keyset(activeKID: string, keys: map<string, Bytes>)

  /** Padded or not, it is standard Base64. */
  function DecodeBase64Key(c: Crypto, encoded: string): Option<Bytes> {
    if c.decodeRawStd(encoded).Some? then c.decodeRawStd(encoded) else c.decodeStd(encoded)
  }

  predicate KeyFits(c: Crypto, kid: string, encoded: string) {
    && kid != "" && ':' !in kid
    && var key := DecodeBase64Key(c, encoded);
       key.Some? && |key.value| == MINIMUM_ENCRYPTION_KEY_LEN
  }

  /** A usable key set has an active key among its keys, and all of them fit. */
  predicate Usable(c: Crypto, config: KeysetConfig) {
    && config.KeysetConfig?
    && config.activeKID in config.keys
    && forall kid :: kid in config.keys ==> KeyFits(c, kid, config.keys[kid])
  }

  function Load(c: Crypto, config: KeysetConfig): Option<Keyset> {
    if Usable(c, config)
    then Some(Keyset(config.activeKID, map kid | kid in config.keys :: DecodeBase64Key(c, config.keys[kid]).value))
    else None
  }

  method LoadEncryptionKeyset(c: Crypto, config: KeysetConfig) returns (keyset: Option<Keyset>)
    ensures keyset == Load(c, config)
  {
    if !config.KeysetConfig? {
      return None;
    }
    if config.activeKID == "" || |config.keys| == 0 {
      return None;
    }
    var keys: map<string, Bytes> := map[];
    var left := config.keys.Keys;
    while left != {}
      invariant left <= config.keys.Keys && keys.Keys == config.keys.Keys - left
      invariant forall kid :: kid in keys ==>
        KeyFits(c, kid, config.keys[kid]) && keys[kid] == DecodeBase64Key(c, config.keys[kid]).value
      decreases |left|
    {
      var kid := Pick(left);
      if kid == "" || ':' in kid {
        return None;
      }
      var key := DecodeBase64Key(c, config.keys[kid]);
      if key.None? || |key.value| != MINIMUM_ENCRYPTION_KEY_LEN {
        return None;
      }
      keys := keys[kid := key.value];
      left := left - {kid};
    }
    if config.activeKID !in keys {
      return None;
    }
    assert keys == map kid | kid in config.keys :: DecodeBase64Key(c, config.keys[kid]).value;
    keyset := Some(Keyset(config.activeKID, keys));
  }

  /** The text is Base64 for this key, without padding or else with it. */
  predicate DecodesTo(c: Crypto, text: string, key: Bytes) {
    c.decodeRawStd(text) == Some(key) || (c.decodeRawStd(text) == None && c.decodeStd(text) == Some(key))
  }

  /** A configuration loads exactly as the keys that its texts decode to, if the active one is there,
      all of them have 32 bytes, and no key id is empty or contains a colon. */
  lemma LoadsIff(c: Crypto, config: KeysetConfig, keyset: Keyset)
    ensures Load(c, config) == Some(keyset) <==>
      && config.KeysetConfig? && keyset.activeKID == config.activeKID && config.activeKID in config.keys
      && keyset.keys.Keys == config.keys.Keys
      && forall kid :: kid in config.keys ==>
           kid != "" && ':' !in kid && |keyset.keys[kid]| == 32 && DecodesTo(c, config.keys[kid], keyset.keys[kid])
  {
    if config.KeysetConfig? && keyset.keys.Keys == config.keys.Keys && Usable(c, config)
       && forall kid :: kid in config.keys ==> DecodesTo(c, config.keys[kid], keyset.keys[kid]) {
      assert keyset.keys == Load(c, config).value.keys;
    }
  }

  // ----- Current values -----

  function AdditionalData(kid: string): string {
    "astiango-hub:" + PREFIX + ":" + VERSION + ":" + kid
  }

  function EncryptAES(c: Crypto, config: KeysetConfig, src: Bytes, nonce: Bytes): Option<string> {
    var keyset := Load(c, config);
    if keyset.None? then None
    else
      var kid := keyset.value.activeKID;
      var ciphertext := c.seal(keyset.value.keys[kid], nonce, src, AdditionalData(kid));
      Some(Print(kid, c.encodeURL(nonce + ciphertext)))
  }

  function DecryptGCM(c: Crypto, config: KeysetConfig, src: string): Option<Bytes> {
    var parts := Parse(src);
    if parts.None? then None
    else
      var (kid, text) := parts.value;
      var keyset := Load(c, config);
      if keyset.None? || kid !in keyset.value.keys then None
      else
        var payload := c.decodeURL(text);
        if payload.None? || |payload.value| < NONCE_SIZE + OVERHEAD then None
        else
          var nonce, ciphertext := payload.value[..NONCE_SIZE], payload.value[NONCE_SIZE..];
          c.unseal(keyset.value.keys[kid], nonce, ciphertext, AdditionalData(kid))
  }

  // ----- Legacy values and migration -----

  /** What the configuration holds at one moment; no legacy key is an empty text. */
  datatype Environment = Environment(config: KeysetConfig, legacyKey: string)

  function LegacyKey(c: Crypto, legacyKey: string): Option<Bytes> {
    if legacyKey == "" then None
    else
      var key := DecodeBase64Key(c, legacyKey);
      if key.None? || |key.value| !in {16, 24, 32} then None else key
  }

  function DecryptLegacyCBC(c: Crypto, legacyKey: string, src: string): Option<Bytes> {
    var key := LegacyKey(c, legacyKey);
    if key.None? then None
    else
      var ciphertext := c.decodeHex(src);
      if ciphertext.None? || |ciphertext.value| == 0 || |ciphertext.value| % BLOCK_SIZE != 0 then None
      else Unpad(c.cbcDecrypt(key.value, key.value[..BLOCK_SIZE], ciphertext.value), BLOCK_SIZE)
  }

  function DecryptAES(c: Crypto, env: Environment, src: string): Option<Bytes> {
    if IsCurrent(src) then DecryptGCM(c, env.config, src) else DecryptLegacyCBC(c, env.legacyKey, src)
  }

  /** The converted value and whether a conversion took place. */
  function ReencryptAES(c: Crypto, env: Environment, src: string, nonce: Bytes): Option<(string, bool)> {
    var plaintext := DecryptAES(c, env, src);
    if plaintext.None? then None
    else if IsCurrent(src) then Some((src, false))
    else
      var ciphertext := EncryptAES(c, env.config, plaintext.value, nonce);
      if ciphertext.None? then None else Some((ciphertext.value, true))
  }

  // ----- Key rotation -----

  /** The later key set still has this key under its id. */
  ghost predicate Retains(c: Crypto, earlier: KeysetConfig, later: KeysetConfig, kid: string) {
    && Load(c, earlier).Some? && kid in Load(c, earlier).value.keys
    && Load(c, later).Some? && kid in Load(c, later).value.keys
    && Load(c, earlier).value.keys[kid] == Load(c, later).value.keys[kid]
  }

  /** What an encrypted value looks like: it names the active key, and carries the nonce it was given
      and the text sealed with that key, that nonce and data that name the key as well. */
  lemma EncryptedIs(c: Crypto, config: KeysetConfig, src: Bytes, nonce: Bytes, key: Bytes)
    requires Load(c, config).Some? && DecodesTo(c, config.keys[config.activeKID], key)
    ensures EncryptAES(c, config, src, nonce) ==
      Some("agcm:v1:" + config.activeKID + ":"
           + c.encodeURL(nonce + c.seal(key, nonce, src, "astiango-hub:agcm:v1:" + config.activeKID)))
  {
    var kid := config.activeKID;
    LoadsIff(c, config, Load(c, config).value);
    PrintedIs(kid, c.encodeURL(nonce + c.seal(key, nonce, src, AdditionalData(kid))));
    assert AdditionalData(kid) == "astiango-hub:agcm:v1:" + kid;
  }

  /** An encrypted value can be decrypted under every later key set that retains its key, and
      under none that lacks the key id, whichever key is active by then. */
  lemma DecryptsAfterRotation(
      c: Crypto, earlier: KeysetConfig, later: Environment, src: Bytes, nonce: Bytes)
    requires c.Lawful() && |nonce| == NONCE_SIZE && Load(c, earlier).Some?
    ensures EncryptAES(c, earlier, src, nonce).Some?
    ensures
      var value := EncryptAES(c, earlier, src, nonce).value;
      && IsCurrent(value)
      && (Retains(c, earlier, later.config, earlier.activeKID) ==> DecryptAES(c, later, value) == Some(src))
      && (Load(c, later.config).None? || earlier.activeKID !in Load(c, later.config).value.keys ==>
            DecryptAES(c, later, value) == None)
  {
    var kid := earlier.activeKID;
    var key := Load(c, earlier).value.keys[kid];
    assert KeyFits(c, kid, earlier.keys[kid]);
    var ciphertext := c.seal(key, nonce, src, AdditionalData(kid));
    var payload := nonce + ciphertext;
    PrintedIs(kid, c.encodeURL(payload));
    ParseInvertsPrint(Print(kid, c.encodeURL(payload)), kid, c.encodeURL(payload));
    PrintedIsCurrent(kid, c.encodeURL(payload));
    assert payload[..NONCE_SIZE] == nonce && payload[NONCE_SIZE..] == ciphertext;
  }

  /** A value that was once readable stays readable while its key is retained. */
  lemma CurrentValuesSurviveRotation(c: Crypto, env: Environment, later: Environment, value: string, nonce: Bytes)
    requires IsCurrent(value) && DecryptAES(c, env, value).Some?
    requires Retains(c, env.config, later.config, Parse(value).value.0)
    ensures DecryptAES(c, later, value) == DecryptAES(c, env, value)
    ensures ReencryptAES(c, later, value, nonce) == Some((value, false))
  {
  }

  /** Reencrypting keeps the plaintext and leaves a current value behind.  Done again, now or
      under a later key set that retains the key the value names, it changes nothing. */
  lemma ReencryptIsIdempotent(
      c: Crypto, env: Environment, later: Environment, src: string, nonce: Bytes, nonce': Bytes)
    requires c.Lawful() && |nonce| == NONCE_SIZE
    requires ReencryptAES(c, env, src, nonce).Some?
    ensures
      var (value, migrated) := ReencryptAES(c, env, src, nonce).value;
      && IsCurrent(value) && (migrated <==> !IsCurrent(src))
      && DecryptAES(c, env, value) == DecryptAES(c, env, src)
      && ReencryptAES(c, env, value, nonce') == Some((value, false))
      && Parse(value).Some?
      && (Retains(c, env.config, later.config, Parse(value).value.0) ==>
            && DecryptAES(c, later, value) == DecryptAES(c, env, src)
            && ReencryptAES(c, later, value, nonce') == Some((value, false)))
  {
    var value := ReencryptAES(c, env, src, nonce).value.0;
    if !IsCurrent(src) {
      DecryptsAfterRotation(c, env.config, env, DecryptAES(c, env, src).value, nonce);
    }
    assert DecryptGCM(c, env.config, value).Some?;
    if Retains(c, env.config, later.config, Parse(value).value.0) {
      CurrentValuesSurviveRotation(c, env, later, value, nonce');
    }
  }

  /** A legacy value is what the old program wrote: the key served as its own IV. */
  function LegacyValue(c: Crypto, key: Bytes, plaintext: Bytes): string
    requires |key| >= BLOCK_SIZE
  {
    c.encodeHex(c.cbcEncrypt(key, key[..BLOCK_SIZE], Pad(plaintext, BLOCK_SIZE)))
  }

  lemma HexIsNotCurrent(c: Crypto, bytes: Bytes)
    requires c.Lawful()
    ensures !IsCurrent(c.encodeHex(bytes))
  {
    var text := c.encodeHex(bytes);
    if IsCurrent(text) {
      CurrentHasColon(text);
    }
  }

  lemma LegacyKeyIff(c: Crypto, legacyKey: string, key: Bytes)
    requires |key| in {16, 24, 32}
    ensures LegacyKey(c, legacyKey) == Some(key) <==> legacyKey != "" && DecodesTo(c, legacyKey, key)
    ensures LegacyKey(c, legacyKey).Some? ==>
              |LegacyKey(c, legacyKey).value| in {16, 24, 32} && DecodesTo(c, legacyKey, LegacyKey(c, legacyKey).value)
  {
  }

  /** Migration of a legacy value succeeds exactly when the legacy key is configured and the key
      set usable; the new value then holds the old plaintext and no longer needs that key. */
  lemma LegacyValuesMigrate(
      c: Crypto, env: Environment, later: Environment, key: Bytes, plaintext: Bytes, nonce: Bytes)
    requires c.Lawful() && |nonce| == NONCE_SIZE && |key| in {16, 24, 32}
    requires forall other :: |other| in {16, 24, 32} && DecodesTo(c, env.legacyKey, other) ==> other == key
    ensures
      var result := ReencryptAES(c, env, LegacyValue(c, key, plaintext), nonce);
      && (result.Some? <==> env.legacyKey != "" && DecodesTo(c, env.legacyKey, key) && Load(c, env.config).Some?)
      && (result.Some? ==>
            && result.value.1
            && (Retains(c, env.config, later.config, env.config.activeKID) ==>
                  DecryptAES(c, later, result.value.0) == Some(plaintext)))
  {
    var padded := Pad(plaintext, BLOCK_SIZE);
    var ciphertext := c.cbcEncrypt(key, key[..BLOCK_SIZE], padded);
    PaddedIsWhole(plaintext, BLOCK_SIZE);
    HexIsNotCurrent(c, ciphertext);
    UnpadInvertsPad(padded, plaintext, BLOCK_SIZE);
    LegacyKeyIff(c, env.legacyKey, key);
    if LegacyKey(c, env.legacyKey).Some? {
      assert DecryptAES(c, env, LegacyValue(c, key, plaintext)) == Some(plaintext);
      if Load(c, env.config).Some? {
        DecryptsAfterRotation(c, env.config, later, plaintext, nonce);
      }
    }
  }
}
