/**
 `SecretBox` of app/security/crypto.py: framing and key lookup. AES-GCM, UTF-8 and base64
 are parameters, with the laws each statement needs spelled out.
 */
module Crypto {
  import opened Common

  type Bytes = seq<Byte>

  const NONCE_BYTES: nat := 12

  /** The foreign primitives. `open`, `decodeText` and `decodeToken` give None where the
      library raises InvalidTag or a ValueError. */
  datatype Primitives = Primitives(
    seal: (Bytes, Bytes, Bytes, Option<Bytes>) -> Bytes,
    open: (Bytes, Bytes, Bytes, Option<Bytes>) -> Option<Bytes>,
    encodeText: string -> Bytes,
    decodeText: Bytes -> Option<string>,
    encodeToken: Bytes -> string,
    decodeToken: string -> Option<Bytes>)

  ghost predicate OpenInvertsSeal(p: Primitives) {
    forall key, nonce, text, aad :: |key| == 32 && |nonce| == NONCE_BYTES ==>
      p.open(key, nonce, p.seal(key, nonce, text, aad), aad) == Some(text)
  }

  /** The bytes that are authenticated: absent additional data and empty data are the same. */
  function Data(aad: Option<Bytes>): Bytes {
    if aad.Some? then aad.value else []
  }

  /** Authentication, idealised: a ciphertext opens under no other additional bytes. */
  ghost predicate SealBindsAad(p: Primitives) {
    forall key, nonce, text, aad, other ::
      |key| == 32 && |nonce| == NONCE_BYTES && Data(other) != Data(aad) ==>
        p.open(key, nonce, p.seal(key, nonce, text, aad), other) == None
  }

  /** Authentication, idealised: a ciphertext opens under no other key. */
  ghost predicate SealBindsKey(p: Primitives) {
    forall key, nonce, text, aad, key', other ::
      |key| == |key'| == 32 && |nonce| == NONCE_BYTES && key' != key ==>
        p.open(key', nonce, p.seal(key, nonce, text, aad), other) == None
  }

  /** Sealing is deterministic and ends in a tag, so what opens was sealed with the same
      inputs and is never empty. */
  ghost predicate SealInvertsOpen(p: Primitives) {
    && (forall key, nonce, ct, aad :: |key| == 32 && |nonce| == NONCE_BYTES && p.open(key, nonce, ct, aad).Some? ==>
          ct == p.seal(key, nonce, p.open(key, nonce, ct, aad).value, aad))
    && forall key, nonce, aad :: p.open(key, nonce, [], aad) == None
  }

  /** Strict UTF-8: only the encoding of a text decodes to it. */
  ghost predicate TextIsStrict(p: Primitives) {
    forall b :: p.decodeText(b).Some? ==> p.encodeText(p.decodeText(b).value) == b
  }

  ghost predicate CodecsInvert(p: Primitives) {
    && p.encodeText("") == []
    && (forall s :: p.decodeText(p.encodeText(s)) == Some(s))
    && (forall b :: p.decodeToken(p.encodeToken(b)) == Some(b))
  }

  ghost predicate Lawful(p: Primitives) {
    OpenInvertsSeal(p) && CodecsInvert(p)
  }

  datatype CryptoError = BadValue | DecryptionError

  datatype SecretBox = SecretBox(keys: map<string, Bytes>, activeKeyId: string)

  /** What `__post_init__` insists on. */
  predicate ValidBox(b: SecretBox) {
    b.activeKeyId in b.keys && forall kid | kid in b.keys :: |b.keys[kid]| == 32
  }

  method CheckBox(b: SecretBox) returns (r: Result<SecretBox, CryptoError>)
    ensures r == if ValidBox(b) then Ok(b) else Raised(BadValue)
  {
    if b.activeKeyId !in b.keys {
      return Raised(BadValue);
    }
    var todo := b.keys.Keys;
    while todo != {}
      invariant todo <= b.keys.Keys
      invariant forall kid :: kid in b.keys && kid !in todo ==> |b.keys[kid]| == 32
    {
      var kid :| kid in todo;
      if |b.keys[kid]| != 32 {
        return Raised(BadValue);
      }
      todo := todo - {kid};
    }
    return Ok(b);
  }

  // ---------------------------------------------------------------- framing

  datatype Parsed = Parsed(kid: Bytes, nonce: Bytes, ct: Bytes)

  /** version | len(kid) | kid | nonce | ciphertext. */
  function Frame(f: Parsed): Bytes
    requires |f.kid| <= 255
  {
    [1] + [|f.kid|] + f.kid + f.nonce + f.ct
  }

  /** `s[from:to]`, which never raises. */
  function Slice(s: Bytes, from: nat, to: nat): Bytes {
    var hi := if to < |s| then to else |s|;
    if from < hi then s[from..hi] else []
  }

  /** None for another version or a blob without a length byte. */
  function Unframe(blob: Bytes): Option<Parsed> {
    if Slice(blob, 0, 1) != [1] || |blob| < 2 then None
    else
      var n := blob[1];
      Some(Parsed(Slice(blob, 2, 2 + n), Slice(blob, 2 + n, 2 + n + NONCE_BYTES),
                  Slice(blob, 2 + n + NONCE_BYTES, |blob|)))
  }

  /** Parsing a frame recovers key id, nonce and ciphertext. */
  lemma FrameRoundTrip(f: Parsed)
    requires |f.kid| <= 255 && |f.nonce| == NONCE_BYTES
    ensures Unframe(Frame(f)) == Some(f)
  {
    var blob, n := Frame(f), |f.kid|;
    assert Slice(blob, 0, 1) == [1] && blob[1] == n;
    assert Slice(blob, 2, 2 + n) == f.kid;
    assert Slice(blob, 2 + n, 2 + n + NONCE_BYTES) == f.nonce;
    assert Slice(blob, 2 + n + NONCE_BYTES, |blob|) == f.ct;
  }

  /** Different key ids, nonces or ciphertexts never share a frame. */
  lemma FramingIsInjective(f: Parsed, g: Parsed)
    requires |f.kid| <= 255 && |f.nonce| == NONCE_BYTES
    requires |g.kid| <= 255 && |g.nonce| == NONCE_BYTES
    requires Frame(f) == Frame(g)
    ensures f == g
  {
    FrameRoundTrip(f);
    FrameRoundTrip(g);
  }

  /** A blob parses exactly if it has a length byte and starts with version 1, and one that
      is long enough for its nonce is the frame of what it parses to. */
  lemma ParsesExactly(blob: Bytes)
    ensures Unframe(blob).Some? <==> |blob| >= 2 && blob[0] == 1
    ensures
      Unframe(blob).Some? ==>
        var f := Unframe(blob).value;
        && |f.kid| <= 255 && |f.nonce| <= NONCE_BYTES
        && (|f.nonce| == NONCE_BYTES ==> Frame(f) == blob)
        && (|f.nonce| < NONCE_BYTES ==> f.ct == [])
  {
    if |blob| >= 2 && blob[0] == 1 {
      var n := blob[1];
      assert Slice(blob, 0, 1) == [1];
      if |blob| >= 2 + n + NONCE_BYTES {
        var f := Unframe(blob).value;
        assert blob == [1] + [n] + blob[2..];
        assert blob[2..] == f.kid + f.nonce + f.ct;
      }
    }
  }

  // ---------------------------------------------------------------- encrypt and decrypt

  /** `aad.encode() if aad else None`: an empty string counts as none. */
  function AadBytes(p: Primitives, aad: Option<string>): Option<Bytes> {
    if aad.Some? && aad.value != "" then Some(p.encodeText(aad.value)) else None
  }

  /** `bytes([len(kid)])` raises for a key id longer than 255 bytes. */
  function Encrypt(p: Primitives, b: SecretBox, plaintext: string, nonce: Bytes, aad: Option<string>)
    : Result<string, CryptoError>
    requires ValidBox(b)
  {
    var ct := p.seal(b.keys[b.activeKeyId], nonce, p.encodeText(plaintext), AadBytes(p, aad));
    var kid := p.encodeText(b.activeKeyId);
    if |kid| > 255 then Raised(BadValue) else Ok(p.encodeToken(Frame(Parsed(kid, nonce, ct))))
  }

  function Opened(p: Primitives, b: SecretBox, f: Parsed, aad: Option<string>): Option<string> {
    var kid := p.decodeText(f.kid);
    if kid.None? || kid.value !in b.keys then None
    else
      var text := p.open(b.keys[kid.value], f.nonce, f.ct, AadBytes(p, aad));
      if text.None? then None else p.decodeText(text.value)
  }

  /** Every way to fail ends in the same error. */
  function Decrypt(p: Primitives, b: SecretBox, token: string, aad: Option<string>): Result<string, CryptoError> {
    var blob := p.decodeToken(token);
    var parsed := if blob.None? then None else Unframe(blob.value);
    var plain := if parsed.None? then None else Opened(p, b, parsed.value, aad);
    if plain.None? then Raised(DecryptionError) else Ok(plain.value)
  }

  /** `decrypt` as written: an offset that walks through the blob. */
  method DecryptToken(p: Primitives, b: SecretBox, token: string, aad: Option<string>)
    returns (r: Result<string, CryptoError>)
    ensures r == Decrypt(p, b, token, aad)
    ensures r.Ok? || r == Raised(DecryptionError)
  {
    var decoded := p.decodeToken(token);
    if decoded.None? {
      return Raised(DecryptionError);
    }
    var blob := decoded.value;
    if Slice(blob, 0, 1) != [1] || |blob| < 2 {
      return Raised(DecryptionError);
    }
    var kidLen := blob[1];
    var offset := 2;
    var kid := p.decodeText(Slice(blob, offset, offset + kidLen));
    offset := offset + kidLen;
    var nonce := Slice(blob, offset, offset + NONCE_BYTES);
    offset := offset + NONCE_BYTES;
    var ct := Slice(blob, offset, |blob|);
    if kid.None? || kid.value !in b.keys {
      return Raised(DecryptionError);
    }
    var text := p.open(b.keys[kid.value], nonce, ct, AadBytes(p, aad));
    if text.None? {
      return Raised(DecryptionError);
    }
    var plain := p.decodeText(text.value);
    if plain.None? {
      return Raised(DecryptionError);
    }
    return Ok(plain.value);
  }

  /** Additional data is compared as bytes, and yet two texts have the same bytes exactly when
      they are equal, absent and empty text being the same. */
  lemma SameDataExactly(p: Primitives, aad: Option<string>, aad': Option<string>)
    requires CodecsInvert(p)
    ensures Data(AadBytes(p, aad)) == Data(AadBytes(p, aad')) <==> SameContext(aad, aad')
    ensures SameContext(aad, aad') ==> AadBytes(p, aad) == AadBytes(p, aad')
  {
    var s, s' := ContextOf(aad), ContextOf(aad');
    assert p.decodeText(p.encodeText(s)) == Some(s);
    assert p.decodeText(p.encodeText(s')) == Some(s');
  }

  function ContextOf(aad: Option<string>): string {
    if aad.Some? then aad.value else ""
  }

  predicate SameContext(aad: Option<string>, aad': Option<string>) {
    ContextOf(aad) == ContextOf(aad')
  }

  /** The bytes of a token: version, length, active key id, the nonce it was given, and a
      ciphertext that opens under the active key with that nonce. Only a key id that is too
      long for its length byte raises. */
  lemma TokenCarries(p: Primitives, b: SecretBox, plaintext: string, nonce: Bytes, aad: Option<string>)
    requires Lawful(p) && ValidBox(b) && |nonce| == NONCE_BYTES
    ensures
      var token, kid := Encrypt(p, b, plaintext, nonce, aad), p.encodeText(b.activeKeyId);
      if |kid| > 255 then token == Raised(BadValue)
      else
        && token.Ok? && p.decodeToken(token.value).Some?
        && var blob, start := p.decodeToken(token.value).value, 2 + |kid| + NONCE_BYTES;
        && |blob| >= start && blob[..start] == [1, |kid|] + kid + nonce
        && var data := if aad in {None, Some("")} then None else Some(p.encodeText(aad.value));
        p.open(b.keys[b.activeKeyId], nonce, blob[start..], data) == Some(p.encodeText(plaintext))
  {
    var ct := p.seal(b.keys[b.activeKeyId], nonce, p.encodeText(plaintext), AadBytes(p, aad));
    var kid := p.encodeText(b.activeKeyId);
    if |kid| <= 255 {
      var blob, head := Frame(Parsed(kid, nonce, ct)), [1, |kid|] + kid + nonce;
      assert blob == head + ct;
      assert p.decodeToken(p.encodeToken(blob)) == Some(blob);
    }
  }

  /** Tokens are equal only if their key ids and nonces are, and, under one key, only if
      they carry one text for one context. */
  lemma EqualTokensExactly(
    p: Primitives, b: SecretBox, plaintext: string, nonce: Bytes, aad: Option<string>,
    b': SecretBox, plaintext': string, nonce': Bytes, aad': Option<string>)
    requires Lawful(p) && SealBindsAad(p)
    requires ValidBox(b) && |nonce| == NONCE_BYTES && Encrypt(p, b, plaintext, nonce, aad).Ok?
    requires ValidBox(b') && |nonce'| == NONCE_BYTES && Encrypt(p, b', plaintext', nonce', aad').Ok?
    requires b.keys == b'.keys
    ensures
      Encrypt(p, b, plaintext, nonce, aad) == Encrypt(p, b', plaintext', nonce', aad') <==>
      b.activeKeyId == b'.activeKeyId && nonce == nonce' && plaintext == plaintext' && SameContext(aad, aad')
  {
    if Encrypt(p, b, plaintext, nonce, aad) == Encrypt(p, b', plaintext', nonce', aad') {
      Carried(p, b, plaintext, nonce, aad);
      Carried(p, b', plaintext', nonce', aad');
      TokenInAnotherBox(p, b, b, plaintext, nonce, aad, aad');
      TokenInAnotherBox(p, b', b, plaintext', nonce', aad', aad');
    }
    SameDataExactly(p, aad, aad');
  }

  /** What a token parses to. */
  lemma Carried(p: Primitives, b: SecretBox, plaintext: string, nonce: Bytes, aad: Option<string>)
    requires Lawful(p) && ValidBox(b) && |nonce| == NONCE_BYTES
    requires Encrypt(p, b, plaintext, nonce, aad).Ok?
    ensures
      var ct := p.seal(b.keys[b.activeKeyId], nonce, p.encodeText(plaintext), AadBytes(p, aad));
      var blob := p.decodeToken(Encrypt(p, b, plaintext, nonce, aad).value);
      && blob.Some? && Unframe(blob.value) == Some(Parsed(p.encodeText(b.activeKeyId), nonce, ct))
      && p.decodeText(p.encodeText(b.activeKeyId)) == Some(b.activeKeyId)
      && p.decodeText(p.encodeText(plaintext)) == Some(plaintext)
  {
    var ct := p.seal(b.keys[b.activeKeyId], nonce, p.encodeText(plaintext), AadBytes(p, aad));
    var f := Parsed(p.encodeText(b.activeKeyId), nonce, ct);
    FrameRoundTrip(f);
    assert p.decodeToken(p.encodeToken(Frame(f))) == Some(Frame(f));
  }

  /** What a token made by `b` gives in any other box: only the key stored under the same
      id and the additional data matter. */
  lemma TokenInAnotherBox(
    p: Primitives, b: SecretBox, other: SecretBox, plaintext: string, nonce: Bytes,
    aad: Option<string>, aad': Option<string>)
    requires Lawful(p) && ValidBox(b) && |nonce| == NONCE_BYTES
    requires Encrypt(p, b, plaintext, nonce, aad).Ok?
    ensures
      var token, kid := Encrypt(p, b, plaintext, nonce, aad).value, b.activeKeyId;
      && (kid !in other.keys ==> Decrypt(p, other, token, aad') == Raised(DecryptionError))
      && (kid in other.keys && other.keys[kid] == b.keys[kid] && SameContext(aad', aad) ==>
            Decrypt(p, other, token, aad') == Ok(plaintext))
      && (kid in other.keys && other.keys[kid] == b.keys[kid] && !SameContext(aad', aad) && SealBindsAad(p) ==>
            Decrypt(p, other, token, aad') == Raised(DecryptionError))
      && (ValidBox(other) && kid in other.keys && other.keys[kid] != b.keys[kid] && SealBindsKey(p) ==>
            Decrypt(p, other, token, aad') == Raised(DecryptionError))
  {
    Carried(p, b, plaintext, nonce, aad);
    SameDataExactly(p, aad', aad);
  }

  /** The token decodes to the bytes that this key of the box makes of the text. */
  ghost predicate Makes(
    p: Primitives, b: SecretBox, kid: string, nonce: Bytes, text: string, token: string, aad: Option<string>)
    requires ValidBox(b)
  {
    && kid in b.keys && |nonce| == NONCE_BYTES
    && var made := Encrypt(p, b.(activeKeyId := kid), text, nonce, aad);
    made.Ok? && p.decodeToken(token) == p.decodeToken(made.value)
  }

  /** Tampering is detected: a token opens to a text exactly if it has the bytes that one of
      the box's keys makes of this text and additional data, with some nonce. */
  lemma OpensExactly(p: Primitives, b: SecretBox, token: string, aad: Option<string>, text: string)
    requires Lawful(p) && SealInvertsOpen(p) && TextIsStrict(p) && ValidBox(b)
    ensures Decrypt(p, b, token, aad) == Ok(text) <==> exists kid, nonce :: Makes(p, b, kid, nonce, text, token, aad)
  {
    if Decrypt(p, b, token, aad) == Ok(text) {
      var blob := p.decodeToken(token).value;
      ParsesExactly(blob);
      var f := Unframe(blob).value;
      var kid := p.decodeText(f.kid).value;
      assert p.open(b.keys[kid], f.nonce, f.ct, AadBytes(p, aad)).Some?;
      assert |f.nonce| == NONCE_BYTES;
      assert p.decodeToken(p.encodeToken(blob)) == Some(blob);
      assert Makes(p, b, kid, f.nonce, text, token, aad);
    }
    forall kid, nonce | Makes(p, b, kid, nonce, text, token, aad)
      ensures Decrypt(p, b, token, aad) == Ok(text)
    {
      TokenInAnotherBox(p, b.(activeKeyId := kid), b, text, nonce, aad, aad);
    }
  }

  /** A token is bound to its additional data: it opens with the same one, an absent and an
      empty one being the same, and with no other. */
  lemma AadIsBound(
    p: Primitives, b: SecretBox, plaintext: string, nonce: Bytes, aad: Option<string>, aad': Option<string>)
    requires Lawful(p) && SealBindsAad(p) && ValidBox(b) && |nonce| == NONCE_BYTES
    requires Encrypt(p, b, plaintext, nonce, aad).Ok?
    ensures
      Decrypt(p, b, Encrypt(p, b, plaintext, nonce, aad).value, aad') == Ok(plaintext) <==>
      aad' == aad || (aad in {None, Some("")} && aad' in {None, Some("")})
  {
    TokenInAnotherBox(p, b, b, plaintext, nonce, aad, aad');
  }

  // ---------------------------------------------------------------- rotation

  datatype KeyChange = AddKey(kid: string, key: Bytes) | Activate(kid: string)

  /** A change that would not pass `__post_init__`, or would replace a key, is not made. */
  function Rotate(b: SecretBox, c: KeyChange): SecretBox {
    match c
    case AddKey(kid, key) => if kid in b.keys || |key| != 32 then b else b.(keys := b.keys[kid := key])
    case Activate(kid) => if kid in b.keys then b.(activeKeyId := kid) else b
  }

  function RotateAll(b: SecretBox, cs: seq<KeyChange>): SecretBox {
    if cs == [] then b else Rotate(RotateAll(b, cs[..|cs| - 1]), cs[|cs| - 1])
  }

  lemma {:induction false} RotationKeepsKeys(b: SecretBox, cs: seq<KeyChange>)
    requires ValidBox(b)
    ensures ValidBox(RotateAll(b, cs))
    ensures forall kid :: kid in b.keys ==> kid in RotateAll(b, cs).keys && RotateAll(b, cs).keys[kid] == b.keys[kid]
  {
    if cs == [] {
    } else {
      RotationKeepsKeys(b, cs[..|cs| - 1]);
    }
  }

  /** Whatever keys are added or activated later, a token keeps opening with its own
      additional data. */
  lemma RotationKeepsTokens(
    p: Primitives, b: SecretBox, before: seq<KeyChange>, after: seq<KeyChange>,
    plaintext: string, nonce: Bytes, aad: Option<string>)
    requires Lawful(p) && ValidBox(b) && |nonce| == NONCE_BYTES
    ensures ValidBox(RotateAll(b, before))
    ensures
      var made := RotateAll(b, before);
      var token := Encrypt(p, made, plaintext, nonce, aad);
      token.Ok? ==> Decrypt(p, RotateAll(made, after), token.value, aad) == Ok(plaintext)
  {
    RotationKeepsKeys(b, before);
    var made := RotateAll(b, before);
    RotationKeepsKeys(made, after);
    if Encrypt(p, made, plaintext, nonce, aad).Ok? {
      TokenInAnotherBox(p, made, RotateAll(made, after), plaintext, nonce, aad, aad);
    }
  }

  /** A key that is added and activated seals what comes next: its holder alone opens it,
      and the boxes from before do not. */
  lemma ActivatedKeySeals(
    p: Primitives, b: SecretBox, kid: string, key: Bytes, plaintext: string, nonce: Bytes, aad: Option<string>)
    requires Lawful(p) && ValidBox(b) && |nonce| == NONCE_BYTES
    requires kid !in b.keys && |key| == 32 && |p.encodeText(kid)| <= 255
    ensures
      var next := RotateAll(b, [AddKey(kid, key), Activate(kid)]);
      && ValidBox(next)
      && var token := Encrypt(p, next, plaintext, nonce, aad);
      && token.Ok?
      && Decrypt(p, SecretBox(map[kid := key], kid), token.value, aad) == Ok(plaintext)
      && Decrypt(p, b, token.value, aad) == Raised(DecryptionError)
  {
    var c, d := AddKey(kid, key), Activate(kid);
    assert [c, d][..1] == [c] && [c][..0] == [];
    var next := Rotate(Rotate(b, c), d);
    assert RotateAll(b, [c, d]) == Rotate(RotateAll(b, [c]), d);
    assert RotateAll(b, [c]) == Rotate(RotateAll(b, []), c);
    TokenInAnotherBox(p, next, SecretBox(map[kid := key], kid), plaintext, nonce, aad, aad);
    TokenInAnotherBox(p, next, b, plaintext, nonce, aad, aad);
  }

  // ---------------------------------------------------------------- the laws can hold together

  /** Additional bytes in front of a text, so that they can be told apart again. */
  ghost function Tagged(data: Bytes): Bytes {
    seq(|data|, _ => 1) + [0] + data
  }

  lemma {:induction false} TagsDiffer(d: Bytes, e: Bytes, text: Bytes)
    requires Tagged(e) <= Tagged(d) + text
    ensures e == d
  {
    var ct, k := Tagged(d) + text, if |d| < |e| then |d| else |e|;
    assert Tagged(e)[k] == ct[k];
    assert |e| == |d|;
    forall i | 0 <= i < |e|
      ensures e[i] == d[i]
    {
      assert Tagged(e)[|e| + 1 + i] == ct[|e| + 1 + i];
    }
  }

  ghost function Wide(s: string): Bytes {
    if s == [] then []
    else
      var n := s[0] as int;
      [n / 0x10000, n / 0x100 % 0x100, n % 0x100] + Wide(s[1..])
  }

  lemma {:induction false} WideIsInjective(s: string, t: string)
    requires Wide(s) == Wide(t)
    ensures s == t
  {
    if s == [] || t == [] {
    } else {
      assert Wide(s)[..3] == Wide(t)[..3] && Wide(s)[3..] == Wide(t)[3..];
      assert s[0] as int == t[0] as int;
      WideIsInjective(s[1..], t[1..]);
      assert s == [s[0]] + s[1..] && t == [t[0]] + t[1..];
    }
  }

  ghost function Narrow(b: Bytes): Option<string> {
    if exists s :: Wide(s) == b then
      var s :| Wide(s) == b;
      Some(s)
    else None
  }

  function Letters(b: Bytes): string {
    seq(|b|, i requires 0 <= i < |b| => b[i] as char)
  }

  function Codes(s: string): Option<Bytes> {
    if forall i :: 0 <= i < |s| ==> s[i] as int < 256
    then Some(seq(|s|, i requires 0 <= i < |s| => s[i] as int))
    else None
  }

  ghost function Attach(text: Bytes, d: Bytes): Bytes {
    Tagged(d) + text
  }

  ghost function Detach(ct: Bytes, d: Bytes): Option<Bytes> {
    if Tagged(d) <= ct then Some(ct[|Tagged(d)|..]) else None
  }

  lemma DetachInverts(text: Bytes, d: Bytes, e: Bytes)
    ensures Detach(Attach(text, d), e) == if e == d then Some(text) else None
  {
    var tag := Tagged(d);
    assert tag <= tag + text && (tag + text)[|tag|..] == text;
    if Tagged(e) <= Attach(text, d) {
      TagsDiffer(d, e, text);
    }
  }

  /** A cipher that shows its key and additional data in front of the text. */
  ghost function Show(key: Bytes, text: Bytes, aad: Option<Bytes>): Bytes {
    Attach(Attach(text, Data(aad)), key)
  }

  ghost function Hide(key: Bytes, ct: Bytes, aad: Option<Bytes>): Option<Bytes> {
    var inner := Detach(ct, key);
    if inner.None? then None else Detach(inner.value, Data(aad))
  }

  lemma HideInverts(key: Bytes, text: Bytes, aad: Option<Bytes>, key': Bytes, aad': Option<Bytes>)
    ensures Hide(key', Show(key, text, aad), aad') ==
            if key' == key && Data(aad') == Data(aad) then Some(text) else None
  {
    DetachInverts(Attach(text, Data(aad)), key, key');
    DetachInverts(text, Data(aad), Data(aad'));
  }

  lemma ShowInverts(key: Bytes, ct: Bytes, aad: Option<Bytes>)
    requires Hide(key, ct, aad).Some?
    ensures ct == Show(key, Hide(key, ct, aad).value, aad)
  {
    var inner := Detach(ct, key).value;
    assert ct == Tagged(key) + inner;
    assert inner == Tagged(Data(aad)) + inner[|Tagged(Data(aad))|..];
  }

  lemma NarrowInverts(s: string)
    ensures Narrow(Wide(s)) == Some(s)
  {
    WideIsInjective(s, Narrow(Wide(s)).value);
  }

  lemma CodesInvert(b: Bytes)
    ensures Codes(Letters(b)) == Some(b)
  {
    var s := Letters(b);
    assert forall i :: 0 <= i < |s| ==> s[i] as int == b[i];
    assert Codes(s).value == b;
  }

  /** The laws contradict neither each other nor a cipher that treats absent and empty
      additional data alike. */
  lemma LawsHoldTogether() returns (p: Primitives)
    ensures Lawful(p) && SealBindsAad(p) && SealBindsKey(p) && SealInvertsOpen(p) && TextIsStrict(p)
    ensures forall key, nonce, ct :: p.open(key, nonce, ct, None) == p.open(key, nonce, ct, Some([]))
    ensures forall key, nonce, text :: p.seal(key, nonce, text, None) == p.seal(key, nonce, text, Some([]))
  {
    p := Primitives((key, _, text, aad) => Show(key, text, aad), (key, _, ct, aad) => Hide(key, ct, aad),
                    s => Wide(s), b => Narrow(b), b => Letters(b), s => Codes(s));
    forall key, nonce, text, aad, key', other
      ensures p.open(key', nonce, p.seal(key, nonce, text, aad), other) ==
              if key' == key && Data(other) == Data(aad) then Some(text) else None
    {
      HideInverts(key, text, aad, key', other);
    }
    forall key, nonce, ct, aad | p.open(key, nonce, ct, aad).Some?
      ensures ct == p.seal(key, nonce, p.open(key, nonce, ct, aad).value, aad)
    {
      ShowInverts(key, ct, aad);
    }
    forall s
      ensures p.decodeText(p.encodeText(s)) == Some(s)
    {
      NarrowInverts(s);
    }
    forall b
      ensures p.decodeToken(p.encodeToken(b)) == Some(b)
    {
      CodesInvert(b);
    }
  }
}
