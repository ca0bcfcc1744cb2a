/** DSSE envelopes: the pre-authentication encoding, signing and verifying. */
module Envelope {
  import opened Wrappers
  import opened Decimals

  const SPACE: byte := 32

  /** "DSSEv1" and a space. */
  const PREFIX: Bytes := [68, 83, 83, 69, 118, 49, 32]

  /** A length in decimal ASCII. */
  function Ascii(n: nat): (b: Bytes)
    ensures SPACE !in b
  {
    seq(|Digits(n)|, i requires 0 <= i < |Digits(n)| => (48 + Digits(n)[i]) as byte)
  }

  lemma AsciiInjective(m: nat, n: nat)
    requires Ascii(m) == Ascii(n)
    ensures m == n
  {
    assert |Digits(m)| == |Ascii(m)| == |Digits(n)|;
    forall i | 0 <= i < |Digits(m)| ensures Digits(m)[i] == Digits(n)[i] {
      assert Ascii(m)[i] == Ascii(n)[i];
    }
    assert Digits(m) == Digits(n);
    ValueOfDigits(m);
    ValueOfDigits(n);
  }

  /** A field that announces its length: decimal length, space, content. */
  function Field(b: Bytes): Bytes {
    Ascii(|b|) + [SPACE] + b
  }

  function Encoding(payloadType: Bytes, payload: Bytes): Bytes {
    PREFIX + Field(payloadType) + [SPACE] + Field(payload)
  }

  /** `pae`. */
  method Pae(payloadType: Bytes, payload: Bytes) returns (r: Bytes)
    ensures r == Encoding(payloadType, payload)
  {
    r := PREFIX;
    r := r + Ascii(|payloadType|);
    r := r + [SPACE];
    r := r + payloadType;
    r := r + [SPACE];
    r := r + Ascii(|payload|);
    r := r + [SPACE];
    r := r + payload;
    Associate(payloadType, payload);
  }

  lemma Associate(t: Bytes, p: Bytes)
    ensures PREFIX + Ascii(|t|) + [SPACE] + t + [SPACE] + Ascii(|p|) + [SPACE] + p == Encoding(t, p)
  {
    assert PREFIX + Ascii(|t|) + [SPACE] + t == PREFIX + Field(t);
  }

  /** The first space ends the length, whatever bytes follow. */
  lemma SpaceCancels(a: Bytes, r: Bytes, b: Bytes, s: Bytes)
    requires SPACE !in a && SPACE !in b && a + [SPACE] + r == b + [SPACE] + s
    ensures a == b && r == s
  {
    var f, g := a + [SPACE] + r, b + [SPACE] + s;
    assert f[|a|] == SPACE && g[|b|] == SPACE;
    assert forall i :: 0 <= i < |a| ==> f[i] == a[i] && f[i] != SPACE;
    assert forall i :: 0 <= i < |b| ==> g[i] == b[i] && g[i] != SPACE;
    assert f[..|a|] == a && g[..|b|] == b && f[|a| + 1..] == r && g[|b| + 1..] == s;
  }

  /** A field can be told from what follows it. */
  lemma FieldCancels(x: Bytes, r: Bytes, y: Bytes, s: Bytes)
    requires Field(x) + r == Field(y) + s
    ensures x == y && r == s
  {
    hide Ascii;
    assert Field(x) + r == Ascii(|x|) + [SPACE] + (x + r);
    assert Field(y) + s == Ascii(|y|) + [SPACE] + (y + s);
    SpaceCancels(Ascii(|x|), x + r, Ascii(|y|), y + s);
    AsciiInjective(|x|, |y|);
    assert (x + r)[..|x|] == x && (y + s)[..|y|] == y && (x + r)[|x|..] == r && (y + s)[|y|..] == s;
  }

  /** No two pairs of payload type and payload have the same encoding. */
  lemma EncodingInjective(t: Bytes, p: Bytes, u: Bytes, q: Bytes)
    requires Encoding(t, p) == Encoding(u, q)
    ensures t == u && p == q
  {
    hide Field;
    var f, g := Field(t) + ([SPACE] + Field(p)), Field(u) + ([SPACE] + Field(q));
    assert Encoding(t, p) == PREFIX + f && Encoding(u, q) == PREFIX + g;
    assert f == (PREFIX + f)[7..] && g == (PREFIX + g)[7..];
    FieldCancels(t, [SPACE] + Field(p), u, [SPACE] + Field(q));
    assert Field(p) == ([SPACE] + Field(p))[1..] && Field(q) == ([SPACE] + Field(q))[1..];
    assert Field(p) + [] == Field(p) && Field(q) + [] == Field(q);
    FieldCancels(p, [], q, []);
  }

  // ----- Signing and verifying -----

  datatype Signature = Signature(keyId: string, sig: string)

  datatype Envelope = Envelope(payloadType: Bytes, payload: string, signatures: seq<Signature>)

  datatype Base64 = Base64(encode: Bytes -> string, decode: string -> Option<Bytes>)

  /** A signature that counts: its key is trusted and it verifies over the message. */
  predicate Trusted<Key>(keys: map<string, Key>, check: (Key, Bytes, Bytes) -> bool, text: Base64, message: Bytes, s: Signature) {
    s.keyId in keys && text.decode(s.sig).Some? && check(keys[s.keyId], message, text.decode(s.sig).value)
  }

  /** `Verify`: the payload, exactly if some trusted signature covers type and payload together. */
  method Verify<Key>(envelope: Envelope, keys: map<string, Key>, check: (Key, Bytes, Bytes) -> bool, text: Base64) returns (r: Option<Bytes>)
    ensures r.Some? ==> text.decode(envelope.payload) == r
    ensures r.Some? <==>
            && text.decode(envelope.payload).Some? && envelope.payloadType != []
            && exists i :: 0 <= i < |envelope.signatures|
                 && Trusted(keys, check, text, Encoding(envelope.payloadType, text.decode(envelope.payload).value), envelope.signatures[i])
  {
    var payload := text.decode(envelope.payload);
    if payload.None? {
      return None;
    }
    if envelope.payloadType == [] || |envelope.signatures| == 0 {
      return None;
    }
    var message := Pae(envelope.payloadType, payload.value);
    for i := 0 to |envelope.signatures|
      invariant forall j :: 0 <= j < i ==> !Trusted(keys, check, text, message, envelope.signatures[j])
    {
      var candidate := envelope.signatures[i];
      if candidate.keyId !in keys {
        continue;
      }
      var signature := text.decode(candidate.sig);
      if signature.Some? && check(keys[candidate.keyId], message, signature.value) {
        return payload;
      }
    }
    return None;
  }

  /** `Sign`: `payload` is the encoded predicate, if it can be encoded; `sign` the key store's answer. */
  method Sign(keyName: string, keyId: string, payloadType: Bytes, payload: Option<Bytes>, sign: Bytes -> Option<Bytes>, text: Base64)
    returns (r: Option<Envelope>)
    ensures r.Some? <==> keyName != "" && keyId != "" && payloadType != [] && payload.Some? && sign(Encoding(payloadType, payload.value)).Some?
    ensures r.Some? ==> r.value == Signed(keyId, payloadType, payload.value, sign(Encoding(payloadType, payload.value)).value, text)
  {
    if keyName == "" || keyId == "" || payloadType == [] {
      return None;
    }
    if payload.None? {
      return None;
    }
    var message := Pae(payloadType, payload.value);
    var signature := sign(message);
    if signature.None? {
      return None;
    }
    return Some(Envelope(payloadType, text.encode(payload.value), [Signature(keyId, text.encode(signature.value))]));
  }

  function Signed(keyId: string, payloadType: Bytes, payload: Bytes, signature: Bytes, text: Base64): Envelope {
    Envelope(payloadType, text.encode(payload), [Signature(keyId, text.encode(signature))])
  }

  ghost predicate RoundTrips(text: Base64) {
    forall b :: text.decode(text.encode(b)) == Some(b)
  }

  /** What was signed with a trusted key verifies and gives the payload back. */
  method SignThenVerify<Key>(keyName: string, keyId: string, payloadType: Bytes, payload: Bytes, sign: Bytes -> Option<Bytes>, text: Base64,
                             keys: map<string, Key>, check: (Key, Bytes, Bytes) -> bool)
    returns (r: Option<Bytes>)
    requires RoundTrips(text) && keyId in keys
    requires forall m :: sign(m).Some? ==> check(keys[keyId], m, sign(m).value)
    ensures keyName != "" && keyId != "" && payloadType != [] && sign(Encoding(payloadType, payload)).Some? <==> r == Some(payload)
  {
    var envelope := Sign(keyName, keyId, payloadType, Some(payload), sign, text);
    if envelope.None? {
      return None;
    }
    assert Trusted(keys, check, text, Encoding(payloadType, payload), envelope.value.signatures[0]);
    r := Verify(envelope.value, keys, check, text);
  }

  /** Signatures verify only over the encodings of the statements a key has signed. */
  ghost predicate Unforgeable<Key(!new)>(check: (Key, Bytes, Bytes) -> bool, statements: Key -> set<(Bytes, Bytes)>) {
    forall key, m, sig :: check(key, m, sig) ==> exists st :: st in statements(key) && m == Encoding(st.0, st.1)
  }

  /** A signature cannot serve for another type or payload: what verifies was signed as it is. */
  lemma AcceptedWasSigned<Key(!new)>(envelope: Envelope, keys: map<string, Key>, check: (Key, Bytes, Bytes) -> bool, text: Base64,
                               statements: Key -> set<(Bytes, Bytes)>, payload: Bytes, i: nat)
    requires Unforgeable(check, statements) && i < |envelope.signatures|
    requires Trusted(keys, check, text, Encoding(envelope.payloadType, payload), envelope.signatures[i])
    ensures (envelope.payloadType, payload) in statements(keys[envelope.signatures[i].keyId])
  {
    hide Encoding;
    var key := keys[envelope.signatures[i].keyId];
    var st :| st in statements(key) && Encoding(envelope.payloadType, payload) == Encoding(st.0, st.1);
    EncodingInjective(envelope.payloadType, payload, st.0, st.1);
  }

  // ----- The encoding in plain terms -----

  /** A length is printed in decimal: the digits spell it, most significant first, without a leading zero. */
  lemma {:induction false} AsciiMeans(n: nat)
    ensures n < 10 ==> Ascii(n) == [(48 + n) as byte]
    ensures n >= 10 ==> Ascii(n) == Ascii(n / 10) + [(48 + n % 10) as byte]
  {
  }

  /** The example of the DSSE protocol: type "http://example.com/HelloWorld" and payload "hello world". */
  lemma ProtocolExample(payloadType: Bytes, payload: Bytes)
    requires |payloadType| == 29 && |payload| == 11
    ensures Encoding(payloadType, payload) ==
            [68, 83, 83, 69, 118, 49, 32] + [50, 57] + [32] + payloadType + [32] + [49, 49] + [32] + payload
  {
    AsciiMeans(29);
    AsciiMeans(2);
    AsciiMeans(11);
    AsciiMeans(1);
    assert Ascii(29) == [50, 57] && Ascii(11) == [49, 49];
    Associate(payloadType, payload);
  }
}
