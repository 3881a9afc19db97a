/**
 * The KMS cipher clients: the remote client, which posts the text to the KMS service and
 * recognises its envelopes, and the development client, which wraps an RC4 stream under a fixed
 * prefix. The HTTP call, base64 and RC4 are given as inputs.
 */
module Kms {
  import opened Wrappers
  import opened Bytes
  import opened Text

  /** The six bytes every KMS envelope starts with. */
  const Magic: seq<byte> := [0x5a, 0x59, 0x42, 0x4b, 0x4d, 0x53]

  /** The envelope names "ZYBKMS". */
  lemma MagicSpells()
    ensures BytesString(Magic) == "ZYBKMS"
  {
  }

  /** A character hex.DecodeString accepts: a digit or a letter a-f in either case. */
  predicate HexChar(c: char) {
    '0' <= c <= '9' || 'a' <= c <= 'f' || 'A' <= c <= 'F'
  }

  /** hex.DecodeString succeeds: an even number of hex characters. */
  predicate HexDecodable(s: string) {
    |s| % 2 == 0 && forall i :: 0 <= i < |s| ==> HexChar(s[i])
  }

  /** What the remote client's reply turns into: the service's text, or the input back with an error. */
  function Reply(text: string, errorPrefix: string, post: Result<string, string>): (r: (string, Option<string>))
    ensures post.Failure? ==> r == (text, Some(post.error))
    ensures post.Success? && HasPrefix(post.value, errorPrefix) ==> r == (text, Some(post.value))
    ensures post.Success? && !HasPrefix(post.value, errorPrefix) ==> r == (post.value, None)
  {
    if post.Failure? then (text, Some(post.error))
    else if HasPrefix(post.value, errorPrefix) then (text, Some(post.value))
    else (post.value, None)
  }

  /** kms.Encrypt, the reply of the POST to /encrypt given as post. */
  function Encrypt(plaintext: string, errorPrefix: string, post: Result<string, string>): (r: (string, Option<string>))
    ensures r.1.Some? ==> r.0 == plaintext
  {
    Reply(plaintext, errorPrefix, post)
  }

  /** kms.Decrypt, the reply of the POST to /decrypt given as post. */
  function Decrypt(cipherText: string, errorPrefix: string, post: Result<string, string>): (r: (string, Option<string>))
    ensures r.1.Some? ==> r.0 == cipherText
  {
    Reply(cipherText, errorPrefix, post)
  }

  /** A successful reply is passed on only when it does not look like an error. */
  lemma ReplyErrorIff(text: string, errorPrefix: string, post: Result<string, string>)
    ensures Reply(text, errorPrefix, post).1 == None <==> post.Success? && !HasPrefix(post.value, errorPrefix)
  {
  }

  /** The length field of an envelope: bytes 15 to 23, read in decimal. */
  function LengthField(cipher: seq<byte>): string
    requires |cipher| >= 23
  {
    BytesString(cipher[15..23])
  }

  /**
   * kms.IsEncrypt, the raw base64 decoding given as rawDecode: a non-empty text decoding to at
   * least 24 bytes that start with "ZYBKMS", whose length field L parses, that hold 23 + L bytes,
   * and whose bytes 23 to 23 + L are hex. A negative L passes the length test and then slices
   * backwards: the call panics.
   */
  function IsEncrypt(text: string, rawDecode: string -> Option<seq<byte>>): (o: Outcome<bool>)
    ensures text == "" ==> o == Returns(false)
  {
    if |text| == 0 then Returns(false)
    else
      var decoded := rawDecode(text);
      if decoded.None? then Returns(false)
      else
        var cipher := decoded.value;
        if |cipher| < 24 then Returns(false)
        else if cipher[..6] != Magic then Returns(false)
        else if !IsNumber(LengthField(cipher)) then Returns(false)
        else
          var appNameLen := NumberValue(LengthField(cipher));
          if |cipher| < 23 + appNameLen then Returns(false)
          else if appNameLen < 0 then Panics
          else Returns(HexDecodable(BytesString(cipher[23..23 + appNameLen])))
  }

  /** The envelope test as a predicate on the decoded bytes, for a length field that is not negative. */
  predicate Envelope(cipher: seq<byte>) {
    |cipher| >= 24 && cipher[..6] == Magic && IsNumber(LengthField(cipher)) &&
    0 <= NumberValue(LengthField(cipher)) <= |cipher| - 23 &&
    HexDecodable(BytesString(cipher[23..23 + NumberValue(LengthField(cipher))]))
  }

  /** IsEncrypt accepts exactly the texts that decode to an envelope, and panics only on a negative length field. */
  lemma IsEncryptMeansEnvelope(text: string, rawDecode: string -> Option<seq<byte>>)
    ensures IsEncrypt(text, rawDecode) == Returns(true) <==>
      text != "" && rawDecode(text).Some? && Envelope(rawDecode(text).value)
    ensures IsEncrypt(text, rawDecode) == Panics ==>
      text != "" && rawDecode(text).Some? && |rawDecode(text).value| >= 24 &&
      IsNumber(LengthField(rawDecode(text).value)) && NumberValue(LengthField(rawDecode(text).value)) < 0
  {
  }

  /** The bytes of an envelope: the magic, nine header bytes, the length field, the hex name, the rest. */
  function MakeEnvelope(header: seq<byte>, lengthField: string, appHex: string, rest: seq<byte>): seq<byte> {
    Magic + header + StringBytes(lengthField) + StringBytes(appHex) + rest
  }

  /** An envelope built with an eight-digit length field that counts the hex name is recognised. */
  lemma EnvelopeAccepted(text: string, rawDecode: string -> Option<seq<byte>>,
                         header: seq<byte>, lengthField: string, appHex: string, rest: seq<byte>)
    requires |header| == 9 && |lengthField| == 8 && IsDigits(lengthField) && DecimalValue(lengthField) == |appHex|
    requires HexDecodable(appHex) && |appHex| + |rest| >= 1
    requires text != "" && rawDecode(text) == Some(MakeEnvelope(header, lengthField, appHex, rest))
    ensures IsEncrypt(text, rawDecode) == Returns(true)
  {
    var c := MakeEnvelope(header, lengthField, appHex, rest);
    assert c[..6] == Magic;
    assert c[15..23] == StringBytes(lengthField);
    StringBytesRoundTrip(lengthField);
    assert LengthField(c) == lengthField;
    assert NumberValue(lengthField) == |appHex|;
    assert c[23..23 + |appHex|] == StringBytes(appHex);
    StringBytesRoundTrip(appHex);
  }

  /** A length field of "-0000001" gets past every test and panics. */
  lemma NegativeLengthPanics(text: string, rawDecode: string -> Option<seq<byte>>, cipher: seq<byte>)
    requires text != "" && rawDecode(text) == Some(cipher)
    requires |cipher| >= 24 && cipher[..6] == Magic && LengthField(cipher) == "-0000001"
    ensures IsEncrypt(text, rawDecode) == Panics
  {
    assert IsNumber("-0000001");
    LeadingZeros("000000", "1");
    assert "-0000001"[1..] == "000000" + "1";
    assert NumberValue("-0000001") == -1;
  }

  /** IsEncrypt with a negative length field rejected instead of sliced. */
  function IsEncryptChecked(text: string, rawDecode: string -> Option<seq<byte>>): (o: Outcome<bool>)
    ensures o.Returns?
    ensures o.value <==> text != "" && rawDecode(text).Some? && Envelope(rawDecode(text).value)
  {
    match IsEncrypt(text, rawDecode)
    case Returns(b) => Returns(b)
    case Panics => Returns(false)
  }

  /** kmsDev.IsEncrypt, the standard base64 decoding given as stdDecode: a non-empty text decoding to bytes that start with the prefix. */
  function DevIsEncrypt(prefix: seq<byte>, text: string, stdDecode: string -> Option<seq<byte>>): (r: bool)
    ensures r <==> text != "" && stdDecode(text).Some? && prefix <= stdDecode(text).value
  {
    if |text| == 0 then false
    else
      var cipher := stdDecode(text);
      if cipher.None? then false
      else if |cipher.value| < |prefix| then false
      else cipher.value[..|prefix|] == prefix
  }

  /** The errors of the development client. */
  datatype DevError = TextEmpty | BadEncoding | CipherIllegal | CipherFailed(msg: string)

  /**
   * kmsDev.Encrypt, RC4 and base64 given as rc4 and stdEncode: empty text is refused; otherwise the
   * prefix followed by the RC4 stream, base64 encoded.
   */
  function DevEncrypt(key: seq<byte>, prefix: seq<byte>, plaintext: string,
                      rc4: (seq<byte>, seq<byte>) -> Result<seq<byte>, string>,
                      stdEncode: seq<byte> -> string): (r: Result<string, DevError>)
    ensures plaintext == "" ==> r == Failure(TextEmpty)
    ensures plaintext != "" && rc4(key, StringBytes(plaintext)).Failure? ==> r == Failure(CipherFailed(rc4(key, StringBytes(plaintext)).error))
    ensures plaintext != "" && rc4(key, StringBytes(plaintext)).Success? ==> r == Success(stdEncode(prefix + rc4(key, StringBytes(plaintext)).value))
  {
    if |plaintext| == 0 then Failure(TextEmpty)
    else
      var content := rc4(key, StringBytes(plaintext));
      if content.Failure? then Failure(CipherFailed(content.error))
      else Success(stdEncode(prefix + content.value))
  }

  /**
   * kmsDev.Decrypt as written: empty text and undecodable text are refused, and so is text no
   * longer than the prefix. The guard measures the encoded text, not the decoded bytes, so
   * decoded bytes shorter than the prefix are sliced past their end: a panic.
   */
  function DevDecrypt(key: seq<byte>, prefix: seq<byte>, cipherText: string,
                      stdDecode: string -> Option<seq<byte>>,
                      rc4Decode: (seq<byte>, seq<byte>) -> Result<seq<byte>, string>): (o: Outcome<Result<string, DevError>>)
    ensures cipherText == "" ==> o == Returns(Failure(TextEmpty))
    ensures cipherText != "" && stdDecode(cipherText).None? ==> o == Returns(Failure(BadEncoding))
    ensures cipherText != "" && stdDecode(cipherText).Some? && |cipherText| <= |prefix| ==> o == Returns(Failure(CipherIllegal))
  {
    if |cipherText| == 0 then Returns(Failure(TextEmpty))
    else
      var cipher := stdDecode(cipherText);
      if cipher.None? then Returns(Failure(BadEncoding))
      else if |cipherText| <= |prefix| then Returns(Failure(CipherIllegal))
      else if |cipher.value| < |prefix| then Panics
      else
        var content := rc4Decode(key, cipher.value[|prefix|..]);
        if content.Failure? then Returns(Failure(CipherFailed(content.error)))
        else Returns(Success(BytesString(content.value)))
  }

  /**
   * Twelve base64 characters of "A" decode to nine zero bytes; under a ten-byte prefix they pass
   * the length guard and panic.
   */
  lemma DevDecryptPanics(key: seq<byte>, prefix: seq<byte>, stdDecode: string -> Option<seq<byte>>,
                         rc4Decode: (seq<byte>, seq<byte>) -> Result<seq<byte>, string>)
    requires |prefix| == 10
    requires stdDecode("AAAAAAAAAAAA") == Some([0, 0, 0, 0, 0, 0, 0, 0, 0])
    ensures DevDecrypt(key, prefix, "AAAAAAAAAAAA", stdDecode, rc4Decode) == Panics
  {
  }

  /** kmsDev.Decrypt with the guard on the decoded bytes, the slice it protects. */
  function DevDecryptChecked(key: seq<byte>, prefix: seq<byte>, cipherText: string,
                             stdDecode: string -> Option<seq<byte>>,
                             rc4Decode: (seq<byte>, seq<byte>) -> Result<seq<byte>, string>): (r: Result<string, DevError>)
    ensures cipherText == "" ==> r == Failure(TextEmpty)
    ensures cipherText != "" && stdDecode(cipherText).None? ==> r == Failure(BadEncoding)
    ensures cipherText != "" && stdDecode(cipherText).Some? && |stdDecode(cipherText).value| <= |prefix| ==> r == Failure(CipherIllegal)
    ensures r.Success? ==> (cipherText != "" && stdDecode(cipherText).Some? &&
      var c := stdDecode(cipherText).value;
      |c| > |prefix| && rc4Decode(key, c[|prefix|..]).Success? && r.value == BytesString(rc4Decode(key, c[|prefix|..]).value))
  {
    if |cipherText| == 0 then Failure(TextEmpty)
    else
      var cipher := stdDecode(cipherText);
      if cipher.None? then Failure(BadEncoding)
      else if |cipher.value| <= |prefix| then Failure(CipherIllegal)
      else
        var content := rc4Decode(key, cipher.value[|prefix|..]);
        if content.Failure? then Failure(CipherFailed(content.error))
        else Success(BytesString(content.value))
  }

  /**
   * The written Decrypt panics exactly when the text passes the guard but decodes to fewer bytes
   * than the prefix; wherever the decoded bytes outrun the prefix, it agrees with the checked one.
   */
  lemma DevDecryptAgrees(key: seq<byte>, prefix: seq<byte>, cipherText: string,
                         stdDecode: string -> Option<seq<byte>>,
                         rc4Decode: (seq<byte>, seq<byte>) -> Result<seq<byte>, string>)
    ensures DevDecrypt(key, prefix, cipherText, stdDecode, rc4Decode) == Panics <==>
      cipherText != "" && stdDecode(cipherText).Some? && |cipherText| > |prefix| && |stdDecode(cipherText).value| < |prefix|
    ensures cipherText != "" && stdDecode(cipherText).Some? && |stdDecode(cipherText).value| > |prefix| && |cipherText| > |prefix| ==>
      DevDecrypt(key, prefix, cipherText, stdDecode, rc4Decode) == Returns(DevDecryptChecked(key, prefix, cipherText, stdDecode, rc4Decode))
  {
  }

  /** With the decoded-length guard, a development round trip returns the plaintext when RC4 inverts itself and base64 decodes what it encodes. */
  lemma DevRoundTrip(key: seq<byte>, prefix: seq<byte>, plaintext: string,
                     rc4: (seq<byte>, seq<byte>) -> Result<seq<byte>, string>,
                     rc4Decode: (seq<byte>, seq<byte>) -> Result<seq<byte>, string>,
                     stdEncode: seq<byte> -> string, stdDecode: string -> Option<seq<byte>>)
    requires forall i :: 0 <= i < |plaintext| ==> plaintext[i] as int < 256
    requires plaintext != "" && rc4(key, StringBytes(plaintext)).Success?
    requires |rc4(key, StringBytes(plaintext)).value| > 0
    requires rc4Decode(key, rc4(key, StringBytes(plaintext)).value) == Success(StringBytes(plaintext))
    requires stdEncode(prefix + rc4(key, StringBytes(plaintext)).value) != ""
    requires stdDecode(stdEncode(prefix + rc4(key, StringBytes(plaintext)).value)) == Some(prefix + rc4(key, StringBytes(plaintext)).value)
    ensures DevEncrypt(key, prefix, plaintext, rc4, stdEncode).Success?
    ensures DevDecryptChecked(key, prefix, DevEncrypt(key, prefix, plaintext, rc4, stdEncode).value, stdDecode, rc4Decode)
         == Success(plaintext)
  {
    var content := rc4(key, StringBytes(plaintext)).value;
    assert (prefix + content)[|prefix|..] == content;
    StringBytesRoundTrip(plaintext);
  }
}
