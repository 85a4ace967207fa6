/** Encryption and signing around a request: the agent's layers, and the server's in the reverse order. */
module Pipeline {
  import opened Wrappers
  import opened Encoding
  import opened Oaep
  import opened ByPart

  /** HMAC with SHA-256 under a secret; only that its result is not empty matters here. */
  type Mac = (string, seq<byte>) -> seq<byte>

  ghost predicate ValidMac(mac: Mac) {
    forall k, b :: mac(k, b) != []
  }

  /** No key file means no encryption. */
  ghost predicate ValidCrypto(s: Suite, key: Option<Key>) {
    ValidSuite(s) && (key.Some? ==> ValidKey(key.value))
  }

  datatype Wire = Wire(body: seq<byte>, sign: string)

  datatype Reason = BadSignHex | SignError | BadBase64 | BadCiphertext

  /**
   * The handler is reached with this body, behind a signing writer whose hash has already taken `hashed`, or
   * refused.
   */
  datatype Reception = Delivered(body: seq<byte>, writer: Option<seq<byte>>) | Rejected(reason: Reason)

  const NO_LABEL: seq<byte> := []

  // Agent.

  function EncryptedBody(s: Suite, key: Option<Key>, random: seq<byte>, payload: seq<byte>): Option<seq<byte>>
    requires ValidCrypto(s, key)
  {
    if key.None? then Some(payload)
    else
      match EncryptParts(s, key.value, random, payload, NO_LABEL)
      case Joined(c) => Some(Base64Encode(c))
      case _ => None
  }

  function Signature(mac: Mac, secret: string, body: seq<byte>): string {
    if secret == "" then "" else HexEncode(mac(secret, body))
  }

  /** What goes over the wire; None when the body cannot be encrypted. */
  function Sent(s: Suite, key: Option<Key>, random: seq<byte>, mac: Mac, secret: string, payload: seq<byte>)
    : Option<Wire>
    requires ValidCrypto(s, key)
  {
    match EncryptedBody(s, key, random, payload)
    case None => None
    case Some(body) => Some(Wire(body, Signature(mac, secret, body)))
  }

  // Server.

  /** SignCheck: a missing header or a missing secret skips the check. */
  function Checked(mac: Mac, secret: string, w: Wire): Option<Reason> {
    if secret == "" || w.sign == "" then None
    else
      match HexDecode(w.sign)
      case None => Some(BadSignHex)
      case Some(sig) => if sig == mac(secret, w.body) then None else Some(SignError)
  }

  function Hashed(secret: string, w: Wire): Option<seq<byte>> {
    if secret == "" then None else if w.sign == "" then Some([]) else Some(w.body)
  }

  function DecryptedBody(s: Suite, key: Option<Key>, body: seq<byte>): Result<seq<byte>, Reason>
    requires ValidCrypto(s, key)
  {
    if key.None? then Ok(body)
    else
      match Base64Decode(body)
      case None => Err(BadBase64)
      case Some(c) =>
        match DecryptParts(s, key.value, c, NO_LABEL)
        case Joined(m) => Ok(m)
        case _ => Err(BadCiphertext)
  }

  function Received(s: Suite, key: Option<Key>, mac: Mac, secret: string, w: Wire): Reception
    requires ValidCrypto(s, key)
  {
    match Checked(mac, secret, w)
    case Some(reason) => Rejected(reason)
    case None =>
      match DecryptedBody(s, key, w.body)
      case Err(reason) => Rejected(reason)
      case Ok(body) => Delivered(body, Hashed(secret, w))
  }

  /** The request object: the layers set its header and replace its body in place. */
  class Request {
    var body: seq<byte>
    var sign: string

    constructor ()
      ensures body == [] && sign == ""
    {
      body, sign := [], "";
    }

    /** SignNew and the send function under it. */
    method SignNew(mac: Mac, secret: string, send: seq<byte>)
      modifies this
      ensures body == send
      ensures sign == if secret == "" then old(sign) else Signature(mac, secret, send)
    {
      if secret != "" {
        var reshm := mac(secret, send);
        sign := HexEncode(reshm);
      }
      body := send;
    }

    /** AsymmetricEncryptData around SignNew. */
    method Send(s: Suite, key: Option<Key>, random: seq<byte>, mac: Mac, secret: string, payload: seq<byte>)
      returns (ok: bool)
      requires ValidCrypto(s, key)
      modifies this
      ensures var w := Sent(s, key, random, mac, secret, payload);
              ok == w.Some?
              && (ok ==> body == w.value.body && (secret != "" || old(sign) == "" ==> sign == w.value.sign))
              && (!ok ==> body == old(body) && sign == old(sign))
    {
      if key.Some? {
        var ciphertext := EncryptOAEPbyPart(s, key.value, random, payload, NO_LABEL);
        if !ciphertext.Joined? {
          return false;
        }
        SignNew(mac, secret, Base64Encode(ciphertext.bytes));
        return true;
      }
      SignNew(mac, secret, payload);
      return true;
    }

    /** SignCheck around AsymmetricDencryptData: the handler finds the plaintext in the body. */
    method Receive(s: Suite, key: Option<Key>, mac: Mac, secret: string) returns (r: Reception)
      requires ValidCrypto(s, key)
      modifies this`body
      ensures r == Received(s, key, mac, secret, Wire(old(body), sign))
      ensures body == if r.Delivered? then r.body else old(body)
    {
      var writer := None;
      if secret != "" {
        writer := Some([]);
        if sign != "" {
          var hashSign := HexDecode(sign);
          if hashSign == None {
            return Rejected(BadSignHex);
          }
          if hashSign.value != mac(secret, body) {
            return Rejected(SignError);
          }
          writer := Some(body);
        }
      }
      if key.Some? {
        var ciphertext := Base64Decode(body);
        if ciphertext == None {
          return Rejected(BadBase64);
        }
        var plaintext := DecryptOAEPbyPart(s, key.value, ciphertext.value, NO_LABEL);
        if !plaintext.Joined? {
          return Rejected(BadCiphertext);
        }
        body := plaintext.bytes;
      }
      return Delivered(body, writer);
    }
  }

  /** Sending succeeds exactly if there is nothing to encrypt, or the key has room and the random source lasts. */
  lemma {:induction false} SendingSucceedsIff(
      s: Suite, key: Option<Key>, random: seq<byte>, mac: Mac, secret: string, payload: seq<byte>)
    requires ValidCrypto(s, key)
    ensures Sent(s, key, random, mac, secret, payload).Some?
            <==> key.Some? && payload != [] ==>
                   var step := MaxMessage(s, key.value.k);
                   step > 0 && |random| >= s.hLen * Blocks(|payload|, step)
  {
    hide ValidSuite, ValidKey, EncryptParts, Blocks;
    if key.Some? {
      EncryptsIff(s, key.value, random, payload, NO_LABEL);
    }
  }

  lemma {:induction false} BodyInverse(s: Suite, key: Option<Key>, random: seq<byte>, payload: seq<byte>)
    requires ValidCrypto(s, key)
    requires EncryptedBody(s, key, random, payload).Some?
    ensures DecryptedBody(s, key, EncryptedBody(s, key, random, payload).value) == Ok(payload)
  {
    if key.Some? {
      PartsInverse(s, key.value, random, payload, NO_LABEL);
      Base64Inverse(EncryptParts(s, key.value, random, payload, NO_LABEL).bytes);
    }
  }

  /** The two secrets agree on a body, or one of the parties does not sign at all. */
  predicate SecretsAgree(mac: Mac, agent: string, server: string, body: seq<byte>) {
    agent == "" || server == "" || mac(agent, body) == mac(server, body)
  }

  /**
   * With one key pair on both sides the handler gets exactly the payload if and only if the secrets agree;
   * otherwise the answer is "sign error".
   */
  lemma PipelineExact(
      s: Suite, key: Option<Key>, random: seq<byte>, mac: Mac, agent: string, server: string, payload: seq<byte>)
    requires ValidCrypto(s, key) && ValidMac(mac)
    requires Sent(s, key, random, mac, agent, payload).Some?
    ensures var w := Sent(s, key, random, mac, agent, payload).value;
            var r := Received(s, key, mac, server, w);
            if SecretsAgree(mac, agent, server, w.body) then r == Delivered(payload, Hashed(server, w))
            else r == Rejected(SignError)
  {
    hide EncryptedBody, DecryptedBody;
    var w := Sent(s, key, random, mac, agent, payload).value;
    BodyInverse(s, key, random, payload);
    if agent != "" {
      HexInverse(mac(agent, w.body));
      assert w.sign != "" by {
        assert |mac(agent, w.body)| > 0;
      }
    }
  }

  /**
   * Under a signature the agent sent, another body is refused as wrongly signed if and only if its HMAC differs: only a
   * body with the same HMAC gets past the check, whatever the encryption.
   */
  lemma AlteredBodyIff(
      s: Suite, key: Option<Key>, random: seq<byte>, mac: Mac, secret: string, payload: seq<byte>, body: seq<byte>)
    requires ValidCrypto(s, key) && ValidMac(mac) && secret != ""
    requires Sent(s, key, random, mac, secret, payload).Some?
    ensures var w := Sent(s, key, random, mac, secret, payload).value;
            Received(s, key, mac, secret, w.(body := body)) == Rejected(SignError)
            <==> mac(secret, body) != mac(secret, w.body)
  {
    var w := Sent(s, key, random, mac, secret, payload).value;
    HexInverse(mac(secret, w.body));
    assert |mac(secret, w.body)| > 0;
  }

  /** The signature check lets the request pass: it is not made, or the header is the HMAC of the body in hex. */
  predicate SignatureFits(mac: Mac, secret: string, w: Wire) {
    secret == "" || w.sign == "" || HexDecode(w.sign) == Some(mac(secret, w.body))
  }

  /** The body is base64, and every block of what it stands for decrypts. */
  ghost predicate Decryptable(s: Suite, key: Key, body: seq<byte>)
    requires ValidSuite(s) && ValidKey(key)
  {
    && WellPadded(DropLineEnds(body)) && Base64Decode(body).Some?
    && forall i: nat :: BlockDecrypts(s, key, Base64Decode(body).value, [], i)
  }

  lemma DecryptedIff(s: Suite, key: Option<Key>, body: seq<byte>)
    requires ValidCrypto(s, key)
    ensures key.None? ==> DecryptedBody(s, key, body) == Ok(body)
    ensures key.Some? ==>
              var r := DecryptedBody(s, key, body);
              && (r.Ok? <==> Decryptable(s, key.value, body))
              && (r.Ok? ==> DecryptParts(s, key.value, Base64Decode(body).value, []) == Joined(r.value))
              && (r == Err(BadBase64) <==> !WellPadded(DropLineEnds(body)))
              && (r.Err? ==> r.error == BadBase64 || r.error == BadCiphertext)
  {
    hide ValidSuite, ValidKey, DecryptParts, BlockDecrypts, Base64Decode, WellPadded;
    Base64DecodesIff(body);
    if key.Some? && Base64Decode(body).Some? {
      DecryptsIff(s, key.value, Base64Decode(body).value, []);
    }
  }

  /**
   * Any request at all: it reaches the handler if and only if its signature fits and its body decrypts, and otherwise
   * the first of the four checks it fails is the reason given.
   */
  lemma ReceivedIff(s: Suite, key: Option<Key>, mac: Mac, secret: string, w: Wire)
    requires ValidCrypto(s, key)
    ensures var r := Received(s, key, mac, secret, w);
            var fits := SignatureFits(mac, secret, w);
            var hex := |w.sign| % 2 == 0 && forall i :: 0 <= i < |w.sign| ==> IsHex(w.sign[i]);
            && (r.Delivered? <==> fits && (key.Some? ==> Decryptable(s, key.value, w.body)))
            && (r == Rejected(BadSignHex) <==> secret != "" && !hex)
            && (r == Rejected(SignError) <==> !fits && hex)
            && (r == Rejected(BadBase64) <==> fits && key.Some? && !WellPadded(DropLineEnds(w.body)))
            && (r == Rejected(BadCiphertext) <==>
                  fits && key.Some? && WellPadded(DropLineEnds(w.body)) && !Decryptable(s, key.value, w.body))
  {
    hide ValidSuite, ValidKey, Decryptable, DecryptedBody, Base64Decode, WellPadded;
    HexDecodesIff(w.sign);
    Base64DecodesIff(w.body);
    DecryptedIff(s, key, w.body);
  }

  /** What the handler then finds: the plain body, and a signing writer whose hash has taken the checked body. */
  lemma DeliveredIs(s: Suite, key: Option<Key>, mac: Mac, secret: string, w: Wire)
    requires ValidCrypto(s, key) && Received(s, key, mac, secret, w).Delivered?
    ensures var r := Received(s, key, mac, secret, w);
            && (if key.None? then r.body == w.body
                else Base64Decode(w.body).Some?
                     && DecryptParts(s, key.value, Base64Decode(w.body).value, []) == Joined(r.body))
            && (secret == "" <==> r.writer == None)
            && (secret != "" ==> r.writer == Some(if w.sign == "" then [] else w.body))
  {
    hide ValidSuite, ValidKey, Decryptable, DecryptedBody, Base64Decode, WellPadded;
    DecryptedIff(s, key, w.body);
    Base64DecodesIff(w.body);
  }

  /** A signing server does not let a header like "zz" pass, whatever the body. */
  lemma MalformedHeaderRefused(s: Suite, key: Option<Key>, mac: Mac, body: seq<byte>)
    requires ValidCrypto(s, key)
    ensures Received(s, key, mac, "k", Wire(body, "zz")) == Rejected(BadSignHex)
  {
    hide ValidCrypto, Received;
    ReceivedIff(s, key, mac, "k", Wire(body, "zz"));
    assert "zz"[0] == 'z' && !IsHex('z');
  }
}

/** From the agent's metrics to the server's store, through all the layers. */
module EndToEnd {
  import opened Wrappers
  import opened Models
  import opened Stores
  import opened MetricJson
  import opened Encoding
  import opened Oaep
  import opened Pipeline

  /** The batch handler's view of a delivered body. */
  function BatchOf(body: seq<byte>, text: GaugeText): Option<seq<Metric>> {
    match Utf8Decode(body) case None => None case Some(json) => DecodeBatch(json, text)
  }

  /**
   * Whatever the agent can encode and send arrives as the same batch, and so moves the store as the batch itself
   * would.
   */
  lemma ReportArrives(
      ms: seq<Metric>, store: Store, text: GaugeText,
      s: Suite, key: Option<Key>, random: seq<byte>, mac: Mac, agent: string, server: string)
    requires ValidText(text) && ValidCrypto(s, key) && ValidMac(mac)
    requires EncodeBatch(ms, text).Some?
    requires Sent(s, key, random, mac, agent, Utf8(EncodeBatch(ms, text).value)).Some?
    ensures var w := Sent(s, key, random, mac, agent, Utf8(EncodeBatch(ms, text).value)).value;
            var r := Received(s, key, mac, server, w);
            && (r.Delivered? <==> SecretsAgree(mac, agent, server, w.body))
            && (r.Delivered? ==>
                  && BatchOf(r.body, text) == Some(ms)
                  && Apply(store, BatchUpdates(BatchOf(r.body, text).value)) == Apply(store, BatchUpdates(ms)))
  {
    hide Sent, Received, DecodeBatch, EncodeBatch, Utf8, Utf8Decode, ValidText;
    var json := EncodeBatch(ms, text).value;
    PipelineExact(s, key, random, mac, agent, server, Utf8(json));
    Utf8Inverse(json);
    BatchRoundTrip(ms, text);
  }
}
