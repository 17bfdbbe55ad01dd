/**
 Canonical signing of payloads, and the transport in between: what a signature
 covers, and what a payload keeps on its way.
 */
module Signing {
  import opened Options
  import opened Utf8
  import opened JsonText
  import opened Json

  predicate Covered(key: string) {
    key != "signature" && !(key != "" && key[0] == '_')
  }

  /** A payload without its signature and without the transport's own fields. */
  function Body(payload: Payload): Payload {
    map k | k in payload && Covered(k) :: payload[k]
  }

  ghost function CanonicalBytes(payload: Payload): seq<Byte> {
    Encode(Print(Obj(Body(payload)), false))
  }

  /** The object that a byte string spells, if it does. */
  function ObjectOfBytes(bytes: seq<Byte>): Option<Payload> {
    match Decode(bytes)
    case None => None
    case Some(text) =>
      match Loads(text)
      case Some(Obj(fields)) => Some(fields)
      case _ => None
  }

  /** The body can be read back off the canonical bytes. */
  lemma CanonicalBytesTellBody(payload: Payload)
    ensures ObjectOfBytes(CanonicalBytes(payload)) == Some(Body(payload))
  {
    DecodeEncoded(Print(Obj(Body(payload)), false));
    LoadsDumped(Obj(Body(payload)), false);
  }

  /** The canonical form is faithful: equal bytes mean equal bodies, and nothing else does. */
  lemma CanonicalIffSameBody(p: Payload, q: Payload)
    ensures CanonicalBytes(p) == CanonicalBytes(q) <==> Body(p) == Body(q)
  {
    CanonicalBytesTellBody(p);
    CanonicalBytesTellBody(q);
  }

  /** Two payloads tell the same under every key that is signed: all but `signature` and those that start with `_`. */
  ghost predicate AgreeOnSigned(p: Payload, q: Payload) {
    forall k :: k != "signature" && !("_" <= k) ==> (k in p <==> k in q) && (k in p && k in q ==> p[k] == q[k])
  }

  /** Whatever is signed shows in the bytes, and nothing else does. */
  lemma CanonicalIffAgree(p: Payload, q: Payload)
    ensures CanonicalBytes(p) == CanonicalBytes(q) <==> AgreeOnSigned(p, q)
  {
    CanonicalIffSameBody(p, q);
    forall k ensures Covered(k) <==> k != "signature" && !("_" <= k) {
    }
    if Body(p) == Body(q) {
      forall k | k != "signature" && !("_" <= k)
        ensures (k in p <==> k in q) && (k in p && k in q ==> p[k] == q[k])
      {
        assert k in p <==> k in Body(p);
        assert k in q <==> k in Body(q);
      }
    }
  }

  /** The text behind the bytes: visible characters, every key sorted at every depth, and nothing but the body. */
  lemma CanonicalIsSorted(payload: Payload)
    ensures var text := Decode(CanonicalBytes(payload));
            text.Some? && Visible(text.value, false) && LoadsSorted(text.value) == Some(Obj(Body(payload)))
  {
    var body := Obj(Body(payload));
    DecodeEncoded(Print(body, false));
    PrintedIsSorted(body, false);
    PrintedIsVisible(body, false);
  }

  /** The bytes of a field, letter by letter: plain text is not escaped, ASCII or not. */
  lemma CanonicalOfOneField(k: string, s: string)
    requires k != "signature" && !("_" <= k)
    requires forall i :: 0 <= i < |k| ==> Plain(k[i], false)
    requires forall i :: 0 <= i < |s| ==> Plain(s[i], false)
    ensures CanonicalBytes(map[k := Str(s)]) == Encode("{\"" + k + "\":\"" + s + "\"}")
  {
    var fields: Payload := map[k := Str(s)];
    assert Body(fields) == fields;
    OneFieldText(fields, k, s);
  }

  lemma OneFieldText(fields: Payload, k: string, s: string)
    requires fields == map[k := Str(s)]
    requires forall i :: 0 <= i < |k| ==> Plain(k[i], false)
    requires forall i :: 0 <= i < |s| ==> Plain(s[i], false)
    ensures Print(Obj(fields), false) == "{\"" + k + "\":\"" + s + "\"}"
  {
    PlainTextStands(k, false);
    PlainTextStands(s, false);
    OneSortedKey(k);
    assert fields.Keys == {k};
    hide SortedKeys, PrintString, Escape;
    OneFieldPrinted(Obj(fields), k);
  }

  lemma OneFieldPrinted(v: Json, k: string)
    requires v.Obj? && k in v.fields && v.fields[k].Str?
    ensures PrintFields(v, [k], false) == PrintString(k, false) + ":" + PrintString(v.fields[k].s, false)
  {
    hide PrintString;
    assert PrintField(v, k, false) == PrintString(k, false) + ":" + PrintString(v.fields[k].s, false);
  }

  lemma OneSortedKey(k: string)
    ensures SortedKeys({k}) == [k]
  {
    assert {k} - {k} == {};
    assert SortedKeys({}) == [];
  }

  // ---------------------------------------------------------------- signatures

  type SecretKey = nat
  type PublicKey = nat
  type Signature = seq<Byte>

  /** The signature scheme and its hexadecimal notation, as the library offers them. */
  datatype Scheme = Scheme(
    sign: (SecretKey, seq<Byte>) -> Signature,
    verify: (PublicKey, seq<Byte>, Signature) -> bool,
    publicKey: SecretKey -> PublicKey,
    hex: Signature -> string,
    fromHex: string -> Option<Signature>,
    keyHex: PublicKey -> string,
    keyFromHex: string -> Option<PublicKey>)

  /**
   An ideal scheme: signing is deterministic (RFC 8032, section 5.1.6), what verifies
   under a public key is exactly what its secret key signed, no two signatures for
   different keys or messages coincide, and hexadecimal notation loses nothing.
   */
  ghost predicate Ideal(s: Scheme) {
    && (forall pk: PublicKey, m: seq<Byte>, x: Signature ::
          s.verify(pk, m, x) <==> exists k: SecretKey :: s.publicKey(k) == pk && s.sign(k, m) == x)
    && (forall k: SecretKey, k': SecretKey, m: seq<Byte>, m': seq<Byte> ::
          s.sign(k, m) == s.sign(k', m') ==> s.publicKey(k) == s.publicKey(k') && m == m')
    && (forall x: Signature :: s.fromHex(s.hex(x)) == Some(x))
    && (forall k: PublicKey :: s.keyFromHex(s.keyHex(k)) == Some(k))
  }

  /** Under an ideal scheme a signature is good for its own message and no other. */
  lemma OwnMessageOnly(s: Scheme, k: SecretKey, m: seq<Byte>, m': seq<Byte>)
    requires Ideal(s)
    ensures s.verify(s.publicKey(k), m', s.sign(k, m)) <==> m' == m
  {
  }

  function Spelled(x: Signature): string {
    seq(|x|, i requires 0 <= i < |x| => x[i] as char)
  }

  function Unspelled(t: string): Option<Signature> {
    if forall i :: 0 <= i < |t| ==> t[i] as int < 256
    then Some(seq(|t|, i requires 0 <= i < |t| => (t[i] as int) % 256)) else None
  }

  lemma SpellingLosesNothing(x: Signature)
    ensures Unspelled(Spelled(x)) == Some(x)
  {
    assert Unspelled(Spelled(x)).value == x;
  }

  // A signature that tells the key, in unary, and the message.
  function Stamp(k: SecretKey, m: seq<Byte>): Signature {
    seq(k, _ => 0) + [1] + m
  }

  lemma StampTells(k: SecretKey, m: seq<Byte>, k': SecretKey, m': seq<Byte>)
    requires Stamp(k, m) == Stamp(k', m')
    ensures k == k' && m == m'
  {
    assert forall i :: 0 <= i < k ==> Stamp(k, m)[i] == 0;
    assert forall i :: 0 <= i < k' ==> Stamp(k', m')[i] == 0;
    assert Stamp(k, m)[k] == 1 == Stamp(k', m')[k'];
    assert k == k';
    assert m == Stamp(k, m)[k + 1..] && m' == Stamp(k', m')[k' + 1..];
  }

  /** The hypothesis can be met. */
  lemma IdealSchemeExists()
    ensures exists s: Scheme :: Ideal(s)
  {
    var s := Scheme(Stamp, (k: PublicKey, m: seq<Byte>, x: Signature) => x == Stamp(k, m),
                    (k: SecretKey) => k, Spelled, Unspelled,
                    (k: PublicKey) => seq(k, _ => '0'), (t: string) => Some(|t|));
    hide Stamp, Spelled, Unspelled;
    forall x: Signature ensures s.fromHex(s.hex(x)) == Some(x) {
      SpellingLosesNothing(x);
    }
    forall k: SecretKey, k': SecretKey, m: seq<Byte>, m': seq<Byte> | s.sign(k, m) == s.sign(k', m')
      ensures s.publicKey(k) == s.publicKey(k') && m == m'
    {
      StampTells(k, m, k', m');
    }
    forall pk: PublicKey, m: seq<Byte>, x: Signature
      ensures s.verify(pk, m, x) <==> exists k: SecretKey :: s.publicKey(k) == pk && s.sign(k, m) == x
    {
      assert s.publicKey(pk) == pk;
    }
    assert Ideal(s);
  }

  ghost function SignPayload(s: Scheme, payload: Payload, key: SecretKey): string {
    s.hex(s.sign(key, CanonicalBytes(payload)))
  }

  ghost function Signed(s: Scheme, payload: Payload, key: SecretKey): Payload {
    payload["signature" := Str(SignPayload(s, payload, key))]
  }

  ghost predicate VerifyPayload(s: Scheme, payload: Payload, keyHex: string) {
    && "signature" in payload && payload["signature"].Str?
    && s.keyFromHex(keyHex).Some? && s.fromHex(payload["signature"].s).Some?
    && s.verify(s.keyFromHex(keyHex).value, CanonicalBytes(payload), s.fromHex(payload["signature"].s).value)
  }

  /**
   A signature made for one payload verifies on another exactly when the two have
   the same body: tampering is found, reordering and transport fields are not
   tampering.
   */
  lemma VerifiesIffSameBody(s: Scheme, signed: Payload, received: Payload, key: SecretKey)
    requires Ideal(s)
    requires "signature" in received && received["signature"] == Str(SignPayload(s, signed, key))
    ensures VerifyPayload(s, received, s.keyHex(s.publicKey(key))) <==> Body(received) == Body(signed)
  {
    CanonicalIffSameBody(received, signed);
    OwnMessageOnly(s, key, CanonicalBytes(signed), CanonicalBytes(received));
    assert s.fromHex(received["signature"].s) == Some(s.sign(key, CanonicalBytes(signed)));
  }

  /** The field holds, in hexadecimal, what `key` signs on the bytes of the payload. */
  ghost predicate SignedBy(s: Scheme, payload: Payload, key: SecretKey) {
    && "signature" in payload && payload["signature"].Str?
    && s.fromHex(payload["signature"].s) == Some(s.sign(key, CanonicalBytes(payload)))
  }

  /**
   A payload verifies under a key text exactly when some secret key, whose public key
   the text names, made its signature. So an unsigned payload never does, nor one
   whose signature or key text is no hexadecimal, nor under another seller's key.
   */
  lemma VerifiesIffSigned(s: Scheme, payload: Payload, keyHex: string)
    requires Ideal(s)
    ensures VerifyPayload(s, payload, keyHex)
            <==> exists key: SecretKey ::
                   s.keyFromHex(keyHex) == Some(s.publicKey(key)) && SignedBy(s, payload, key)
  {
    hide CanonicalBytes;
    if VerifyPayload(s, payload, keyHex) {
      var pk, x := s.keyFromHex(keyHex).value, s.fromHex(payload["signature"].s).value;
      var key: SecretKey :| s.publicKey(key) == pk && s.sign(key, CanonicalBytes(payload)) == x;
      assert SignedBy(s, payload, key);
    }
  }

  /** Whatever a payload claims, without a text as its signature it does not verify, under any scheme. */
  lemma UnsignedIsRefused(s: Scheme, payload: Payload, keyHex: string)
    requires "signature" in payload ==> !payload["signature"].Str?
    ensures !VerifyPayload(s, payload, keyHex)
  {
  }

  /** A signature speaks for one key only. */
  lemma OtherKeyIsRefused(s: Scheme, payload: Payload, key: SecretKey, keyHex: string)
    requires Ideal(s) && SignedBy(s, payload, key) && s.keyFromHex(keyHex) != Some(s.publicKey(key))
    ensures !VerifyPayload(s, payload, keyHex)
  {
    hide CanonicalBytes;
    VerifiesIffSigned(s, payload, keyHex);
  }

  // ---------------------------------------------------------------- transport

  const SENDER := "_axl_sender_peer_id"
  const FROM := "_axl_from_peer_id"

  /** What `send` posts in gensyn mode: the sender's id is added, and the text is ASCII only. */
  ghost function Wire(message: Payload, selfId: string): seq<Byte> {
    Encode(Print(Obj(message[SENDER := Str(selfId)]), true))
  }

  /** What `/recv` answers: a body, and the header that names the peer it came from. */
  datatype Response = Response(raw: seq<Byte>, fromPeer: Option<string>)

  /**
   What decoding and `json.loads` come to on a body: a value, a `JSONDecodeError`, or
   another exception (no UTF-8, nesting too deep, an integer with too many digits).
   */
  datatype Decoded = Value(v: Json) | NotJson | Raises

  type Reader = seq<Byte> -> Decoded

  /**
   How the interpreter reads bodies is a parameter, except that a printed value is
   read back unless it exceeds the interpreter's limits, and that a body has to be
   UTF-8.
   */
  ghost predicate ReadsBack(read: Reader) {
    && (forall v: Json, ascii: bool ::
          var r := read(Encode(Print(v, ascii)));
          r == Value(v) || r == Raises)
    && (forall raw: seq<Byte> :: Decode(raw).None? ==> read(raw) == Raises)
  }

  function ReadAnything(raw: seq<Byte>): Decoded {
    match Decode(raw)
    case None => Raises
    case Some(text) =>
      match Loads(text)
      case Some(v) => Value(v)
      case None => NotJson
  }

  /** The hypothesis can be met, by a reader without limits. */
  lemma ReaderExists()
    ensures ReadsBack(ReadAnything)
  {
    forall v: Json, ascii: bool ensures ReadAnything(Encode(Print(v, ascii))) == Value(v) {
      DecodeEncoded(Print(v, ascii));
      LoadsDumped(v, ascii);
    }
  }

  datatype Received = Nothing | Inbound(payload: Payload) | PollingEnds

  /**
   What `_poll_gensyn_once` makes of a response. Only objects reach the inbox. The poll
   loop catches a `JSONDecodeError` and retries; any other exception ends it.
   */
  function Receive(read: Reader, r: Response): Received {
    if r.raw == [] then Nothing
    else match read(r.raw)
      case Raises => PollingEnds
      case NotJson => Nothing
      case Value(Obj(fields)) => Inbound(Stamped(fields, r.fromPeer))
      case Value(_) => Nothing
  }

  function Stamped(fields: Payload, fromPeer: Option<string>): Payload {
    if fromPeer.Some? && fromPeer.value != "" then fields[FROM := Str(fromPeer.value)] else fields
  }

  function Delivered(message: Payload, selfId: string, fromPeer: Option<string>): Payload {
    Stamped(message[SENDER := Str(selfId)], fromPeer)
  }

  /** Every payload that the interpreter can read arrives as it was sent, plus the transport's own two fields. */
  lemma TransportDelivers(read: Reader, message: Payload, selfId: string, fromPeer: Option<string>)
    requires ReadsBack(read)
    ensures Receive(read, Response(Wire(message, selfId), fromPeer))
         == if read(Wire(message, selfId)) == Raises then PollingEnds
            else Inbound(Delivered(message, selfId, fromPeer))
  {
    var sent := Obj(message[SENDER := Str(selfId)]);
    PrintedOpens(sent, true);
    assert read(Encode(Print(sent, true))) == Value(sent) || read(Encode(Print(sent, true))) == Raises;
  }

  /** What arrives, key by key: the sender's id, the peer it came from if the node names one, and all else as sent. */
  lemma ArrivesKeyByKey(read: Reader, message: Payload, selfId: string, fromPeer: Option<string>, k: string)
    requires ReadsBack(read) && read(Wire(message, selfId)) != Raises
    ensures var arrived := Receive(read, Response(Wire(message, selfId), fromPeer));
            && arrived.Inbound?
            && (if k == "_axl_from_peer_id" && fromPeer.Some? && fromPeer.value != ""
                then k in arrived.payload && arrived.payload[k] == Str(fromPeer.value)
                else if k == "_axl_sender_peer_id"
                then k in arrived.payload && arrived.payload[k] == Str(selfId)
                else (k in arrived.payload <==> k in message)
                     && (k in message ==> arrived.payload[k] == message[k]))
  {
    TransportDelivers(read, message, selfId, fromPeer);
  }

  /** What goes over the wire is ASCII only, with all keys sorted. */
  lemma WireIsAscii(message: Payload, selfId: string)
    ensures forall i :: 0 <= i < |Wire(message, selfId)| ==> 0x20 <= Wire(message, selfId)[i] <= 0x7E
    ensures Decode(Wire(message, selfId)).Some?
         && LoadsSorted(Decode(Wire(message, selfId)).value) == Some(Obj(message["_axl_sender_peer_id" := Str(selfId)]))
  {
    var sent := Obj(message[SENDER := Str(selfId)]);
    PrintedIsVisible(sent, true);
    PrintedIsSorted(sent, true);
    DecodeEncoded(Print(sent, true));
    AsciiIsItself(Print(sent, true));
  }

  /** What a run of responses puts in the inbox. */
  function Polled(read: Reader, responses: seq<Response>): seq<Payload> {
    if responses == [] then []
    else match Receive(read, responses[0])
      case PollingEnds => []
      case Nothing => Polled(read, responses[1..])
      case Inbound(payload) => [payload] + Polled(read, responses[1..])
  }

  /** No body makes decoding raise anything but a `JSONDecodeError`. */
  predicate NoneRaises(read: Reader, responses: seq<Response>) {
    forall i :: 0 <= i < |responses| ==> responses[i].raw == [] || read(responses[i].raw) != Raises
  }

  lemma {:induction false} PolledSplits(read: Reader, before: seq<Response>, after: seq<Response>)
    ensures Polled(read, before + after)
         == Polled(read, before) + if NoneRaises(read, before) then Polled(read, after) else []
  {
    if before == [] {
      assert before + after == after;
    } else {
      var rest := before[1..];
      assert (before + after)[1..] == rest + after;
      assert before == [before[0]] + rest;
      PolledSplits(read, rest, after);
    }
  }

  /**
   A payload sent reaches the inbox exactly when neither its own body nor one that
   came before it makes decoding raise anything but a `JSONDecodeError`.
   */
  lemma SentIsPolledIff(read: Reader, before: seq<Response>, message: Payload, selfId: string,
                        fromPeer: Option<string>, after: seq<Response>)
    requires ReadsBack(read)
    ensures var sent := Response(Wire(message, selfId), fromPeer);
            Polled(read, before + [sent] + after)
            == Polled(read, before)
               + if NoneRaises(read, before + [sent])
                 then [Delivered(message, selfId, fromPeer)] + Polled(read, after) else []
  {
    hide Receive, Wire, Delivered;
    var sent := Response(Wire(message, selfId), fromPeer);
    TransportDelivers(read, message, selfId, fromPeer);
    PolledSplits(read, before, [sent] + after);
    assert before + [sent] + after == before + ([sent] + after);
    assert ([sent] + after)[1..] == after;
    WireIsNotEmpty(message, selfId);
    assert (before + [sent])[|before|] == sent;
    assert forall i :: 0 <= i < |before| ==> (before + [sent])[i] == before[i];
  }

  lemma WireIsNotEmpty(message: Payload, selfId: string)
    ensures Wire(message, selfId) != []
  {
    PrintedOpens(Obj(message[SENDER := Str(selfId)]), true);
  }

  /** A single body that is no UTF-8 ends the polling: nothing that comes after it is ever received. */
  lemma MalformedEndsPolling(read: Reader, before: seq<Response>, bad: Response, after: seq<Response>)
    requires ReadsBack(read) && Decode(bad.raw).None?
    ensures Polled(read, before + [bad] + after) == Polled(read, before)
  {
    PolledSplits(read, before, [bad] + after);
    assert before + [bad] + after == before + ([bad] + after);
    assert Polled(read, [bad] + after) == [];
  }

  /** Verification does not see the transport: it answers the same before and after, under every key. */
  lemma TransportKeepsVerdict(s: Scheme, read: Reader, message: Payload, selfId: string, fromPeer: Option<string>,
                              keyHex: string)
    requires ReadsBack(read)
    ensures var arrived := Receive(read, Response(Wire(message, selfId), fromPeer));
            arrived.Inbound? ==>
              && Body(arrived.payload) == Body(message)
              && (VerifyPayload(s, arrived.payload, keyHex) <==> VerifyPayload(s, message, keyHex))
  {
    TransportDelivers(read, message, selfId, fromPeer);
    DeliveredKeepsBody(message, selfId, fromPeer);
    CanonicalIffSameBody(Delivered(message, selfId, fromPeer), message);
  }

  lemma DeliveredKeepsBody(message: Payload, selfId: string, fromPeer: Option<string>)
    ensures var arrived := Delivered(message, selfId, fromPeer);
            && Body(arrived) == Body(message)
            && ("signature" in arrived <==> "signature" in message)
            && ("signature" in message ==> arrived["signature"] == message["signature"])
  {
    assert !Covered(SENDER) && !Covered(FROM) && SENDER != "signature" && FROM != "signature";
  }

  /** What is delivered of a message that the owner of `key` signed verifies under its key. */
  lemma DeliveredVerifies(s: Scheme, message: Payload, key: SecretKey, selfId: string, fromPeer: Option<string>)
    requires Ideal(s)
    ensures VerifyPayload(s, Delivered(Signed(s, message, key), selfId, fromPeer), s.keyHex(s.publicKey(key)))
  {
    var signed := Signed(s, message, key);
    assert Body(signed) == Body(message);
    DeliveredKeepsBody(signed, selfId, fromPeer);
    VerifiesIffSameBody(s, message, Delivered(signed, selfId, fromPeer), key);
  }

  /** A payload signed, sent and received verifies under the signer's key. */
  lemma SignedArrivesVerified(s: Scheme, read: Reader, message: Payload, key: SecretKey, selfId: string,
                              fromPeer: Option<string>)
    requires Ideal(s) && ReadsBack(read)
    ensures var raw := Wire(Signed(s, message, key), selfId);
            var arrived := Receive(read, Response(raw, fromPeer));
            if read(raw) == Raises then arrived.PollingEnds?
            else arrived.Inbound? && VerifyPayload(s, arrived.payload, s.keyHex(s.publicKey(key)))
  {
    hide VerifyPayload, Receive, Wire, Ideal, ReadsBack;
    TransportDelivers(read, Signed(s, message, key), selfId, fromPeer);
    DeliveredVerifies(s, message, key, selfId, fromPeer);
  }
}
