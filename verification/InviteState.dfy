/** The signed state that carries a customer invitation through the identity provider. */
module InviteState {
  import opened Text
  import opened Base64Url

  const INVITE_STATE_PREFIX := "sp_invite_v1"

  datatype Payload = Payload(tenantId: string, userId: string, tokenId: string, exp: int)

  /** What `int(...)` makes of the expiry field: an integer, an error that is caught, or an overflow
      that is not. */
  datatype Expiry = At(seconds: int) | NotAnInteger | Infinite

  /** A JSON text as the decoder sees it: each identifier is the text of `str(value or "")`. */
  datatype Body =
    | NotAnObject
    | Object(isInvite: bool, tenantId: string, userId: string, tokenId: string, exp: Expiry)

  /** Printing the fixed-shape JSON body, reading any bytes as JSON (None where UTF-8 or JSON decoding
      fails), and the keyed hash of a body text. */
  type Printer = Payload -> seq<byte>
  type Reader = seq<byte> -> Option<Body>
  type Mac = string -> seq<byte>

  datatype Outcome = Accepted(payload: Payload) | Rejected | Raises

  function BodyOf(p: Payload): Body {
    Object(true, p.tenantId, p.userId, p.tokenId, At(p.exp))
  }

  /** Python's `text.partition(".")`. */
  datatype Parts = Parts(before: string, found: bool, after: string)

  function Partition(text: string): Parts {
    if text == "" then Parts("", false, "")
    else if text[0] == '.' then Parts("", true, text[1..])
    else
      var rest := Partition(text[1..]);
      Parts([text[0]] + rest.before, rest.found, rest.after)
  }

  function BodyText(p: Payload, write: Printer): string {
    Encode(write(p))
  }

  function EncodeInviteState(p: Payload, write: Printer, mac: Mac): string {
    INVITE_STATE_PREFIX + "." + BodyText(p, write) + "." + Encode(mac(BodyText(p, write)))
  }

  function ReadBody(body: Option<Body>, now: int): Outcome {
    if body.None? || body.value.NotAnObject? || !body.value.isInvite then Rejected
    else
      var tenantId, userId, tokenId :=
        Strip(body.value.tenantId), Strip(body.value.userId), Strip(body.value.tokenId);
      match body.value.exp
      case Infinite => Raises
      case NotAnInteger => Rejected
      case At(exp) =>
        if exp <= now then Rejected
        else if tenantId == "" || userId == "" || tokenId == "" then Rejected
        else Accepted(Payload(tenantId, userId, tokenId, exp))
  }

  function DecodeSigned(body: string, signature: string, now: int, read: Reader, mac: Mac): Outcome {
    if body == "" || signature == "" then Rejected
    else if !IsAscii(body) then Raises
    else if !IsAscii(signature) then Rejected
    else if PyDecode(signature) != Some(mac(body)) then Rejected
    else if PyDecode(body).None? then Rejected
    else ReadBody(read(PyDecode(body).value), now)
  }

  function DecodeInviteState(state: Option<string>, now: int, read: Reader, mac: Mac): Outcome {
    if state.None? || state.value == "" then Rejected
    else
      var first := Partition(state.value);
      if first.before != INVITE_STATE_PREFIX || !first.found then Rejected
      else
        var second := Partition(first.after);
        if !second.found then Rejected else DecodeSigned(second.before, second.after, now, read, mac)
  }

  // ---------------------------------------------------------------------------
  // Framing
  // ---------------------------------------------------------------------------

  lemma {:induction false} PartitionLaws(text: string)
    ensures Partition(text).found ==> text == Partition(text).before + "." + Partition(text).after
    ensures '.' !in Partition(text).before
  {
    if text != "" && text[0] != '.' {
      PartitionLaws(text[1..]);
      var rest := Partition(text[1..]);
      if rest.found {
        assert [text[0]] + (rest.before + "." + rest.after) == [text[0]] + rest.before + "." + rest.after;
      }
    }
  }

  lemma {:induction false} PartitionAt(before: string, after: string)
    requires '.' !in before
    ensures Partition(before + "." + after) == Parts(before, true, after)
  {
    var text := before + "." + after;
    if before == "" {
      assert text[1..] == after;
    } else {
      assert text[1..] == before[1..] + "." + after;
      PartitionAt(before[1..], after);
      assert [text[0]] + before[1..] == before;
    }
  }

  lemma UrlTextIsPlain(text: string)
    requires IsUrlText(text)
    ensures IsAscii(text) && '.' !in text
  {
  }

  lemma PrefixHasNoDot()
    ensures '.' !in INVITE_STATE_PREFIX
  {
  }

  /** The three-part frame is read back as it was put together. */
  lemma DecodeFramed(prefix: string, body: string, signature: string, now: int, read: Reader, mac: Mac)
    requires prefix == INVITE_STATE_PREFIX && '.' !in body
    ensures DecodeInviteState(Some(prefix + "." + body + "." + signature), now, read, mac) ==
      DecodeSigned(body, signature, now, read, mac)
  {
    PrefixHasNoDot();
    var state := prefix + "." + body + "." + signature;
    assert state == prefix + "." + (body + "." + signature);
    PartitionAt(prefix, body + "." + signature);
    PartitionAt(body, signature);
  }

  // ---------------------------------------------------------------------------
  // Round trip
  // ---------------------------------------------------------------------------

  ghost predicate Faithful(p: Payload, write: Printer, read: Reader) {
    write(p) != [] && read(write(p)) == Some(BodyOf(p))
  }

  lemma EncodedIsNotEmpty(bytes: seq<byte>)
    requires bytes != []
    ensures Encode(bytes) != ""
  {
    RoundTrip(bytes);
  }

  /** Decoding an encoded payload gives its identifiers stripped, or a refusal: exactly when the
      expiry has passed or an identifier is blank. */
  lemma DecodeOfEncode(p: Payload, now: int, write: Printer, read: Reader, mac: Mac)
    requires Faithful(p, write, read) && |mac(BodyText(p, write))| == 32
    ensures DecodeInviteState(Some(EncodeInviteState(p, write, mac)), now, read, mac) == ReadBody(Some(BodyOf(p)), now)
  {
    var body := BodyText(p, write);
    var signature := Encode(mac(body));
    RoundTrip(write(p));
    RoundTrip(mac(body));
    EncodedIsNotEmpty(write(p));
    EncodedIsNotEmpty(mac(body));
    UrlTextIsPlain(body);
    UrlTextIsPlain(signature);
    DecodeFramed(INVITE_STATE_PREFIX, body, signature, now, read, mac);
  }

  predicate Proper(identifier: string) {
    identifier != "" && Trimmed(identifier, IsSpace)
  }

  /** The payload comes back as it went in exactly when its identifiers are non-empty and trimmed and
      its expiry lies in the future. */
  lemma ComesBackExactly(p: Payload, now: int, write: Printer, read: Reader, mac: Mac)
    requires Faithful(p, write, read) && |mac(BodyText(p, write))| == 32
    ensures DecodeInviteState(Some(EncodeInviteState(p, write, mac)), now, read, mac) == Accepted(p) <==>
      p.exp > now && Proper(p.tenantId) && Proper(p.userId) && Proper(p.tokenId)
  {
    DecodeOfEncode(p, now, write, read, mac);
    TrimLaws(p.tenantId, IsSpace);
    TrimLaws(p.userId, IsSpace);
    TrimLaws(p.tokenId, IsSpace);
  }

  /** A body is accepted exactly when it is an invitation whose expiry lies ahead and whose identifiers,
      stripped, are none of them empty; and as that. */
  lemma ReadExactly(body: Option<Body>, now: int, q: Payload)
    ensures ReadBody(body, now) == Accepted(q) <==>
      && body.Some? && body.value.Object? && body.value.isInvite
      && body.value.exp == At(q.exp) && q.exp > now
      && q.tenantId == Strip(body.value.tenantId) && q.tenantId != ""
      && q.userId == Strip(body.value.userId) && q.userId != ""
      && q.tokenId == Strip(body.value.tokenId) && q.tokenId != ""
  {
  }

  // ---------------------------------------------------------------------------
  // Authenticity
  // ---------------------------------------------------------------------------

  /** A frame whose signature decodes to the keyed hash of its body text. */
  predicate SignedAs(state: string, body: string, signature: string, mac: Mac) {
    && state == INVITE_STATE_PREFIX + "." + body + "." + signature
    && '.' !in body && body != "" && IsAscii(body)
    && signature != "" && IsAscii(signature)
    && PyDecode(signature) == Some(mac(body))
  }

  /** The body text names an unexpired invitation with these identifiers. */
  predicate Names(body: string, now: int, q: Payload, read: Reader) {
    && PyDecode(body).Some?
    && ReadBody(read(PyDecode(body).value), now) == Accepted(q)
  }

  lemma AcceptedIsSigned(state: string, now: int, q: Payload, read: Reader, mac: Mac) returns (body: string, signature: string)
    requires DecodeInviteState(Some(state), now, read, mac) == Accepted(q)
    ensures SignedAs(state, body, signature, mac) && Names(body, now, q, read)
  {
    var first := Partition(state);
    var second := Partition(first.after);
    body, signature := second.before, second.after;
    PartitionLaws(state);
    PartitionLaws(first.after);
    Reframed(first.before, body, signature, first.after);
  }

  lemma Reframed(prefix: string, body: string, signature: string, rest: string)
    requires rest == body + "." + signature
    ensures prefix + "." + rest == prefix + "." + body + "." + signature
  {
  }

  lemma SignedIsAccepted(state: string, body: string, signature: string, now: int, q: Payload, read: Reader, mac: Mac)
    requires SignedAs(state, body, signature, mac) && Names(body, now, q, read)
    ensures DecodeInviteState(Some(state), now, read, mac) == Accepted(q)
  {
    DecodeFramed(INVITE_STATE_PREFIX, body, signature, now, read, mac);
  }

  /** A payload is accepted exactly from a signed frame whose own body names it. */
  lemma AcceptedIffSigned(state: string, now: int, q: Payload, read: Reader, mac: Mac)
    ensures DecodeInviteState(Some(state), now, read, mac) == Accepted(q) <==>
      exists body, signature :: SignedAs(state, body, signature, mac) && Names(body, now, q, read)
  {
    if DecodeInviteState(Some(state), now, read, mac) == Accepted(q) {
      var body, signature := AcceptedIsSigned(state, now, q, read, mac);
    }
    forall body, signature | SignedAs(state, body, signature, mac) && Names(body, now, q, read)
      ensures DecodeInviteState(Some(state), now, read, mac) == Accepted(q)
    {
      SignedIsAccepted(state, body, signature, now, q, read, mac);
    }
  }

  /** Whatever is accepted on the signature of an issued state is the issued payload, stripped: unless
      the keyed hash collides, no other body can be put under it. */
  lemma SignatureFixesPayload(p: Payload, body: string, state: string, now: int, q: Payload,
                              write: Printer, read: Reader, mac: Mac)
    requires Faithful(p, write, read)
    requires mac(body) == mac(BodyText(p, write)) ==> body == BodyText(p, write)
    requires SignedAs(state, body, Encode(mac(BodyText(p, write))), mac)
    requires DecodeInviteState(Some(state), now, read, mac) == Accepted(q)
    ensures q == Payload(Strip(p.tenantId), Strip(p.userId), Strip(p.tokenId), p.exp) && q.exp > now
  {
    var issued := BodyText(p, write);
    RoundTrip(mac(issued));
    RoundTrip(write(p));
    DecodeFramed(INVITE_STATE_PREFIX, body, Encode(mac(issued)), now, read, mac);
  }

  // ---------------------------------------------------------------------------
  // Errors that are not caught
  // ---------------------------------------------------------------------------

  /** The two parts of a frame under the right prefix. */
  predicate Framed(state: string, body: string, signature: string) {
    state == INVITE_STATE_PREFIX + "." + body + "." + signature && '.' !in body
  }

  /** Encoding the body for hashing fails, outside the guarded part; or a signed body has an expiry that
      overflows. */
  predicate BreaksDecoding(body: string, signature: string, read: Reader, mac: Mac) {
    && body != "" && signature != ""
    && (!IsAscii(body) ||
        (&& IsAscii(signature) && PyDecode(signature) == Some(mac(body)) && PyDecode(body).Some?
         && var text := read(PyDecode(body).value);
            text.Some? && text.value.Object? && text.value.isInvite && text.value.exp == Infinite))
  }

  /** Decoding raises exactly on such frames; an unsigned one with a body that is not ASCII is enough. */
  lemma RaisesExactly(state: string, now: int, read: Reader, mac: Mac)
    ensures DecodeInviteState(Some(state), now, read, mac) == Raises <==>
      exists body, signature :: Framed(state, body, signature) && BreaksDecoding(body, signature, read, mac)
  {
    if DecodeInviteState(Some(state), now, read, mac) == Raises {
      var body, signature := RaisedFrame(state, now, read, mac);
    }
    forall body, signature | Framed(state, body, signature) && BreaksDecoding(body, signature, read, mac)
      ensures DecodeInviteState(Some(state), now, read, mac) == Raises
    {
      DecodeFramed(INVITE_STATE_PREFIX, body, signature, now, read, mac);
    }
  }

  lemma RaisedFrame(state: string, now: int, read: Reader, mac: Mac) returns (body: string, signature: string)
    requires DecodeInviteState(Some(state), now, read, mac) == Raises
    ensures Framed(state, body, signature) && BreaksDecoding(body, signature, read, mac)
  {
    var first := Partition(state);
    var second := Partition(first.after);
    body, signature := second.before, second.after;
    PartitionLaws(state);
    PartitionLaws(first.after);
    Reframed(first.before, body, signature, first.after);
  }

  /** The prefix, a body of one accented letter and any signature. */
  lemma AccentedBodyRaises(signature: string, now: int, read: Reader, mac: Mac)
    requires signature != ""
    ensures DecodeInviteState(Some(INVITE_STATE_PREFIX + "." + "\U{00e9}" + "." + signature), now, read, mac) == Raises
  {
    var body := "\U{00e9}";
    assert body[0] as int >= 128;
    DecodeFramed(INVITE_STATE_PREFIX, body, signature, now, read, mac);
  }
}
