/** The `state` parameter of the browser's login flow: a plain CSRF state, or one wrapped together with
    an invite state. */
module OidcState {
  import opened Text
  import opened Base64Url
  import opened BrowserBase64

  const OIDC_STATE_PREFIX := "sp_oidc_v1"

  /** What is wrapped; fields that are not strings are read as the empty string. */
  datatype Wrapped = Wrapped(csrfState: string, inviteState: string)

  /** `JSON.stringify` to UTF-8 bytes, and `JSON.parse` of any bytes (None where it throws). */
  type Printer = Wrapped -> seq<byte>
  type Reader = seq<byte> -> Option<Wrapped>

  datatype Outcome = Parsed(csrfState: string, inviteState: Option<string>) | Throws

  /** White space as JavaScript's `trim` sees it. */
  predicate IsJsSpace(c: char) {
    || '\U{0009}' <= c <= '\U{000d}' || c == ' ' || c == '\U{00a0}' || c == '\U{1680}'
    || '\U{2000}' <= c <= '\U{200a}' || c == '\U{2028}' || c == '\U{2029}' || c == '\U{202f}' || c == '\U{205f}'
    || c == '\U{3000}' || c == '\U{feff}'
  }

  function JsTrim(text: string): string {
    Trim(text, IsJsSpace)
  }

  function OrEmpty(text: Option<string>): string {
    if text.Some? then text.value else ""
  }

  function BuildOidcState(csrfState: string, inviteState: Option<string>, write: Printer): string {
    var csrf, invite := JsTrim(csrfState), JsTrim(OrEmpty(inviteState));
    if invite == "" then csrf
    else OIDC_STATE_PREFIX + "." + Encode(write(Wrapped(csrf, invite)))
  }

  function ParseWrapped(encoded: string, read: Reader): Outcome {
    var bytes := JsDecode(encoded);
    if bytes.None? || read(bytes.value).None? then Throws
    else
      var payload := read(bytes.value).value;
      var csrf, invite := JsTrim(payload.csrfState), JsTrim(payload.inviteState);
      if csrf == "" || invite == "" then Throws else Parsed(csrf, Some(invite))
  }

  function ParseOidcState(state: string, read: Reader): Outcome {
    var trimmed := JsTrim(state);
    if !StartsWith(trimmed, OIDC_STATE_PREFIX + ".") then Parsed(trimmed, None)
    else ParseWrapped(trimmed[|OIDC_STATE_PREFIX| + 1..], read)
  }

  // ---------------------------------------------------------------------------
  // Round trip
  // ---------------------------------------------------------------------------

  ghost predicate Faithful(write: Printer, read: Reader) {
    forall w :: write(w) != [] && read(write(w)) == Some(w)
  }

  /** What was put in, trimmed, an absent or blank invite state being no invite state. */
  function Meant(csrfState: string, inviteState: Option<string>): Outcome {
    var invite := JsTrim(OrEmpty(inviteState));
    Parsed(JsTrim(csrfState), if invite == "" then None else Some(invite))
  }

  lemma TrimIsIdempotent(text: string)
    ensures JsTrim(JsTrim(text)) == JsTrim(text)
  {
    TrimLaws(text, IsJsSpace);
    TrimLaws(JsTrim(text), IsJsSpace);
  }

  /** A text between blanks. */
  predicate Around(text: string, left: string, core: string, right: string) {
    && text == left + core + right
    && AllBlank(left, IsJsSpace) && AllBlank(right, IsJsSpace) && Trimmed(core, IsJsSpace)
  }

  /** The blanks around a CSRF state and an invite state are not built in. */
  lemma BuildTrims(csrf: string, l1: string, c: string, r1: string, invite: string, l2: string, i: string, r2: string,
                   write: Printer)
    requires Around(csrf, l1, c, r1) && Around(invite, l2, i, r2)
    ensures BuildOidcState(csrf, None, write) == c
    ensures BuildOidcState(csrf, Some(invite), write) ==
      if i == "" then c else OIDC_STATE_PREFIX + "." + Encode(write(Wrapped(c, i)))
  {
    TrimFindsTheMiddle(l1, c, r1, IsJsSpace);
    TrimFindsTheMiddle(l2, i, r2, IsJsSpace);
    TrimmedStays("", IsJsSpace);
  }

  /** Nor are those around a state parsed, or around what is wrapped in it. */
  lemma ParseTrims(state: string, l: string, s: string, r: string, read: Reader)
    requires Around(state, l, s, r)
    ensures ParseOidcState(state, read) == ParseOidcState(s, read)
    ensures !StartsWith(s, OIDC_STATE_PREFIX + ".") ==> ParseOidcState(state, read) == Parsed(s, None)
  {
    TrimFindsTheMiddle(l, s, r, IsJsSpace);
    TrimmedStays(s, IsJsSpace);
  }

  lemma WrappedTrims(encoded: string, bytes: seq<byte>, w: Wrapped, l1: string, c: string, r1: string,
                     l2: string, i: string, r2: string, read: Reader)
    requires JsDecode(encoded) == Some(bytes) && read(bytes) == Some(w)
    requires Around(w.csrfState, l1, c, r1) && Around(w.inviteState, l2, i, r2)
    ensures ParseWrapped(encoded, read) == if c == "" || i == "" then Throws else Parsed(c, Some(i))
  {
    TrimFindsTheMiddle(l1, c, r1, IsJsSpace);
    TrimFindsTheMiddle(l2, i, r2, IsJsSpace);
  }

  lemma PrefixIsTrimmed()
    ensures OIDC_STATE_PREFIX != "" && !IsJsSpace(OIDC_STATE_PREFIX[0])
  {
  }

  lemma UrlCharIsNotSpace(text: string, i: nat)
    requires IsUrlText(text) && i < |text|
    ensures !IsJsSpace(text[i])
  {
  }

  /** A wrapped state survives trimming and is taken apart at its prefix. */
  lemma ParseOfFramed(prefix: string, encoded: string, read: Reader)
    requires prefix == OIDC_STATE_PREFIX && encoded != "" && IsUrlText(encoded)
    ensures ParseOidcState(prefix + "." + encoded, read) == ParseWrapped(encoded, read)
  {
    var state := prefix + "." + encoded;
    PrefixIsTrimmed();
    UrlCharIsNotSpace(encoded, |encoded| - 1);
    assert state[0] == prefix[0] && state[|state| - 1] == encoded[|encoded| - 1];
    TrimLaws(state, IsJsSpace);
    assert state == (prefix + ".") + encoded;
    assert state[|prefix| + 1..] == encoded;
  }

  lemma ParseOfWrapped(csrf: string, invite: string, write: Printer, read: Reader)
    requires Faithful(write, read) && JsTrim(csrf) == csrf && JsTrim(invite) == invite
    ensures ParseOidcState(OIDC_STATE_PREFIX + "." + Encode(write(Wrapped(csrf, invite))), read) ==
      if csrf == "" || invite == "" then Throws else Parsed(csrf, Some(invite))
  {
    var bytes := write(Wrapped(csrf, invite));
    RoundTrip(bytes);
    BrowserRoundTrip(bytes);
    ParseOfFramed(OIDC_STATE_PREFIX, Encode(bytes), read);
  }

  /** Exactly which pairs survive the trip: with an invite state, those with a CSRF state that is not
      blank; without one, those whose CSRF state does not itself look wrapped. */
  predicate Survives(csrfState: string, inviteState: Option<string>) {
    var csrf, invite := JsTrim(csrfState), JsTrim(OrEmpty(inviteState));
    if invite == "" then !StartsWith(csrf, OIDC_STATE_PREFIX + ".") else csrf != ""
  }

  lemma WrappedHasInvite(encoded: string, read: Reader)
    ensures ParseWrapped(encoded, read).Parsed? ==> ParseWrapped(encoded, read).inviteState.Some?
  {
  }

  lemma ParseOfBuild(csrfState: string, inviteState: Option<string>, write: Printer, read: Reader)
    requires Faithful(write, read)
    ensures ParseOidcState(BuildOidcState(csrfState, inviteState, write), read) == Meant(csrfState, inviteState) <==>
      Survives(csrfState, inviteState)
  {
    var csrf, invite := JsTrim(csrfState), JsTrim(OrEmpty(inviteState));
    TrimIsIdempotent(csrfState);
    TrimIsIdempotent(OrEmpty(inviteState));
    if invite == "" {
      if StartsWith(csrf, OIDC_STATE_PREFIX + ".") {
        WrappedHasInvite(csrf[|OIDC_STATE_PREFIX| + 1..], read);
      }
    } else {
      ParseOfWrapped(csrf, invite, write, read);
    }
  }

  /** No plain state is mistaken for a wrapped one, nor one pair for another: equal states were built
      from inputs that mean the same. */
  lemma BuildIsInjective(csrf1: string, invite1: Option<string>, csrf2: string, invite2: Option<string>,
                         write: Printer, read: Reader)
    requires Faithful(write, read) && Survives(csrf1, invite1) && Survives(csrf2, invite2)
    requires BuildOidcState(csrf1, invite1, write) == BuildOidcState(csrf2, invite2, write)
    ensures Meant(csrf1, invite1) == Meant(csrf2, invite2)
  {
    ParseOfBuild(csrf1, invite1, write, read);
    ParseOfBuild(csrf2, invite2, write, read);
  }

  // ---------------------------------------------------------------------------
  // Inputs that do not survive
  // ---------------------------------------------------------------------------

  lemma LookalikeText(prefix: string)
    requires prefix == OIDC_STATE_PREFIX
    ensures JsTrim(prefix + ".x") == prefix + ".x"
    ensures StartsWith(prefix + ".x", prefix + ".") && (prefix + ".x")[|prefix| + 1..] == "x"
  {
    var text := prefix + ".x";
    PrefixIsTrimmed();
    assert text[0] == prefix[0] && text[|text| - 1] == 'x';
    TrimLaws(text, IsJsSpace);
    assert text == (prefix + ".") + "x";
  }

  lemma LoneSymbol()
    ensures JsDecode("x") == None
  {
    assert Plain("x") && AllValued("x");
    JsDecodeIsStrict("x");
    assert |ValuesOf("x")| == 1 by { TokensOfSymbols("x"); }
  }

  /** The plain state "sp_oidc_v1.x" is built as it is, taken for a wrapped one, and refused. */
  lemma LookalikeIsRefused(write: Printer, read: Reader)
    ensures BuildOidcState(OIDC_STATE_PREFIX + ".x", None, write) == OIDC_STATE_PREFIX + ".x"
    ensures ParseOidcState(OIDC_STATE_PREFIX + ".x", read) == Throws
  {
    LookalikeText(OIDC_STATE_PREFIX);
    LoneSymbol();
  }

  /** A blank CSRF state is wrapped with an invite state, and then refused. */
  lemma BlankIsRefused(write: Printer, read: Reader)
    requires Faithful(write, read)
    ensures ParseOidcState(BuildOidcState(" ", Some("i"), write), read) == Throws
  {
    assert JsTrim(" ") == "" && JsTrim("i") == "i";
    TrimIsIdempotent(" ");
    ParseOfWrapped("", "i", write, read);
  }
}
