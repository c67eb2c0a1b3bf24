/** The browser's half of the base64url codec: the helpers of the login page, around `btoa` and `atob`
    (the forgiving-base64 algorithms of the Infra standard). */
module BrowserBase64 {
  import opened Text
  import opened Base64Url

  // ---------------------------------------------------------------------------
  // Binary strings
  // ---------------------------------------------------------------------------

  /** One character per byte. */
  function Latin1(bytes: seq<byte>): string {
    seq(|bytes|, i requires 0 <= i < |bytes| => bytes[i] as char)
  }

  predicate IsBinary(binary: string) {
    forall i | 0 <= i < |binary| :: binary[i] as int < 256
  }

  function Codes(binary: string): seq<byte>
    requires IsBinary(binary)
  {
    seq(|binary|, i requires 0 <= i < |binary| => binary[i] as byte)
  }

  lemma CodesOfLatin1(bytes: seq<byte>)
    ensures IsBinary(Latin1(bytes)) && Codes(Latin1(bytes)) == bytes
  {
  }

  // ---------------------------------------------------------------------------
  // Replacing characters
  // ---------------------------------------------------------------------------

  /** JavaScript's replacement of every occurrence of a character. */
  function Replaced(text: string, from: char, to: string): string {
    if text == "" then "" else (if text[0] == from then to else [text[0]]) + Replaced(text[1..], from, to)
  }

  lemma {:induction false} ReplacedConcat(a: string, b: string, from: char, to: string)
    ensures Replaced(a + b, from, to) == Replaced(a, from, to) + Replaced(b, from, to)
  {
    if a == "" {
      assert a + b == b;
    } else {
      assert (a + b)[1..] == a[1..] + b;
      ReplacedConcat(a[1..], b, from, to);
    }
  }

  function UrlForm(text: string): string {
    Replaced(Replaced(Replaced(text, '+', "-"), '/', "_"), '=', "")
  }

  function StandardForm(text: string): string {
    Replaced(Replaced(text, '-', "+"), '_', "/")
  }

  lemma UrlFormConcat(a: string, b: string)
    ensures UrlForm(a + b) == UrlForm(a) + UrlForm(b)
  {
    ReplacedConcat(a, b, '+', "-");
    ReplacedConcat(Replaced(a, '+', "-"), Replaced(b, '+', "-"), '/', "_");
    var a2, b2 := Replaced(Replaced(a, '+', "-"), '/', "_"), Replaced(Replaced(b, '+', "-"), '/', "_");
    ReplacedConcat(a2, b2, '=', "");
  }

  /** One character in, one out. */
  function Standard(c: char): char {
    if c == '-' then '+' else if c == '_' then '/' else c
  }

  lemma {:induction false} ReplacedPointwise(text: string, from: char, to: char)
    ensures |Replaced(text, from, [to])| == |text|
    ensures forall i | 0 <= i < |text| :: Replaced(text, from, [to])[i] == if text[i] == from then to else text[i]
  {
    if text != "" {
      ReplacedPointwise(text[1..], from, to);
    }
  }

  lemma StandardPointwise(text: string)
    ensures |StandardForm(text)| == |text|
    ensures forall i | 0 <= i < |text| :: StandardForm(text)[i] == Standard(text[i])
  {
    ReplacedPointwise(text, '-', '+');
    ReplacedPointwise(Replaced(text, '-', "+"), '_', '/');
  }

  // ---------------------------------------------------------------------------
  // btoa and encoding
  // ---------------------------------------------------------------------------

  /** The standard alphabet, with "+" and "/". */
  function StandardSpell(values: seq<Sextet>): string {
    if values == [] then "" else [Standard(Symbol(values[0]))] + StandardSpell(values[1..])
  }

  function Btoa(binary: string): string
    requires IsBinary(binary)
  {
    var values := Split(Codes(binary));
    StandardSpell(values) + Padding(|values|)
  }

  lemma ReplacedOne(c: char, from: char, to: string)
    ensures Replaced([c], from, to) == if c == from then to else [c]
  {
    assert [c][1..] == "";
  }

  lemma UrlFormOfSymbol(v: Sextet)
    ensures UrlForm([Standard(Symbol(v))]) == [Symbol(v)]
  {
    var c := Standard(Symbol(v));
    var c1 := if c == '+' then '-' else c;
    ReplacedOne(c, '+', "-");
    ReplacedOne(c1, '/', "_");
    ReplacedOne(Symbol(v), '=', "");
    assert Replaced([c], '+', "-") == [c1] && Replaced([c1], '/', "_") == [Symbol(v)];
  }

  lemma UrlFormOfPadding(n: nat)
    ensures UrlForm(Padding(n)) == ""
  {
    assert UrlForm("=") == "" by {
      assert "="[1..] == "";
      assert Replaced("=", '+', "-") == "=" && Replaced("=", '/', "_") == "=";
    }
    UrlFormConcat("=", "=");
    UrlFormConcat("==", "=");
    assert "=" + "=" == "==" && "==" + "=" == "===";
  }

  lemma {:induction false} UrlFormOfSpell(values: seq<Sextet>)
    ensures UrlForm(StandardSpell(values)) == Spell(values)
  {
    if values != [] {
      UrlFormOfSpell(values[1..]);
      UrlFormConcat([Standard(Symbol(values[0]))], StandardSpell(values[1..]));
      UrlFormOfSymbol(values[0]);
    }
  }

  /** Builds the binary string byte by byte, then rewrites the output of `btoa`: the browser encodes
      exactly as the server does. */
  method EncodeText(bytes: seq<byte>) returns (text: string)
    ensures text == Encode(bytes)
  {
    var binary := "";
    for i := 0 to |bytes|
      invariant binary == Latin1(bytes[..i])
    {
      binary := binary + [bytes[i] as char];
    }
    assert bytes[..|bytes|] == bytes;
    CodesOfLatin1(bytes);
    text := UrlForm(Btoa(binary));
    var values := Split(bytes);
    UrlFormConcat(StandardSpell(values), Padding(|values|));
    UrlFormOfSpell(values);
    UrlFormOfPadding(|values|);
  }

  // ---------------------------------------------------------------------------
  // atob and decoding
  // ---------------------------------------------------------------------------

  predicate IsAsciiBlank(c: char) {
    c == '\U{0009}' || c == '\U{000a}' || c == '\U{000c}' || c == '\U{000d}' || c == ' '
  }

  function WithoutBlanks(text: string): string {
    if text == "" then "" else (if IsAsciiBlank(text[0]) then "" else [text[0]]) + WithoutBlanks(text[1..])
  }

  /** At most two pad characters are dropped, and only from a text of whole groups. */
  function WithoutPads(text: string): string {
    if |text| % 4 != 0 || !EndsWith(text, "=") then text
    else if EndsWith(text, "==") then text[..|text| - 2]
    else text[..|text| - 1]
  }

  predicate AllStandard(text: string) {
    AllValued(text) && '-' !in text && '_' !in text
  }

  /** The binary string, or None where the browser throws. */
  function Atob(text: string): Option<string> {
    var symbols := WithoutPads(WithoutBlanks(text));
    if |symbols| % 4 == 1 || !AllStandard(symbols) then None
    else
      var bytes := Join(ValuesOf(symbols));
      if bytes.None? then None else Some(Latin1(bytes.value))
  }

  function Padded(text: string): string {
    StandardForm(text) + Padding(|StandardForm(text)|)
  }

  /** The bytes of the binary string, or None where decoding throws. */
  function JsDecode(text: string): Option<seq<byte>> {
    var binary := Atob(Padded(text));
    if binary.None? || !IsBinary(binary.value) then None else Some(Codes(binary.value))
  }

  /** Fills the byte array from the binary string that `atob` returns. */
  method DecodeText(text: string) returns (decoded: Option<seq<byte>>)
    ensures decoded == JsDecode(text)
  {
    var binary := Atob(Padded(text));
    if binary.None? {
      return None;
    }
    AtobIsBinary(Padded(text));
    var bytes := new byte[|binary.value|];
    var index := 0;
    while index < |binary.value|
      invariant 0 <= index <= bytes.Length
      invariant forall k | 0 <= k < index :: bytes[k] == binary.value[k] as byte
    {
      bytes[index] := binary.value[index] as byte;
      index := index + 1;
    }
    assert bytes[..] == Codes(binary.value);
    decoded := Some(bytes[..]);
  }

  lemma AtobIsBinary(text: string)
    ensures Atob(text).Some? ==> IsBinary(Atob(text).value)
  {
  }

  // ---------------------------------------------------------------------------
  // What the browser accepts
  // ---------------------------------------------------------------------------

  /** Free of white space and of pad characters of its own. */
  predicate Plain(text: string) {
    forall i | 0 <= i < |text| :: !IsAsciiBlank(text[i]) && text[i] != '='
  }

  lemma {:induction false} PlainKeepsAll(text: string)
    requires forall i | 0 <= i < |text| :: !IsAsciiBlank(text[i])
    ensures WithoutBlanks(text) == text
  {
    if text != "" {
      PlainKeepsAll(text[1..]);
    }
  }

  lemma PadEndings(text: string)
    ensures EndsWith(text, "=") <==> text != "" && text[|text| - 1] == '='
    ensures EndsWith(text, "==") <==> |text| >= 2 && text[|text| - 1] == '=' && text[|text| - 2] == '='
  {
    if text != "" && text[|text| - 1] == '=' {
      assert text[|text| - 1..] == "=";
      if |text| >= 2 && text[|text| - 2] == '=' {
        assert text[|text| - 2..] == "==";
      }
    }
  }

  lemma NoPads(text: string)
    requires Plain(text)
    ensures WithoutPads(text) == text
  {
    PadEndings(text);
  }

  lemma OnePad(text: string)
    requires Plain(text) && |text| % 4 == 3
    ensures WithoutPads(text + "=") == text
  {
    PadEndings(text + "=");
  }

  lemma TwoPads(text: string)
    requires |text| % 4 == 2
    ensures WithoutPads(text + "==") == text
  {
    PadEndings(text + "==");
  }

  lemma PadsAreDropped(text: string)
    requires Plain(text) && |text| % 4 != 1
    ensures WithoutPads(WithoutBlanks(text + Padding(|text|))) == text
  {
    PlainKeepsAll(text + Padding(|text|));
    if |text| % 4 == 0 {
      assert text + Padding(|text|) == text;
      NoPads(text);
    } else if |text| % 4 == 2 {
      TwoPads(text);
    } else {
      OnePad(text);
    }
  }

  /** A lone last symbol leaves three pads, one too many. */
  lemma LonePadStays(text: string)
    requires Plain(text) && |text| % 4 == 1
    ensures Atob(text + Padding(|text|)).None?
  {
    var padded := text + Padding(|text|);
    PlainKeepsAll(padded);
    assert EndsWith(padded, "==") && EndsWith(padded, "=");
    var symbols := WithoutPads(padded);
    assert symbols == text + "=";
    assert symbols[|text|] == '=' && Value('=').None?;
  }

  lemma NonePrefixed(group: seq<byte>, rest: Option<seq<byte>>)
    requires rest.None?
    ensures Prefixed(group, rest).None?
  {
  }

  lemma JoinOfOneSextet(vs: seq<Sextet>)
    requires |vs| == 1
    ensures Join(vs).None?
  {
  }

  lemma {:induction false} JoinOfLoneSextet(vs: seq<Sextet>)
    requires |vs| % 4 == 1
    ensures Join(vs).None?
    decreases |vs|
  {
    if |vs| > 1 {
      var rest := vs[4..];
      JoinOfLoneSextet(rest);
      JoinStep(vs, rest);
      NonePrefixed(FullGroup(vs), Join(rest));
    } else {
      JoinOfOneSextet(vs);
    }
  }

  lemma {:induction false} SameValues(a: string, b: string)
    requires |a| == |b| && forall i | 0 <= i < |a| :: Value(a[i]) == Value(b[i])
    requires AllValued(a)
    ensures AllValued(b) && ValuesOf(a) == ValuesOf(b) && |ValuesOf(a)| == |a|
  {
    if a != "" {
      assert forall i | 0 <= i < |b| :: Value(b[i]) == Value(a[i]);
      SameValues(a[1..], b[1..]);
    }
  }

  lemma StandardFormLaws(text: string)
    ensures Plain(text) ==> Plain(StandardForm(text))
    ensures AllValued(text) <==> AllStandard(StandardForm(text))
    ensures AllValued(text) ==> ValuesOf(StandardForm(text)) == ValuesOf(text) && |ValuesOf(text)| == |text|
  {
    StandardPointwise(text);
    var standard := StandardForm(text);
    assert forall i | 0 <= i < |text| :: Value(standard[i]) == Value(text[i]);
    if AllValued(text) {
      SameValues(text, standard);
    }
  }

  /** On every text without white space or pads, the browser accepts exactly the texts of symbols that
      split into groups, and returns their bytes. */
  lemma JsDecodeIsStrict(text: string)
    requires Plain(text)
    ensures JsDecode(text) == if AllValued(text) then Join(ValuesOf(text)) else None
  {
    var standard := StandardForm(text);
    StandardPointwise(text);
    StandardFormLaws(text);
    if |text| % 4 == 1 {
      LonePadStays(standard);
      if AllValued(text) {
        JoinOfLoneSextet(ValuesOf(text));
      }
    } else {
      PadsAreDropped(standard);
      if AllValued(text) && Join(ValuesOf(text)).Some? {
        CodesOfLatin1(Join(ValuesOf(text)).value);
      }
    }
  }

  /** On every text of symbols, valid or not, the server's decoder and the browser's give the same
      answer, including which texts they refuse. */
  lemma DecodersAgree(text: string)
    requires AllValued(text)
    ensures PyDecode(text) == JsDecode(text)
  {
    assert Plain(text) by {
      forall i | 0 <= i < |text| ensures !IsAsciiBlank(text[i]) && text[i] != '=' {
        assert Value(text[i]).Some?;
      }
    }
    JsDecodeIsStrict(text);
    PyDecodeOfSymbols(text);
  }

  lemma {:induction false} JoinOfCompleted(vs: seq<Sextet>)
    requires |vs| % 4 != 1
    ensures Join(vs).Some?
    decreases |vs|
  {
    if |vs| >= 4 {
      JoinOfCompleted(vs[4..]);
      JoinStep(vs, vs[4..]);
    }
  }

  /** On every other ASCII text without white space or pads, the browser throws, and the server's decoder
      accepts exactly when the symbols in it are completed by the pads of the whole. */
  lemma DecodersDiffer(text: string)
    requires Plain(text) && IsAscii(text) && !AllValued(text)
    ensures JsDecode(text).None?
    ensures PyDecode(text).Some? <==> Completes(|SymbolValues(text)|, PadCount(|text|))
  {
    JsDecodeIsStrict(text);
    PyDecodeIsLenient(text);
    if |SymbolValues(text)| % 4 != 1 {
      JoinOfCompleted(SymbolValues(text));
    }
  }

  /** Such as one exclamation mark: no bytes to the server, an error to the browser. */
  lemma ExclamationDiffers()
    ensures PyDecode("!") == Some([]) && JsDecode("!").None?
  {
    assert "!"[0] == '!' && "!"[1..] == "" && Value('!').None?;
    assert SymbolValues("!") == [];
    PyDecodeIsLenient("!");
    DecodersDiffer("!");
  }

  /** The browser reads back whatever either side encoded. */
  lemma BrowserRoundTrip(bytes: seq<byte>)
    ensures JsDecode(Encode(bytes)) == Some(bytes)
  {
    RoundTrip(bytes);
    SpellLaws(Split(bytes));
    DecodersAgree(Encode(bytes));
  }
}
