/** Base64 with the URL alphabet and no padding (section 5 of RFC 4648): the encoder, and the server's
    lenient decoder. */
module Base64Url {
  import opened Text

  /** Six bits: the value of one symbol. */
  type Sextet = n: nat | n < 64

  // ---------------------------------------------------------------------------
  // Alphabet
  // ---------------------------------------------------------------------------

  function Symbol(v: Sextet): char {
    if v < 26 then ('A' as int + v) as char
    else if v < 52 then ('a' as int + v - 26) as char
    else if v < 62 then ('0' as int + v - 52) as char
    else if v == 62 then '-' else '_'
  }

  /** The value of a symbol; "-" and "_" are translated to "+" and "/" before decoding, and those are
      accepted as they are. */
  function Value(c: char): Option<Sextet> {
    if 'A' <= c <= 'Z' then Some(c as int - 'A' as int)
    else if 'a' <= c <= 'z' then Some(c as int - 'a' as int + 26)
    else if '0' <= c <= '9' then Some(c as int - '0' as int + 52)
    else if c == '-' || c == '+' then Some(62)
    else if c == '_' || c == '/' then Some(63)
    else None
  }

  predicate IsUrlText(text: string) {
    forall i | 0 <= i < |text| :: 'A' <= text[i] <= 'Z' || 'a' <= text[i] <= 'z' || '0' <= text[i] <= '9' ||
      text[i] == '-' || text[i] == '_'
  }

  function Spell(values: seq<Sextet>): string {
    if values == [] then "" else [Symbol(values[0])] + Spell(values[1..])
  }

  predicate AllValued(text: string) {
    forall i | 0 <= i < |text| :: Value(text[i]).Some?
  }

  function ValuesOf(text: string): seq<Sextet>
    requires AllValued(text)
  {
    if text == "" then [] else [Value(text[0]).value] + ValuesOf(text[1..])
  }

  lemma SymbolValue(v: Sextet)
    ensures Value(Symbol(v)) == Some(v) && IsUrlText([Symbol(v)])
  {
  }

  lemma {:induction false} SpellLaws(values: seq<Sextet>)
    ensures |Spell(values)| == |values| && IsUrlText(Spell(values))
    ensures AllValued(Spell(values)) && ValuesOf(Spell(values)) == values
  {
    if values != [] {
      SymbolValue(values[0]);
      SpellLaws(values[1..]);
      var text := Spell(values);
      assert text[1..] == Spell(values[1..]);
      assert forall i | 0 < i < |text| :: text[i] == text[1..][i - 1];
      assert IsUrlText([text[0]]) && [text[0]][0] == text[0];
    }
  }

  // ---------------------------------------------------------------------------
  // Groups: three bytes are four sextets, and a short last group is not padded
  // ---------------------------------------------------------------------------

  function Split(bytes: seq<byte>): seq<Sextet> {
    if bytes == [] then []
    else
      var a := bytes[0] as nat;
      if |bytes| == 1 then [a / 4, a % 4 * 16]
      else
        var b := bytes[1] as nat;
        if |bytes| == 2 then [a / 4, a % 4 * 16 + b / 16, b % 16 * 4]
        else
          var c := bytes[2] as nat;
          [a / 4, a % 4 * 16 + b / 16, b % 16 * 4 + c / 64, c % 64] + Split(bytes[3..])
  }

  function Byte0(v0: Sextet, v1: Sextet): byte {
    (v0 * 4 + v1 / 16) as byte
  }

  function Byte1(v1: Sextet, v2: Sextet): byte {
    (v1 % 16 * 16 + v2 / 4) as byte
  }

  function Byte2(v2: Sextet, v3: Sextet): byte {
    (v2 % 4 * 64 + v3) as byte
  }

  /** The bytes decoded before, followed by those of the rest. */
  function Prefixed(output: seq<byte>, rest: Option<seq<byte>>): Option<seq<byte>> {
    if rest.None? then None else Some(output + rest.value)
  }

  /** Decodes sextets in groups of four; a last group of one is refused, and the unused bits of a short
      last group are dropped. */
  function Join(vs: seq<Sextet>): Option<seq<byte>> {
    if vs == [] then Some([])
    else if |vs| == 1 then None
    else if |vs| == 2 then Some([Byte0(vs[0], vs[1])])
    else if |vs| == 3 then Some([Byte0(vs[0], vs[1]), Byte1(vs[1], vs[2])])
    else Prefixed(FullGroup(vs), Join(vs[4..]))
  }

  function FullGroup(vs: seq<Sextet>): seq<byte>
    requires |vs| >= 4
  {
    [Byte0(vs[0], vs[1]), Byte1(vs[1], vs[2]), Byte2(vs[2], vs[3])]
  }

  lemma GroupRoundTrip(a: nat, b: nat, c: nat)
    requires a < 256 && b < 256 && c < 256
    ensures Byte0(a / 4, a % 4 * 16 + b / 16) == a as byte
    ensures Byte1(a % 4 * 16 + b / 16, b % 16 * 4 + c / 64) == b as byte
    ensures Byte2(b % 16 * 4 + c / 64, c % 64) == c as byte
  {
  }

  lemma OneByte(a: nat)
    requires a < 256
    ensures Byte0(a / 4, a % 4 * 16) == a as byte
  {
  }

  lemma TwoBytes(a: nat, b: nat)
    requires a < 256 && b < 256
    ensures Byte0(a / 4, a % 4 * 16 + b / 16) == a as byte
    ensures Byte1(a % 4 * 16 + b / 16, b % 16 * 4) == b as byte
  {
  }

  lemma JoinShort(vs: seq<Sextet>)
    requires 2 <= |vs| <= 3
    ensures Join(vs) == Some(if |vs| == 2 then [Byte0(vs[0], vs[1])] else [Byte0(vs[0], vs[1]), Byte1(vs[1], vs[2])])
  {
  }

  lemma JoinOfOne(a: byte)
    ensures Join(Split([a])) == Some([a])
  {
    OneByte(a as nat);
    JoinShort(Split([a]));
  }

  lemma JoinOfTwo(a: byte, b: byte)
    ensures Join(Split([a, b])) == Some([a, b])
  {
    TwoBytes(a as nat, b as nat);
    JoinShort(Split([a, b]));
  }

  lemma JoinStep(vs: seq<Sextet>, rest: seq<Sextet>)
    requires |vs| >= 4 && rest == vs[4..]
    ensures Join(vs) == Prefixed(FullGroup(vs), Join(rest))
  {
  }

  lemma PrefixedWhole(group: seq<byte>, rest: Option<seq<byte>>, bytes: seq<byte>)
    requires |bytes| > 2 && group == bytes[..3] && rest == Some(bytes[3..])
    ensures Prefixed(group, rest) == Some(bytes)
  {
    assert bytes == bytes[..3] + bytes[3..];
  }

  lemma {:induction false} JoinOfSplit(bytes: seq<byte>)
    ensures Join(Split(bytes)) == Some(bytes)
    decreases |bytes|
  {
    if |bytes| == 1 {
      JoinOfOne(bytes[0]);
      assert bytes == [bytes[0]];
    } else if |bytes| == 2 {
      JoinOfTwo(bytes[0], bytes[1]);
      assert bytes == [bytes[0], bytes[1]];
    } else if |bytes| > 2 {
      JoinOfSplit(bytes[3..]);
      SplitFront(bytes);
      JoinStep(Split(bytes), Split(bytes[3..]));
      PrefixedWhole(bytes[..3], Join(Split(bytes[3..])), bytes);
    }
  }

  /** The four sextets of three bytes. */
  function Group(a: nat, b: nat, c: nat): seq<Sextet>
    requires a < 256 && b < 256 && c < 256
  {
    [a / 4, a % 4 * 16 + b / 16, b % 16 * 4 + c / 64, c % 64]
  }

  lemma GroupIsRead(a: nat, b: nat, c: nat, rest: seq<Sextet>)
    requires a < 256 && b < 256 && c < 256
    ensures FullGroup(Group(a, b, c) + rest) == [a as byte, b as byte, c as byte]
    ensures (Group(a, b, c) + rest)[4..] == rest
  {
    GroupRoundTrip(a, b, c);
  }

  lemma SplitGroup(bytes: seq<byte>)
    requires |bytes| > 2
    ensures Split(bytes) == Group(bytes[0] as nat, bytes[1] as nat, bytes[2] as nat) + Split(bytes[3..])
  {
  }

  lemma SplitFront(bytes: seq<byte>)
    requires |bytes| > 2
    ensures |Split(bytes)| >= 4 && FullGroup(Split(bytes)) == bytes[..3] && Split(bytes)[4..] == Split(bytes[3..])
  {
    SplitGroup(bytes);
    GroupIsRead(bytes[0] as nat, bytes[1] as nat, bytes[2] as nat, Split(bytes[3..]));
    assert bytes[..3] == [bytes[0], bytes[1], bytes[2]];
  }

  lemma {:induction false} SplitLength(bytes: seq<byte>)
    ensures |Split(bytes)| == (4 * |bytes| + 2) / 3
  {
    if |bytes| > 2 {
      SplitLength(bytes[3..]);
    }
  }

  function Encode(bytes: seq<byte>): string {
    Spell(Split(bytes))
  }

  /** The alphabet of section 5 of RFC 4648: capitals, small letters, digits, then dash and underscore. */
  lemma AlphabetIs(v: Sextet)
    ensures Symbol(0) == 'A' && Symbol(25) == 'Z' && Symbol(26) == 'a' && Symbol(51) == 'z'
    ensures Symbol(52) == '0' && Symbol(61) == '9' && Symbol(62) == '-' && Symbol(63) == '_'
    ensures v < 61 && v != 25 && v != 51 ==> Symbol(v + 1) as int == Symbol(v) as int + 1
  {
  }

  /** Three bytes, read as one number of 24 bits, are written as its four digits in base 64. */
  lemma EncodeOfGroup(a: byte, b: byte, c: byte, rest: seq<byte>) returns (v0: Sextet, v1: Sextet, v2: Sextet, v3: Sextet)
    ensures a as nat * 65536 + b as nat * 256 + c as nat == v0 * 262144 + v1 * 4096 + v2 * 64 + v3
    ensures Encode([a, b, c] + rest) == [Symbol(v0), Symbol(v1), Symbol(v2), Symbol(v3)] + Encode(rest)
  {
    var bytes := [a, b, c] + rest;
    assert bytes[3..] == rest;
    SplitGroup(bytes);
    var group := Group(a as nat, b as nat, c as nat);
    v0, v1, v2, v3 := group[0], group[1], group[2], group[3];
    SpellConcat(group, Split(rest));
    SpellFour(group);
  }

  /** A last byte, or two, as the digits of its number followed by zero bits; nothing is padded. */
  lemma EncodeOfEnd(a: byte, b: byte) returns (one: seq<Sextet>, two: seq<Sextet>)
    ensures Encode([]) == ""
    ensures |one| == 2 && a as nat * 16 == one[0] as nat * 64 + one[1] as nat
    ensures Encode([a]) == [Symbol(one[0]), Symbol(one[1])]
    ensures |two| == 3 && (a as nat * 256 + b as nat) * 4 == two[0] as nat * 4096 + two[1] as nat * 64 + two[2] as nat
    ensures Encode([a, b]) == [Symbol(two[0]), Symbol(two[1]), Symbol(two[2])]
  {
    one, two := Split([a]), Split([a, b]);
    SpellShort(one);
    SpellShort(two);
  }

  lemma {:induction false} SpellConcat(a: seq<Sextet>, b: seq<Sextet>)
    ensures Spell(a + b) == Spell(a) + Spell(b)
  {
    if a == [] {
      assert a + b == b;
    } else {
      assert (a + b)[1..] == a[1..] + b;
      SpellConcat(a[1..], b);
    }
  }

  lemma {:induction false} SpellAt(values: seq<Sextet>, i: nat)
    requires i < |values|
    ensures |Spell(values)| == |values| && Spell(values)[i] == Symbol(values[i])
  {
    SpellLaws(values);
    SpellLaws(values[1..]);
    if i > 0 {
      SpellAt(values[1..], i - 1);
    }
  }

  lemma SpellFour(vs: seq<Sextet>)
    requires |vs| == 4
    ensures Spell(vs) == [Symbol(vs[0]), Symbol(vs[1]), Symbol(vs[2]), Symbol(vs[3])]
  {
    SpellAt(vs, 0);
    SpellAt(vs, 1);
    SpellAt(vs, 2);
    SpellAt(vs, 3);
  }

  lemma SpellShort(vs: seq<Sextet>)
    requires 2 <= |vs| <= 3
    ensures Spell(vs) == [Symbol(vs[0]), Symbol(vs[1])] + if |vs| == 3 then [Symbol(vs[2])] else ""
  {
    SpellAt(vs, 0);
    SpellAt(vs, 1);
    if |vs| == 3 {
      SpellAt(vs, 2);
    }
  }

  // ---------------------------------------------------------------------------
  // The lenient decoder of Python: one character at a time
  // ---------------------------------------------------------------------------

  datatype Token = Sym(v: Sextet) | Pad

  /** Characters outside the alphabet are skipped. */
  function Tokens(text: string): seq<Token> {
    if text == "" then []
    else
      (if text[0] == '=' then [Pad] else if Value(text[0]).Some? then [Sym(Value(text[0]).value)] else []) +
      Tokens(text[1..])
  }

  /** How many symbols of the group have been read, the last one, how many pads in a row since, and the
      bytes produced; or stopped by padding, after which nothing is read. */
  datatype Machine =
    | Reading(position: nat, last: Sextet, pads: nat, output: seq<byte>)
    | Stopped(output: seq<byte>)

  function Feed(m: Machine, t: Token): Machine {
    match (m, t)
    case (Stopped(_), _) => m
    case (Reading(position, _, pads, output), Pad) =>
      if position < 2 then m
      else if position + pads + 1 >= 4 then Stopped(output)
      else m.(pads := pads + 1)
    case (Reading(position, last, _, output), Sym(v)) =>
      if position == 0 then Reading(1, v, 0, output)
      else if position == 1 then Reading(2, v, 0, output + [Byte0(last, v)])
      else if position == 2 then Reading(3, v, 0, output + [Byte1(last, v)])
      else Reading(0, 0, 0, output + [Byte2(last, v)])
  }

  function FeedAll(m: Machine, ts: seq<Token>): Machine
    decreases |ts|
  {
    if ts == [] then m else FeedAll(Feed(m, ts[0]), ts[1..])
  }

  /** The bytes, or None where binascii raises: the text ends in the middle of a group. */
  function Result(m: Machine): Option<seq<byte>> {
    if m.Stopped? || m.position == 0 then Some(m.output) else None
  }

  function Padding(n: nat): string {
    if n % 4 == 1 then "===" else if n % 4 == 2 then "==" else if n % 4 == 3 then "=" else ""
  }

  /** Pads to a multiple of four, then decodes leniently. */
  function PyDecode(text: string): Option<seq<byte>> {
    Result(FeedAll(Reading(0, 0, 0, []), Tokens(text + Padding(|text|))))
  }

  // ---------------------------------------------------------------------------
  // On symbols the character machine is the group decoder
  // ---------------------------------------------------------------------------

  function Syms(vs: seq<Sextet>): seq<Token> {
    seq(|vs|, i requires 0 <= i < |vs| => Sym(vs[i]))
  }

  function Pads(n: nat): seq<Token> {
    if n % 4 == 1 then [Pad, Pad, Pad] else if n % 4 == 2 then [Pad, Pad] else if n % 4 == 3 then [Pad] else []
  }

  lemma {:induction false} TokensConcat(a: string, b: string)
    ensures Tokens(a + b) == Tokens(a) + Tokens(b)
  {
    if a == "" {
      assert a + b == b;
    } else {
      assert (a + b)[1..] == a[1..] + b;
      TokensConcat(a[1..], b);
    }
  }

  lemma {:induction false} TokensOfSymbols(text: string)
    requires AllValued(text)
    ensures Tokens(text) == Syms(ValuesOf(text)) && |ValuesOf(text)| == |text|
  {
    if text != "" {
      TokensOfSymbols(text[1..]);
      var vs := ValuesOf(text);
      assert vs[1..] == ValuesOf(text[1..]);
      assert Syms(vs) == [Sym(vs[0])] + Syms(vs[1..]);
    }
  }

  lemma TokensOfPadding(n: nat)
    ensures Tokens(Padding(n)) == Pads(n)
  {
    assert "==="[1..] == "==" && "=="[1..] == "=" && "="[1..] == "";
    assert Tokens("=") == [Pad] && Tokens("==") == [Pad, Pad];
  }

  /** One step at a position of a token list. */
  lemma FeedAt(m: Machine, ts: seq<Token>, k: nat, next: Machine)
    requires k < |ts| && next == Feed(m, ts[k])
    ensures FeedAll(m, ts[k..]) == FeedAll(next, ts[k + 1..])
  {
    assert ts[k..][1..] == ts[k + 1..];
  }

  predicate StartsWithSyms(ts: seq<Token>, vs: seq<Sextet>, n: nat) {
    n <= |vs| && n <= |ts| && forall i | 0 <= i < n :: ts[i] == Sym(vs[i])
  }

  /** A full group takes the machine from one group boundary to the next. */
  lemma FeedGroup(output: seq<byte>, vs: seq<Sextet>, ts: seq<Token>)
    requires StartsWithSyms(ts, vs, 4)
    ensures FeedAll(Reading(0, 0, 0, output), ts) == FeedAll(Reading(0, 0, 0, output + FullGroup(vs)), ts[4..])
  {
    var o1 := output + [Byte0(vs[0], vs[1])];
    var o2 := o1 + [Byte1(vs[1], vs[2])];
    assert o2 + [Byte2(vs[2], vs[3])] == output + FullGroup(vs);
    assert ts[0..] == ts;
    FeedAt(Reading(0, 0, 0, output), ts, 0, Reading(1, vs[0], 0, output));
    FeedAt(Reading(1, vs[0], 0, output), ts, 1, Reading(2, vs[1], 0, o1));
    FeedAt(Reading(2, vs[1], 0, o1), ts, 2, Reading(3, vs[2], 0, o2));
    FeedAt(Reading(3, vs[2], 0, o2), ts, 3, Reading(0, 0, 0, output + FullGroup(vs)));
  }

  lemma FeedOne(output: seq<byte>, vs: seq<Sextet>, ts: seq<Token>)
    requires |vs| == 1 && ts == [Sym(vs[0]), Pad, Pad, Pad]
    ensures Result(FeedAll(Reading(0, 0, 0, output), ts)) == None
  {
    var m := Reading(1, vs[0], 0, output);
    assert ts[0..] == ts;
    FeedAt(Reading(0, 0, 0, output), ts, 0, m);
    FeedAt(m, ts, 1, m);
    FeedAt(m, ts, 2, m);
    FeedAt(m, ts, 3, m);
  }

  lemma FeedTwo(output: seq<byte>, vs: seq<Sextet>, ts: seq<Token>)
    requires |vs| == 2 && ts == [Sym(vs[0]), Sym(vs[1]), Pad, Pad]
    ensures Result(FeedAll(Reading(0, 0, 0, output), ts)) == Some(output + [Byte0(vs[0], vs[1])])
  {
    var o1 := output + [Byte0(vs[0], vs[1])];
    assert ts[0..] == ts;
    FeedAt(Reading(0, 0, 0, output), ts, 0, Reading(1, vs[0], 0, output));
    FeedAt(Reading(1, vs[0], 0, output), ts, 1, Reading(2, vs[1], 0, o1));
    FeedAt(Reading(2, vs[1], 0, o1), ts, 2, Reading(2, vs[1], 1, o1));
    FeedAt(Reading(2, vs[1], 1, o1), ts, 3, Stopped(o1));
  }

  lemma FeedThree(output: seq<byte>, vs: seq<Sextet>, ts: seq<Token>)
    requires |vs| == 3 && ts == [Sym(vs[0]), Sym(vs[1]), Sym(vs[2]), Pad]
    ensures Result(FeedAll(Reading(0, 0, 0, output), ts)) ==
      Some(output + [Byte0(vs[0], vs[1]), Byte1(vs[1], vs[2])])
  {
    var o1 := output + [Byte0(vs[0], vs[1])];
    var o2 := o1 + [Byte1(vs[1], vs[2])];
    assert o2 == output + [Byte0(vs[0], vs[1]), Byte1(vs[1], vs[2])];
    assert ts[0..] == ts;
    FeedAt(Reading(0, 0, 0, output), ts, 0, Reading(1, vs[0], 0, output));
    FeedAt(Reading(1, vs[0], 0, output), ts, 1, Reading(2, vs[1], 0, o1));
    FeedAt(Reading(2, vs[1], 0, o1), ts, 2, Reading(3, vs[2], 0, o2));
    FeedAt(Reading(3, vs[2], 0, o2), ts, 3, Stopped(o2));
  }

  lemma PrefixedTwice(a: seq<byte>, b: seq<byte>, rest: Option<seq<byte>>)
    ensures Prefixed(a + b, rest) == Prefixed(a, Prefixed(b, rest))
  {
    if rest.Some? {
      assert a + b + rest.value == a + (b + rest.value);
    }
  }

  /** The short last group and its padding. */
  lemma FeedShort(output: seq<byte>, vs: seq<Sextet>, ts: seq<Token>)
    requires |vs| < 4 && ts == Syms(vs) + Pads(|vs|)
    ensures Result(FeedAll(Reading(0, 0, 0, output), ts)) == Prefixed(output, Join(vs))
  {
    if |vs| == 0 {
      assert output + [] == output;
    } else if |vs| == 1 {
      FeedOne(output, vs, ts);
    } else if |vs| == 2 {
      FeedTwo(output, vs, ts);
    } else {
      FeedThree(output, vs, ts);
    }
  }

  lemma NextGroup(vs: seq<Sextet>, ts: seq<Token>)
    requires |vs| >= 4 && ts == Syms(vs) + Pads(|vs|)
    ensures StartsWithSyms(ts, vs, 4) && ts[4..] == Syms(vs[4..]) + Pads(|vs[4..]|)
  {
  }

  /** On symbols and their padding the machine computes what the group decoder does. */
  lemma {:induction false} MachineIsJoin(output: seq<byte>, vs: seq<Sextet>, ts: seq<Token>)
    requires ts == Syms(vs) + Pads(|vs|)
    ensures Result(FeedAll(Reading(0, 0, 0, output), ts)) == Prefixed(output, Join(vs))
    decreases |vs|
  {
    if |vs| < 4 {
      FeedShort(output, vs, ts);
    } else {
      NextGroup(vs, ts);
      FeedGroup(output, vs, ts);
      MachineIsJoin(output + FullGroup(vs), vs[4..], ts[4..]);
      PrefixedTwice(output, FullGroup(vs), Join(vs[4..]));
      JoinStep(vs, vs[4..]);
    }
  }

  /** On every text of symbols, valid or not, the lenient decoder is the group decoder, including which
      texts it refuses. */
  lemma PyDecodeOfSymbols(text: string)
    requires AllValued(text)
    ensures PyDecode(text) == Join(ValuesOf(text))
  {
    TokensConcat(text, Padding(|text|));
    TokensOfSymbols(text);
    TokensOfPadding(|text|);
    MachineIsJoin([], ValuesOf(text), Tokens(text + Padding(|text|)));
    if Join(ValuesOf(text)).Some? {
      assert [] + Join(ValuesOf(text)).value == Join(ValuesOf(text)).value;
    }
  }

  // ---------------------------------------------------------------------------
  // Texts with other characters in them
  // ---------------------------------------------------------------------------

  /** The values of the symbols of a text, in order; other characters are passed over. */
  function SymbolValues(text: string): seq<Sextet> {
    if text == "" then []
    else (if Value(text[0]).Some? then [Value(text[0]).value] else []) + SymbolValues(text[1..])
  }

  function SomePads(k: nat): seq<Token> {
    seq(k, _ => Pad)
  }

  /** How many pads a text of this length gets. */
  function PadCount(n: nat): nat {
    if n % 4 == 0 then 0 else 4 - n % 4
  }

  /** What is left over after the full groups is complete, or gets at least the pads it needs. */
  predicate Completes(symbols: nat, pads: nat) {
    symbols % 4 == 0 || (symbols % 4 == 2 && pads >= 2) || (symbols % 4 == 3 && pads >= 1)
  }

  lemma {:induction false} TokensOfText(text: string)
    requires '=' !in text
    ensures Tokens(text) == Syms(SymbolValues(text))
  {
    if text != "" {
      TokensOfText(text[1..]);
      var rest := SymbolValues(text[1..]);
      assert Syms(SymbolValues(text)) == (if Value(text[0]).Some? then [Sym(Value(text[0]).value)] else []) + Syms(rest);
    }
  }

  lemma PadTokens(n: nat)
    ensures Tokens(Padding(n)) == SomePads(PadCount(n))
  {
    TokensOfPadding(n);
  }

  /** Pads at a group boundary, or after one symbol, are ignored. */
  lemma {:induction false} FeedEarlyPads(m: Machine, k: nat)
    requires m.Stopped? || m.position < 2
    ensures FeedAll(m, SomePads(k)) == m
  {
    if k > 0 {
      assert SomePads(k)[1..] == SomePads(k - 1);
      FeedEarlyPads(m, k - 1);
    }
  }

  /** Pads complete a group of two symbols or three, if there are enough of them. */
  lemma FeedLatePads(position: nat, last: Sextet, output: seq<byte>, k: nat)
    requires 2 <= position <= 3 && k <= 3
    ensures Result(FeedAll(Reading(position, last, 0, output), SomePads(k))) ==
      if Completes(position, k) then Some(output) else None
  {
    var m := Reading(position, last, 0, output);
    if k > 0 {
      assert SomePads(k)[1..] == SomePads(k - 1);
      if position == 3 {
        FeedEarlyPads(Stopped(output), k - 1);
      } else if k > 1 {
        assert SomePads(k - 1)[1..] == SomePads(k - 2);
        FeedEarlyPads(Stopped(output), k - 2);
      } else {
        assert SomePads(0) == [];
      }
    }
  }

  lemma FeedOneStep(m: Machine, ts: seq<Token>, rest: seq<Token>, next: Machine)
    requires ts != [] && rest == ts[1..] && next == Feed(m, ts[0])
    ensures FeedAll(m, ts) == FeedAll(next, rest)
  {
  }

  lemma ShortSyms(vs: seq<Sextet>, k: nat)
    requires 1 <= |vs|
    ensures (Syms(vs) + SomePads(k))[0] == Sym(vs[0]) && (Syms(vs) + SomePads(k))[1..] == Syms(vs[1..]) + SomePads(k)
  {
  }

  lemma FeedShortTail(output: seq<byte>, vs: seq<Sextet>, k: nat)
    requires |vs| < 4 && k <= 3
    ensures Result(FeedAll(Reading(0, 0, 0, output), Syms(vs) + SomePads(k))) ==
      if Completes(|vs|, k) then Prefixed(output, Join(vs)) else None
  {
    if |vs| == 0 {
      assert Syms(vs) + SomePads(k) == SomePads(k);
      FeedEarlyPads(Reading(0, 0, 0, output), k);
      assert output + [] == output;
    } else {
      ShortSyms(vs, k);
      var m := Reading(1, vs[0], 0, output);
      FeedOneStep(Reading(0, 0, 0, output), Syms(vs) + SomePads(k), Syms(vs[1..]) + SomePads(k), m);
      FeedAfterOne(output, vs, k, m);
    }
  }

  lemma FeedAfterOne(output: seq<byte>, vs: seq<Sextet>, k: nat, m: Machine)
    requires 1 <= |vs| < 4 && k <= 3 && m == Reading(1, vs[0], 0, output)
    ensures Result(FeedAll(m, Syms(vs[1..]) + SomePads(k))) ==
      if Completes(|vs|, k) then Prefixed(output, Join(vs)) else None
  {
    if |vs| == 1 {
      assert Syms(vs[1..]) + SomePads(k) == SomePads(k);
      FeedEarlyPads(m, k);
    } else {
      var o1 := output + [Byte0(vs[0], vs[1])];
      var rest := vs[1..];
      ShortSyms(rest, k);
      FeedOneStep(m, Syms(rest) + SomePads(k), Syms(rest[1..]) + SomePads(k), Reading(2, vs[1], 0, o1));
      FeedAfterTwo(output, vs, k, o1);
    }
  }

  lemma FeedAfterTwo(output: seq<byte>, vs: seq<Sextet>, k: nat, o1: seq<byte>)
    requires 2 <= |vs| < 4 && k <= 3 && o1 == output + [Byte0(vs[0], vs[1])]
    ensures Result(FeedAll(Reading(2, vs[1], 0, o1), Syms(vs[1..][1..]) + SomePads(k))) ==
      if Completes(|vs|, k) then Prefixed(output, Join(vs)) else None
  {
    var rest := vs[1..][1..];
    JoinShort(vs);
    if |vs| == 2 {
      assert Syms(rest) + SomePads(k) == SomePads(k);
      FeedLatePads(2, vs[1], o1, k);
    } else {
      assert rest == [vs[2]];
      FeedThird(output, vs[0], vs[1], vs[2], k);
      assert Syms(rest) + SomePads(k) == [Sym(vs[2])] + SomePads(k);
    }
  }

  lemma FeedThird(output: seq<byte>, v0: Sextet, v1: Sextet, v2: Sextet, k: nat)
    requires k <= 3
    ensures Result(FeedAll(Reading(2, v1, 0, output + [Byte0(v0, v1)]), [Sym(v2)] + SomePads(k))) ==
      if Completes(3, k) then Some(output + [Byte0(v0, v1), Byte1(v1, v2)]) else None
  {
    var o1 := output + [Byte0(v0, v1)];
    var o2 := o1 + [Byte1(v1, v2)];
    assert ([Sym(v2)] + SomePads(k))[1..] == SomePads(k);
    FeedOneStep(Reading(2, v1, 0, o1), [Sym(v2)] + SomePads(k), SomePads(k), Reading(3, v2, 0, o2));
    FeedLatePads(3, v2, o2, k);
    assert o2 == output + [Byte0(v0, v1), Byte1(v1, v2)];
  }

  lemma NextGroupOf(vs: seq<Sextet>, k: nat)
    requires |vs| >= 4
    ensures StartsWithSyms(Syms(vs) + SomePads(k), vs, 4)
    ensures (Syms(vs) + SomePads(k))[4..] == Syms(vs[4..]) + SomePads(k)
  {
  }

  lemma SameCompletion(symbols: nat, pads: nat)
    requires symbols >= 4
    ensures Completes(symbols, pads) <==> Completes(symbols - 4, pads)
  {
  }

  /** Symbols and any number of pads up to three. */
  lemma {:induction false} FeedSymsAndPads(output: seq<byte>, vs: seq<Sextet>, k: nat)
    requires k <= 3
    ensures Result(FeedAll(Reading(0, 0, 0, output), Syms(vs) + SomePads(k))) ==
      if Completes(|vs|, k) then Prefixed(output, Join(vs)) else None
    decreases |vs|
  {
    if |vs| < 4 {
      FeedShortTail(output, vs, k);
    } else {
      NextGroupOf(vs, k);
      FeedGroup(output, vs, Syms(vs) + SomePads(k));
      FeedSymsAndPads(output + FullGroup(vs), vs[4..], k);
      SameCompletion(|vs|, k);
      PrefixedTwice(output, FullGroup(vs), Join(vs[4..]));
      JoinStep(vs, vs[4..]);
    }
  }

  lemma NothingBefore(rest: Option<seq<byte>>)
    ensures Prefixed([], rest) == rest
  {
    if rest.Some? {
      assert [] + rest.value == rest.value;
    }
  }

  /** On every text without pads of its own, the lenient decoder passes over what is not a symbol, and
      decodes the symbols if the pads that the whole text's length calls for complete their last group. */
  lemma PyDecodeIsLenient(text: string)
    requires '=' !in text
    ensures PyDecode(text) ==
      if Completes(|SymbolValues(text)|, PadCount(|text|)) then Join(SymbolValues(text)) else None
  {
    TokensConcat(text, Padding(|text|));
    TokensOfText(text);
    PadTokens(|text|);
    FeedSymsAndPads([], SymbolValues(text), PadCount(|text|));
    NothingBefore(Join(SymbolValues(text)));
  }

  /** Decoding undoes encoding at every length; what is encoded is URL text without padding, of the
      shortest length that can hold the bytes. */
  lemma RoundTrip(bytes: seq<byte>)
    ensures IsUrlText(Encode(bytes)) && |Encode(bytes)| == (4 * |bytes| + 2) / 3
    ensures PyDecode(Encode(bytes)) == Some(bytes)
  {
    SpellLaws(Split(bytes));
    SplitLength(bytes);
    JoinOfSplit(bytes);
    PyDecodeOfSymbols(Encode(bytes));
  }
}
