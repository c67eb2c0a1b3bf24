/** Key sets as the JWKS endpoint serves them, and what the verifier keeps of one. */
module KeySets {
  import opened Text

  type Key = string

  /** One member of the "keys" array; `key` is None when the key material cannot be read. */
  datatype JwkItem = NotAnObject | Jwk(kid: string, key: Option<Key>)

  datatype KeysMember = NotAList | KeyList(items: seq<JwkItem>)

  /** The outcome of one read of the JWKS address. */
  datatype Fetch = FetchFailed | Fetched(keys: KeysMember)

  datatype KeySetError = RetrievalFailed | NoKeysArray | UnreadableKey | NoUsableKeys

  datatype KeySetResult = Usable(keys: map<string, Key>) | Unusable(error: KeySetError)

  function Decimal(n: nat): string {
    if n < 10 then [('0' as int + n) as char] else Decimal(n / 10) + [('0' as int + n % 10) as char]
  }

  function AnonymousCount(items: seq<JwkItem>): nat {
    if items == [] then 0
    else
      AnonymousCount(items[..|items| - 1]) +
      if items[|items| - 1].Jwk? && items[|items| - 1].kid == "" then 1 else 0
  }

  /** The name a key is filed under: its kid, or "__anon_n" for the n-th one without a kid. */
  function FiledUnder(items: seq<JwkItem>, i: nat): string
    requires i < |items| && items[i].Jwk?
  {
    if items[i].kid == "" then "__anon_" + Decimal(AnonymousCount(items[..i])) else items[i].kid
  }

  /** The filing of a list whose keys are all readable: later keys replace earlier ones of a name. */
  function Filed(items: seq<JwkItem>): map<string, Key> {
    if items == [] then map[]
    else
      var n := |items| - 1;
      if items[n].Jwk? && items[n].key.Some? then Filed(items[..n])[FiledUnder(items, n) := items[n].key.value]
      else Filed(items[..n])
  }

  /** What one fetch amounts to. */
  function ReadKeySet(f: Fetch): KeySetResult {
    if f.FetchFailed? then Unusable(RetrievalFailed)
    else if f.keys.NotAList? || f.keys.items == [] then Unusable(NoKeysArray)
    else if exists i | 0 <= i < |f.keys.items| :: Unreadable(f.keys.items[i]) then Unusable(UnreadableKey)
    else if Filed(f.keys.items) == map[] then Unusable(NoUsableKeys)
    else Usable(Filed(f.keys.items))
  }

  predicate Unreadable(item: JwkItem) {
    item.Jwk? && item.key.None?
  }

  /** A readable key of the list is the last one filed under its name. */
  ghost predicate LastUnder(items: seq<JwkItem>, i: nat, name: string) {
    && i < |items| && items[i].Jwk? && items[i].key.Some?
    && FiledUnder(items, i) == name
    && forall j | i < j < |items| && items[j].Jwk? && items[j].key.Some? :: FiledUnder(items, j) != name
  }

  /** The filing holds a key under a name exactly when it is that of the last item so named. */
  lemma {:induction false} FiledIsLastOfName(items: seq<JwkItem>, name: string, key: Key)
    ensures (name in Filed(items) && Filed(items)[name] == key) <==>
      exists i: nat :: LastUnder(items, i, name) && items[i].key == Some(key)
  {
    if items != [] {
      var n := |items| - 1;
      FiledIsLastOfName(items[..n], name, key);
      if items[n].Jwk? && items[n].key.Some? && FiledUnder(items, n) == name {
        LastReplaces(items, n, name);
        assert name in Filed(items) && Some(Filed(items)[name]) == items[n].key;
      } else {
        LastIsEarlier(items, items[..n], name, key);
        EarlierStays(items, n, name);
      }
    }
  }

  lemma EarlierStays(items: seq<JwkItem>, n: nat, name: string)
    requires |items| == n + 1
    requires !(items[n].Jwk? && items[n].key.Some? && FiledUnder(items, n) == name)
    ensures name in Filed(items) <==> name in Filed(items[..n])
    ensures name in Filed(items) ==> Filed(items)[name] == Filed(items[..n])[name]
  {
  }

  lemma LastReplaces(items: seq<JwkItem>, n: nat, name: string)
    requires |items| == n + 1 && items[n].Jwk? && items[n].key.Some? && FiledUnder(items, n) == name
    ensures LastUnder(items, n, name) && forall i: nat | LastUnder(items, i, name) :: i == n
  {
  }

  lemma LastIsEarlier(items: seq<JwkItem>, front: seq<JwkItem>, name: string, key: Key)
    requires front <= items && |items| == |front| + 1
    requires !(items[|front|].Jwk? && items[|front|].key.Some? && FiledUnder(items, |front|) == name)
    ensures (exists i: nat :: LastUnder(items, i, name) && items[i].key == Some(key)) <==>
      exists i: nat :: LastUnder(front, i, name) && front[i].key == Some(key)
  {
    forall i: nat | i < |front| ensures LastUnder(items, i, name) <==> LastUnder(front, i, name) {
      LastUnderFront(items, front, i, name);
    }
    if i: nat :| LastUnder(front, i, name) && front[i].key == Some(key) {
      assert LastUnder(items, i, name) && items[i].key == Some(key);
    }
    if i: nat :| LastUnder(items, i, name) && items[i].key == Some(key) {
      assert i < |front| && LastUnder(front, i, name);
    }
  }

  /** An earlier key is filed under the same name in a list's front. */
  lemma FiledUnderFront(items: seq<JwkItem>, front: seq<JwkItem>, j: nat)
    requires front <= items && j < |front| && items[j].Jwk?
    ensures FiledUnder(front, j) == FiledUnder(items, j)
  {
    assert front[..j] == items[..j];
  }

  lemma LastUnderFront(items: seq<JwkItem>, front: seq<JwkItem>, i: nat, name: string)
    requires front <= items && |items| == |front| + 1 && i < |front|
    requires !(items[|front|].Jwk? && items[|front|].key.Some? && FiledUnder(items, |front|) == name)
    ensures LastUnder(items, i, name) <==> LastUnder(front, i, name)
  {
    forall j: nat | j < |front| && items[j].Jwk? ensures FiledUnder(front, j) == FiledUnder(items, j) {
      FiledUnderFront(items, front, j);
    }
  }

  /** A filing is empty when no key of the list is readable. */
  lemma {:induction false} FiledIsEmpty(items: seq<JwkItem>)
    ensures Filed(items) == map[] <==> forall i | 0 <= i < |items| :: items[i].NotAnObject? || items[i].key.None?
  {
    if items != [] {
      var n := |items| - 1;
      FiledIsEmpty(items[..n]);
      if items[n].Jwk? && items[n].key.Some? {
        assert FiledUnder(items, n) in Filed(items);
      }
    }
  }

  /** A fetch gives keys exactly when it brings a list with a readable key and no unreadable one. One
      unreadable key spoils the list, and what is not an object is passed over. */
  lemma UsableExactly(items: seq<JwkItem>)
    ensures ReadKeySet(FetchFailed) == Unusable(RetrievalFailed)
    ensures ReadKeySet(Fetched(NotAList)) == Unusable(NoKeysArray)
    ensures ReadKeySet(Fetched(KeyList(items))) == Unusable(NoKeysArray) <==> items == []
    ensures ReadKeySet(Fetched(KeyList(items))) == Unusable(UnreadableKey) <==>
      exists i | 0 <= i < |items| :: items[i].Jwk? && items[i].key.None?
    ensures ReadKeySet(Fetched(KeyList(items))) == Unusable(NoUsableKeys) <==>
      items != [] && forall i | 0 <= i < |items| :: items[i].NotAnObject?
    ensures ReadKeySet(Fetched(KeyList(items))) in {
      Unusable(NoKeysArray), Unusable(UnreadableKey), Unusable(NoUsableKeys), Usable(Filed(items))
    }
  {
    FiledIsEmpty(items);
  }

  lemma {:induction false} DecimalInjective(m: nat, n: nat)
    requires Decimal(m) == Decimal(n)
    ensures m == n
  {
    var a, b := Decimal(m), Decimal(n);
    assert a[|a| - 1] == ('0' as int + m % 10) as char && b[|b| - 1] == ('0' as int + n % 10) as char;
    if m >= 10 && n >= 10 {
      assert a[..|a| - 1] == Decimal(m / 10) && b[..|b| - 1] == Decimal(n / 10);
      DecimalInjective(m / 10, n / 10);
    }
  }

  lemma {:induction false} AnonymousCountGrows(items: seq<JwkItem>, i: nat, j: nat)
    requires i < j <= |items| && items[i].Jwk? && items[i].kid == ""
    ensures AnonymousCount(items[..i]) < AnonymousCount(items[..j])
    decreases j
  {
    assert items[..j][..j - 1] == items[..j - 1];
    if i < j - 1 {
      AnonymousCountGrows(items, i, j - 1);
    }
  }

  /** A key is filed under its kid, and no two keys without one share a name. */
  lemma NamesOfKeys(items: seq<JwkItem>, i: nat, j: nat)
    requires i < j < |items| && items[i].Jwk? && items[j].Jwk?
    ensures items[i].kid != "" ==> FiledUnder(items, i) == items[i].kid
    ensures items[j].kid != "" ==> FiledUnder(items, j) == items[j].kid
    ensures items[i].kid == "" && items[j].kid == "" ==> FiledUnder(items, i) != FiledUnder(items, j)
  {
    if items[i].kid == "" && items[j].kid == "" {
      AnonymousCountGrows(items, i, j);
      var a, b := Decimal(AnonymousCount(items[..i])), Decimal(AnonymousCount(items[..j]));
      if FiledUnder(items, i) == FiledUnder(items, j) {
        SamePrefix("__anon_", a, b);
        DecimalInjective(AnonymousCount(items[..i]), AnonymousCount(items[..j]));
      }
    }
  }

  lemma SamePrefix(prefix: string, a: string, b: string)
    requires prefix + a == prefix + b
    ensures a == b
  {
    assert (prefix + a)[|prefix|..] == a && (prefix + b)[|prefix|..] == b;
  }

  lemma OneMoreItem(items: seq<JwkItem>, i: nat)
    requires i < |items|
    ensures AnonymousCount(items[..i + 1]) ==
      AnonymousCount(items[..i]) + if items[i].Jwk? && items[i].kid == "" then 1 else 0
    ensures Filed(items[..i + 1]) ==
      if items[i].Jwk? && items[i].key.Some? then Filed(items[..i])[FiledUnder(items, i) := items[i].key.value]
      else Filed(items[..i])
  {
    assert items[..i + 1][..i] == items[..i];
  }

  lemma ReadsUnreadable(items: seq<JwkItem>, i: nat)
    requires i < |items| && items[i].Jwk? && items[i].key.None?
    ensures ReadKeySet(Fetched(KeyList(items))) == Unusable(UnreadableKey)
  {
    assert Unreadable(items[i]);
  }

  lemma ReadsFiled(items: seq<JwkItem>)
    requires items != [] && forall j | 0 <= j < |items| :: !Unreadable(items[j])
    ensures ReadKeySet(Fetched(KeyList(items))) ==
      if Filed(items) == map[] then Unusable(NoUsableKeys) else Usable(Filed(items))
  {
  }

  predicate Filing(items: seq<JwkItem>, fallbackIndex: nat, parsed: map<string, Key>) {
    fallbackIndex == AnonymousCount(items) && parsed == Filed(items)
  }

  lemma FilingGrows(items: seq<JwkItem>, i: nat, fallbackIndex: nat, parsed: map<string, Key>)
    requires i < |items| && Filing(items[..i], fallbackIndex, parsed)
    ensures items[i].NotAnObject? ==> Filing(items[..i + 1], fallbackIndex, parsed)
    ensures items[i].Jwk? && items[i].key.Some? && items[i].kid != "" ==>
      Filing(items[..i + 1], fallbackIndex, parsed[items[i].kid := items[i].key.value])
    ensures items[i].Jwk? && items[i].key.Some? && items[i].kid == "" ==>
      Filing(items[..i + 1], fallbackIndex + 1, parsed["__anon_" + Decimal(fallbackIndex) := items[i].key.value])
  {
    OneMoreItem(items, i);
  }

  /** The parsing loop: stops at the first unreadable key, otherwise files every object. */
  method ParseKeys(items: seq<JwkItem>) returns (r: KeySetResult)
    ensures items != [] ==> r == ReadKeySet(Fetched(KeyList(items)))
  {
    var parsed: map<string, Key> := map[];
    var fallbackIndex := 0;
    for i := 0 to |items|
      invariant Filing(items[..i], fallbackIndex, parsed)
      invariant forall j | 0 <= j < i :: !Unreadable(items[j])
    {
      FilingGrows(items, i, fallbackIndex, parsed);
      if items[i].NotAnObject? {
        continue;
      }
      var kid := items[i].kid;
      if kid == "" {
        kid := "__anon_" + Decimal(fallbackIndex);
        fallbackIndex := fallbackIndex + 1;
      }
      if items[i].key.None? {
        ReadsUnreadable(items, i);
        return Unusable(UnreadableKey);
      }
      parsed := parsed[kid := items[i].key.value];
    }
    assert items[..|items|] == items;
    if items != [] {
      ReadsFiled(items);
    }
    r := if parsed == map[] then Unusable(NoUsableKeys) else Usable(parsed);
  }
}
