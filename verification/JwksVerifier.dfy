/** The token verifier: a key cache with a time to live, throttled forced refreshes, and the
    verification of access tokens against the cached keys. */
module JwksVerifier {
  import opened Text
  import opened KeySets
  import opened RefreshThrottle

  const SUPPORTED_ALGORITHMS := {"RS256", "RS384", "RS512", "ES256", "ES384", "ES512"}

  // ---------------------------------------------------------------------------
  // Tokens
  // ---------------------------------------------------------------------------

  datatype AudienceClaim = NoAudience | OneAudience(text: string) | Audiences(items: seq<string>) | OtherAudience

  datatype Claims = Claims(
    issuer: Option<string>,
    subject: Option<string>,
    hasExpiry: bool,
    audience: AudienceClaim,
    clientId: string)

  datatype Header = Header(algorithm: string, kid: string)

  /** A token as the JWT library sees it: its header if readable, the (algorithm, key) pairs under
      which its signature verifies, and its claims if they are an object. */
  datatype Token = Token(header: Option<Header>, verifiesUnder: set<(string, Key)>, claims: Option<Claims>)

  datatype DecodeResult = InvalidSignature | InvalidToken | Decoded(claims: Claims)

  /** The library's decoding: the signature first, then the required claims, the times, the issuer and,
      when asked for, the audience. A token is untimely when it has expired, when its "nbf" or "iat" lies
      ahead, or when one of the three is not a number. */
  function Decode(t: Token, key: Key, algorithm: string, issuer: string, audience: Option<string>, untimely: bool)
    : DecodeResult
  {
    if (algorithm, key) !in t.verifiesUnder then InvalidSignature
    else if t.claims.None? then InvalidToken
    else
      var c := t.claims.value;
      if c.subject.None? || c.issuer.None? || !c.hasExpiry || untimely || c.issuer != Some(issuer) then InvalidToken
      else if audience.Some? && !StrictAudience(c.audience, audience.value) then InvalidToken
      else Decoded(c)
  }

  predicate StrictAudience(a: AudienceClaim, audience: string) {
    match a
    case OneAudience(t) => t == audience
    case Audiences(ts) => audience in ts
    case _ => false
  }

  function NonBlank(items: seq<string>): seq<string> {
    if items == [] then []
    else
      NonBlank(items[..|items| - 1]) +
      if Strip(items[|items| - 1]) != "" then [Strip(items[|items| - 1])] else []
  }

  function AudienceValues(a: AudienceClaim): seq<string> {
    match a
    case OneAudience(t) => NonBlank([t])
    case Audiences(ts) => NonBlank(ts)
    case _ => []
  }

  /** A token is for this audience when its audience claim names it, or it has no audience values
      and its client id is the audience. */
  predicate ForAudience(c: Claims, audience: string) {
    if AudienceValues(c.audience) != [] then audience in AudienceValues(c.audience)
    else Strip(c.clientId) != "" && Strip(c.clientId) == audience
  }

  /** One of the items, stripped, is the text. */
  predicate SomeStripped(items: seq<string>, text: string) {
    exists item | item in items :: StripsTo(item, text)
  }

  predicate StripsTo(item: string, text: string) {
    Strip(item) == text
  }

  lemma SomeStrippedGrows(init: seq<string>, last: string, text: string)
    ensures SomeStripped(init + [last], text) <==> SomeStripped(init, text) || StripsTo(last, text)
  {
    assert last in init + [last];
    if item :| item in init && StripsTo(item, text) {
      assert item in init + [last];
    }
  }

  /** The values are the items of the audience claim, stripped, without the blank ones. */
  lemma {:induction false} NonBlankHolds(items: seq<string>, text: string)
    ensures text in NonBlank(items) <==> text != "" && SomeStripped(items, text)
  {
    if items != [] {
      var init, last := items[..|items| - 1], items[|items| - 1];
      NonBlankHolds(init, text);
      assert items == init + [last];
      SomeStrippedGrows(init, last, text);
    }
  }

  ghost predicate Claimed(a: AudienceClaim, text: string) {
    match a
    case OneAudience(t) => Strip(t) == text
    case Audiences(ts) => SomeStripped(ts, text)
    case _ => false
  }

  /** The audience check in its own terms: an item of the audience claim is the audience once stripped, or
      all of them are blank and the client id is. A blank audience is nobody's. */
  lemma ForAudienceExactly(c: Claims, audience: string)
    ensures ForAudience(c, audience) <==>
      && audience != ""
      && if exists text :: text != "" && Claimed(c.audience, text) then Claimed(c.audience, audience)
         else Strip(c.clientId) == audience
  {
    match c.audience {
      case OneAudience(t) =>
        SomeClaimed(c.audience);
        NonBlankIsSome([t]);
        NonBlankHolds([t], audience);
      case Audiences(ts) =>
        NonBlankIsSome(ts);
        NonBlankHolds(ts, audience);
      case _ =>
    }
  }

  lemma NonBlankIsSome(items: seq<string>)
    ensures NonBlank(items) != [] <==> exists text :: text != "" && Claimed(Audiences(items), text)
  {
    if NonBlank(items) != [] {
      NonBlankHolds(items, NonBlank(items)[0]);
      assert Claimed(Audiences(items), NonBlank(items)[0]);
    }
    if text :| text != "" && Claimed(Audiences(items), text) {
      NonBlankHolds(items, text);
    }
  }

  lemma SomeClaimed(a: AudienceClaim)
    requires a.OneAudience?
    ensures forall text :: Claimed(a, text) <==> Claimed(Audiences([a.text]), text)
  {
    forall text ensures Claimed(a, text) <==> Claimed(Audiences([a.text]), text) {
      SomeStrippedGrows([], a.text, text);
      assert [] + [a.text] == [a.text];
    }
  }

  /** Supported are the two asymmetric families in three sizes each: neither "none" nor a shared secret. */
  lemma SupportedExactly(algorithm: string)
    ensures algorithm in SUPPORTED_ALGORITHMS <==>
      && |algorithm| == 5
      && (algorithm[..2] == "RS" || algorithm[..2] == "ES")
      && (algorithm[2..] == "256" || algorithm[2..] == "384" || algorithm[2..] == "512")
  {
    if |algorithm| == 5 {
      Named(algorithm, "RS", "256", "RS256");
      Named(algorithm, "RS", "384", "RS384");
      Named(algorithm, "RS", "512", "RS512");
      Named(algorithm, "ES", "256", "ES256");
      Named(algorithm, "ES", "384", "ES384");
      Named(algorithm, "ES", "512", "ES512");
    }
  }

  lemma Named(algorithm: string, family: string, size: string, whole: string)
    requires |algorithm| >= |family| && whole == family + size
    ensures algorithm == whole <==> algorithm[..|family|] == family && algorithm[|family|..] == size
  {
    assert algorithm == algorithm[..|family|] + algorithm[|family|..];
  }

  function Subject(c: Claims): string {
    if c.subject.Some? then Strip(c.subject.value) else ""
  }

  // ---------------------------------------------------------------------------
  // The world outside: a monotone clock and the JWKS address
  // ---------------------------------------------------------------------------

  class World {
    var now: real
    /** Every clock reading and every fetch there ever was. */
    ghost var readings: seq<real>
    ghost var fetches: seq<Fetch>

    constructor ()
      ensures now >= 0.0 && readings == [] && fetches == []
    {
      var start: real := *;
      now := if start >= 0.0 then start else 0.0;
      readings, fetches := [], [];
    }

    method Monotonic() returns (t: real)
      modifies this`now, this`readings
      ensures t == now && now >= old(now)
      ensures readings == old(readings) + [t]
    {
      var elapsed: real := *;
      if elapsed > 0.0 {
        now := now + elapsed;
      }
      t := now;
      readings := readings + [t];
    }

    method ReadKeys() returns (f: Fetch)
      modifies this`fetches
      ensures fetches == old(fetches) + [f]
    {
      f := *;
      fetches := fetches + [f];
    }
  }

  /** The simple source the cache stands for: the keys of the most recent usable fetch. */
  function Latest(fetches: seq<Fetch>): map<string, Key> {
    if fetches == [] then map[]
    else if ReadKeySet(fetches[|fetches| - 1]).Usable? then ReadKeySet(fetches[|fetches| - 1]).keys
    else Latest(fetches[..|fetches| - 1])
  }

  function UsableCount(fetches: seq<Fetch>): nat {
    if fetches == [] then 0
    else UsableCount(fetches[..|fetches| - 1]) + if ReadKeySet(fetches[|fetches| - 1]).Usable? then 1 else 0
  }

  lemma OneMoreFetch(fetches: seq<Fetch>, f: Fetch)
    ensures Latest(fetches + [f]) == if ReadKeySet(f).Usable? then ReadKeySet(f).keys else Latest(fetches)
    ensures UsableCount(fetches + [f]) == UsableCount(fetches) + if ReadKeySet(f).Usable? then 1 else 0
  {
    assert (fetches + [f])[..|fetches|] == fetches;
  }

  predicate AnyUsable(fetches: seq<Fetch>) {
    exists i | 0 <= i < |fetches| :: ReadKeySet(fetches[i]).Usable?
  }

  /** A fetch with these keys, and none usable after it. */
  ghost predicate LastUsableAt(fetches: seq<Fetch>, i: nat, keys: map<string, Key>) {
    && i < |fetches| && ReadKeySet(fetches[i]) == Usable(keys)
    && forall j | i < j < |fetches| :: ReadKeySet(fetches[j]).Unusable?
  }

  lemma UnusableChangesNothing(fetches: seq<Fetch>, f: Fetch)
    requires ReadKeySet(f).Unusable?
    ensures AnyUsable(fetches + [f]) <==> AnyUsable(fetches)
    ensures forall i: nat, keys | LastUsableAt(fetches, i, keys) :: LastUsableAt(fetches + [f], i, keys)
  {
    var all := fetches + [f];
    assert forall i | 0 <= i < |fetches| :: all[i] == fetches[i];
    if AnyUsable(all) {
      var i :| 0 <= i < |all| && ReadKeySet(all[i]).Usable?;
      assert ReadKeySet(fetches[i]).Usable?;
    }
    if AnyUsable(fetches) {
      var i :| 0 <= i < |fetches| && ReadKeySet(fetches[i]).Usable?;
      assert ReadKeySet(all[i]).Usable?;
    }
  }

  /** `Latest` is empty while no fetch was usable, and then the keys of the last usable one. */
  lemma {:induction false} LatestIsTheLastUsable(fetches: seq<Fetch>)
    ensures if AnyUsable(fetches) then exists i :: LastUsableAt(fetches, i, Latest(fetches)) else Latest(fetches) == map[]
  {
    if fetches != [] {
      var init, last := fetches[..|fetches| - 1], fetches[|fetches| - 1];
      assert fetches == init + [last];
      if ReadKeySet(last).Usable? {
        assert ReadKeySet(fetches[|init|]).Usable?;
        assert LastUsableAt(fetches, |init|, Latest(fetches));
      } else {
        LatestIsTheLastUsable(init);
        UnusableChangesNothing(init, last);
        assert Latest(fetches) == Latest(init);
        if i :| LastUsableAt(init, i, Latest(init)) {
          assert LastUsableAt(fetches, i, Latest(fetches));
        }
      }
    }
  }

  datatype Error =
    | BadHeader | UnsupportedAlgorithm | KeySet(cause: KeySetError) | KeyNotFound
    | KeysRotated | Invalid | WrongAudience | NoSubject

  datatype RefreshOutcome = Refreshed | RefreshThrottled | RefreshFailed(error: Error)

  datatype KeyResult = Found(algorithm: string, key: Key) | NotFound(error: Error)

  datatype VerifyResult = Accepted(subject: string, claims: Claims) | Rejected(error: Error)

  /** The key a kid names in a key set: the one filed under it or, for no kid, the only one. */
  predicate Names(keys: map<string, Key>, kid: string, key: Key) {
    if kid != "" then kid in keys && keys[kid] == key
    else |keys| == 1 && key in keys.Values
  }

  class OIDCTokenVerifier {
    const issuer: string
    const audience: string
    const timeToLive: real
    const minInterval: real
    const window: real
    const maxRefreshes: nat
    const world: World

    var cachedKeys: map<string, Key>
    var cachedAt: real
    var lastForced: real
    var forcedTimestamps: seq<real>
    var refreshTotal: nat
    var refreshForced: nat
    var refreshThrottled: nat

    /** Every forced refresh there ever was, and those that have been pruned. */
    ghost var history: seq<real>
    ghost var pruned: seq<real>

    ghost predicate Valid()
      reads this, world
    {
      && timeToLive >= 10.0 && minInterval >= 1.0 && window >= 10.0 && maxRefreshes >= 1
      && ThrottleValid(world.now)
      && cachedAt <= world.now
      && cachedKeys == Latest(world.fetches)
      && refreshTotal == UsableCount(world.fetches)
    }

    /** The throttle's part of the state, at a clock reading. */
    ghost predicate ThrottleValid(now: real)
      reads this`history, this`pruned, this`lastForced, this`forcedTimestamps, this`refreshForced
    {
      && Throttled(history, minInterval, window, maxRefreshes)
      && lastForced == Last(history)
      && 0.0 <= lastForced <= now
      && history == pruned + forcedTimestamps
      && AllOld(pruned, now - window)
      && refreshForced == |history|
    }

    constructor (issuer: string, audience: string, ttl: int, interval: real, window: real, limit: int, world: World)
      requires world.now >= 0.0 && world.fetches == []
      ensures Valid() && this.world == world
      ensures this.issuer == Strip(issuer) && this.audience == Strip(audience)
      ensures this.timeToLive == if ttl > 10 then ttl as real else 10.0
      ensures this.minInterval == if interval > 1.0 then interval else 1.0
      ensures this.window == if window > 10.0 then window else 10.0
      ensures this.maxRefreshes == if limit > 1 then limit else 1
      ensures cachedKeys == map[] && history == []
    {
      this.issuer := Strip(issuer);
      this.audience := Strip(audience);
      this.timeToLive := if ttl > 10 then ttl as real else 10.0;
      this.minInterval := if interval > 1.0 then interval else 1.0;
      this.window := if window > 10.0 then window else 10.0;
      this.maxRefreshes := if limit > 1 then limit else 1;
      this.world := world;
      cachedKeys, cachedAt := map[], 0.0;
      lastForced, forcedTimestamps := 0.0, [];
      refreshTotal, refreshForced, refreshThrottled := 0, 0, 0;
      history, pruned := [], [];
    }

    /** In every reachable state, whatever windows the calls fell in: a window of the throttle's length
        holds at most the maximum of forced refreshes without its end, and one more with it; and any two
        are the minimum interval apart. */
    lemma RefreshRateIsBounded(start: real)
      requires Valid()
      ensures CountIn(history, start, window) <= maxRefreshes
      ensures CountWithin(history, start, window) <= maxRefreshes + 1
      ensures forall i, j | 0 <= i < j < |history| :: history[j] - history[i] >= minInterval
    {
      WindowHoldsAtMostLimit(history, minInterval, window, maxRefreshes, start);
      ClosedWindowHoldsOneMore(history, minInterval, window, maxRefreshes, start);
    }

    /** The throttle refuses only what would break it: one more forced refresh keeps the bounds exactly when
        it is allowed. */
    lemma RefusedExactlyWhenNeeded(now: real)
      requires Valid() && world.now <= now
      ensures MayForce(history, now) <==> Throttled(history + [now], minInterval, window, maxRefreshes)
    {
      RefusedOnlyWhenNeeded(history, minInterval, window, maxRefreshes, now);
    }

    /** Everything but the clock and the pruned list is as before. */
    twostate predicate KeepsCache()
      reads this, world
    {
      && world.fetches == old(world.fetches) && cachedKeys == old(cachedKeys) && cachedAt == old(cachedAt)
      && history == old(history) && lastForced == old(lastForced)
      && refreshTotal == old(refreshTotal) && refreshForced == old(refreshForced)
    }

    /** The first clock reading since the old state. */
    twostate function FirstReading(): real
      reads world
    {
      if |old(world.readings)| < |world.readings| then world.readings[|old(world.readings)|] else world.now
    }

    /** How often a forced refresh was asked for, admitted or throttled. */
    ghost function Attempts(): nat
      reads this`history, this`refreshThrottled
    {
      |history| + refreshThrottled
    }

    method ReadClock() returns (now: real)
      requires Valid()
      modifies world`now, world`readings
      ensures Valid() && KeepsCache() && now == world.now >= old(world.now)
      ensures world.readings == old(world.readings) + [now]
    {
      now := world.Monotonic();
      OldStaysOld(pruned, old(world.now) - window, now - window);
    }

    /** Empty, or past its time to live. */
    ghost predicate StaleAt(now: real)
      reads this
    {
      cachedKeys == map[] || now - cachedAt >= timeToLive
    }

    method JwksStale() returns (stale: bool)
      requires Valid()
      modifies world`now, world`readings
      ensures Valid() && KeepsCache() && world.now >= old(world.now)
      ensures old(world.readings) <= world.readings
      ensures stale <==> StaleAt(world.now)
    {
      if cachedKeys == map[] {
        return true;
      }
      var now := ReadClock();
      stale := now - cachedAt >= timeToLive;
    }

    /** Interval and window allow a forced refresh, by the full history. */
    ghost predicate MayForce(history: seq<real>, now: real) {
      now - Last(history) >= minInterval && |After(history, now - window)| < maxRefreshes
    }

    /** What may be forced now may be forced later, as long as nothing is forced in between. */
    lemma MayForceLater(history: seq<real>, now: real, later: real)
      requires now <= later && MayForce(history, now)
      ensures MayForce(history, later)
    {
      AfterShrinks(history, now - window, later - window);
    }

    /** Answers as if no timestamp had ever been pruned: the interval has passed since the last forced
        refresh, and the full history has fewer than the maximum inside the window. */
    method IsForcedRefreshAllowed() returns (allowed: bool)
      requires Valid()
      modifies this`forcedTimestamps, this`pruned, world`now, world`readings
      ensures Valid() && KeepsCache() && world.now >= old(world.now)
      ensures world.readings == old(world.readings) + [world.now]
      ensures allowed <==> MayForce(history, world.now)
    {
      var now := ReadClock();
      if now - lastForced < minInterval {
        return false;
      }
      allowed := WindowHasRoom(now);
    }

    method WindowHasRoom(now: real) returns (room: bool)
      requires Valid() && now == world.now
      modifies this`forcedTimestamps, this`pruned
      ensures Valid() && KeepsCache() && (room <==> |After(history, now - window)| < maxRefreshes)
    {
      PruneOld(now);
      room := |forcedTimestamps| < maxRefreshes;
    }

    /** Drops the timestamps that have left the window; what is kept is the window of the full history. */
    method PruneOld(now: real)
      requires minInterval >= 1.0 && ThrottleValid(now)
      modifies this`forcedTimestamps, this`pruned
      ensures ThrottleValid(now) && forcedTimestamps == After(history, now - window)
    {
      ThrottledIsSorted(history, minInterval, window, maxRefreshes);
      PrunedAnswer(pruned, forcedTimestamps, now - window);
      pruned := pruned + UpTo(forcedTimestamps, now - window);
      forcedTimestamps := Prune(forcedTimestamps, now - window);
    }

    /** Records a forced refresh at its own clock reading, later than the check's. */
    method RecordForcedRefresh(ghost checked: real)
      requires Valid() && checked <= world.now && MayForce(history, checked)
      modifies this`lastForced, this`forcedTimestamps, this`refreshForced, this`history, world`now, world`readings
      ensures Valid() && world.now >= old(world.now)
      ensures world.readings == old(world.readings) + [world.now]
      ensures history == old(history) + [world.now] && lastForced == world.now
      ensures world.fetches == old(world.fetches) && cachedKeys == old(cachedKeys) && cachedAt == old(cachedAt)
      ensures refreshTotal == old(refreshTotal)
    {
      var now := world.Monotonic();
      AdmissionKeepsThrottled(history, minInterval, window, maxRefreshes, checked, now);
      assert history + [now] == pruned + (forcedTimestamps + [now]);
      lastForced := now;
      forcedTimestamps := forcedTimestamps + [now];
      refreshForced := refreshForced + 1;
      history := history + [now];
    }

    /** The throttle's gate: admits and records a forced refresh when its first clock reading allows one,
        and counts a throttled one otherwise. */
    method AdmitForcedRefresh() returns (admitted: bool)
      requires Valid()
      modifies this`lastForced, this`forcedTimestamps, this`refreshForced, this`refreshThrottled,
        this`history, this`pruned, world`now, world`readings
      ensures Valid() && world.now >= old(world.now)
      ensures old(world.readings) < world.readings && old(world.now) <= FirstReading() <= world.now
      ensures admitted <==> MayForce(old(history), FirstReading())
      ensures admitted ==> history == old(history) + [lastForced] && refreshThrottled == old(refreshThrottled)
      ensures !admitted ==> KeepsCache() && refreshThrottled == old(refreshThrottled) + 1
    {
      admitted := IsForcedRefreshAllowed();
      if admitted {
        RecordForcedRefresh(world.now);
      } else {
        CountThrottled();
      }
    }

    method CountThrottled()
      requires Valid()
      modifies this`refreshThrottled
      ensures Valid() && KeepsCache() && refreshThrottled == old(refreshThrottled) + 1
    {
      refreshThrottled := refreshThrottled + 1;
    }

    /** The result of reading a key set, and the cache it leaves. */
    ghost predicate CacheFollows(f: Fetch, r: RefreshOutcome, keys: map<string, Key>, at: real)
      reads this, world
    {
      match ReadKeySet(f)
      case Usable(latest) => r == Refreshed && cachedKeys == latest && cachedAt == world.now
      case Unusable(e) => r == RefreshFailed(KeySet(e)) && cachedKeys == keys && cachedAt == at
    }

    /** Exactly one fetch; the cache changes only if it was usable, and then to exactly its keys. */
    method FetchKeys() returns (r: RefreshOutcome)
      requires Valid()
      modifies this`cachedKeys, this`cachedAt, this`refreshTotal, world
      ensures Valid() && world.now >= old(world.now) && old(world.readings) <= world.readings
      ensures |world.fetches| == |old(world.fetches)| + 1
      ensures old(world.fetches) <= world.fetches
      ensures CacheFollows(world.fetches[|world.fetches| - 1], r, old(cachedKeys), old(cachedAt))
    {
      var payload := world.ReadKeys();
      OneMoreFetch(old(world.fetches), payload);
      if payload.FetchFailed? {
        return RefreshFailed(KeySet(RetrievalFailed));
      }
      if payload.keys.NotAList? || payload.keys.items == [] {
        return RefreshFailed(KeySet(NoKeysArray));
      }
      var parsed := ParseKeys(payload.keys.items);
      if parsed.Unusable? {
        return RefreshFailed(KeySet(parsed.error));
      }
      cachedKeys := parsed.keys;
      cachedAt := world.Monotonic();
      refreshTotal := refreshTotal + 1;
      r := Refreshed;
    }

    /** One refresh. A forced one is refused exactly when its first clock reading does not allow one, which
        leaves the cache alone; otherwise there is exactly one fetch. */
    method RefreshJwks(force: bool) returns (r: RefreshOutcome)
      requires Valid()
      modifies this`cachedKeys, this`cachedAt, this`lastForced, this`forcedTimestamps, this`refreshTotal,
        this`refreshForced, this`refreshThrottled, this`history, this`pruned, world
      ensures Valid() && world.now >= old(world.now) && old(world.readings) <= world.readings
      ensures force ==> old(world.readings) < world.readings && old(world.now) <= FirstReading() <= world.now
      ensures r.RefreshThrottled? <==> force && !MayForce(old(history), FirstReading())
      ensures r.RefreshThrottled? ==> KeepsCache() && refreshThrottled == old(refreshThrottled) + 1
      ensures !r.RefreshThrottled? ==>
        && |world.fetches| == |old(world.fetches)| + 1
        && old(world.fetches) <= world.fetches
        && refreshThrottled == old(refreshThrottled)
        && (if force then history == old(history) + [lastForced] else history == old(history))
        && CacheFollows(world.fetches[|world.fetches| - 1], r, old(cachedKeys), old(cachedAt))
    {
      if force {
        var admitted := AdmitForcedRefresh();
        if !admitted {
          return RefreshThrottled;
        }
      }
      r := FetchKeys();
    }

    /** Why a key was not found. */
    ghost predicate Unresolved(t: Token, e: Error)
      reads this, world
    {
      match e
      case BadHeader => t.header.None?
      case UnsupportedAlgorithm => t.header.Some? && t.header.value.algorithm !in SUPPORTED_ALGORITHMS
      case KeySet(cause) => world.fetches != [] && ReadKeySet(world.fetches[|world.fetches| - 1]) == Unusable(cause)
      case KeyNotFound => t.header.Some? &&
        if t.header.value.kid == "" then |cachedKeys| != 1 else t.header.value.kid !in cachedKeys
      case _ => false
    }

    /** The key found is the cache's current one for the token. */
    ghost predicate Resolved(t: Token, algorithm: string, key: Key)
      reads this
    {
      && t.header.Some? && t.header.value.algorithm == algorithm && algorithm in SUPPORTED_ALGORITHMS
      && Names(cachedKeys, t.header.value.kid, key)
    }

    /** A supported token whose kid is in the cache. */
    ghost predicate Cached(t: Token)
      reads this
    {
      && t.header.Some? && t.header.value.algorithm in SUPPORTED_ALGORITHMS
      && t.header.value.kid != "" && t.header.value.kid in cachedKeys
    }

    /** The first part of a resolution: one plain refresh of a stale cache. */
    method RenewIfStale() returns (failure: Option<Error>)
      requires Valid()
      modifies this`cachedKeys, this`cachedAt, this`lastForced, this`forcedTimestamps, this`refreshTotal,
        this`refreshForced, this`refreshThrottled, this`history, this`pruned, world
      ensures Valid() && world.now >= old(world.now) && old(world.readings) <= world.readings
      ensures history == old(history) && refreshThrottled == old(refreshThrottled)
      ensures |old(world.fetches)| <= |world.fetches| <= |old(world.fetches)| + 1
      ensures old(world.fetches) <= world.fetches
      ensures old(StaleAt(world.now)) ==> |world.fetches| > |old(world.fetches)|
      ensures if |world.fetches| == |old(world.fetches)| then failure.None? && KeepsCache()
        else WasStale() && RenewedBy(world.fetches[|old(world.fetches)|], failure)
    {
      var stale := JwksStale();
      if stale {
        var plain := RefreshJwks(false);
        if plain.RefreshFailed? {
          return Some(plain.error);
        }
      }
      failure := None;
    }

    twostate predicate WasStale()
      reads this, world
    {
      old(cachedKeys) == map[] || world.now - old(cachedAt) >= timeToLive
    }

    twostate predicate RenewedBy(new f: Fetch, new failure: Option<Error>)
      reads this, world
    {
      match ReadKeySet(f)
      case Usable(_) => failure == None && cachedAt >= old(world.now)
      case Unusable(e) => failure == Some(KeySet(e))
    }

    /** What one look in a key set answers for a kid. */
    ghost predicate Looked(keys: map<string, Key>, algorithm: string, kid: string, r: KeyResult) {
      if (if kid != "" then kid in keys else |keys| == 1) then
        r.Found? && r.algorithm == algorithm && Names(keys, kid, r.key)
      else
        r == NotFound(KeyNotFound)
    }

    /** No fetch was made, or the last one made was usable. */
    twostate predicate NoneFailed()
      reads world
    {
      |world.fetches| > |old(world.fetches)| ==> ReadKeySet(world.fetches[|world.fetches| - 1]).Usable?
    }

    /** No key was found before the forced refresh: in the key set of the plain one if there was one, and
        in the cache otherwise. */
    twostate predicate MissedBefore(kid: string)
      requires |old(history)| <= |history| && |old(world.fetches)| <= |world.fetches|
      reads this`history, world
    {
      kid == "" ||
      if |world.fetches| - |old(world.fetches)| > |history| - |old(history)| then
        MissedIn(ReadKeySet(world.fetches[|old(world.fetches)|]), kid)
      else
        kid !in old(cachedKeys)
    }

    predicate MissedIn(fetched: KeySetResult, kid: string) {
      fetched.Usable? && kid !in fetched.keys
    }

    /** Finds the key for a token. It is the cache's current key for the token's kid, or its only key
        when the token has no kid; at most one plain and one forced refresh happen on the way, and none
        when the kid is in a cache that is still fresh at the end of the call.

        No key is missed and no key without a kid is given before a forced refresh has been asked for. It
        is asked for only when the kid was missed, admitted when the throttle has room as the call starts,
        and throttled when it has none as the call ends. A kid in the last key set fetched is found. A
        stale cache is renewed first, and if that fails so does the call. */
    method ResolveSigningKey(t: Token) returns (r: KeyResult)
      requires Valid()
      modifies this`cachedKeys, this`cachedAt, this`lastForced, this`forcedTimestamps, this`refreshTotal,
        this`refreshForced, this`refreshThrottled, this`history, this`pruned, world
      ensures Valid() && world.now >= old(world.now) && old(world.readings) <= world.readings
      ensures |old(world.fetches)| <= |world.fetches| <= |old(world.fetches)| + 2
      ensures old(world.fetches) <= world.fetches
      ensures history == old(history) || history == old(history) + [lastForced]
      ensures |history| - |old(history)| <= |world.fetches| - |old(world.fetches)| <= |history| - |old(history)| + 1
      ensures r.Found? ==> Resolved(t, r.algorithm, r.key)
      ensures r.NotFound? ==> Unresolved(t, r.error)
      ensures old(Cached(t)) && world.now - old(cachedAt) < timeToLive ==> r.Found? && KeepsCache()
      ensures old(Attempts()) <= Attempts() <= old(Attempts()) + 1
      ensures r == NotFound(KeyNotFound) || (r.Found? && t.header.value.kid == "") ==> Attempts() > old(Attempts())
      ensures Attempts() > old(Attempts()) ==> t.header.Some? && MissedBefore(t.header.value.kid)
      ensures MayForce(old(history), old(world.now)) ==> refreshThrottled == old(refreshThrottled)
      ensures !MayForce(old(history), world.now) ==> history == old(history)
      ensures Cached(t) && NoneFailed() ==>
        r == Found(t.header.value.algorithm, cachedKeys[t.header.value.kid])
      ensures Supported(t) && old(StaleAt(world.now)) ==> Renewed(r)
    {
      if t.header.None? {
        return NotFound(BadHeader);
      }
      var algorithm, kid := t.header.value.algorithm, t.header.value.kid;
      if algorithm !in SUPPORTED_ALGORITHMS {
        return NotFound(UnsupportedAlgorithm);
      }
      var failure := RenewIfStale();
      if failure.Some? {
        return NotFound(failure.value);
      }
      if kid != "" && kid in cachedKeys {
        return Found(algorithm, cachedKeys[kid]);
      }
      label Asked:
      r := ResolveForced(algorithm, kid);
      RoomOnlyGrows(old(history), old(world.now), FirstReading@Asked(), world.now);
    }

    lemma RoomOnlyGrows(history: seq<real>, start: real, checked: real, end: real)
      requires start <= checked <= end
      ensures MayForce(history, start) ==> MayForce(history, checked)
      ensures MayForce(history, checked) ==> MayForce(history, end)
    {
      if MayForce(history, start) {
        MayForceLater(history, start, checked);
      }
      if MayForce(history, checked) {
        MayForceLater(history, checked, end);
      }
    }

    ghost predicate Supported(t: Token) {
      t.header.Some? && t.header.value.algorithm in SUPPORTED_ALGORITHMS
    }

    /** A fetch that is not forced came first; if it failed, it was the only one and is the answer. */
    twostate predicate Renewed(r: KeyResult)
      reads this, world
    {
      && |world.fetches| - |old(world.fetches)| == |history| - |old(history)| + 1
      && old(history) <= history
      && match ReadKeySet(world.fetches[|old(world.fetches)|])
         case Usable(_) => cachedAt >= old(world.now)
         case Unusable(e) => r == NotFound(KeySet(e)) && |world.fetches| == |old(world.fetches)| + 1
    }

    /** The second half of a resolution: one forced refresh, then one more look. If the first clock reading
        allows it, the refresh happens: a usable fetch is looked at, and an unusable one is the answer.
        Otherwise it is throttled, and the cache as it was is looked at. */
    method ResolveForced(algorithm: string, kid: string) returns (r: KeyResult)
      requires Valid() && (kid != "" ==> kid !in cachedKeys)
      modifies this`cachedKeys, this`cachedAt, this`lastForced, this`forcedTimestamps, this`refreshTotal,
        this`refreshForced, this`refreshThrottled, this`history, this`pruned, world
      ensures Valid() && world.now >= FirstReading() >= old(world.now)
      ensures old(world.readings) < world.readings
      ensures |old(world.fetches)| <= |world.fetches| <= |old(world.fetches)| + 1
      ensures old(world.fetches) <= world.fetches
      ensures if MayForce(old(history), FirstReading()) then Forced(algorithm, kid, r)
        else KeepsCache() && refreshThrottled == old(refreshThrottled) + 1 && Looked(cachedKeys, algorithm, kid, r)
    {
      var refreshed := RefreshJwks(true);
      if refreshed.RefreshFailed? {
        return NotFound(refreshed.error);
      }
      if refreshed.Refreshed? && kid != "" && kid in cachedKeys {
        return Found(algorithm, cachedKeys[kid]);
      }
      if kid == "" && |cachedKeys| == 1 {
        var only :| only in cachedKeys.Keys;
        return Found(algorithm, cachedKeys[only]);
      }
      r := NotFound(KeyNotFound);
    }

    /** One forced refresh happened, and its fetch decides. */
    twostate predicate Forced(algorithm: string, kid: string, r: KeyResult)
      reads this, world
    {
      && |world.fetches| == |old(world.fetches)| + 1
      && history == old(history) + [lastForced] && refreshThrottled == old(refreshThrottled)
      && match ReadKeySet(world.fetches[|world.fetches| - 1])
         case Usable(keys) => cachedKeys == keys && cachedAt >= old(world.now) && Looked(keys, algorithm, kid, r)
         case Unusable(e) => r == NotFound(KeySet(e)) && cachedKeys == old(cachedKeys) && cachedAt == old(cachedAt)
    }

    /** The claims checks that follow either decoding. */
    function Judge(c: Claims): VerifyResult {
      if !ForAudience(c, audience) then Rejected(WrongAudience)
      else if Subject(c) == "" then Rejected(NoSubject)
      else Accepted(Subject(c), c)
    }

    /** The audience comes first, then the subject, which is the claim stripped. */
    lemma JudgeExactly(c: Claims)
      ensures Judge(c) == Rejected(WrongAudience) <==> !ForAudience(c, audience)
      ensures Judge(c) == Rejected(NoSubject) <==>
        ForAudience(c, audience) && (c.subject.None? || Strip(c.subject.value) == "")
      ensures Judge(c).Accepted? ==>
        c.subject.Some? && Judge(c) == Accepted(Strip(c.subject.value), c) && Strip(c.subject.value) != ""
    {
    }

    /** What an accepted identity guarantees. */
    ghost predicate Authentic(t: Token, subject: string, c: Claims)
      reads this
    {
      && t.claims == Some(c)
      && c.issuer == Some(issuer) && c.hasExpiry
      && ForAudience(c, audience)
      && subject == Subject(c) && subject != ""
      && exists algorithm, key :: Resolved(t, algorithm, key) && (algorithm, key) in t.verifiesUnder
    }

    /** Why a token was rejected. */
    ghost predicate Blamed(t: Token, untimely: bool, e: Error)
      reads this, world
    {
      match e
      case KeysRotated =>
        exists algorithm, key :: Resolved(t, algorithm, key) && (algorithm, key) !in t.verifiesUnder
      case Invalid =>
        || t.claims.None? || untimely || !t.claims.value.hasExpiry
        || t.claims.value.issuer != Some(issuer) || t.claims.value.subject.None?
        || !StrictAudience(t.claims.value.audience, audience)
        || (world.fetches != [] && ReadKeySet(world.fetches[|world.fetches| - 1]) == Unusable(UnreadableKey))
      case WrongAudience => t.claims.Some? && !ForAudience(t.claims.value, audience)
      case NoSubject => t.claims.Some? && Subject(t.claims.value) == ""
      case _ => Unresolved(t, e)
    }

    /** A token whose kid is cached and whose signature and required claims are in order. */
    ghost predicate CachedAndGood(t: Token, untimely: bool)
      reads this
    {
      && Cached(t) && (t.header.value.algorithm, cachedKeys[t.header.value.kid]) in t.verifiesUnder
      && t.claims.Some? && InOrder(t.claims.value, untimely)
    }

    ghost predicate InOrder(c: Claims, untimely: bool) {
      c.issuer == Some(issuer) && c.subject.Some? && c.hasExpiry && !untimely
    }

    /** What a token gets under a key, with or without a check of the audience claim itself. */
    function Verdict(t: Token, key: Key, claimed: Option<string>, untimely: bool): VerifyResult {
      if t.header.None? then Rejected(BadHeader)
      else
        match Decode(t, key, t.header.value.algorithm, issuer, claimed, untimely)
        case InvalidSignature => Rejected(KeysRotated)
        case InvalidToken => Rejected(Invalid)
        case Decoded(c) => Judge(c)
    }

    /** A verdict under the key the token's header names is deserved. */
    lemma VerdictIsFair(t: Token, algorithm: string, key: Key, claimed: Option<string>, untimely: bool, r: VerifyResult)
      requires Resolved(t, algorithm, key) && claimed in {None, Some(audience)}
      requires r == Verdict(t, key, claimed, untimely)
      ensures r.Accepted? ==> !untimely && Authentic(t, r.subject, r.claims)
      ensures r.Accepted? && claimed.Some? ==> StrictAudience(r.claims.audience, audience)
      ensures r.Rejected? ==> Blamed(t, untimely, r.error)
    {
      assert (algorithm, key) in t.verifiesUnder || (algorithm, key) !in t.verifiesUnder;
    }

    /** So is a rejection because no key was found; the second attempt puts an unreadable key on the token. */
    lemma UnresolvedIsBlamed(t: Token, untimely: bool, e: Error)
      requires Unresolved(t, e)
      ensures Blamed(t, untimely, e) && e != KeysRotated
      ensures e == KeySet(UnreadableKey) ==> Blamed(t, untimely, Invalid)
    {
    }

    /** Verifies a token. Whatever happens, at most five key sets are fetched, at most three of them
        by force. An accepted token has the configured issuer and audience, a subject, and a signature
        that verifies under the key its header names in the cache; a rejection has its reason.

        A kid is not given up, and a signature neither, before a forced refresh has been asked for, which
        really happens when the throttle has room as the call starts. When the last key set fetched holds
        the kid, the verdict is the one under its key. */
    method VerifyAccessToken(t: Token, untimely: bool) returns (r: VerifyResult)
      requires Valid()
      modifies this`cachedKeys, this`cachedAt, this`lastForced, this`forcedTimestamps, this`refreshTotal,
        this`refreshForced, this`refreshThrottled, this`history, this`pruned, world
      ensures Valid()
      ensures |old(world.fetches)| <= |world.fetches| <= |old(world.fetches)| + 5
      ensures old(world.fetches) <= world.fetches
      ensures old(history) <= history && |history| <= |old(history)| + 3
      ensures r.Accepted? ==> !untimely && Authentic(t, r.subject, r.claims)
      ensures r.Rejected? ==> Blamed(t, untimely, r.error)
      ensures old(CachedAndGood(t, untimely)) && world.now - old(cachedAt) < timeToLive ==>
        KeepsCache() && r == Judge(t.claims.value)
      ensures GivenUp(r) ==> Attempts() > old(Attempts())
      ensures GivenUp(r) && MayForce(old(history), old(world.now)) ==> |history| > |old(history)|
      ensures Cached(t) && NoneFailed() ==> Settled(t, untimely, r)
    {
      var again;
      r, again := VerifyOnce(t, untimely);
      if again {
        r := VerifyAfterRotation(t, untimely);
      }
    }

    /** The first attempt, which calls for another exactly when the signature did not verify. */
    method VerifyOnce(t: Token, untimely: bool) returns (r: VerifyResult, again: bool)
      requires Valid()
      modifies this`cachedKeys, this`cachedAt, this`lastForced, this`forcedTimestamps, this`refreshTotal,
        this`refreshForced, this`refreshThrottled, this`history, this`pruned, world
      ensures Valid() && world.now >= old(world.now)
      ensures |old(world.fetches)| <= |world.fetches| <= |old(world.fetches)| + 2
      ensures old(world.fetches) <= world.fetches
      ensures history == old(history) || history == old(history) + [lastForced]
      ensures old(Attempts()) <= Attempts()
      ensures !again && r == Rejected(KeyNotFound) ==> Attempts() > old(Attempts())
      ensures MayForce(old(history), old(world.now)) ==>
        refreshThrottled == old(refreshThrottled) && (history == old(history) ==> MayForce(history, world.now))
      ensures again ==> exists algorithm, key :: Resolved(t, algorithm, key) && (algorithm, key) !in t.verifiesUnder
      ensures !again && r.Accepted? ==> !untimely && Authentic(t, r.subject, r.claims)
      ensures !again && r.Rejected? ==> r.error != KeysRotated && Blamed(t, untimely, r.error)
      ensures old(CachedAndGood(t, untimely)) && world.now - old(cachedAt) < timeToLive ==>
        KeepsCache() && !again && r == Judge(t.claims.value)
      ensures !again && Cached(t) && NoneFailed() ==> r == Verdict(t, cachedKeys[t.header.value.kid], None, untimely)
    {
      var resolved := ResolveSigningKey(t);
      RoomOnlyGrows(old(history), old(world.now), world.now, world.now);
      if resolved.NotFound? {
        UnresolvedIsBlamed(t, untimely, resolved.error);
        return Rejected(resolved.error), false;
      }
      ghost var verdict := Verdict(t, resolved.key, None, untimely);
      VerdictIsFair(t, resolved.algorithm, resolved.key, None, untimely, verdict);
      var decoded := Decode(t, resolved.key, resolved.algorithm, issuer, None, untimely);
      match decoded {
        case InvalidToken => return Rejected(Invalid), false;
        case Decoded(claims) => return Judge(claims), false;
        case InvalidSignature => return Rejected(KeysRotated), true;
      }
    }

    predicate GivenUp(r: VerifyResult) {
      r == Rejected(KeyNotFound) || r == Rejected(KeysRotated)
    }

    /** The verdict is one of those under the key cached for the token's kid. They differ only for claims
        whose audience claim is not the audience itself. */
    ghost predicate Settled(t: Token, untimely: bool, r: VerifyResult)
      requires Cached(t)
      reads this
    {
      var key := cachedKeys[t.header.value.kid];
      r == Verdict(t, key, None, untimely) || r == Verdict(t, key, Some(audience), untimely)
    }

    /** Whichever it is, a token with a good signature, the required claims and the audience in its
        audience claim gets what its remaining claims deserve. */
    lemma SettledAccepts(t: Token, untimely: bool, r: VerifyResult)
      requires Cached(t) && Settled(t, untimely, r) && CachedAndGood(t, untimely)
      requires StrictAudience(t.claims.value.audience, audience)
      ensures r == Judge(t.claims.value)
    {
    }

    /** The second attempt, after a signature that did not verify: one forced refresh, a new
        resolution, and a decoding that also checks the audience claim itself. The refresh is refused
        exactly when its first clock reading does not allow one, and then nothing else happens; if its
        fetch fails, that is the answer. */
    method VerifyAfterRotation(t: Token, untimely: bool) returns (r: VerifyResult)
      requires Valid()
      requires exists algorithm, key :: Resolved(t, algorithm, key) && (algorithm, key) !in t.verifiesUnder
      modifies this`cachedKeys, this`cachedAt, this`lastForced, this`forcedTimestamps, this`refreshTotal,
        this`refreshForced, this`refreshThrottled, this`history, this`pruned, world
      ensures Valid() && world.now >= FirstReading() >= old(world.now)
      ensures old(world.readings) < world.readings
      ensures |old(world.fetches)| <= |world.fetches| <= |old(world.fetches)| + 3
      ensures old(world.fetches) <= world.fetches
      ensures old(history) <= history && |history| <= |old(history)| + 2
      ensures r.Accepted? ==> !untimely && Authentic(t, r.subject, r.claims)
      ensures r.Accepted? ==> StrictAudience(r.claims.audience, audience)
      ensures r.Rejected? ==> Blamed(t, untimely, r.error)
      ensures Attempts() > old(Attempts())
      ensures MayForce(old(history), old(world.now)) ==> old(history) < history
      ensures Cached(t) && NoneFailed() ==> Settled(t, untimely, r)
      ensures if MayForce(old(history), FirstReading()) then Retried(t, untimely, r)
        else KeepsCache() && refreshThrottled == old(refreshThrottled) + 1 && r == Rejected(KeysRotated)
    {
      var refreshed := RefreshJwks(true);
      RoomOnlyGrows(old(history), old(world.now), FirstReading(), FirstReading());
      match refreshed {
        case RefreshThrottled => return Rejected(KeysRotated);
        case RefreshFailed(e) => return Rejected(e);
        case Refreshed =>
      }
      r := VerifyAgain(t, untimely);
    }

    /** One forced refresh happened, and if its fetch was usable the token was looked at again. */
    twostate predicate Retried(t: Token, untimely: bool, r: VerifyResult)
      reads this, world
    {
      && |old(world.fetches)| < |world.fetches| && old(history) < history
      && match ReadKeySet(world.fetches[|old(world.fetches)|])
         case Usable(_) => Cached(t) && NoneFailed() ==>
           r == Verdict(t, cachedKeys[t.header.value.kid], Some(audience), untimely)
         case Unusable(e) => r == Rejected(KeySet(e)) && |world.fetches| == |old(world.fetches)| + 1
    }

    /** The resolution and decoding after the refresh. */
    method VerifyAgain(t: Token, untimely: bool) returns (r: VerifyResult)
      requires Valid()
      modifies this`cachedKeys, this`cachedAt, this`lastForced, this`forcedTimestamps, this`refreshTotal,
        this`refreshForced, this`refreshThrottled, this`history, this`pruned, world
      ensures Valid() && world.now >= old(world.now) && old(world.readings) <= world.readings
      ensures |old(world.fetches)| <= |world.fetches| <= |old(world.fetches)| + 2
      ensures old(world.fetches) <= world.fetches
      ensures history == old(history) || history == old(history) + [lastForced]
      ensures old(Attempts()) <= Attempts() <= old(Attempts()) + 1
      ensures r == Rejected(KeyNotFound) ==> Attempts() > old(Attempts())
      ensures r.Accepted? ==> !untimely && Authentic(t, r.subject, r.claims)
      ensures r.Accepted? ==> StrictAudience(r.claims.audience, audience)
      ensures r.Rejected? ==> Blamed(t, untimely, r.error)
      ensures Cached(t) && NoneFailed() ==>
        r == Verdict(t, cachedKeys[t.header.value.kid], Some(audience), untimely)
    {
      var resolved := ResolveSigningKey(t);
      if resolved.NotFound? {
        UnresolvedIsBlamed(t, untimely, resolved.error);
        return Rejected(if resolved.error == KeySet(UnreadableKey) then Invalid else resolved.error);
      }
      r := Verdict(t, resolved.key, Some(audience), untimely);
      VerdictIsFair(t, resolved.algorithm, resolved.key, Some(audience), untimely, r);
    }
  }
}
