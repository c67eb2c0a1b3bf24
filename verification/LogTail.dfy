/** The tail of a run's log: paginated collection, then a stable sort and a cut. */
module LogTail {
  import opened Text

  /** A log event, absent fields read as their defaults. */
  datatype Event = Event(timestamp: int, ingestionTime: int, eventId: string, message: string)

  // ---------------------------------------------------------------------------
  // Collecting pages
  // ---------------------------------------------------------------------------

  datatype Page = Page(events: seq<Event>, nextToken: Option<string>)

  /** The log service: what it answers to the n-th request, of a page limit and a token. */
  type Service = (nat, nat, Option<string>) -> Page

  const MAX_PAGES := 25

  function PageLimit(limit: int): nat {
    var atLeastOne := if limit > 1 then limit else 1;
    if atLeastOne < 10_000 then atLeastOne else 10_000
  }

  /** The limit itself, kept between 1 and 10000. */
  lemma PageLimitLaws(limit: int)
    ensures 1 <= PageLimit(limit) <= 10_000
    ensures 1 <= limit <= 10_000 ==> PageLimit(limit) == limit
    ensures limit < 1 ==> PageLimit(limit) == 1
    ensures limit > 10_000 ==> PageLimit(limit) == 10_000
  {
  }

  /** Whether a token is passed on: an absent or empty one is not. */
  predicate Usable(token: Option<string>) {
    token.Some? && token.value != ""
  }

  /** The token that the n-th request carries, each reply's token being the next request's. */
  function TokenOf(service: Service, limit: nat, n: nat): Option<string> {
    if n == 0 then None else service(n - 1, limit, TokenOf(service, limit, n - 1)).nextToken
  }

  function Reply(service: Service, limit: nat, n: nat): Page {
    service(n, limit, TokenOf(service, limit, n))
  }

  /** The n-th reply is the last one to be asked for: it has no token, or the one just used. */
  predicate IsLast(service: Service, limit: nat, n: nat) {
    var token := Reply(service, limit, n).nextToken;
    !Usable(token) || token == TokenOf(service, limit, n)
  }

  function FirstPages(service: Service, limit: nat, n: nat): seq<Event> {
    if n == 0 then [] else FirstPages(service, limit, n - 1) + Reply(service, limit, n - 1).events
  }

  /** Collection stops after this many pages: the first page that is last, or the 25th. */
  predicate StopsAfter(service: Service, limit: nat, n: nat) {
    && 1 <= n <= MAX_PAGES
    && (forall k | 0 <= k < n - 1 :: !IsLast(service, limit, k))
    && (n == MAX_PAGES || IsLast(service, limit, n - 1))
  }

  /** Concatenates the pages until the last one or the 25th. */
  method CollectLogEvents(service: Service, limit: int) returns (events: seq<Event>)
    ensures exists pages: nat ::
      StopsAfter(service, PageLimit(limit), pages) && events == FirstPages(service, PageLimit(limit), pages)
  {
    events := [];
    var nextToken: Option<string> := None;
    var previousToken: Option<string> := None;
    var pageCount := 0;
    var pageLimit := PageLimit(limit);
    while true
      invariant pageCount < MAX_PAGES
      invariant events == FirstPages(service, pageLimit, pageCount)
      invariant previousToken == nextToken == TokenOf(service, pageLimit, pageCount)
      invariant pageCount > 0 ==> Usable(nextToken)
      invariant forall k | 0 <= k < pageCount :: !IsLast(service, pageLimit, k)
      decreases MAX_PAGES - pageCount
    {
      var response := service(pageCount, pageLimit, if Usable(nextToken) then nextToken else None);
      events := events + response.events;
      pageCount := pageCount + 1;
      nextToken := response.nextToken;
      if !Usable(nextToken) || nextToken == previousToken || pageCount >= MAX_PAGES {
        break;
      }
      previousToken := nextToken;
    }
    assert StopsAfter(service, pageLimit, pageCount);
  }

  /** Where collection stops is determined. */
  lemma StopsOnce(service: Service, limit: nat, m: nat, n: nat)
    requires StopsAfter(service, limit, m) && StopsAfter(service, limit, n)
    ensures m == n
  {
  }

  /** What was sent and what came back: the first request has no token, and each next one the token of the
      reply before. */
  predicate Conversation(service: Service, limit: nat, sent: seq<Option<string>>, replies: seq<Page>) {
    && |sent| == |replies| && (sent != [] ==> sent[0] == None)
    && (forall k: nat | k < |sent| :: replies[k] == service(k, limit, sent[k]))
    && (forall k: nat | 0 < k < |sent| :: sent[k] == replies[k - 1].nextToken)
  }

  /** No token, an empty one, or the one just sent. */
  predicate Ends(sent: Option<string>, reply: Page) {
    reply.nextToken == None || reply.nextToken == Some("") || reply.nextToken == sent
  }

  function Contents(replies: seq<Page>): seq<seq<Event>> {
    seq(|replies|, k requires 0 <= k < |replies| => replies[k].events)
  }

  /** Collection is one conversation, of at most 25 pages: it ends with the first reply that ends it, or with
      the 25th, and the events are those of the replies in order. */
  lemma CollectedConversation(service: Service, limit: nat, n: nat)
    returns (sent: seq<Option<string>>, replies: seq<Page>)
    requires StopsAfter(service, limit, n)
    ensures Conversation(service, limit, sent, replies) && 1 <= |replies| == n <= 25
    ensures forall k: nat | k < n - 1 :: !Ends(sent[k], replies[k])
    ensures n == 25 || Ends(sent[n - 1], replies[n - 1])
    ensures FirstPages(service, limit, n) == Flat(Contents(replies))
  {
    sent, replies := Talk(service, limit, n);
    assert !IsLast(service, limit, n - 1) <==> !Ends(sent[n - 1], replies[n - 1]);
    forall k: nat | k < n - 1 ensures !Ends(sent[k], replies[k]) {
      assert !IsLast(service, limit, k);
    }
  }

  lemma ConversationGrows(service: Service, limit: nat, sent: seq<Option<string>>, replies: seq<Page>,
                          next: Option<string>)
    requires Conversation(service, limit, sent, replies)
    requires next == if sent == [] then None else replies[|replies| - 1].nextToken
    ensures Conversation(service, limit, sent + [next], replies + [service(|sent|, limit, next)])
  {
  }

  lemma ContentsGrow(replies: seq<Page>, next: Page)
    ensures Flat(Contents(replies + [next])) == Flat(Contents(replies)) + next.events
  {
    assert Contents(replies + [next]) == Contents(replies) + [next.events];
    FlatLaws(Contents(replies), [next.events], next.events);
  }

  lemma {:induction false} Talk(service: Service, limit: nat, n: nat)
    returns (sent: seq<Option<string>>, replies: seq<Page>)
    ensures Conversation(service, limit, sent, replies) && |replies| == n
    ensures forall k: nat | k < n :: sent[k] == TokenOf(service, limit, k) && replies[k] == Reply(service, limit, k)
    ensures FirstPages(service, limit, n) == Flat(Contents(replies))
  {
    if n == 0 {
      sent, replies := [], [];
    } else {
      var before, earlier := Talk(service, limit, n - 1);
      var token, reply := TokenOf(service, limit, n - 1), Reply(service, limit, n - 1);
      ConversationGrows(service, limit, before, earlier, token);
      ContentsGrow(earlier, reply);
      sent, replies := before + [token], earlier + [reply];
    }
  }

  // ---------------------------------------------------------------------------
  // A service that pages through a fixed log
  // ---------------------------------------------------------------------------

  function Flat(pages: seq<seq<Event>>): seq<Event> {
    if pages == [] then [] else Flat(pages[..|pages| - 1]) + pages[|pages| - 1]
  }

  lemma {:induction false} FlatLaws(first: seq<seq<Event>>, second: seq<seq<Event>>, page: seq<Event>)
    ensures Flat([]) == [] && Flat([page]) == page
    ensures Flat(first + second) == Flat(first) + Flat(second)
  {
    assert [page][..0] == [];
    if second == [] {
      assert first + second == first;
    } else {
      var last := |second| - 1;
      FlatLaws(first, second[..last], page);
      Associative(Flat(first), Flat(second[..last]), second[last]);
      assert (first + second)[..|first + second| - 1] == first + second[..last];
    }
  }

  /** The token a page is asked for with, and the one that comes with it. */
  function TokenFor(tokens: seq<string>, i: nat): Option<string> {
    if 0 < i < |tokens| then Some(tokens[i]) else None
  }

  predicate Serves(service: Service, limit: nat, pages: seq<seq<Event>>, tokens: seq<string>, n: nat, i: nat)
    requires i < |pages|
  {
    service(n, limit, TokenFor(tokens, i)) == Page(pages[i], TokenFor(tokens, i + 1))
  }

  /** The service hands out these pages in order, whenever it is asked, under tokens that differ, and no
      token with the last. */
  ghost predicate PagesThrough(service: Service, limit: nat, pages: seq<seq<Event>>, tokens: seq<string>) {
    && |tokens| == |pages| >= 1
    && (forall i | 0 <= i < |tokens| :: tokens[i] != "")
    && (forall i, j | 0 <= i < j < |tokens| :: tokens[i] != tokens[j])
    && (forall i: nat, n: nat | i < |pages| :: Serves(service, limit, pages, tokens, n, i))
  }

  lemma {:induction false} TokenAt(service: Service, limit: nat, pages: seq<seq<Event>>, tokens: seq<string>, n: nat)
    requires PagesThrough(service, limit, pages, tokens) && n < |pages|
    ensures TokenOf(service, limit, n) == TokenFor(tokens, n)
  {
    if n > 0 {
      TokenAt(service, limit, pages, tokens, n - 1);
      assert Serves(service, limit, pages, tokens, n - 1, n - 1);
    }
  }

  lemma PageAt(service: Service, limit: nat, pages: seq<seq<Event>>, tokens: seq<string>, n: nat)
    requires PagesThrough(service, limit, pages, tokens) && n < |pages|
    ensures Reply(service, limit, n).events == pages[n]
    ensures IsLast(service, limit, n) <==> n == |pages| - 1
  {
    TokenAt(service, limit, pages, tokens, n);
    assert Serves(service, limit, pages, tokens, n, n);
  }

  lemma {:induction false} FlatAt(service: Service, limit: nat, pages: seq<seq<Event>>, tokens: seq<string>, n: nat)
    requires PagesThrough(service, limit, pages, tokens) && n <= |pages|
    ensures FirstPages(service, limit, n) == Flat(pages[..n])
  {
    if n > 0 {
      FlatAt(service, limit, pages, tokens, n - 1);
      PageAt(service, limit, pages, tokens, n - 1);
      assert pages[..n][..n - 1] == pages[..n - 1];
    }
  }

  /** From a log of at most 25 pages everything is collected, in order; from a longer one, the first 25. */
  lemma CollectsTheLog(service: Service, limit: nat, pages: seq<seq<Event>>, tokens: seq<string>, n: nat)
    requires PagesThrough(service, limit, pages, tokens) && StopsAfter(service, limit, n)
    ensures FirstPages(service, limit, n) == Flat(if |pages| <= MAX_PAGES then pages else pages[..MAX_PAGES])
  {
    var m := if |pages| <= MAX_PAGES then |pages| else MAX_PAGES;
    forall k: nat | k < m ensures IsLast(service, limit, k) <==> k == |pages| - 1 {
      PageAt(service, limit, pages, tokens, k);
    }
    FlatAt(service, limit, pages, tokens, m);
    StopsOnce(service, limit, m, n);
    assert pages[..|pages|] == pages;
  }

  // ---------------------------------------------------------------------------
  // The sort key
  // ---------------------------------------------------------------------------

  datatype Key = Key(timestamp: int, ingestionTime: int, eventId: string)

  function KeyOf(e: Event): Key {
    Key(e.timestamp, e.ingestionTime, e.eventId)
  }

  predicate KeyLess(a: Key, b: Key) {
    || a.timestamp < b.timestamp
    || (a.timestamp == b.timestamp && a.ingestionTime < b.ingestionTime)
    || (a.timestamp == b.timestamp && a.ingestionTime == b.ingestionTime && TextLess(a.eventId, b.eventId))
  }

  lemma KeyTotal(a: Key, b: Key)
    ensures a == b || KeyLess(a, b) || KeyLess(b, a)
  {
    TextTotal(a.eventId, b.eventId);
  }

  lemma KeyIrreflexive(a: Key)
    ensures !KeyLess(a, a)
  {
    TextIrreflexive(a.eventId);
  }

  lemma KeyTransitive(a: Key, b: Key, c: Key)
    requires KeyLess(a, b) && KeyLess(b, c)
    ensures KeyLess(a, c)
  {
    if TextLess(a.eventId, b.eventId) && TextLess(b.eventId, c.eventId) {
      TextTransitive(a.eventId, b.eventId, c.eventId);
    }
  }

  /** Not after, in key order. */
  predicate Below(a: Event, b: Event) {
    !KeyLess(KeyOf(b), KeyOf(a))
  }

  /** The order, field by field: by timestamp, then by ingestion time, then by id. */
  lemma OrderMeans(a: Event, b: Event)
    ensures a.timestamp != b.timestamp ==> (Below(a, b) <==> a.timestamp < b.timestamp)
    ensures a.timestamp == b.timestamp && a.ingestionTime != b.ingestionTime ==>
      (Below(a, b) <==> a.ingestionTime < b.ingestionTime)
    ensures a.timestamp == b.timestamp && a.ingestionTime == b.ingestionTime ==>
      (Below(a, b) <==> a.eventId == b.eventId || TextLess(a.eventId, b.eventId))
  {
    TextTotal(a.eventId, b.eventId);
    TextIrreflexive(a.eventId);
    if TextLess(a.eventId, b.eventId) && TextLess(b.eventId, a.eventId) {
      TextTransitive(a.eventId, b.eventId, a.eventId);
    }
  }

  lemma BelowTransitive(a: Event, b: Event, c: Event)
    requires Below(a, b) && Below(b, c)
    ensures Below(a, c)
  {
    KeyTotal(KeyOf(a), KeyOf(b));
    KeyTotal(KeyOf(b), KeyOf(c));
    if KeyLess(KeyOf(a), KeyOf(b)) && KeyLess(KeyOf(b), KeyOf(c)) {
      KeyTransitive(KeyOf(a), KeyOf(b), KeyOf(c));
    }
    KeyIrreflexive(KeyOf(a));
    if KeyLess(KeyOf(a), KeyOf(c)) && KeyLess(KeyOf(c), KeyOf(a)) {
      KeyTransitive(KeyOf(a), KeyOf(c), KeyOf(a));
    }
  }

  // ---------------------------------------------------------------------------
  // The stable sort
  // ---------------------------------------------------------------------------

  predicate InOrder(events: seq<Event>) {
    forall i, j | 0 <= i < j < |events| :: Below(events[i], events[j])
  }

  /** The events of one key, in their order. */
  function Matching(events: seq<Event>, key: Key): seq<Event> {
    if events == [] then []
    else (if KeyOf(events[0]) == key then [events[0]] else []) + Matching(events[1..], key)
  }

  /** Inserted before the first event of the same key or a later one. */
  function Insert(e: Event, events: seq<Event>): seq<Event> {
    if events == [] || Below(e, events[0]) then [e] + events
    else [events[0]] + Insert(e, events[1..])
  }

  function Sorted(events: seq<Event>): seq<Event> {
    if events == [] then [] else Insert(events[0], Sorted(events[1..]))
  }

  lemma {:induction false} InsertInOrder(e: Event, events: seq<Event>)
    requires InOrder(events)
    ensures InOrder(Insert(e, events)) && multiset(Insert(e, events)) == multiset{e} + multiset(events)
    ensures |Insert(e, events)| == |events| + 1
  {
    if events == [] {
    } else if Below(e, events[0]) {
      forall j | 0 <= j < |events| ensures Below(e, events[j]) {
        if j > 0 {
          BelowTransitive(e, events[0], events[j]);
        }
      }
    } else {
      InsertInOrder(e, events[1..]);
      assert events == [events[0]] + events[1..];
      InsertedAbove(e, events);
    }
  }

  lemma InsertedAbove(e: Event, events: seq<Event>)
    requires InOrder(events) && events != [] && !Below(e, events[0])
    requires InOrder(Insert(e, events[1..])) && multiset(Insert(e, events[1..])) == multiset{e} + multiset(events[1..])
    ensures InOrder([events[0]] + Insert(e, events[1..]))
  {
    var rest := Insert(e, events[1..]);
    forall j | 0 <= j < |rest| ensures Below(events[0], rest[j]) {
      assert rest[j] in multiset(rest);
      if rest[j] == e {
        KeyIrreflexive(KeyOf(e));
        if KeyLess(KeyOf(e), KeyOf(events[0])) && KeyLess(KeyOf(events[0]), KeyOf(e)) {
          KeyTransitive(KeyOf(e), KeyOf(events[0]), KeyOf(e));
        }
      } else {
        assert rest[j] in events[1..];
      }
    }
  }

  lemma {:induction false} InsertIsStable(e: Event, events: seq<Event>, key: Key)
    ensures Matching(Insert(e, events), key) == (if KeyOf(e) == key then [e] else []) + Matching(events, key)
  {
    if events != [] && !Below(e, events[0]) {
      InsertIsStable(e, events[1..], key);
      KeyIrreflexive(KeyOf(e));
      assert Insert(e, events)[1..] == Insert(e, events[1..]);
    }
  }

  /** Sorting orders the events, keeps each of them, and keeps the order of those with the same key. */
  lemma {:induction false} SortedLaws(events: seq<Event>)
    ensures InOrder(Sorted(events)) && multiset(Sorted(events)) == multiset(events)
    ensures |Sorted(events)| == |events|
    ensures forall key :: Matching(Sorted(events), key) == Matching(events, key)
  {
    if events != [] {
      SortedLaws(events[1..]);
      InsertInOrder(events[0], Sorted(events[1..]));
      assert events == [events[0]] + events[1..];
      forall key ensures Matching(Sorted(events), key) == Matching(events, key) {
        InsertIsStable(events[0], Sorted(events[1..]), key);
      }
    }
  }

  lemma {:induction false} MatchingOccurs(events: seq<Event>, key: Key)
    ensures Matching(events, key) != [] <==> exists i :: 0 <= i < |events| && KeyOf(events[i]) == key
  {
    if events != [] {
      MatchingOccurs(events[1..], key);
      if exists i :: 0 <= i < |events[1..]| && KeyOf(events[1..][i]) == key {
        var i :| 0 <= i < |events[1..]| && KeyOf(events[1..][i]) == key;
        assert KeyOf(events[i + 1]) == key;
      }
    }
  }

  ghost predicate SameMatching(a: seq<Event>, b: seq<Event>) {
    forall key :: Matching(a, key) == Matching(b, key)
  }

  /** The first event of an ordered list comes after none of another list of the same events. */
  lemma HeadIsLowest(a: seq<Event>, b: seq<Event>)
    requires InOrder(a) && SameMatching(a, b) && a != [] && b != []
    ensures Below(a[0], b[0])
  {
    var key := KeyOf(b[0]);
    MatchingOccurs(b, key);
    MatchingOccurs(a, key);
    assert Matching(a, key) == Matching(b, key);
    var i :| 0 <= i < |a| && KeyOf(a[i]) == key;
    KeyIrreflexive(key);
    assert i > 0 ==> Below(a[0], a[i]);
  }

  lemma SameHead(a: seq<Event>, b: seq<Event>)
    requires InOrder(a) && InOrder(b) && SameMatching(a, b) && a != [] && b != []
    ensures a[0] == b[0]
  {
    HeadIsLowest(a, b);
    HeadIsLowest(b, a);
    KeyTotal(KeyOf(a[0]), KeyOf(b[0]));
    var key := KeyOf(a[0]);
    assert Matching(a, key) == Matching(b, key);
    assert Matching(a, key)[0] == a[0] && Matching(b, key)[0] == b[0];
  }

  lemma SameTail(a: seq<Event>, b: seq<Event>)
    requires SameMatching(a, b) && a != [] && b != [] && a[0] == b[0]
    ensures SameMatching(a[1..], b[1..])
  {
    forall key ensures Matching(a[1..], key) == Matching(b[1..], key) {
      assert Matching(a, key) == Matching(b, key);
      var front := if KeyOf(a[0]) == key then [a[0]] else [];
      assert Matching(a, key) == front + Matching(a[1..], key);
      assert Matching(b, key) == front + Matching(b[1..], key);
      assert Matching(a, key)[|front|..] == Matching(a[1..], key);
      assert Matching(b, key)[|front|..] == Matching(b[1..], key);
    }
  }

  lemma SameEmptiness(a: seq<Event>, b: seq<Event>)
    requires SameMatching(a, b)
    ensures a == [] <==> b == []
  {
    if a != [] {
      assert Matching(a, KeyOf(a[0])) == Matching(b, KeyOf(a[0]));
    }
    if b != [] {
      assert Matching(a, KeyOf(b[0])) == Matching(b, KeyOf(b[0]));
    }
  }

  /** Any ordered list that keeps the events of each key in their order is the sorted one. */
  lemma {:induction false} StableSortIsUnique(a: seq<Event>, b: seq<Event>)
    requires InOrder(a) && InOrder(b) && SameMatching(a, b)
    ensures a == b
  {
    SameEmptiness(a, b);
    if a != [] {
      SameHead(a, b);
      SameTail(a, b);
      StableSortIsUnique(a[1..], b[1..]);
      assert a == [a[0]] + a[1..] && b == [b[0]] + b[1..];
    }
  }

  // ---------------------------------------------------------------------------
  // The tail
  // ---------------------------------------------------------------------------

  /** Python's `events[-limit:]`, taken when there are more events than the limit: for a limit of zero
      that is everything, and for a negative one the cut is at the front. */
  function Tail(events: seq<Event>, limit: int): seq<Event> {
    if |events| <= limit then events
    else if limit > 0 then events[|events| - limit..]
    else if -limit <= |events| then events[-limit..]
    else []
  }

  function Messages(events: seq<Event>): seq<string> {
    seq(|events|, i requires 0 <= i < |events| => events[i].message)
  }

  method Overwrite(events: array<Event>, contents: seq<Event>)
    requires |contents| == events.Length
    modifies events
    ensures events[..] == contents
  {
    for i := 0 to events.Length
      invariant events[..i] == contents[..i]
    {
      events[i] := contents[i];
    }
    assert events[..] == events[..events.Length];
    assert contents == contents[..events.Length];
  }

  /** Sorts the given events in place, and returns the messages of the tail. */
  method NormalizeLogEvents(events: array<Event>, limit: int) returns (messages: seq<string>)
    modifies events
    ensures events[..] == Sorted(old(events[..]))
    ensures var tail := Tail(Sorted(old(events[..])), limit);
      |messages| == |tail| && forall i | 0 <= i < |tail| :: messages[i] == tail[i].message
  {
    SortedLaws(events[..]);
    Overwrite(events, Sorted(events[..]));
    messages := Messages(Tail(events[..], limit));
  }

  /** For a limit of at least one, what is kept is the end of the sorted list: as many as the limit
      allows, in order, and nothing dropped comes after anything kept. */
  lemma TailIsExact(events: seq<Event>, limit: int) returns (dropped: seq<Event>)
    requires limit >= 1
    ensures dropped + Tail(Sorted(events), limit) == Sorted(events)
    ensures |Tail(Sorted(events), limit)| == (if |events| <= limit then |events| else limit)
    ensures InOrder(Tail(Sorted(events), limit))
    ensures multiset(dropped) + multiset(Tail(Sorted(events), limit)) == multiset(events)
    ensures forall i, j | 0 <= i < |dropped| && 0 <= j < |Tail(Sorted(events), limit)| ::
              Below(dropped[i], Tail(Sorted(events), limit)[j])
  {
    SortedLaws(events);
    dropped := TailSplits(Sorted(events), limit);
  }

  lemma TailSplits(sorted: seq<Event>, limit: int) returns (dropped: seq<Event>)
    requires InOrder(sorted) && limit >= 1
    ensures dropped + Tail(sorted, limit) == sorted
    ensures |Tail(sorted, limit)| == (if |sorted| <= limit then |sorted| else limit)
    ensures InOrder(Tail(sorted, limit))
    ensures multiset(dropped) + multiset(Tail(sorted, limit)) == multiset(sorted)
    ensures forall i, j | 0 <= i < |dropped| && 0 <= j < |Tail(sorted, limit)| :: Below(dropped[i], Tail(sorted, limit)[j])
  {
    var n := if |sorted| <= limit then 0 else |sorted| - limit;
    dropped := sorted[..n];
    SplitOrder(sorted, n);
    assert Tail(sorted, limit) == sorted[n..] && sorted == sorted[..n] + sorted[n..];
  }

  lemma SplitOrder(sorted: seq<Event>, n: nat)
    requires InOrder(sorted) && n <= |sorted|
    ensures InOrder(sorted[n..])
    ensures forall i, j | 0 <= i < n && 0 <= j < |sorted| - n :: Below(sorted[..n][i], sorted[n..][j])
  {
  }

  /** As many events as a limit allows, none for one that is not positive. */
  function Allowed(events: seq<Event>, limit: int): nat {
    if limit < 0 then 0 else if limit < |events| then limit else |events|
  }

  /** Exactly when the cut leaves as many events as the limit allows: for a positive limit always, for one
      of zero only if there are none, and for a negative one only if there are no more than its size. A
      limit of zero keeps everything. */
  lemma TailCount(events: seq<Event>, limit: int)
    ensures |Tail(events, limit)| == Allowed(events, limit) <==> limit >= 1 || |events| <= -limit
    ensures limit == 0 ==> Tail(events, limit) == events
    ensures limit < 0 ==> Tail(events, limit) == if -limit < |events| then events[-limit..] else []
  {
    if limit == 0 {
      assert events[0..] == events;
    }
  }

  /** One event and a limit of zero, or two and a limit of minus one. */
  lemma NotCut(a: Event, b: Event)
    ensures Tail([a], 0) == [a] && Allowed([a], 0) == 0
    ensures Tail([a, b], -1) == [b] && Allowed([a, b], -1) == 0
  {
    TailCount([a], 0);
    assert [a, b][1..] == [b];
  }
}
