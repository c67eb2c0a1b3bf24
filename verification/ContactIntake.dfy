/** Abuse controls on public contact submissions: a rate limit per source address and a window in
    which a repeated submission is a duplicate. */
module ContactIntake {
  import opened Text

  /** Times are in the database's smallest unit. */
  datatype Submission = Submission(email: string, sourceIp: Option<string>, createdAt: int, details: Details)

  /** What else is stored of a request: nothing of it matters to the controls. */
  datatype Details = Details(name: string, company: Option<string>, useCase: Option<string>, message: Option<string>)

  datatype ContactRequest = ContactRequest(email: string, details: Details)

  datatype Settings = Settings(rateMax: int, rateWindow: int, duplicateWindow: int)

  datatype Verdict = Accept | TooMany | Duplicate

  /** `lower` stands for Python's lower-casing, of which nothing is needed. */
  function NormalizeEmail(email: string, lower: string -> string): string {
    lower(Strip(email))
  }

  function NormalizeOptionalTrim(value: Option<string>): Option<string> {
    if value.None? || Strip(value.value) == "" then None else Some(Strip(value.value))
  }

  function TrimmedDetails(d: Details): Details {
    Details(Strip(d.name), NormalizeOptionalTrim(d.company), NormalizeOptionalTrim(d.useCase),
            NormalizeOptionalTrim(d.message))
  }

  /** Submissions of one source address since a time. */
  function CountSince(table: seq<Submission>, ip: Option<string>, start: int): nat {
    if table == [] then 0
    else
      var last := table[|table| - 1];
      CountSince(table[..|table| - 1], ip, start) + if last.sourceIp == ip && last.createdAt >= start then 1 else 0
  }

  predicate HasDuplicate(table: seq<Submission>, email: string, ip: Option<string>, start: int) {
    exists s | s in table :: s.email == email && s.sourceIp == ip && s.createdAt >= start
  }

  /** A source address that is known: neither missing nor empty. */
  predicate Known(ip: Option<string>) {
    ip.Some? && ip.value != ""
  }

  function Judge(table: seq<Submission>, settings: Settings, email: string, ip: Option<string>, now: int): Verdict {
    if Known(ip) && CountSince(table, ip, now - settings.rateWindow) >= settings.rateMax then TooMany
    else if HasDuplicate(table, email, ip, now - settings.duplicateWindow) then Duplicate
    else Accept
  }

  // ---------------------------------------------------------------------------
  // What a table filled through the controls looks like
  // ---------------------------------------------------------------------------

  /** Every submission was accepted against the ones before it. */
  predicate AllAccepted(table: seq<Submission>, settings: Settings) {
    table == [] ||
    var init, last := table[..|table| - 1], table[|table| - 1];
    AllAccepted(init, settings) && Judge(init, settings, last.email, last.sourceIp, last.createdAt).Accept?
  }

  /** Submissions of one source address in the closed window [start, start + length]. */
  function CountWithin(table: seq<Submission>, ip: Option<string>, start: int, length: int): nat {
    if table == [] then 0
    else
      var last := table[|table| - 1];
      CountWithin(table[..|table| - 1], ip, start, length) +
      if last.sourceIp == ip && start <= last.createdAt <= start + length then 1 else 0
  }

  lemma {:induction false} WithinIsSince(table: seq<Submission>, ip: Option<string>, start: int, length: int, since: int)
    requires since <= start
    ensures CountWithin(table, ip, start, length) <= CountSince(table, ip, since)
  {
    if table != [] {
      WithinIsSince(table[..|table| - 1], ip, start, length, since);
    }
  }

  /** The rate limit's promise: wherever a closed window of the configured length starts, it holds at
      most the configured number of accepted submissions of a known source address. */
  lemma {:induction false} RateIsBounded(table: seq<Submission>, settings: Settings, ip: Option<string>, start: int)
    requires AllAccepted(table, settings) && Known(ip) && settings.rateMax >= 0
    ensures CountWithin(table, ip, start, settings.rateWindow) <= settings.rateMax
  {
    if table != [] {
      var init, last := table[..|table| - 1], table[|table| - 1];
      if last.sourceIp == ip && start <= last.createdAt <= start + settings.rateWindow {
        WithinIsSince(init, ip, start, settings.rateWindow, last.createdAt - settings.rateWindow);
      } else {
        RateIsBounded(init, settings, ip, start);
      }
    }
  }

  /** Two accepted submissions with the same email and source address, known or not, are more than
      the duplicate window apart. */
  lemma {:induction false} DuplicatesAreApart(table: seq<Submission>, settings: Settings, i: nat, j: nat)
    requires AllAccepted(table, settings) && i < j < |table|
    requires table[i].email == table[j].email && table[i].sourceIp == table[j].sourceIp
    ensures table[j].createdAt - table[i].createdAt > settings.duplicateWindow
  {
    var init := table[..|table| - 1];
    if j == |table| - 1 {
      assert init[i] in init;
    } else {
      DuplicatesAreApart(init, settings, i, j);
    }
  }

  /** The controls are exact: when no row is later than the clock, a submission of a
      known address is refused for its rate exactly when accepting it would overfill the window that ends now. */
  lemma RefusalWasNeeded(table: seq<Submission>, settings: Settings, email: string, ip: Option<string>, now: int,
                         details: Details)
    requires Known(ip) && settings.rateWindow >= 0 && forall s | s in table :: s.createdAt <= now
    ensures Judge(table, settings, email, ip, now) == TooMany <==>
      CountWithin(table + [Submission(email, ip, now, details)], ip, now - settings.rateWindow, settings.rateWindow) > settings.rateMax
  {
    var longer := table + [Submission(email, ip, now, details)];
    assert longer[..|table|] == table;
    SinceIsWithin(table, ip, now - settings.rateWindow, settings.rateWindow);
  }

  lemma {:induction false} SinceIsWithin(table: seq<Submission>, ip: Option<string>, start: int, length: int)
    requires forall s | s in table :: s.createdAt <= start + length
    ensures CountWithin(table, ip, start, length) == CountSince(table, ip, start)
  {
    if table != [] {
      assert table == table[..|table| - 1] + [table[|table| - 1]];
      SinceIsWithin(table[..|table| - 1], ip, start, length);
    }
  }

  /** An optional text is stored stripped, and not at all when nothing is left of it. */
  predicate StoredTrimmed(stored: Option<string>, given: Option<string>) {
    if given.Some? && Strip(given.value) != "" then stored == Some(Strip(given.value)) else stored == None
  }

  /** The row of a request, field by field. */
  predicate IsRowOf(row: Submission, req: ContactRequest, email: string, sourceIp: Option<string>, now: int) {
    && row.email == email && row.sourceIp == sourceIp && row.createdAt == now
    && row.details.name == Strip(req.details.name)
    && StoredTrimmed(row.details.company, req.details.company)
    && StoredTrimmed(row.details.useCase, req.details.useCase)
    && StoredTrimmed(row.details.message, req.details.message)
  }

  /** The public endpoint over its table. */
  class ContactDesk {
    const settings: Settings
    const lower: string -> string
    var table: seq<Submission>

    constructor (settings: Settings, lower: string -> string)
      ensures this.settings == settings && this.lower == lower && table == []
    {
      this.settings := settings;
      this.lower := lower;
      table := [];
    }

    /** Inserts the submission exactly when the controls accept it, with its email normalised and its
        details trimmed; once the table is filled through the controls it stays so, whatever the clock
        reads. */
    method PostPublicContact(req: ContactRequest, sourceIp: Option<string>, now: int) returns (v: Verdict)
      modifies this
      ensures v == Judge(old(table), settings, lower(Strip(req.email)), sourceIp, now)
      ensures v == TooMany ==> sourceIp.Some? && sourceIp.value != ""
      ensures v == Duplicate <==> v != TooMany && exists s | s in old(table) ::
        s.email == lower(Strip(req.email)) && s.sourceIp == sourceIp && s.createdAt >= now - settings.duplicateWindow
      ensures if v != Accept then table == old(table) else
        |table| == |old(table)| + 1 && table[..|old(table)|] == old(table) &&
        IsRowOf(table[|old(table)|], req, lower(Strip(req.email)), sourceIp, now)
      ensures old(AllAccepted(table, settings)) ==> AllAccepted(table, settings)
    {
      var email := NormalizeEmail(req.email, lower);
      if Known(sourceIp) {
        var recent := CountSince(table, sourceIp, now - settings.rateWindow);
        if recent >= settings.rateMax {
          return TooMany;
        }
      }
      if HasDuplicate(table, email, sourceIp, now - settings.duplicateWindow) {
        return Duplicate;
      }
      var row := Submission(email, sourceIp, now, TrimmedDetails(req.details));
      assert (table + [row])[..|table|] == table;
      table := table + [row];
      v := Accept;
    }
  }
}
