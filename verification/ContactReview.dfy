/** Approval and rejection of contact submissions by any number of administrators, interleaving
    under a row lock; an approval creates a tenant in the same transaction. */
module ContactReview {
  import opened Text

  datatype Status = Pending | Approved | Rejected

  datatype Row = Row(status: Status, tenant: Option<string>, approvedBy: Option<string>)

  /** A committed tenant and the submission it was created for. */
  datatype Tenant = Tenant(id: string, submission: string)

  datatype Phase =
    | Arrived
    | Checked                    // holds the row lock, has seen "pending"
    | Drafted(tenant: string)    // the tenant's rows are flushed, not committed
    | NotFound
    | AlreadyDecided(status: Status)
    | Failed
    | Succeeded

  datatype Review = Review(submission: string, approving: bool, admin: string, phase: Phase)

  datatype System = System(
    rows: map<string, Row>,
    tenants: seq<Tenant>,
    locks: map<string, nat>,
    reviews: map<nat, Review>)

  datatype Action =
    | Submit(submission: string)
    | Begin(c: nat, submission: string, approving: bool, admin: string)
    | LockAndCheck(c: nat)
    | CreateTenant(c: nat, tenant: string)
    | Commit(c: nat)
    | RollBack(c: nat)           // tenant creation or the commit raises, or the process dies

  predicate HoldsLock(p: Phase) {
    p.Checked? || p.Drafted?
  }

  predicate Open(p: Phase) {
    p.Arrived? || HoldsLock(p)
  }

  predicate Enabled(s: System, a: Action) {
    match a
    case Submit(id) => id !in s.rows
    case Begin(c, _, _, _) => c !in s.reviews
    case LockAndCheck(c) => c in s.reviews && s.reviews[c].phase.Arrived? && s.reviews[c].submission !in s.locks
    case CreateTenant(c, _) => c in s.reviews && s.reviews[c].phase.Checked? && s.reviews[c].approving
    case Commit(c) =>
      && c in s.reviews && s.reviews[c].submission in s.rows
      && if s.reviews[c].approving then s.reviews[c].phase.Drafted? else s.reviews[c].phase.Checked?
    case RollBack(c) => c in s.reviews && Open(s.reviews[c].phase)
  }

  function Enter(s: System, c: nat, phase: Phase): System
    requires c in s.reviews
  {
    s.(reviews := s.reviews[c := s.reviews[c].(phase := phase)])
  }

  /** Ending the transaction releases the row lock. */
  function Leave(s: System, c: nat, phase: Phase): System
    requires c in s.reviews
  {
    var done := Enter(s, c, phase);
    if HoldsLock(s.reviews[c].phase) then done.(locks := s.locks - {s.reviews[c].submission}) else done
  }

  function Step(s: System, a: Action): System
    requires Enabled(s, a)
  {
    match a
    case Submit(id) => s.(rows := s.rows[id := Row(Pending, None, None)])
    case Begin(c, id, approving, admin) => s.(reviews := s.reviews[c := Review(id, approving, admin, Arrived)])
    case LockAndCheck(c) =>
      var id := s.reviews[c].submission;
      if id !in s.rows then Leave(s, c, NotFound)
      else if s.rows[id].status != Pending then Leave(s, c, AlreadyDecided(s.rows[id].status))
      else Enter(s, c, Checked).(locks := s.locks[id := c])
    case CreateTenant(c, tenant) => Enter(s, c, Drafted(tenant))
    case Commit(c) =>
      var me := s.reviews[c];
      if me.approving then
        Leave(s, c, Succeeded).(
          rows := s.rows[me.submission := Row(Approved, Some(me.phase.tenant), Some(me.admin))],
          tenants := s.tenants + [Tenant(me.phase.tenant, me.submission)])
      else
        Leave(s, c, Succeeded).(rows := s.rows[me.submission := s.rows[me.submission].(status := Rejected)])
    case RollBack(c) => Leave(s, c, Failed)
  }

  function After(s: System, schedule: seq<Action>): System {
    if schedule == [] then s
    else
      var before := After(s, schedule[..|schedule| - 1]);
      var a := schedule[|schedule| - 1];
      if Enabled(before, a) then Step(before, a) else before
  }

  const EMPTY := System(map[], [], map[], map[])

  predicate RowOk(s: System, id: string)
    requires id in s.rows
  {
    var row := s.rows[id];
    && (row.status.Approved? <==> row.tenant.Some?)
    && (row.status.Approved? <==> row.approvedBy.Some?)
    && (forall t | t in s.tenants && t.submission == id :: row.tenant == Some(t.id))
    && (row.tenant.Some? ==> Tenant(row.tenant.value, id) in s.tenants)
  }

  predicate ReviewOk(s: System, c: nat)
    requires c in s.reviews
  {
    var me := s.reviews[c];
    HoldsLock(me.phase) ==>
      && me.submission in s.locks && s.locks[me.submission] == c
      && me.submission in s.rows && s.rows[me.submission].status == Pending
  }

  /** What a review was told is so: a success decided the submission its way, and a refusal names the
      decision there was. */
  predicate OutcomeOk(s: System, c: nat)
    requires c in s.reviews
  {
    var me := s.reviews[c];
    match me.phase
    case Succeeded => me.submission in s.rows &&
      if me.approving then
        s.rows[me.submission].status == Approved && s.rows[me.submission].approvedBy == Some(me.admin)
      else s.rows[me.submission].status == Rejected
    case AlreadyDecided(status) =>
      me.submission in s.rows && s.rows[me.submission].status == status && status != Pending
    case _ => true
  }

  /** The review decided this submission. */
  predicate Decided(s: System, c: nat, id: string) {
    c in s.reviews && s.reviews[c].submission == id && s.reviews[c].phase == Succeeded
  }

  ghost predicate DecisionOk(s: System, id: string)
    requires id in s.rows
  {
    && (s.rows[id].status != Pending ==> exists c :: Decided(s, c, id))
    && (forall c, d | Decided(s, c, id) && Decided(s, d, id) :: c == d)
  }

  predicate LockOk(s: System, id: string)
    requires id in s.locks
  {
    var c := s.locks[id];
    c in s.reviews && s.reviews[c].submission == id && HoldsLock(s.reviews[c].phase)
  }

  ghost predicate Inv(s: System) {
    && (forall id | id in s.rows :: RowOk(s, id))
    && (forall id | id in s.rows :: DecisionOk(s, id))
    && (forall id | id in s.locks :: LockOk(s, id))
    && (forall c | c in s.reviews :: OutcomeOk(s, c))
    && (forall t | t in s.tenants :: t.submission in s.rows)
    && (forall i, j | 0 <= i < j < |s.tenants| :: s.tenants[i].submission != s.tenants[j].submission)
    && (forall c | c in s.reviews :: ReviewOk(s, c))
  }

  lemma CommitKeepsInv(s: System, c: nat)
    requires Inv(s) && Enabled(s, Commit(c))
    ensures Inv(Step(s, Commit(c)))
  {
    var t := Step(s, Commit(c));
    CommitKeepsTenants(s, c);
    forall id | id in t.rows ensures RowOk(t, id) {
      CommitKeepsRow(s, c, id);
    }
    forall d | d in t.reviews ensures ReviewOk(t, d) && OutcomeOk(t, d) {
      CommitKeepsReview(s, c, d);
    }
    forall id | id in t.rows ensures DecisionOk(t, id) {
      CommitKeepsDecision(s, c, id);
    }
    forall id | id in t.locks ensures LockOk(t, id) {
      assert LockOk(s, id);
    }
  }

  lemma CommitKeepsTenants(s: System, c: nat)
    requires Inv(s) && Enabled(s, Commit(c))
    ensures var t := Step(s, Commit(c));
      && (forall x | x in t.tenants :: x.submission in t.rows)
      && forall i, j | 0 <= i < j < |t.tenants| :: t.tenants[i].submission != t.tenants[j].submission
  {
    var t, me := Step(s, Commit(c)), s.reviews[c];
    assert ReviewOk(s, c) && RowOk(s, me.submission);
    assert forall x | x in s.tenants :: x.submission != me.submission;
    assert forall i | 0 <= i < |s.tenants| :: s.tenants[i] in s.tenants && t.tenants[i] == s.tenants[i];
  }

  lemma CommitKeepsDecision(s: System, c: nat, id: string)
    requires Inv(s) && Enabled(s, Commit(c)) && id in Step(s, Commit(c)).rows
    ensures DecisionOk(Step(s, Commit(c)), id)
  {
    var t, me := Step(s, Commit(c)), s.reviews[c];
    assert ReviewOk(s, c) && DecisionOk(s, id);
    if id == me.submission {
      assert Decided(t, c, id);
      forall d | Decided(t, d, id) ensures d == c {
        assert d != c ==> OutcomeOk(s, d);
      }
    } else {
      assert forall d :: Decided(t, d, id) <==> Decided(s, d, id);
    }
  }

  lemma CommitKeepsRow(s: System, c: nat, id: string)
    requires Inv(s) && Enabled(s, Commit(c)) && id in Step(s, Commit(c)).rows
    ensures RowOk(Step(s, Commit(c)), id)
  {
    var t, me := Step(s, Commit(c)), s.reviews[c];
    assert ReviewOk(s, c) && RowOk(s, me.submission) && RowOk(s, id);
    if me.approving {
      var created := Tenant(me.phase.tenant, me.submission);
      assert t.tenants[|s.tenants|] == created;
      assert forall x :: x in t.tenants <==> x in s.tenants || x == created;
    }
  }

  lemma CommitKeepsReview(s: System, c: nat, d: nat)
    requires Inv(s) && Enabled(s, Commit(c)) && d in s.reviews
    ensures ReviewOk(Step(s, Commit(c)), d) && OutcomeOk(Step(s, Commit(c)), d)
  {
    assert ReviewOk(s, c) && ReviewOk(s, d) && OutcomeOk(s, d);
  }

  /** Steps that decide nothing. */
  lemma OtherKeepsInv(s: System, a: Action)
    requires Inv(s) && Enabled(s, a) && !a.Commit?
    ensures Inv(Step(s, a))
  {
    var t := Step(s, a);
    forall id | id in t.rows ensures RowOk(t, id) {
      OtherKeepsRow(s, a, id);
    }
    forall d | d in t.reviews ensures ReviewOk(t, d) && OutcomeOk(t, d) {
      OtherKeepsReview(s, a, d);
      assert d in s.reviews ==> OutcomeOk(s, d);
      OtherKeepsOutcome(s, a, d);
    }
    forall id | id in t.rows ensures DecisionOk(t, id) {
      OtherKeepsDecision(s, a, id);
    }
    forall id | id in t.locks ensures LockOk(t, id) {
      OtherKeepsLock(s, a, id);
    }
  }

  lemma OtherKeepsDecision(s: System, a: Action, id: string)
    requires Inv(s) && Enabled(s, a) && !a.Commit? && id in Step(s, a).rows
    ensures DecisionOk(Step(s, a), id)
  {
    var t := Step(s, a);
    forall c ensures Decided(t, c, id) <==> Decided(s, c, id) {
      OtherDecidesNothing(s, a, c, id);
    }
    if id in s.rows {
      assert DecisionOk(s, id);
    } else {
      UndecidedWhenMissing(s, id);
    }
  }

  lemma UndecidedWhenMissing(s: System, id: string)
    requires Inv(s) && id !in s.rows
    ensures forall c :: !Decided(s, c, id)
  {
    forall c ensures !Decided(s, c, id) {
      assert c in s.reviews ==> OutcomeOk(s, c);
    }
  }

  lemma OtherDecidesNothing(s: System, a: Action, c: nat, id: string)
    requires Enabled(s, a) && !a.Commit?
    ensures Decided(Step(s, a), c, id) <==> Decided(s, c, id)
  {
  }

  lemma OtherKeepsLock(s: System, a: Action, id: string)
    requires Inv(s) && Enabled(s, a) && !a.Commit? && id in Step(s, a).locks
    ensures LockOk(Step(s, a), id)
  {
    assert id in s.locks ==> LockOk(s, id);
    if (a.CreateTenant? || a.RollBack?) && a.c in s.reviews {
      assert ReviewOk(s, a.c);
    }
  }

  lemma OtherKeepsRow(s: System, a: Action, id: string)
    requires Inv(s) && Enabled(s, a) && !a.Commit? && id in Step(s, a).rows
    ensures RowOk(Step(s, a), id)
  {
    assert id in s.rows ==> RowOk(s, id);
  }

  lemma OtherKeepsReview(s: System, a: Action, d: nat)
    requires Enabled(s, a) && !a.Commit? && d in Step(s, a).reviews
    requires d in s.reviews ==> ReviewOk(s, d)
    requires !a.Submit? && a.c in s.reviews ==> ReviewOk(s, a.c)
    ensures ReviewOk(Step(s, a), d)
  {
  }

  lemma OtherKeepsOutcome(s: System, a: Action, d: nat)
    requires Enabled(s, a) && !a.Commit? && d in Step(s, a).reviews && (d in s.reviews ==> OutcomeOk(s, d))
    ensures OutcomeOk(Step(s, a), d)
  {
  }

  lemma {:induction false} AfterKeepsInv(s: System, schedule: seq<Action>)
    requires Inv(s)
    ensures Inv(After(s, schedule))
  {
    if schedule != [] {
      var before, a := After(s, schedule[..|schedule| - 1]), schedule[|schedule| - 1];
      AfterKeepsInv(s, schedule[..|schedule| - 1]);
      if Enabled(before, a) {
        if a.Commit? { CommitKeepsInv(before, a.c); } else { OtherKeepsInv(before, a); }
      }
    }
  }

  /** In every interleaving, failed approvals included: a submission has at most one committed tenant;
      it is approved exactly when it has one, and then links that tenant and names its approver. */
  lemma ApprovedExactlyWithItsTenant(schedule: seq<Action>, id: string)
    requires id in After(EMPTY, schedule).rows
    ensures var s := After(EMPTY, schedule);
      && (forall i, j | 0 <= i < j < |s.tenants| :: s.tenants[i].submission != s.tenants[j].submission)
      && (s.rows[id].status.Approved? <==> exists t :: t in s.tenants && t.submission == id)
      && (forall t | t in s.tenants && t.submission == id :: s.rows[id].tenant == Some(t.id))
      && (s.rows[id].status.Approved? <==> s.rows[id].approvedBy.Some?)
  {
    AfterKeepsInv(EMPTY, schedule);
    var s := After(EMPTY, schedule);
    assert RowOk(s, id);
    if s.rows[id].tenant.Some? {
      assert Tenant(s.rows[id].tenant.value, id) in s.tenants;
    }
  }

  /** Whatever happens next, a decided submission keeps its decision, its tenant and its approver. */
  lemma {:induction false} DecisionsAreFinal(schedule: seq<Action>, more: seq<Action>, id: string)
    requires id in After(EMPTY, schedule).rows && After(EMPTY, schedule).rows[id].status != Pending
    ensures id in After(EMPTY, schedule + more).rows
    ensures After(EMPTY, schedule + more).rows[id] == After(EMPTY, schedule).rows[id]
  {
    if more == [] {
      assert schedule + more == schedule;
    } else {
      var init, a := more[..|more| - 1], more[|more| - 1];
      DecisionsAreFinal(schedule, init, id);
      assert schedule + more == (schedule + init) + [a];
      AfterOne(EMPTY, schedule + init, a);
      var before := After(EMPTY, schedule + init);
      AfterKeepsInv(EMPTY, schedule + init);
      if Enabled(before, a) {
        DecidedStays(before, a, id);
      }
    }
  }

  lemma DecidedStays(s: System, a: Action, id: string)
    requires Inv(s) && Enabled(s, a) && id in s.rows && s.rows[id].status != Pending
    ensures id in Step(s, a).rows && Step(s, a).rows[id] == s.rows[id]
  {
    if a.Commit? {
      assert ReviewOk(s, a.c);
    }
  }

  /** A failed review undoes itself: rows and tenants are as before and the row is unlocked, so the
      submission stays pending and can still be approved. */
  lemma FailureKeepsPending(schedule: seq<Action>, c: nat)
    requires Enabled(After(EMPTY, schedule), RollBack(c))
    ensures var s := After(EMPTY, schedule);
      var t := Step(s, RollBack(c));
      && t.rows == s.rows && t.tenants == s.tenants
      && (HoldsLock(s.reviews[c].phase) ==>
        && s.reviews[c].submission !in t.locks
        && s.reviews[c].submission in t.rows && t.rows[s.reviews[c].submission].status == Pending)
  {
    AfterKeepsInv(EMPTY, schedule);
    assert ReviewOk(After(EMPTY, schedule), c);
  }

  /** A lock held on a submission excludes every other decision of it: two reviews of one submission
      are never both between their check and their end. */
  lemma OneReviewAtATime(schedule: seq<Action>, c: nat, d: nat)
    requires var s := After(EMPTY, schedule);
      && c in s.reviews && d in s.reviews && s.reviews[c].submission == s.reviews[d].submission
      && HoldsLock(s.reviews[c].phase) && HoldsLock(s.reviews[d].phase)
    ensures c == d
  {
    AfterKeepsInv(EMPTY, schedule);
    assert ReviewOk(After(EMPTY, schedule), c) && ReviewOk(After(EMPTY, schedule), d);
  }

  lemma AfterOne(s: System, schedule: seq<Action>, a: Action)
    ensures After(s, schedule + [a]) ==
      if Enabled(After(s, schedule), a) then Step(After(s, schedule), a) else After(s, schedule)
  {
    assert (schedule + [a])[..|schedule|] == schedule;
  }

  /** A pending, unlocked submission can be approved by a new review, which creates its tenant. */
  lemma ApprovalSucceeds(s: System, c: nat, id: string, admin: string, tenant: string)
    requires id in s.rows && s.rows[id].status == Pending && id !in s.locks && c !in s.reviews
    ensures var t := After(s, [Begin(c, id, true, admin), LockAndCheck(c), CreateTenant(c, tenant), Commit(c)]);
      && t.rows == s.rows[id := Row(Approved, Some(tenant), Some(admin))]
      && t.tenants == s.tenants + [Tenant(tenant, id)]
      && t.locks == s.locks && c in t.reviews && t.reviews[c].phase == Succeeded
  {
    var a1, a2, a3, a4 := Begin(c, id, true, admin), LockAndCheck(c), CreateTenant(c, tenant), Commit(c);
    AfterOne(s, [], a1);
    AfterOne(s, [a1], a2);
    AfterOne(s, [a1, a2], a3);
    AfterOne(s, [a1, a2, a3], a4);
    assert [] + [a1] == [a1] && [a1] + [a2] == [a1, a2] && [a1, a2] + [a3] == [a1, a2, a3];
    assert [a1, a2, a3] + [a4] == [a1, a2, a3, a4];
  }

  /** Or rejected by a new review, which changes its status and nothing else. */
  lemma RejectionSucceeds(s: System, c: nat, id: string, admin: string)
    requires id in s.rows && s.rows[id].status == Pending && id !in s.locks && c !in s.reviews
    ensures var t := After(s, [Begin(c, id, false, admin), LockAndCheck(c), Commit(c)]);
      && t.rows == s.rows[id := s.rows[id].(status := Rejected)]
      && t.tenants == s.tenants
      && t.locks == s.locks && c in t.reviews && t.reviews[c].phase == Succeeded
  {
    var a1, a2, a3 := Begin(c, id, false, admin), LockAndCheck(c), Commit(c);
    AfterOne(s, [], a1);
    AfterOne(s, [a1], a2);
    AfterOne(s, [a1, a2], a3);
    assert [] + [a1] == [a1] && [a1] + [a2] == [a1, a2] && [a1, a2] + [a3] == [a1, a2, a3];
  }

  /** In every run, a successful rejection left its submission rejected, a successful approval left it
      approved in the name of its administrator, and a refused review named the decision there was. */
  lemma OutcomesAreSo(schedule: seq<Action>, c: nat)
    requires c in After(EMPTY, schedule).reviews
    ensures var s := After(EMPTY, schedule);
      var me := s.reviews[c];
      && (me.phase == Succeeded && !me.approving ==>
        me.submission in s.rows && s.rows[me.submission].status == Rejected)
      && (me.phase == Succeeded && me.approving ==>
        && me.submission in s.rows && s.rows[me.submission].status == Approved
        && s.rows[me.submission].approvedBy == Some(me.admin))
      && (me.phase.AlreadyDecided? ==>
        && me.submission in s.rows && s.rows[me.submission].status == me.phase.status
        && me.phase.status != Pending)
  {
    AfterKeepsInv(EMPTY, schedule);
    assert OutcomeOk(After(EMPTY, schedule), c);
  }

  /** And a submission is decided exactly when one review of it, and only one, succeeded. */
  lemma DecidedByOneReview(schedule: seq<Action>, id: string)
    requires id in After(EMPTY, schedule).rows
    ensures var s := After(EMPTY, schedule);
      && (s.rows[id].status != Pending <==> exists c :: Decided(s, c, id))
      && (forall c, d | Decided(s, c, id) && Decided(s, d, id) :: c == d)
  {
    AfterKeepsInv(EMPTY, schedule);
    var s := After(EMPTY, schedule);
    assert DecisionOk(s, id);
    if c :| Decided(s, c, id) {
      assert OutcomeOk(s, c);
    }
  }

  lemma LockedIsPending(s: System, id: string)
    requires Inv(s) && id in s.locks
    ensures id in s.rows && s.rows[id].status == Pending
  {
    assert LockOk(s, id);
    assert ReviewOk(s, s.locks[id]);
  }

  /** After a decision a new review is never kept waiting: it is told the decision, and one of an unknown
      submission is told so; either way nothing else changes. */
  lemma LateReviewIsRefused(schedule: seq<Action>, c: nat, id: string, approving: bool, admin: string)
    requires var s := After(EMPTY, schedule);
      c !in s.reviews && (id in s.rows ==> s.rows[id].status != Pending)
    ensures var s := After(EMPTY, schedule);
      var t := After(s, [Begin(c, id, approving, admin), LockAndCheck(c)]);
      && t.rows == s.rows && t.tenants == s.tenants && t.locks == s.locks && c in t.reviews
      && t.reviews[c].phase == if id in s.rows then AlreadyDecided(s.rows[id].status) else NotFound
  {
    var s := After(EMPTY, schedule);
    AfterKeepsInv(EMPTY, schedule);
    if id in s.locks {
      LockedIsPending(s, id);
    }
    var a1, a2 := Begin(c, id, approving, admin), LockAndCheck(c);
    AfterOne(s, [], a1);
    AfterOne(s, [a1], a2);
    assert [] + [a1] == [a1] && [a1] + [a2] == [a1, a2];
  }
}
