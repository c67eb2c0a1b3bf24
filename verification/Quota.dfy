/** Admission of runs under an environment's quota: a row lock, a count, a sum and an insert, each a
    separate step, while workers move runs on without taking the lock. */
module Quota {
  import opened Text

  /** The stored resource request: a JSON object of integers, or null. */
  type Resources = Option<map<string, int>>

  function Field(r: Resources, key: string): int {
    if r.Some? && key in r.value then r.value[key] else 0
  }

  function RunVcpu(r: Resources): int {
    Field(r, "driver_vcpu") + Field(r, "executor_vcpu") * Field(r, "executor_instances")
  }

  /** A request for d driver vCPU and n executors of e vCPU each; what is missing, or null, is zero. */
  predicate Asks(r: Resources, d: int, e: int, n: int) {
    match r
    case None => d == 0 && e == 0 && n == 0
    case Some(fields) =>
      && (if "driver_vcpu" in fields then fields["driver_vcpu"] == d else d == 0)
      && (if "executor_vcpu" in fields then fields["executor_vcpu"] == e else e == 0)
      && (if "executor_instances" in fields then fields["executor_instances"] == n else n == 0)
  }

  /** Every request asks for one such size, and needs d + e * n vCPU. */
  lemma RequestNeeds(r: Resources) returns (d: int, e: int, n: int)
    ensures Asks(r, d, e, n) && RunVcpu(r) == d + e * n
  {
    d, e, n := Field(r, "driver_vcpu"), Field(r, "executor_vcpu"), Field(r, "executor_instances");
  }

  lemma AskedIsNeeded(r: Resources, d: int, e: int, n: int)
    requires Asks(r, d, e, n)
    ensures RunVcpu(r) == d + e * n
  {
  }

  /** Without executors a request needs its driver's vCPU, and each further executor adds its own. */
  lemma EachExecutorAdds(fields: map<string, int>, d: int, e: int, n: int)
    requires Asks(Some(fields), d, e, n)
    ensures n == 0 ==> RunVcpu(Some(fields)) == d
    ensures RunVcpu(Some(fields["executor_instances" := n + 1])) == RunVcpu(Some(fields)) + e
    ensures RunVcpu(None) == 0
  {
    AskedIsNeeded(Some(fields), d, e, n);
    assert Asks(Some(fields["executor_instances" := n + 1]), d, e, n + 1);
    AskedIsNeeded(Some(fields["executor_instances" := n + 1]), d, e, n + 1);
    assert e * (n + 1) == e * n + e;
  }

  datatype RunState = Queued | Dispatching | Accepted | Running | Succeeded | FailedRun | Cancelled | TimedOut

  predicate IsActive(s: RunState) {
    s.Queued? || s.Dispatching? || s.Accepted? || s.Running?
  }

  datatype Run = Run(environment: string, state: RunState, resources: Resources)

  datatype Limits = Limits(maxConcurrentRuns: int, maxVcpu: int)

  predicate Counts(r: Run, env: string) {
    r.environment == env && IsActive(r.state)
  }

  /** The rows a query for an environment's active runs returns. */
  function ActiveRuns(runs: seq<Run>, env: string): seq<Run> {
    if runs == [] then []
    else
      ActiveRuns(runs[..|runs| - 1], env) + if Counts(runs[|runs| - 1], env) then [runs[|runs| - 1]] else []
  }

  function TotalVcpu(runs: seq<Run>): int {
    if runs == [] then 0 else TotalVcpu(runs[..|runs| - 1]) + RunVcpu(runs[|runs| - 1].resources)
  }

  function ActiveCount(runs: seq<Run>, env: string): nat {
    |ActiveRuns(runs, env)|
  }

  function ActiveVcpu(runs: seq<Run>, env: string): int {
    TotalVcpu(ActiveRuns(runs, env))
  }

  /** The quota holds for an environment. */
  predicate WithinQuota(runs: seq<Run>, env: string, limits: Limits) {
    ActiveCount(runs, env) <= limits.maxConcurrentRuns && ActiveVcpu(runs, env) <= limits.maxVcpu
  }

  datatype Verdict = Admitted | TooManyRuns | TooMuchVcpu

  /** The quota check's own sum over the active runs. */
  method SumRunVcpu(runs: seq<Run>) returns (sum: int)
    ensures sum == TotalVcpu(runs)
  {
    sum := 0;
    for i := 0 to |runs|
      invariant sum == TotalVcpu(runs[..i])
    {
      assert runs[..i + 1][..i] == runs[..i];
      sum := sum + RunVcpu(runs[i].resources);
    }
    assert runs[..|runs|] == runs;
  }

  /** The quota check on the rows its queries return: admits exactly when the quota would still hold
      with the new run, and otherwise names the first limit that would not. */
  method EnforceQuotaForRun(runs: seq<Run>, env: string, limits: Limits, requested: Resources) returns (v: Verdict)
    ensures v == Admitted <==>
      ActiveCount(runs, env) < limits.maxConcurrentRuns && ActiveVcpu(runs, env) + RunVcpu(requested) <= limits.maxVcpu
    ensures v == TooManyRuns <==> ActiveCount(runs, env) >= limits.maxConcurrentRuns
    ensures forall d, e, n | Asks(requested, d, e, n) :: v == TooMuchVcpu <==>
      ActiveCount(runs, env) < limits.maxConcurrentRuns && ActiveVcpu(runs, env) + d + e * n > limits.maxVcpu
    ensures forall state | IsActive(state) && WithinQuota(runs, env, limits) ::
      v == Admitted <==> WithinQuota(runs + [Run(env, state, requested)], env, limits)
  {
    forall state | IsActive(state)
      ensures ActiveCount(runs + [Run(env, state, requested)], env) == ActiveCount(runs, env) + 1
      ensures ActiveVcpu(runs + [Run(env, state, requested)], env) == ActiveVcpu(runs, env) + RunVcpu(requested)
    {
      OneMoreRun(runs, Run(env, state, requested), env);
    }
    forall d, e, n | Asks(requested, d, e, n) ensures RunVcpu(requested) == d + e * n {
      AskedIsNeeded(requested, d, e, n);
    }
    var active := ActiveRuns(runs, env);
    if |active| >= limits.maxConcurrentRuns {
      return TooManyRuns;
    }
    var activeVcpu := SumRunVcpu(active);
    v := if activeVcpu + RunVcpu(requested) > limits.maxVcpu then TooMuchVcpu else Admitted;
  }

  /** The utilization endpoint's loop over an environment's active runs: the same total the quota
      check uses. */
  method ComputeActiveVcpu(runs: seq<Run>) returns (total: int)
    ensures total == TotalVcpu(runs)
  {
    total := 0;
    for i := 0 to |runs|
      invariant total == TotalVcpu(runs[..i])
    {
      assert runs[..i + 1][..i] == runs[..i];
      var resources := runs[i].resources;
      total := total + (Field(resources, "driver_vcpu") +
                        Field(resources, "executor_vcpu") * Field(resources, "executor_instances"));
    }
    assert runs[..|runs|] == runs;
  }

  lemma OneMoreRun(runs: seq<Run>, r: Run, env: string)
    ensures ActiveCount(runs + [r], env) == ActiveCount(runs, env) + if Counts(r, env) then 1 else 0
    ensures ActiveVcpu(runs + [r], env) == ActiveVcpu(runs, env) + if Counts(r, env) then RunVcpu(r.resources) else 0
  {
    assert (runs + [r])[..|runs|] == runs;
    var active := ActiveRuns(runs, env);
    var longer := active + [r];
    assert longer[..|active|] == active;
    assert TotalVcpu(longer) == TotalVcpu(active) + RunVcpu(r.resources);
    assert ActiveRuns(runs + [r], env) == if Counts(r, env) then longer else active;
  }

  /** What the usage of an environment is: nothing for no runs, and one more run adds one and its d + e * n
      vCPU if it is the environment's own and has not ended. */
  lemma UsageIsSummed(runs: seq<Run>, r: Run, env: string, d: int, e: int, n: int)
    requires Asks(r.resources, d, e, n)
    ensures ActiveCount([], env) == 0 && ActiveVcpu([], env) == 0
    ensures var adds := r.environment == env && r.state in {Queued, Dispatching, Accepted, Running};
      && ActiveCount(runs + [r], env) == ActiveCount(runs, env) + (if adds then 1 else 0)
      && ActiveVcpu(runs + [r], env) == ActiveVcpu(runs, env) + if adds then d + e * n else 0
  {
    OneMoreRun(runs, r, env);
    AskedIsNeeded(r.resources, d, e, n);
  }

  /** No stored request has a negative size; the API's schema sees to it. */
  predicate Sized(runs: seq<Run>) {
    forall r | r in runs :: RunVcpu(r.resources) >= 0
  }

  /** A run that moves on, to another active state or out of the active set, never raises the usage. */
  lemma {:induction false} MovingOnFrees(runs: seq<Run>, i: nat, state: RunState, env: string)
    requires i < |runs| && IsActive(runs[i].state) && Sized(runs)
    ensures ActiveCount(runs[i := runs[i].(state := state)], env) <= ActiveCount(runs, env)
    ensures ActiveVcpu(runs[i := runs[i].(state := state)], env) <= ActiveVcpu(runs, env)
  {
    var moved := runs[i := runs[i].(state := state)];
    var n := |runs| - 1;
    assert runs == runs[..n] + [runs[n]] && moved == moved[..n] + [moved[n]];
    OneMoreRun(runs[..n], runs[n], env);
    OneMoreRun(moved[..n], moved[n], env);
    if i < n {
      assert moved[..n] == runs[..n][i := runs[i].(state := state)];
      MovingOnFrees(runs[..n], i, state, env);
    } else {
      assert moved[..n] == runs[..n];
    }
  }

  // ---------------------------------------------------------------------------
  // Interleaved admissions
  // ---------------------------------------------------------------------------

  datatype Stage = Waiting | Locked | Counted | Approved | Finished

  datatype Admission = Admission(environment: string, resources: Resources, stage: Stage)

  datatype System = System(
    limits: map<string, Limits>,
    runs: seq<Run>,
    locks: map<string, nat>,
    admissions: map<nat, Admission>)

  datatype Action =
    | Request(c: nat, environment: string, resources: Resources)
    | Lock(c: nat)
    | Count(c: nat)
    | Sum(c: nat)
    | InsertAndCommit(c: nat)
    | GiveUp(c: nat)                // another check fails, the run exists already, or the process dies
    | MoveOn(run: nat, state: RunState)

  predicate HoldsLock(stage: Stage) {
    stage.Locked? || stage.Counted? || stage.Approved?
  }

  predicate InStage(s: System, c: nat, stage: Stage) {
    c in s.admissions && s.admissions[c].stage == stage
  }

  predicate Enabled(s: System, a: Action) {
    match a
    case Request(c, _, resources) => c !in s.admissions && RunVcpu(resources) >= 0
    case Lock(c) => InStage(s, c, Waiting) && s.admissions[c].environment !in s.locks
    case Count(c) => InStage(s, c, Locked) && s.admissions[c].environment in s.limits
    case Sum(c) => InStage(s, c, Counted) && s.admissions[c].environment in s.limits
    case InsertAndCommit(c) => InStage(s, c, Approved)
    case GiveUp(c) => c in s.admissions && !s.admissions[c].stage.Finished?
    case MoveOn(i, _) => i < |s.runs| && IsActive(s.runs[i].state)
  }

  function Enter(s: System, c: nat, stage: Stage): System
    requires c in s.admissions
  {
    s.(admissions := s.admissions[c := s.admissions[c].(stage := stage)])
  }

  /** Ending the transaction releases the row lock. */
  function Leave(s: System, c: nat): System
    requires c in s.admissions
  {
    var done := Enter(s, c, Finished);
    if HoldsLock(s.admissions[c].stage) then done.(locks := s.locks - {s.admissions[c].environment}) else done
  }

  function Step(s: System, a: Action): System
    requires Enabled(s, a)
  {
    match a
    case Request(c, env, resources) => s.(admissions := s.admissions[c := Admission(env, resources, Waiting)])
    case Lock(c) =>
      var env := s.admissions[c].environment;
      if env !in s.limits then Leave(s, c)
      else Enter(s, c, Locked).(locks := s.locks[env := c])
    case Count(c) =>
      var env := s.admissions[c].environment;
      if ActiveCount(s.runs, env) >= s.limits[env].maxConcurrentRuns then Leave(s, c) else Enter(s, c, Counted)
    case Sum(c) =>
      var me := s.admissions[c];
      if ActiveVcpu(s.runs, me.environment) + RunVcpu(me.resources) > s.limits[me.environment].maxVcpu
      then Leave(s, c) else Enter(s, c, Approved)
    case InsertAndCommit(c) =>
      var me := s.admissions[c];
      Leave(s, c).(runs := s.runs + [Run(me.environment, Queued, me.resources)])
    case GiveUp(c) => Leave(s, c)
    case MoveOn(i, state) => s.(runs := s.runs[i := s.runs[i].(state := state)])
  }

  /** An action that cannot happen is skipped. */
  function Try(s: System, a: Action): System {
    if Enabled(s, a) then Step(s, a) else s
  }

  function After(s: System, schedule: seq<Action>): System {
    if schedule == [] then s
    else Try(After(s, schedule[..|schedule| - 1]), schedule[|schedule| - 1])
  }

  /** What a holder of the lock has established and nobody can undo. */
  predicate AdmissionOk(s: System, c: nat)
    requires c in s.admissions
  {
    var me := s.admissions[c];
    && RunVcpu(me.resources) >= 0
    && (HoldsLock(me.stage) ==>
      && me.environment in s.locks && s.locks[me.environment] == c
      && me.environment in s.limits)
    && (me.stage.Counted? || me.stage.Approved? ==>
      ActiveCount(s.runs, me.environment) < s.limits[me.environment].maxConcurrentRuns)
    && (me.stage.Approved? ==>
      ActiveVcpu(s.runs, me.environment) + RunVcpu(me.resources) <= s.limits[me.environment].maxVcpu)
  }

  ghost predicate Inv(s: System) {
    && Sized(s.runs)
    && (forall env | env in s.limits :: WithinQuota(s.runs, env, s.limits[env]))
    && (forall c | c in s.admissions :: AdmissionOk(s, c))
  }

  lemma InsertKeepsInv(s: System, c: nat)
    requires Inv(s) && Enabled(s, InsertAndCommit(c))
    ensures Inv(Step(s, InsertAndCommit(c)))
  {
    var t := Step(s, InsertAndCommit(c));
    assert AdmissionOk(s, c);
    forall env | env in t.limits ensures WithinQuota(t.runs, env, t.limits[env]) {
      InsertKeepsQuota(s, c, env);
    }
    forall d | d in t.admissions ensures AdmissionOk(t, d) {
      InsertKeepsOthers(s, c, d);
    }
  }

  lemma InsertKeepsQuota(s: System, c: nat, env: string)
    requires Inv(s) && Enabled(s, InsertAndCommit(c)) && env in s.limits
    ensures WithinQuota(Step(s, InsertAndCommit(c)).runs, env, s.limits[env])
  {
    assert AdmissionOk(s, c);
    assert WithinQuota(s.runs, env, s.limits[env]);
    OneMoreRun(s.runs, Run(s.admissions[c].environment, Queued, s.admissions[c].resources), env);
  }

  lemma InsertKeepsOthers(s: System, c: nat, d: nat)
    requires Inv(s) && Enabled(s, InsertAndCommit(c)) && d in s.admissions
    ensures AdmissionOk(Step(s, InsertAndCommit(c)), d)
  {
    assert AdmissionOk(s, c) && AdmissionOk(s, d);
    var run := Run(s.admissions[c].environment, Queued, s.admissions[c].resources);
    if d != c && HoldsLock(s.admissions[d].stage) {
      assert s.admissions[d].environment != s.admissions[c].environment;
      OneMoreRun(s.runs, run, s.admissions[d].environment);
    }
  }

  lemma MoveOnKeepsInv(s: System, i: nat, state: RunState)
    requires Inv(s) && Enabled(s, MoveOn(i, state))
    ensures Inv(Step(s, MoveOn(i, state)))
  {
    var t := Step(s, MoveOn(i, state));
    assert s.runs[i] in s.runs;
    forall r | r in t.runs ensures RunVcpu(r.resources) >= 0 {
      var k :| 0 <= k < |t.runs| && t.runs[k] == r;
      assert s.runs[k] in s.runs;
    }
    forall env | env in t.limits ensures WithinQuota(t.runs, env, t.limits[env]) {
      assert WithinQuota(s.runs, env, s.limits[env]);
      MovingOnFrees(s.runs, i, state, env);
    }
    forall d | d in t.admissions ensures AdmissionOk(t, d) {
      assert AdmissionOk(s, d);
      MovingOnFrees(s.runs, i, state, s.admissions[d].environment);
    }
  }

  /** Steps that insert nothing and move no run. */
  lemma StageKeepsInv(s: System, a: Action)
    requires Inv(s) && Enabled(s, a) && !a.InsertAndCommit? && !a.MoveOn?
    ensures Inv(Step(s, a))
  {
    var t := Step(s, a);
    forall d | d in t.admissions ensures AdmissionOk(t, d) {
      StageKeepsAdmission(s, a, d);
    }
  }

  lemma StageKeepsAdmission(s: System, a: Action, d: nat)
    requires Inv(s) && Enabled(s, a) && !a.InsertAndCommit? && !a.MoveOn? && d in Step(s, a).admissions
    ensures AdmissionOk(Step(s, a), d)
  {
    if d == a.c {
      assert d in s.admissions ==> AdmissionOk(s, d);
    } else {
      assert AdmissionOk(s, d);
      assert a.c in s.admissions ==> AdmissionOk(s, a.c);
    }
  }

  lemma {:induction false} AfterKeepsInv(s: System, schedule: seq<Action>)
    requires Inv(s)
    ensures Inv(After(s, schedule)) && After(s, schedule).limits == s.limits
  {
    if schedule != [] {
      var before := After(s, schedule[..|schedule| - 1]);
      var a := schedule[|schedule| - 1];
      AfterKeepsInv(s, schedule[..|schedule| - 1]);
      if Enabled(before, a) {
        match a
        case InsertAndCommit(c) => InsertKeepsInv(before, c);
        case MoveOn(i, state) => MoveOnKeepsInv(before, i, state);
        case _ => StageKeepsInv(before, a);
      }
    }
  }

  /** The system when service starts: some runs within their quotas, nobody in a transaction. */
  predicate Initial(s: System) {
    && s.locks == map[] && s.admissions == map[] && Sized(s.runs)
    && forall env | env in s.limits :: WithinQuota(s.runs, env, s.limits[env])
  }

  /** In every interleaving of any admissions and of runs moving on, no environment's active runs
      ever exceed its concurrency limit, and their summed vCPU never exceeds its vCPU limit. */
  lemma QuotaIsNeverExceeded(s: System, schedule: seq<Action>, env: string)
    requires Initial(s) && env in s.limits
    ensures ActiveCount(After(s, schedule).runs, env) <= s.limits[env].maxConcurrentRuns
    ensures ActiveVcpu(After(s, schedule).runs, env) <= s.limits[env].maxVcpu
  {
    AfterKeepsInv(s, schedule);
    var t := After(s, schedule);
    assert WithinQuota(t.runs, env, t.limits[env]);
  }

  /** The lock is what makes it so: once a client has counted, every schedule of the others in which
      it stays in its transaction leaves its approval justified when it inserts. */
  lemma ApprovalStaysJustified(s: System, schedule: seq<Action>, c: nat)
    requires Initial(s) && InStage(After(s, schedule), c, Approved)
    ensures var t := After(s, schedule);
      var me := t.admissions[c];
      && me.environment in t.limits
      && WithinQuota(t.runs + [Run(me.environment, Queued, me.resources)], me.environment, t.limits[me.environment])
  {
    AfterKeepsInv(s, schedule);
    var t := After(s, schedule);
    assert AdmissionOk(t, c);
    OneMoreRun(t.runs, Run(t.admissions[c].environment, Queued, t.admissions[c].resources), t.admissions[c].environment);
  }

  lemma AfterOne(s: System, schedule: seq<Action>, a: Action)
    ensures After(s, schedule + [a]) == Try(After(s, schedule), a)
  {
    assert (schedule + [a])[..|schedule|] == schedule;
  }

  lemma AfterThree(s: System, schedule: seq<Action>, a: Action, b: Action, c: Action)
    ensures After(s, schedule + [a, b, c]) == Try(Try(Try(After(s, schedule), a), b), c)
  {
    AfterOne(s, schedule, a);
    AfterOne(s, schedule + [a], b);
    AfterOne(s, schedule + [a] + [b], c);
    assert schedule + [a] + [b] + [c] == schedule + [a, b, c];
  }

  /** On an unlocked environment a request goes through exactly when it fits: then its run is added,
      queued, and otherwise nothing is; either way its transaction ends and the lock is free. */
  lemma AdmittedExactlyWhenItFits(s: System, c: nat, env: string, r: Resources, d: int, e: int, n: int)
    requires c !in s.admissions && env in s.limits && env !in s.locks && Asks(r, d, e, n) && d + e * n >= 0
    ensures var t := After(s, [Request(c, env, r), Lock(c), Count(c), Sum(c), InsertAndCommit(c)]);
      && InStage(t, c, Finished) && t.locks == s.locks && t.limits == s.limits
      && t.runs ==
        if ActiveCount(s.runs, env) < s.limits[env].maxConcurrentRuns &&
           ActiveVcpu(s.runs, env) + d + e * n <= s.limits[env].maxVcpu
        then s.runs + [Run(env, Queued, r)] else s.runs
  {
    AskedIsNeeded(r, d, e, n);
    var a1, a2, a3, a4, a5 := Request(c, env, r), Lock(c), Count(c), Sum(c), InsertAndCommit(c);
    ReachesLocked(s, c, env, r);
    AfterThree(s, [a1, a2], a3, a4, a5);
    assert [a1, a2] + [a3, a4, a5] == [a1, a2, a3, a4, a5];
    ChecksAndInserts(After(s, [a1, a2]), c, env, r);
    assert s.locks[env := c] - {env} == s.locks;
  }

  /** The holder of the lock checks and inserts. */
  lemma ChecksAndInserts(s: System, c: nat, env: string, r: Resources)
    requires c in s.admissions && s.admissions[c] == Admission(env, r, Locked) && env in s.limits && RunVcpu(r) >= 0
    ensures var t := Try(Try(Try(s, Count(c)), Sum(c)), InsertAndCommit(c));
      && InStage(t, c, Finished) && t.locks == s.locks - {env} && t.limits == s.limits
      && t.runs ==
        if ActiveCount(s.runs, env) < s.limits[env].maxConcurrentRuns &&
           ActiveVcpu(s.runs, env) + RunVcpu(r) <= s.limits[env].maxVcpu
        then s.runs + [Run(env, Queued, r)] else s.runs
  {
  }

  lemma ReachesLocked(s: System, c: nat, env: string, r: Resources)
    requires c !in s.admissions && env in s.limits && env !in s.locks && RunVcpu(r) >= 0
    ensures After(s, [Request(c, env, r), Lock(c)]) ==
      s.(admissions := s.admissions[c := Admission(env, r, Locked)], locks := s.locks[env := c])
  {
    var a1, a2 := Request(c, env, r), Lock(c);
    AfterOne(s, [], a1);
    AfterOne(s, [a1], a2);
    assert [] + [a1] == [a1] && [a1] + [a2] == [a1, a2];
  }
}
