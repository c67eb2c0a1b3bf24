/** Idempotent request execution: any number of clients interleaving over a table of committed
    records with a unique (scope, key), each in its own transaction. */
module Idempotency {
  /** The unique key of the table. */
  datatype Slot = Slot(scope: string, key: string)

  type HttpStatus = n: nat | 100 <= n < 600 witness 200

  datatype Record = Record(fingerprint: string, status: nat, body: string)

  /** The row a client flushes before executing; the result is filled in later. */
  function Placeholder(fingerprint: string): Record {
    Record(fingerprint, 0, "{}")
  }

  datatype Outcome =
    | Created(status: nat, body: string)
    | Replayed(status: nat, body: string)
    | Conflict
    | Failed

  /** Where a client is in `with_idempotency`. */
  datatype Phase =
    | Starting
    | Missed                                  // looked up, nothing committed
    | Reserved                                // its row is flushed, not committed
    | Executed(status: HttpStatus, body: string)
    | Lost                                    // the flush hit the unique constraint; rolled back
    | Done(outcome: Outcome)

  datatype Client = Client(slot: Slot, fingerprint: string, phase: Phase)

  datatype Pending = Pending(owner: nat, row: Record)

  /** The effects of one committed execution. */
  datatype Effect = Effect(owner: nat, slot: Slot, fingerprint: string, status: nat, body: string)

  /** `rows` is what is committed, `pending` the flushed rows of open transactions, `effects` the
      committed effects of executions in commit order. */
  datatype System = System(
    clients: map<nat, Client>,
    rows: map<Slot, Record>,
    pending: map<Slot, Pending>,
    effects: seq<Effect>)

  datatype ExecuteResult = Returns(status: HttpStatus, body: string) | Raises

  datatype Action =
    | Arrive(c: nat, slot: Slot, fingerprint: string)
    | Lookup(c: nat)
    | Flush(c: nat)
    | Reload(c: nat)
    | Execute(c: nat, result: ExecuteResult)
    | Commit(c: nat, succeeds: bool)
    | Abort(c: nat)                           // the process or its connection dies

  function ReplayOrConflict(existing: Record, fingerprint: string): Outcome {
    if existing.fingerprint != fingerprint then Conflict else Replayed(existing.status, existing.body)
  }

  predicate At(s: System, c: nat, phase: Phase) {
    c in s.clients && s.clients[c].phase == phase
  }

  /** The client's transaction holds a flushed row. */
  predicate Holds(p: Phase) {
    p.Reserved? || p.Executed?
  }

  function Move(s: System, c: nat, phase: Phase): System
    requires c in s.clients
  {
    s.(clients := s.clients[c := s.clients[c].(phase := phase)])
  }

  /** Rolling back drops the client's flushed row and nothing else. */
  function RollBack(s: System, c: nat): System
    requires c in s.clients
  {
    var failed := Move(s, c, Done(Failed));
    if Holds(s.clients[c].phase) then failed.(pending := s.pending - {s.clients[c].slot}) else failed
  }

  /** When an action can happen. A flush waits while another open transaction holds the same key. */
  predicate Enabled(s: System, a: Action) {
    match a
    case Arrive(c, _, _) => c !in s.clients
    case Lookup(c) => At(s, c, Starting)
    case Flush(c) => At(s, c, Missed) && s.clients[c].slot !in s.pending
    case Reload(c) => At(s, c, Lost)
    case Execute(c, _) => At(s, c, Reserved) && s.clients[c].slot in s.pending
    case Commit(c, _) => c in s.clients && s.clients[c].phase.Executed? && s.clients[c].slot in s.pending
    case Abort(c) => c in s.clients && !s.clients[c].phase.Done?
  }

  function Step(s: System, a: Action): System
    requires Enabled(s, a)
  {
    match a
    case Arrive(c, slot, fp) => s.(clients := s.clients[c := Client(slot, fp, Starting)])
    case Lookup(c) =>
      var me := s.clients[c];
      if me.slot in s.rows then Move(s, c, Done(ReplayOrConflict(s.rows[me.slot], me.fingerprint)))
      else Move(s, c, Missed)
    case Flush(c) =>
      var me := s.clients[c];
      if me.slot in s.rows then Move(s, c, Lost)
      else Move(s, c, Reserved).(pending := s.pending[me.slot := Pending(c, Placeholder(me.fingerprint))])
    case Reload(c) =>
      var me := s.clients[c];
      if me.slot in s.rows then Move(s, c, Done(ReplayOrConflict(s.rows[me.slot], me.fingerprint)))
      else Move(s, c, Done(Failed))
    case Execute(c, result) =>
      var me := s.clients[c];
      (match result
       case Raises => RollBack(s, c)
       case Returns(status, body) =>
         var row := s.pending[me.slot].row.(status := status, body := body);
         Move(s, c, Executed(status, body)).(pending := s.pending[me.slot := Pending(c, row)]))
    case Commit(c, succeeds) =>
      if !succeeds then RollBack(s, c)
      else
        var me := s.clients[c];
        var row := s.pending[me.slot].row;
        Move(s, c, Done(Created(me.phase.status, me.phase.body))).(
          rows := s.rows[me.slot := row],
          pending := s.pending - {me.slot},
          effects := s.effects + [Effect(c, me.slot, me.fingerprint, me.phase.status, me.phase.body)])
    case Abort(c) => RollBack(s, c)
  }

  function Actor(a: Action): nat {
    a.c
  }

  const EMPTY := System(map[], map[], map[], [])

  /** The state after a schedule of actions; an action that cannot happen is skipped. */
  function After(s: System, schedule: seq<Action>): System {
    if schedule == [] then s
    else
      var before := After(s, schedule[..|schedule| - 1]);
      var a := schedule[|schedule| - 1];
      if Enabled(before, a) then Step(before, a) else before
  }

  // ---------------------------------------------------------------------------
  // The invariant
  // ---------------------------------------------------------------------------

  predicate ClientOk(s: System, c: nat)
    requires c in s.clients
  {
    var me := s.clients[c];
    match me.phase
    case Reserved => me.slot in s.pending && s.pending[me.slot] == Pending(c, Placeholder(me.fingerprint))
    case Executed(status, body) =>
      me.slot in s.pending && s.pending[me.slot] == Pending(c, Record(me.fingerprint, status, body))
    case Lost => me.slot in s.rows
    case Done(Created(status, body)) =>
      && me.slot in s.rows && s.rows[me.slot] == Record(me.fingerprint, status, body)
      && Effect(c, me.slot, me.fingerprint, status, body) in s.effects
    case Done(Replayed(status, body)) => me.slot in s.rows && s.rows[me.slot] == Record(me.fingerprint, status, body)
    case Done(Conflict) => me.slot in s.rows && s.rows[me.slot].fingerprint != me.fingerprint
    case _ => true
  }

  predicate PendingOk(s: System, slot: Slot)
    requires slot in s.pending
  {
    var c := s.pending[slot].owner;
    && slot !in s.rows
    && c in s.clients && s.clients[c].slot == slot && Holds(s.clients[c].phase)
  }

  predicate EffectOk(s: System, i: nat)
    requires i < |s.effects|
  {
    var e := s.effects[i];
    && e.slot in s.rows && s.rows[e.slot] == Record(e.fingerprint, e.status, e.body)
    && 100 <= e.status
    && e.owner in s.clients
    && s.clients[e.owner] == Client(e.slot, e.fingerprint, Done(Created(e.status, e.body)))
  }

  predicate RowOk(s: System, slot: Slot)
    requires slot in s.rows
  {
    exists i | 0 <= i < |s.effects| :: s.effects[i].slot == slot
  }

  ghost predicate Inv(s: System) {
    && (forall c | c in s.clients :: ClientOk(s, c))
    && (forall slot | slot in s.pending :: PendingOk(s, slot))
    && (forall slot | slot in s.rows :: RowOk(s, slot))
    && (forall i | 0 <= i < |s.effects| :: EffectOk(s, i))
    && (forall i, j | 0 <= i < j < |s.effects| :: s.effects[i].slot != s.effects[j].slot)
  }

  lemma RollBackKeepsInv(s: System, c: nat)
    requires Inv(s) && c in s.clients && !s.clients[c].phase.Done?
    ensures Inv(RollBack(s, c))
  {
    var t := RollBack(s, c);
    forall i | 0 <= i < |t.effects| ensures EffectOk(t, i) {
      assert EffectOk(s, i);
    }
    forall slot | slot in t.rows ensures RowOk(t, slot) {
      assert RowOk(s, slot);
    }
    forall slot | slot in t.pending ensures PendingOk(t, slot) {
      RollBackKeepsPending(s, c, slot);
    }
    forall d | d in t.clients ensures ClientOk(t, d) {
      RollBackKeepsClient(s, c, d);
    }
  }

  lemma RollBackKeepsPending(s: System, c: nat, slot: Slot)
    requires Inv(s) && c in s.clients && !s.clients[c].phase.Done? && slot in RollBack(s, c).pending
    ensures PendingOk(RollBack(s, c), slot)
  {
    assert PendingOk(s, slot) && ClientOk(s, c);
  }

  lemma RollBackKeepsClient(s: System, c: nat, d: nat)
    requires Inv(s) && c in s.clients && !s.clients[c].phase.Done? && d in s.clients
    ensures ClientOk(RollBack(s, c), d)
  {
    assert ClientOk(s, d) && ClientOk(s, c);
  }

  lemma CommitKeepsInv(s: System, c: nat)
    requires Inv(s) && Enabled(s, Commit(c, true))
    ensures Inv(Step(s, Commit(c, true)))
  {
    var t := Step(s, Commit(c, true));
    var me := s.clients[c];
    assert ClientOk(s, c) && PendingOk(s, me.slot);
    CommitKeepsEffects(s, c);
    forall slot | slot in t.rows ensures RowOk(t, slot) {
      if slot == me.slot {
        assert t.effects[|s.effects|].slot == slot;
      } else {
        assert RowOk(s, slot);
        var i :| 0 <= i < |s.effects| && s.effects[i].slot == slot;
        assert t.effects[i].slot == slot;
      }
    }
    forall slot | slot in t.pending ensures PendingOk(t, slot) {
      assert PendingOk(s, slot);
    }
    forall d | d in t.clients ensures ClientOk(t, d) {
      CommitKeepsClient(s, c, d);
    }
  }

  lemma CommitKeepsEffects(s: System, c: nat)
    requires Inv(s) && Enabled(s, Commit(c, true)) && s.clients[c].slot !in s.rows && ClientOk(s, c)
    ensures var t := Step(s, Commit(c, true));
      && (forall i | 0 <= i < |t.effects| :: EffectOk(t, i))
      && forall i, j | 0 <= i < j < |t.effects| :: t.effects[i].slot != t.effects[j].slot
  {
    var t := Step(s, Commit(c, true));
    forall i | 0 <= i < |s.effects|
      ensures EffectOk(t, i) && t.effects[i] == s.effects[i] && t.effects[i].slot != s.clients[c].slot
    {
      assert EffectOk(s, i);
    }
    assert EffectOk(t, |s.effects|);
  }

  lemma CommitKeepsClient(s: System, c: nat, d: nat)
    requires Inv(s) && Enabled(s, Commit(c, true)) && ClientOk(s, c) && d in s.clients
    ensures ClientOk(Step(s, Commit(c, true)), d)
  {
    var t := Step(s, Commit(c, true));
    assert ClientOk(s, d);
    assert t.effects[|s.effects|] in t.effects;
    assert forall e | e in s.effects :: e in t.effects;
    if d != c && Holds(s.clients[d].phase) {
      assert s.clients[d].slot != s.clients[c].slot;
    }
  }

  /** One client without a flushed row moves, and no table changes. */
  lemma OneClientMoves(s: System, t: System, c: nat)
    requires Inv(s) && (c in s.clients ==> !Holds(s.clients[c].phase) && !s.clients[c].phase.Done?)
    requires c in t.clients && t == s.(clients := s.clients[c := t.clients[c]]) && ClientOk(t, c)
    ensures Inv(t)
  {
    forall i | 0 <= i < |t.effects| ensures EffectOk(t, i) {
      assert EffectOk(s, i);
    }
    forall slot | slot in t.rows ensures RowOk(t, slot) {
      assert RowOk(s, slot);
    }
    forall slot | slot in t.pending ensures PendingOk(t, slot) {
      assert PendingOk(s, slot);
    }
    forall d | d in t.clients ensures ClientOk(t, d) {
      assert d != c ==> ClientOk(s, d);
    }
  }

  lemma FlushKeepsInv(s: System, c: nat)
    requires Inv(s) && Enabled(s, Flush(c))
    ensures Inv(Step(s, Flush(c)))
  {
    var t := Step(s, Flush(c));
    if s.clients[c].slot in s.rows {
      OneClientMoves(s, t, c);
    } else {
      forall i | 0 <= i < |t.effects| ensures EffectOk(t, i) {
        assert EffectOk(s, i);
      }
      forall slot | slot in t.rows ensures RowOk(t, slot) {
        assert RowOk(s, slot);
      }
      forall slot | slot in t.pending ensures PendingOk(t, slot) {
        assert slot in s.pending ==> PendingOk(s, slot);
      }
      forall d | d in t.clients ensures ClientOk(t, d) {
        assert ClientOk(s, d);
      }
    }
  }

  lemma ExecuteKeepsInv(s: System, c: nat, result: ExecuteResult)
    requires Inv(s) && Enabled(s, Execute(c, result)) && result.Returns?
    ensures Inv(Step(s, Execute(c, result)))
  {
    var t := Step(s, Execute(c, result));
    assert ClientOk(s, c);
    forall i | 0 <= i < |t.effects| ensures EffectOk(t, i) {
      assert EffectOk(s, i);
    }
    forall slot | slot in t.rows ensures RowOk(t, slot) {
      assert RowOk(s, slot);
    }
    forall slot | slot in t.pending ensures PendingOk(t, slot) {
      assert PendingOk(s, slot);
    }
    forall d | d in t.clients ensures ClientOk(t, d) {
      assert ClientOk(s, d);
    }
  }

  lemma StepKeepsInv(s: System, a: Action)
    requires Inv(s) && Enabled(s, a)
    ensures Inv(Step(s, a))
  {
    match a
    case Flush(c) => FlushKeepsInv(s, c);
    case Execute(c, result) =>
      if result.Raises? { RollBackKeepsInv(s, c); } else { ExecuteKeepsInv(s, c, result); }
    case Commit(c, succeeds) =>
      if succeeds { CommitKeepsInv(s, c); } else { RollBackKeepsInv(s, c); }
    case Abort(c) => RollBackKeepsInv(s, c);
    case Arrive(c, _, _) => OneClientMoves(s, Step(s, a), c);
    case Lookup(c) => OneClientMoves(s, Step(s, a), c);
    case Reload(c) => OneClientMoves(s, Step(s, a), c);
  }

  lemma {:induction false} AfterKeepsInv(s: System, schedule: seq<Action>)
    requires Inv(s)
    ensures Inv(After(s, schedule))
  {
    if schedule != [] {
      var before := After(s, schedule[..|schedule| - 1]);
      AfterKeepsInv(s, schedule[..|schedule| - 1]);
      if Enabled(before, schedule[|schedule| - 1]) {
        StepKeepsInv(before, schedule[|schedule| - 1]);
      }
    }
  }

  // ---------------------------------------------------------------------------
  // What every run guarantees
  // ---------------------------------------------------------------------------

  /** In every interleaving of any clients: at most one execution per slot ever commits its effects,
      exactly the slots with a committed effect have a row, the row shows that execution's result and
      never the placeholder status. */
  lemma ExactlyOnce(schedule: seq<Action>)
    ensures var s := After(EMPTY, schedule);
      && (forall i, j | 0 <= i < j < |s.effects| :: s.effects[i].slot != s.effects[j].slot)
      && (forall slot :: slot in s.rows <==> exists i | 0 <= i < |s.effects| :: s.effects[i].slot == slot)
      && (forall e | e in s.effects :: s.rows[e.slot] == Record(e.fingerprint, e.status, e.body))
      && (forall slot | slot in s.rows :: s.rows[slot].status != 0)
  {
    AfterKeepsInv(EMPTY, schedule);
    var s := After(EMPTY, schedule);
    forall i | 0 <= i < |s.effects| ensures s.effects[i].slot in s.rows {
      assert EffectOk(s, i);
    }
    forall slot | slot in s.rows ensures s.rows[slot].status != 0 {
      assert RowOk(s, slot);
      var i :| 0 <= i < |s.effects| && s.effects[i].slot == slot;
      assert EffectOk(s, i);
    }
    forall e | e in s.effects ensures s.rows[e.slot] == Record(e.fingerprint, e.status, e.body) {
      var i :| 0 <= i < |s.effects| && s.effects[i] == e;
      assert EffectOk(s, i);
    }
  }

  predicate Answered(p: Phase) {
    p.Done? && (p.outcome.Created? || p.outcome.Replayed?)
  }

  /** In every interleaving, all clients of one slot that get an answer get the same one, whether they
      executed or replayed, and carry the same fingerprint; at most one of them executed; and a
      conflict is reported only against a row of another fingerprint. */
  lemma OneAnswer(schedule: seq<Action>, c: nat, d: nat)
    requires var s := After(EMPTY, schedule);
      c in s.clients && d in s.clients && s.clients[c].slot == s.clients[d].slot
    ensures var s := After(EMPTY, schedule);
      var a, b := s.clients[c], s.clients[d];
      && (Answered(a.phase) && Answered(b.phase) ==>
        && a.fingerprint == b.fingerprint
        && a.phase.outcome.status == b.phase.outcome.status
        && a.phase.outcome.body == b.phase.outcome.body)
      && (a.phase.Done? && a.phase.outcome.Created? && b.phase.Done? && b.phase.outcome.Created? ==> c == d)
      && (Answered(a.phase) && b.phase == Done(Conflict) ==> a.fingerprint != b.fingerprint)
  {
    AfterKeepsInv(EMPTY, schedule);
    var s := After(EMPTY, schedule);
    assert ClientOk(s, c) && ClientOk(s, d);
  }

  /** One step, from any reachable state: committed rows and effects are never changed or removed,
      and while a row is committed no client of its slot holds a reservation or has executed, so
      nothing executes against it. */
  lemma CommittedIsFinal(s: System, a: Action)
    requires Inv(s) && Enabled(s, a)
    ensures s.effects <= Step(s, a).effects
    ensures forall slot | slot in s.rows :: slot in Step(s, a).rows && Step(s, a).rows[slot] == s.rows[slot]
    ensures forall c | c in s.clients && s.clients[c].slot in s.rows :: !Holds(s.clients[c].phase)
  {
    forall c | c in s.clients && Holds(s.clients[c].phase) ensures s.clients[c].slot !in s.rows {
      assert ClientOk(s, c);
      assert PendingOk(s, s.clients[c].slot);
    }
  }

  /** A client's answer from a committed row: the stored result for the same body, a conflict otherwise. */
  predicate ToldFrom(row: Record, fp: string, phase: Phase) {
    if row.fingerprint == fp then phase == Done(Replayed(row.status, row.body)) else phase == Done(Conflict)
  }

  /** A reload after a lost race always finds the winner's row and answers from it: the re-raise is never
      taken. */
  lemma ReloadFindsTheWinner(schedule: seq<Action>, c: nat)
    requires At(After(EMPTY, schedule), c, Lost)
    ensures var s := After(EMPTY, schedule);
      var t := Step(s, Reload(c));
      && s.clients[c].slot in s.rows
      && t == s.(clients := t.clients) && t.clients.Keys == s.clients.Keys
      && ToldFrom(s.rows[s.clients[c].slot], s.clients[c].fingerprint, t.clients[c].phase)
  {
    AfterKeepsInv(EMPTY, schedule);
    assert ClientOk(After(EMPTY, schedule), c);
  }

  predicate Fails(a: Action) {
    || (a.Execute? && a.result.Raises?)
    || (a.Commit? && !a.succeeds)
    || a.Abort?
  }

  /** A failed execution, a failed commit or a dead client leaves no trace: committed rows, effects and
      every other client are as before, and the slot is free again. */
  lemma FailureLeavesNoTrace(schedule: seq<Action>, a: Action)
    requires Enabled(After(EMPTY, schedule), a) && Fails(a)
    ensures var s := After(EMPTY, schedule);
      var t := Step(s, a);
      && t.rows == s.rows && t.effects == s.effects
      && t.clients == s.clients[a.c := s.clients[a.c].(phase := Done(Failed))]
      && (Holds(s.clients[a.c].phase) ==> s.clients[a.c].slot !in t.pending && s.clients[a.c].slot !in t.rows)
      && (forall slot | slot !in t.pending :: slot in s.pending ==> s.pending[slot].owner == a.c)
  {
    AfterKeepsInv(EMPTY, schedule);
    var s := After(EMPTY, schedule);
    assert ClientOk(s, a.c);
    if Holds(s.clients[a.c].phase) {
      assert PendingOk(s, s.clients[a.c].slot);
    }
  }

  lemma AfterOne(s: System, schedule: seq<Action>, a: Action)
    ensures After(s, schedule + [a]) ==
      if Enabled(After(s, schedule), a) then Step(After(s, schedule), a) else After(s, schedule)
  {
    assert (schedule + [a])[..|schedule|] == schedule;
  }

  /** On a free slot a new client runs through: it executes once, and its result is what is stored. */
  lemma RetrySucceeds(s: System, c: nat, slot: Slot, fp: string, status: HttpStatus, body: string)
    requires c !in s.clients && slot !in s.rows && slot !in s.pending
    ensures var t := After(s, [Arrive(c, slot, fp), Lookup(c), Flush(c), Execute(c, Returns(status, body)), Commit(c, true)]);
      && At(t, c, Done(Created(status, body)))
      && t.rows == s.rows[slot := Record(fp, status, body)]
      && t.effects == s.effects + [Effect(c, slot, fp, status, body)]
      && t.pending == s.pending
  {
    var a1, a2, a3, a4 := Arrive(c, slot, fp), Lookup(c), Flush(c), Execute(c, Returns(status, body));
    ReachesReserved(s, c, slot, fp);
    AfterOne(s, [a1, a2, a3], a4);
    AfterOne(s, [a1, a2, a3, a4], Commit(c, true));
    assert [a1, a2, a3] + [a4] == [a1, a2, a3, a4];
    assert [a1, a2, a3, a4] + [Commit(c, true)] == [a1, a2, a3, a4, Commit(c, true)];
  }

  lemma ReachesReserved(s: System, c: nat, slot: Slot, fp: string)
    requires c !in s.clients && slot !in s.rows && slot !in s.pending
    ensures After(s, [Arrive(c, slot, fp), Lookup(c), Flush(c)]) ==
      s.(clients := s.clients[c := Client(slot, fp, Reserved)],
         pending := s.pending[slot := Pending(c, Placeholder(fp))])
  {
    var a1, a2, a3 := Arrive(c, slot, fp), Lookup(c), Flush(c);
    AfterOne(s, [], a1);
    AfterOne(s, [a1], a2);
    AfterOne(s, [a1, a2], a3);
    assert [] + [a1] == [a1] && [a1] + [a2] == [a1, a2] && [a1, a2] + [a3] == [a1, a2, a3];
  }

  lemma OthersStep(s: System, a: Action, c: nat)
    requires Enabled(s, a) && Actor(a) != c && c in s.clients
    ensures c in Step(s, a).clients && Step(s, a).clients[c] == s.clients[c]
  {
  }

  /** Whatever other clients do, a client stays where it is and a committed row stays as it is. */
  lemma {:induction false} OthersChangeNothing(s: System, between: seq<Action>, c: nat, slot: Slot)
    requires Inv(s) && c in s.clients && slot in s.rows && forall a | a in between :: Actor(a) != c
    ensures var u := After(s, between);
      Inv(u) && c in u.clients && u.clients[c] == s.clients[c] && slot in u.rows && u.rows[slot] == s.rows[slot]
  {
    if between != [] {
      var init, a := between[..|between| - 1], between[|between| - 1];
      OthersChangeNothing(s, init, c, slot);
      var before := After(s, init);
      if Enabled(before, a) {
        StepKeepsInv(before, a);
        CommittedIsFinal(before, a);
        OthersStep(before, a, c);
      }
    }
  }

  /** Whatever others do in between, a client that arrives when its row is committed is answered from it:
      a repeated request replays it, and one with another body conflicts. */
  lemma RepeatReplays(s: System, between: seq<Action>, c: nat, slot: Slot, fp: string)
    requires Inv(s) && c !in s.clients && slot in s.rows && forall a | a in between :: Actor(a) != c
    ensures var u := After(Step(s, Arrive(c, slot, fp)), between);
      var t := After(Step(s, Arrive(c, slot, fp)), between + [Lookup(c)]);
      && c in t.clients && ToldFrom(s.rows[slot], fp, t.clients[c].phase)
      && t.rows == u.rows && t.effects == u.effects && t.pending == u.pending
  {
    var arrived := Step(s, Arrive(c, slot, fp));
    StepKeepsInv(s, Arrive(c, slot, fp));
    OthersChangeNothing(arrived, between, c, slot);
    AfterOne(arrived, between, Lookup(c));
  }

  /** A client that looked up too early and then meets the winner's row at its flush is answered from that
      row after its rollback, whatever others do in between, and leaves no row of its own. */
  lemma LoserIsAnswered(s: System, between: seq<Action>, c: nat)
    requires Inv(s) && At(s, c, Missed) && s.clients[c].slot in s.rows
    requires forall a | a in between :: Actor(a) != c
    ensures Enabled(s, Flush(c))
    ensures var me := s.clients[c];
      var u := After(Step(s, Flush(c)), between);
      var t := After(Step(s, Flush(c)), between + [Reload(c)]);
      && Step(s, Flush(c)) == s.(clients := s.clients[c := me.(phase := Lost)])
      && c in t.clients && ToldFrom(s.rows[me.slot], me.fingerprint, t.clients[c].phase)
      && t.rows == u.rows && t.effects == u.effects && t.pending == u.pending && me.slot !in t.pending
  {
    var slot := s.clients[c].slot;
    assert slot in s.pending ==> PendingOk(s, slot);
    var lost := Step(s, Flush(c));
    StepKeepsInv(s, Flush(c));
    OthersChangeNothing(lost, between, c, slot);
    AfterOne(lost, between, Reload(c));
    var u := After(lost, between);
    assert slot in u.pending ==> PendingOk(u, slot);
  }

  /** One of the actions is a failure of this client. */
  predicate SomeFailure(schedule: seq<Action>, c: nat) {
    exists a | a in schedule :: Fails(a) && Actor(a) == c
  }

  lemma FailureGrows(schedule: seq<Action>, a: Action, c: nat)
    ensures SomeFailure(schedule, c) || (Fails(a) && Actor(a) == c) ==> SomeFailure(schedule + [a], c)
  {
    assert a in schedule + [a];
    if b :| b in schedule && Fails(b) && Actor(b) == c {
      assert b in schedule + [a];
    }
  }

  /** No request fails unless its execution raised, its commit failed, or it was cut off. */
  lemma {:induction false} FailedOnlyByFailure(s: System, schedule: seq<Action>, c: nat)
    requires Inv(s) && c !in s.clients && At(After(s, schedule), c, Done(Failed))
    ensures SomeFailure(schedule, c)
  {
    var init, a := schedule[..|schedule| - 1], schedule[|schedule| - 1];
    var before := After(s, init);
    AfterKeepsInv(s, init);
    assert schedule == init + [a];
    FailureGrows(init, a, c);
    if At(before, c, Done(Failed)) {
      FailedOnlyByFailure(s, init, c);
    } else {
      OnlyFailureFails(before, a, c);
    }
  }

  lemma OnlyFailureFails(s: System, a: Action, c: nat)
    requires Inv(s) && Enabled(s, a) && !At(s, c, Done(Failed)) && At(Step(s, a), c, Done(Failed))
    ensures Fails(a) && Actor(a) == c
  {
    assert c in s.clients ==> ClientOk(s, c);
    if Actor(a) != c {
      OthersStep(s, a, c);
    }
  }

  // ---------------------------------------------------------------------------
  // The procedure itself, with the other clients running in between
  // ---------------------------------------------------------------------------

  /** What a client may conclude from its outcome, in the state it finishes in. */
  predicate Justified(s: System, c: nat, slot: Slot, fp: string, r: Outcome) {
    match r
    case Created(status, body) =>
      && slot in s.rows && s.rows[slot] == Record(fp, status, body)
      && Effect(c, slot, fp, status, body) in s.effects
    case Replayed(status, body) => slot in s.rows && s.rows[slot] == Record(fp, status, body)
    case Conflict => slot in s.rows && s.rows[slot].fingerprint != fp
    case Failed => forall e | e in s.effects :: e.owner != c
  }

  /** The last action was this client's own failure; it was cut off only while another's row was in its way. */
  predicate JustFailed(schedule: seq<Action>, c: nat, slot: Slot, s: System) {
    && schedule != [] && Fails(schedule[|schedule| - 1]) && Actor(schedule[|schedule| - 1]) == c
    && (schedule[|schedule| - 1].Abort? ==> slot in s.pending)
  }

  predicate RowsStay(s: System, t: System) {
    forall slot | slot in s.rows :: slot in t.rows && t.rows[slot] == s.rows[slot]
  }

  class Database {
    var system: System
    ghost var schedule: seq<Action>

    ghost predicate Valid()
      reads this
    {
      system == After(EMPTY, schedule)
    }

    constructor ()
      ensures Valid() && system == EMPTY
    {
      system, schedule := EMPTY, [];
    }

    method Do(a: Action)
      requires Valid() && Enabled(system, a)
      modifies this
      ensures Valid() && system == Step(old(system), a) && schedule == old(schedule) + [a]
    {
      AfterOne(EMPTY, schedule, a);
      system := Step(system, a);
      schedule := schedule + [a];
    }

    /** Any number of steps of any other clients. */
    method Others(c: nat)
      requires Valid()
      modifies this
      ensures Valid() && old(schedule) <= schedule
      ensures c in old(system).clients <==> c in system.clients
      ensures c in system.clients ==> system.clients[c] == old(system).clients[c]
      ensures RowsStay(old(system), system)
    {
      var steps: nat := *;
      while steps > 0
        invariant Valid() && old(schedule) <= schedule
        invariant c in old(system).clients <==> c in system.clients
        invariant c in system.clients ==> system.clients[c] == old(system).clients[c]
        invariant RowsStay(old(system), system)
      {
        var a: Action := *;
        if Actor(a) != c && Enabled(system, a) {
          RowsStayAt(a);
          Do(a);
        }
        steps := steps - 1;
      }
    }

    lemma RowsStayAt(a: Action)
      requires Valid() && Enabled(system, a)
      ensures RowsStay(system, Step(system, a))
    {
      AfterKeepsInv(EMPTY, schedule);
      CommittedIsFinal(system, a);
    }

    /** The lookup: a committed row is the answer. */
    method LookUp(c: nat, slot: Slot, fp: string) returns (r: Outcome, answered: bool)
      requires Valid() && c in system.clients && system.clients[c] == Client(slot, fp, Starting)
      modifies this
      ensures Valid() && old(schedule) <= schedule
      ensures answered <==> slot in old(system).rows
      ensures c in system.clients &&
        system.clients[c] == Client(slot, fp, if answered then Done(r) else Missed)
      ensures answered ==> r != Failed && ToldFrom(old(system).rows[slot], fp, Done(r))
    {
      Do(Lookup(c));
      answered := system.clients[c].phase.Done?;
      r := if answered then system.clients[c].phase.outcome else Failed;
    }

    /** One request: look up, reserve, execute and commit, or roll back, while others run. If its row is
        committed as it starts, it is answered from that row; and it fails only when its execution raises,
        its commit fails, or another's uncommitted row outlasts its wait. */
    method WithIdempotency(c: nat, slot: Slot, fp: string) returns (r: Outcome)
      requires Valid() && c !in system.clients
      modifies this
      ensures Valid() && old(schedule) <= schedule
      ensures c in system.clients && system.clients[c] == Client(slot, fp, Done(r))
      ensures Justified(system, c, slot, fp, r)
      ensures slot in old(system).rows ==> ToldFrom(old(system).rows[slot], fp, Done(r))
      ensures r == Failed ==> |schedule| > |old(schedule)| && JustFailed(schedule, c, slot, system)
    {
      Do(Arrive(c, slot, fp));
      Others(c);
      var answered;
      r, answered := LookUp(c, slot, fp);
      if !answered {
        Others(c);
        r := ReserveAndExecute(c, slot, fp);
      }
      AfterKeepsInv(EMPTY, schedule);
      FinishedIsJustified(system, c);
    }

    method ReserveAndExecute(c: nat, slot: Slot, fp: string) returns (r: Outcome)
      requires Valid() && c in system.clients && system.clients[c] == Client(slot, fp, Missed)
      modifies this
      ensures Valid() && old(schedule) <= schedule
      ensures c in system.clients && system.clients[c] == Client(slot, fp, Done(r))
      ensures r == Failed ==> |schedule| > |old(schedule)| && JustFailed(schedule, c, slot, system)
    {
      if slot in system.pending {
        // The flush waits for the other transaction; if it outlasts the lock timeout, the request fails.
        Others(c);
        if slot in system.pending {
          Do(Abort(c));
          return Failed;
        }
      }
      Do(Flush(c));
      Others(c);
      if system.clients[c].phase.Lost? {
        RowIsThere(c);
        Do(Reload(c));
        r := system.clients[c].phase.outcome;
      } else {
        var result: ExecuteResult := *;
        r := ExecuteAndCommit(c, slot, fp, result);
      }
    }

    method ExecuteAndCommit(c: nat, slot: Slot, fp: string, result: ExecuteResult) returns (r: Outcome)
      requires Valid() && c in system.clients && system.clients[c] == Client(slot, fp, Reserved)
      modifies this
      ensures Valid() && old(schedule) <= schedule
      ensures c in system.clients && system.clients[c] == Client(slot, fp, Done(r))
      ensures r == Failed ==> |schedule| > |old(schedule)| && JustFailed(schedule, c, slot, system)
    {
      StillHeld(c);
      Do(Execute(c, result));
      if result.Raises? {
        return Failed;
      }
      Others(c);
      StillHeld(c);
      var succeeds: bool := *;
      Do(Commit(c, succeeds));
      r := if succeeds then Created(result.status, result.body) else Failed;
    }

    lemma RowIsThere(c: nat)
      requires Valid() && At(system, c, Lost)
      ensures system.clients[c].slot in system.rows
    {
      AfterKeepsInv(EMPTY, schedule);
      assert ClientOk(system, c);
    }

    lemma StillHeld(c: nat)
      requires Valid() && c in system.clients && Holds(system.clients[c].phase)
      ensures system.clients[c].slot in system.pending
    {
      AfterKeepsInv(EMPTY, schedule);
      assert ClientOk(system, c);
    }
  }

  lemma FinishedIsJustified(s: System, c: nat)
    requires Inv(s) && c in s.clients && s.clients[c].phase.Done?
    ensures Justified(s, c, s.clients[c].slot, s.clients[c].fingerprint, s.clients[c].phase.outcome)
  {
    assert ClientOk(s, c);
    forall e | e in s.effects && e.owner == c ensures s.clients[c].phase.outcome.Created? {
      var i :| 0 <= i < |s.effects| && s.effects[i] == e;
      assert EffectOk(s, i);
    }
  }
}
