/** The campaign's ledger (scripts/run_final_campaign.py): an append-only record of attempts that is the only thing one
    session leaves to the next. */
module Ledger {
  import opened Campaign

  datatype Status = VALID | INFRASTRUCTURE | DEFECT | ABORTED

  /** What the resume logic reads of a ledger row. `attempt` is the number in `attempt_id`. */
  datatype Row = Row(attempt: nat, key: Key, status: Status)

  /** What executing a condition came to, before its time budget is considered. */
  datatype Outcome = Succeeded | FailedInfrastructure | FailedSuspiciously

  /** What the environment contributes to one step of a session. A session whose ticks run out has been killed there. */
  datatype Tick = Tick(signalled: bool, late: bool, outcome: Outcome, overBudget: bool, drifted: bool)

  /** Exit codes 0 to 4, or none at all. */
  datatype Exit = Complete | StillPending | Refused | StoppedByDefect | Drifted | Killed

  /** A success over its time budget counts as an infrastructure failure. */
  function Recorded(t: Tick): Status {
    match t.outcome
    case Succeeded => if t.overBudget then INFRASTRUCTURE else VALID
    case FailedInfrastructure => INFRASTRUCTURE
    case FailedSuspiciously => DEFECT
  }

  function RowFor(rows: seq<Row>, key: Key, status: Status): Row {
    Row(|rows| + 1, key, status)
  }

  // -- a session, on values -----------------------------------------------------

  datatype AttemptsEnd = Settled | Suspicious | Dead

  /** The retry loop: up to `maxRetries + 1` attempts, ended by a success or a suspected defect. */
  function Attempts(rows: seq<Row>, key: Key, made: nat, maxRetries: int, ticks: seq<Tick>)
    : (seq<Row>, seq<Tick>, AttemptsEnd)
    decreases |ticks|
  {
    if made > maxRetries then (rows, ticks, Settled)
    else if ticks == [] then (rows, [], Dead)
    else
      var status := Recorded(ticks[0]);
      var grown := rows + [RowFor(rows, key, status)];
      if status == VALID then (grown, ticks[1..], Settled)
      else if status == DEFECT then (grown, ticks[1..], Suspicious)
      else Attempts(grown, key, made + 1, maxRetries, ticks[1..])
  }

  datatype SweepEnd = Swept | Ended(exit: Exit)

  /** The loop over pending conditions. After a signal the remaining ones are recorded as aborted; past the campaign's
      deadline they are left alone. */
  function Sweep(rows: seq<Row>, pending: seq<Key>, maxRetries: int, interrupted: bool, ticks: seq<Tick>)
    : (seq<Row>, SweepEnd)
    decreases |pending|
  {
    if pending == [] then (rows, Swept)
    else if ticks == [] then (rows, Ended(Killed))
    else if interrupted || ticks[0].signalled then
      Sweep(rows + [RowFor(rows, pending[0], ABORTED)], pending[1..], maxRetries, true, ticks[1..])
    else if ticks[0].late then (rows, Swept)
    else
      var (after, left, end) := Attempts(rows, pending[0], 0, maxRetries, ticks[1..]);
      if end == Dead then (after, Ended(Killed))
      else if end == Suspicious then (after, Ended(StoppedByDefect))
      else if left == [] then (after, Ended(Killed))
      else if left[0].drifted then (after, Ended(Drifted))
      else Sweep(after, pending[1..], maxRetries, false, left[1..])
  }

  /** `completed`. */
  function Completed(rows: seq<Row>): set<Key> {
    set i | 0 <= i < |rows| && rows[i].status == VALID :: rows[i].key
  }

  /** `[c for c in conditions if c.key not in done]`. */
  function Pending(conditions: seq<Key>, done: set<Key>): seq<Key> {
    if conditions == [] then []
    else
      var n := |conditions| - 1;
      Pending(conditions[..n], done) + if conditions[n] in done then [] else [conditions[n]]
  }

  /** One run of the script against a ledger. */
  datatype Plan = Plan(conditions: seq<Key>, maxRetries: int, dirty: bool)

  function Session(rows: seq<Row>, plan: Plan, ticks: seq<Tick>): (seq<Row>, Exit) {
    var pending := Pending(plan.conditions, Completed(rows));
    if plan.dirty then (rows, Refused)
    else if pending == [] then (rows, Complete)
    else
      var (after, end) := Sweep(rows, pending, plan.maxRetries, false, ticks);
      if end.Ended? then (after, end.exit)
      else (after, if Pending(plan.conditions, Completed(after)) == [] then Complete else StillPending)
  }

  // -- in place -------------------------------------------------------------

  class Book {
    var rows: seq<Row>

    constructor ()
      ensures rows == []
    {
      rows := [];
    }

    /** `append`. */
    method Append(row: Row)
      modifies this
      ensures rows == old(rows) + [row]
    {
      rows := rows + [row];
    }

    /** `completed`. */
    method Done() returns (done: set<Key>)
      ensures done == Completed(rows)
    {
      done := {};
      for i := 0 to |rows|
        invariant done == Completed(rows[..i])
      {
        CompletedGrows(rows[..i], rows[i]);
        assert rows[..i + 1] == rows[..i] + [rows[i]];
        if rows[i].status == VALID {
          done := done + {rows[i].key};
        }
      }
      assert rows[..|rows|] == rows;
    }

    /** The attempts at one condition. */
    method Attempt(key: Key, maxRetries: int, ticks: seq<Tick>) returns (left: seq<Tick>, end: AttemptsEnd)
      modifies this
      ensures (rows, left, end) == Attempts(old(rows), key, 0, maxRetries, ticks)
    {
      left := ticks;
      var attempts := 0;
      while attempts <= maxRetries
        invariant attempts >= 0
        invariant Attempts(rows, key, attempts, maxRetries, left) == Attempts(old(rows), key, 0, maxRetries, ticks)
        decreases |left|
      {
        if left == [] {
          return left, Dead;
        }
        attempts := attempts + 1;
        var status := Recorded(left[0]);
        Append(Row(|rows| + 1, key, status));
        left := left[1..];
        if status == VALID {
          return left, Settled;
        }
        if status == DEFECT {
          return left, Suspicious;
        }
      }
      end := Settled;
    }

    /** The loop over the pending conditions. */
    method RunPending(pending: seq<Key>, maxRetries: int, ticks: seq<Tick>) returns (end: SweepEnd)
      modifies this
      ensures (rows, end) == Sweep(old(rows), pending, maxRetries, false, ticks)
    {
      hide Attempts;
      var left, interrupted := ticks, false;
      for i := 0 to |pending|
        invariant Sweep(rows, pending[i..], maxRetries, interrupted, left)
          == Sweep(old(rows), pending, maxRetries, false, ticks)
      {
        assert pending[i..][1..] == pending[i + 1..];
        if left == [] {
          return Ended(Killed);
        }
        interrupted := interrupted || left[0].signalled;
        if interrupted {
          Append(Row(|rows| + 1, pending[i], ABORTED));
          left := left[1..];
          continue;
        }
        if left[0].late {
          return Swept;
        }
        var ended;
        left, ended := Attempt(pending[i], maxRetries, left[1..]);
        if ended == Dead {
          return Ended(Killed);
        }
        if ended == Suspicious {
          return Ended(StoppedByDefect);
        }
        if left == [] {
          return Ended(Killed);
        }
        if left[0].drifted {
          return Ended(Drifted);
        }
        left := left[1..];
      }
      end := Swept;
    }

    /** `main`, from the check of the working tree to the exit code. */
    method RunSession(plan: Plan, ticks: seq<Tick>) returns (exit: Exit)
      modifies this
      ensures (rows, exit) == Session(old(rows), plan, ticks)
    {
      hide Sweep, Pending, Completed;
      if plan.dirty {
        return Refused;
      }
      var done := Done();
      var pending := Select(plan.conditions, done);
      if pending == [] {
        return Complete;
      }
      var end := RunPending(pending, plan.maxRetries, ticks);
      if end.Ended? {
        return end.exit;
      }
      done := Done();
      var remaining := Select(plan.conditions, done);
      exit := if remaining == [] then Complete else StillPending;
    }
  }

  method Select(conditions: seq<Key>, done: set<Key>) returns (pending: seq<Key>)
    ensures pending == Pending(conditions, done)
  {
    pending := [];
    for i := 0 to |conditions|
      invariant pending == Pending(conditions[..i], done)
    {
      assert conditions[..i + 1][..i] == conditions[..i];
      if conditions[i] !in done {
        pending := pending + [conditions[i]];
      }
    }
    assert conditions[..|conditions|] == conditions;
  }

  lemma CompletedGrows(rows: seq<Row>, row: Row)
    ensures Completed(rows + [row]) == Completed(rows) + if row.status == VALID then {row.key} else {}
  {
    var grown := rows + [row];
    assert forall i | 0 <= i < |rows| :: grown[i] == rows[i];
    assert grown[|rows|] == row;
    if row.status == VALID { assert row.key in Completed(grown); }
    forall k | k in Completed(rows) ensures k in Completed(grown) {
      var i :| 0 <= i < |rows| && rows[i].status == VALID && rows[i].key == k;
      assert grown[i] == rows[i];
    }
  }

  // -- what a session does to the ledger ------------------------------------------------

  /** Rows of a condition with one of these statuses. */
  function Tally(rows: seq<Row>, key: Key, statuses: set<Status>): nat {
    if rows == [] then 0
    else
      var n := |rows| - 1;
      Tally(rows[..n], key, statuses) + if rows[n].key == key && rows[n].status in statuses then 1 else 0
  }

  function ValidRows(rows: seq<Row>, key: Key): nat {
    Tally(rows, key, {VALID})
  }

  /** Attempts that were executed, whatever came of them. */
  function Executions(rows: seq<Row>, key: Key): nat {
    Tally(rows, key, {VALID, INFRASTRUCTURE, DEFECT})
  }

  lemma TallyGrows(rows: seq<Row>, row: Row, key: Key, statuses: set<Status>)
    ensures Tally(rows + [row], key, statuses)
      == Tally(rows, key, statuses) + if row.key == key && row.status in statuses then 1 else 0
  {
    assert (rows + [row])[..|rows|] == rows;
  }

  /** Both counts after one more row. */
  lemma CountsGrow(rows: seq<Row>, row: Row, key: Key)
    ensures ValidRows(rows + [row], key)
      == ValidRows(rows, key) + if row.key == key && row.status == VALID then 1 else 0
    ensures Executions(rows + [row], key)
      == Executions(rows, key) + if row.key == key && row.status != ABORTED then 1 else 0
  {
    hide Tally;
    TallyGrows(rows, row, key, {VALID});
    TallyGrows(rows, row, key, {VALID, INFRASTRUCTURE, DEFECT});
  }

  /** Row i carries attempt number i + 1. */
  ghost predicate Numbered(rows: seq<Row>) {
    forall i | 0 <= i < |rows| :: rows[i].attempt == i + 1
  }

  function Budget(maxRetries: int, made: nat): nat {
    if maxRetries + 1 - made > 0 then maxRetries + 1 - made else 0
  }

  /** What the retry loop does: rows are appended, all of its own condition, at most one of them VALID, within
      budget. */
  lemma {:induction false} AttemptsDo(rows: seq<Row>, key: Key, made: nat, maxRetries: int, ticks: seq<Tick>, k: Key)
    requires Numbered(rows)
    ensures var (after, left, end) := Attempts(rows, key, made, maxRetries, ticks);
      && rows <= after && Numbered(after) && |left| <= |ticks|
      && (k != key ==> ValidRows(after, k) == ValidRows(rows, k) && Executions(after, k) == Executions(rows, k))
      && ValidRows(rows, k) <= ValidRows(after, k) <= ValidRows(rows, k) + 1
      && Executions(after, k) <= Executions(rows, k) + Budget(maxRetries, made)
    decreases |ticks|
  {
    hide ValidRows, Executions;
    if made <= maxRetries && ticks != [] {
      var row := RowFor(rows, key, Recorded(ticks[0]));
      CountsGrow(rows, row, k);
      if Recorded(ticks[0]) == INFRASTRUCTURE {
        AttemptsDo(rows + [row], key, made + 1, maxRetries, ticks[1..], k);
      }
    }
  }

  /** What the sweep over distinct conditions does to the rows of one of them: it leaves conditions that are not pending
      alone, adds at most one VALID row, and stays within one budget of attempts. */
  lemma {:induction false} SweepDoes(rows: seq<Row>, pending: seq<Key>, maxRetries: int, interrupted: bool,
                                     ticks: seq<Tick>, k: Key)
    requires Numbered(rows) && Distinct(pending)
    ensures var after := Sweep(rows, pending, maxRetries, interrupted, ticks).0;
      && rows <= after && Numbered(after)
      && (k !in pending ==> ValidRows(after, k) == ValidRows(rows, k) && Executions(after, k) == Executions(rows, k))
      && ValidRows(rows, k) <= ValidRows(after, k) <= ValidRows(rows, k) + 1
      && Executions(after, k) <= Executions(rows, k) + Budget(maxRetries, 0)
    decreases |pending|
  {
    hide ValidRows, Executions, Attempts;
    if pending != [] && ticks != [] {
      RestDistinct(pending);
      if interrupted || ticks[0].signalled {
        var row := RowFor(rows, pending[0], ABORTED);
        CountsGrow(rows, row, k);
        SweepDoes(rows + [row], pending[1..], maxRetries, true, ticks[1..], k);
      } else if !ticks[0].late {
        var (after, left, end) := Attempts(rows, pending[0], 0, maxRetries, ticks[1..]);
        AttemptsDo(rows, pending[0], 0, maxRetries, ticks[1..], k);
        if end == Settled && left != [] && !left[0].drifted {
          SweepDoes(after, pending[1..], maxRetries, false, left[1..], k);
        }
      }
    }
  }

  lemma RestDistinct(pending: seq<Key>)
    requires pending != [] && Distinct(pending)
    ensures Distinct(pending[1..]) && pending[0] !in pending[1..]
    ensures forall k | k in pending :: k == pending[0] || k in pending[1..]
  {
    assert pending == [pending[0]] + pending[1..];
  }

  lemma {:induction false} PendingIs(conditions: seq<Key>, done: set<Key>)
    ensures forall k :: k in Pending(conditions, done) <==> k in conditions && k !in done
    ensures Distinct(conditions) ==> Distinct(Pending(conditions, done))
  {
    if conditions != [] {
      var n := |conditions| - 1;
      PendingIs(conditions[..n], done);
      assert conditions == conditions[..n] + [conditions[n]];
    }
  }

  lemma {:induction false} CompletedIs(rows: seq<Row>, k: Key)
    ensures k in Completed(rows) <==> ValidRows(rows, k) > 0
  {
    if rows != [] {
      var n := |rows| - 1;
      assert rows == rows[..n] + [rows[n]];
      CompletedIs(rows[..n], k);
      CompletedGrows(rows[..n], rows[n]);
    }
  }

  /** One session, stopped anywhere: rows are only appended and stay numbered; a condition already VALID gets no further
      row that was executed; one that was not gets at most one VALID row and at most `maxRetries + 1` executed attempts;
      and exit code 0 means every condition has a VALID row. */
  lemma SessionDoes(rows: seq<Row>, plan: Plan, ticks: seq<Tick>, k: Key)
    requires Numbered(rows) && Distinct(plan.conditions)
    ensures var (after, exit) := Session(rows, plan, ticks);
      && rows <= after && Numbered(after)
      && (ValidRows(rows, k) > 0 ==>
          ValidRows(after, k) == ValidRows(rows, k) && Executions(after, k) == Executions(rows, k))
      && ValidRows(rows, k) <= ValidRows(after, k) <= ValidRows(rows, k) + 1
      && Executions(after, k) <= Executions(rows, k) + (if plan.maxRetries >= 0 then plan.maxRetries + 1 else 0)
      && (exit == Complete && k in plan.conditions ==> ValidRows(after, k) > 0)
  {
    hide ValidRows, Executions, Sweep, Numbered, Pending, Completed;
    var after := Session(rows, plan, ticks).0;
    var pending := Pending(plan.conditions, Completed(rows));
    PendingIs(plan.conditions, Completed(rows));
    PendingIs(plan.conditions, Completed(after));
    CompletedIs(rows, k);
    CompletedIs(after, k);
    SweepDoes(rows, pending, plan.maxRetries, false, ticks, k);
    SweepNeverCompletes(rows, pending, plan.maxRetries, false, ticks);
  }

  /** Only the check after the loop can conclude that the campaign is complete. */
  lemma {:induction false} SweepNeverCompletes(rows: seq<Row>, pending: seq<Key>, maxRetries: int, interrupted: bool,
                                               ticks: seq<Tick>)
    ensures var end := Sweep(rows, pending, maxRetries, interrupted, ticks).1;
      end.Ended? ==> end.exit in {Killed, StoppedByDefect, Drifted}
    decreases |pending|
  {
    hide Attempts;
    if pending != [] && ticks != [] {
      if interrupted || ticks[0].signalled {
        SweepNeverCompletes(rows + [RowFor(rows, pending[0], ABORTED)], pending[1..], maxRetries, true, ticks[1..]);
      } else if !ticks[0].late {
        var (after, left, end) := Attempts(rows, pending[0], 0, maxRetries, ticks[1..]);
        if end == Settled && left != [] && !left[0].drifted {
          SweepNeverCompletes(after, pending[1..], maxRetries, false, left[1..]);
        }
      }
    }
  }

  // -- what the rows and the exit code say ------------------------------------------------

  /** A row says what its attempt came to: VALID for a success within its time budget, DEFECT for a suspicious failure,
      INFRASTRUCTURE for everything else. */
  ghost predicate Reports(row: Row, attempt: nat, key: Key, t: Tick) {
    && row.attempt == attempt && row.key == key
    && row.status == if t.outcome == FailedSuspiciously then DEFECT
                     else if t.outcome == Succeeded && !t.overBudget then VALID
                     else INFRASTRUCTURE
  }

  ghost predicate AllReport(added: seq<Row>, from: nat, key: Key, ticks: seq<Tick>) {
    |added| <= |ticks| && forall i | 0 <= i < |added| :: Reports(added[i], from + i + 1, key, ticks[i])
  }

  ghost predicate AllInfrastructure(rows: seq<Row>) {
    forall i | 0 <= i < |rows| :: rows[i].status == INFRASTRUCTURE
  }

  lemma OneMoreReport(row: Row, rest: seq<Row>, from: nat, key: Key, ticks: seq<Tick>)
    requires ticks != [] && Reports(row, from + 1, key, ticks[0]) && AllReport(rest, from + 1, key, ticks[1..])
    ensures AllReport([row] + rest, from, key, ticks)
  {}

  /** How the retry loop stopped after these rows: at a success, at a suspicious failure, with its retries used up, or
      killed in between. */
  ghost predicate StopsAs(added: seq<Row>, end: AttemptsEnd, exhausted: bool, killed: bool) {
    var last := if added == [] then INFRASTRUCTURE else added[|added| - 1].status;
    match end
    case Settled => last == VALID || (last == INFRASTRUCTURE && exhausted)
    case Suspicious => last == DEFECT
    case Dead => last == INFRASTRUCTURE && !exhausted && killed
  }

  /** The retry loop makes an attempt for each row it adds: it goes on after every infrastructure failure until the
      retries are used up, stops at the first success, and stops for good at the first suspicious failure. */
  lemma {:induction false} AttemptsAre(rows: seq<Row>, key: Key, made: nat, maxRetries: int, ticks: seq<Tick>)
    returns (added: seq<Row>)
    ensures var (after, left, end) := Attempts(rows, key, made, maxRetries, ticks);
      var n := |added|;
      && after == rows + added && AllReport(added, |rows|, key, ticks) && left == ticks[n..]
      && (n == 0 || made + n <= maxRetries + 1) && (n > 0 ==> AllInfrastructure(added[..n - 1]))
      && StopsAs(added, end, made + n > maxRetries, n == |ticks|)
    decreases |ticks|
  {
    hide AllReport, AllInfrastructure, StopsAs, Reports;
    added := [];
    Unreported(|rows|, key, ticks, made > maxRetries);
    if made <= maxRetries && ticks != [] {
      var row := RowFor(rows, key, Recorded(ticks[0]));
      Reported(rows, key, ticks[0], made + 1 > maxRetries, |ticks| == 1);
      added := [row];
      Unreported(|rows| + 1, key, ticks[1..], made + 1 > maxRetries);
      OneMoreReport(row, [], |rows|, key, ticks);
      assert [row] + [] == [row] && [row][..0] == [];
      if row.status == INFRASTRUCTURE {
        var rest := AttemptsAre(rows + [row], key, made + 1, maxRetries, ticks[1..]);
        var end := Attempts(rows + [row], key, made + 1, maxRetries, ticks[1..]).2;
        added := [row] + rest;
        OneMoreReport(row, rest, |rows|, key, ticks);
        assert rows + [row] + rest == rows + ([row] + rest);
        StopsAfter(row, rest, end, made + |added| > maxRetries, |added| == |ticks|);
        if rest != [] {
          assert added[..|added| - 1] == [row] + rest[..|rest| - 1];
          InfrastructureFirst(row, rest[..|rest| - 1]);
        }
      }
    }
  }

  lemma Unreported(from: nat, key: Key, ticks: seq<Tick>, exhausted: bool)
    ensures AllReport([], from, key, ticks) && AllInfrastructure([])
    ensures StopsAs([], if exhausted then Settled else Dead, exhausted, true)
    ensures exhausted ==> StopsAs([], Settled, true, false)
  {}

  lemma Reported(rows: seq<Row>, key: Key, t: Tick, exhausted: bool, killed: bool)
    ensures var row := RowFor(rows, key, Recorded(t));
      && Reports(row, |rows| + 1, key, t)
      && (row.status == VALID ==> StopsAs([row], Settled, exhausted, killed))
      && (row.status == DEFECT ==> StopsAs([row], Suspicious, exhausted, killed))
  {}

  lemma StopsAfter(row: Row, rest: seq<Row>, end: AttemptsEnd, exhausted: bool, killed: bool)
    requires row.status == INFRASTRUCTURE && StopsAs(rest, end, exhausted, killed)
    ensures StopsAs([row] + rest, end, exhausted, killed)
  {}

  lemma InfrastructureFirst(row: Row, rest: seq<Row>)
    requires row.status == INFRASTRUCTURE && AllInfrastructure(rest)
    ensures AllInfrastructure([row] + rest)
  {}

  /** Only the last of the new rows can report a defect, and it does exactly when that ended the sweep; after an aborted
      row there are only aborted ones. */
  ghost predicate Shaped(added: seq<Row>, interrupted: bool, defect: bool) {
    && (forall i | 0 <= i < |added| && added[i].status == DEFECT :: i == |added| - 1)
    && (defect <==> added != [] && added[|added| - 1].status == DEFECT)
    && (forall i, j | 0 <= i < j < |added| && added[i].status == ABORTED :: added[j].status == ABORTED)
    && (interrupted ==> forall i | 0 <= i < |added| :: added[i].status == ABORTED)
  }

  ghost predicate Unremarkable(rows: seq<Row>) {
    forall i | 0 <= i < |rows| :: rows[i].status == VALID || rows[i].status == INFRASTRUCTURE
  }

  /** `all` has the rows of `rows` and `after` in front, and the last of its rows are shaped. */
  lemma ShapedAfter(rows: seq<Row>, after: seq<Row>, all: seq<Row>, defect: bool)
    requires rows <= after <= all && Unremarkable(after[|rows|..]) && Shaped(all[|after|..], false, defect)
    ensures Shaped(all[|rows|..], false, defect)
  {
    var first, rest, added := after[|rows|..], all[|after|..], all[|rows|..];
    assert added == first + rest;
  }

  lemma ShapedAttempts(added: seq<Row>, end: AttemptsEnd, exhausted: bool, killed: bool, from: nat, key: Key,
                       ticks: seq<Tick>)
    requires AllReport(added, from, key, ticks) && StopsAs(added, end, exhausted, killed)
    requires added != [] ==> AllInfrastructure(added[..|added| - 1])
    ensures Shaped(added, false, end == Suspicious)
    ensures end != Suspicious ==> Unremarkable(added)
  {
    if added != [] {
      var n := |added| - 1;
      assert forall i | 0 <= i < n :: added[i] == added[..n][i];
      assert Reports(added[n], from + n + 1, key, ticks[n]);
    }
  }

  lemma AbortedFirst(rows: seq<Row>, row: Row, all: seq<Row>, defect: bool)
    requires row.status == ABORTED && rows + [row] <= all && Shaped(all[|rows| + 1..], true, defect)
    ensures rows <= all && Shaped(all[|rows|..], true, defect) && Shaped(all[|rows|..], false, defect)
  {
    assert all[|rows|..] == [row] + all[|rows| + 1..];
  }

  lemma {:induction false} SweepShape(rows: seq<Row>, pending: seq<Key>, maxRetries: int, interrupted: bool,
                                      ticks: seq<Tick>)
    ensures var (after, end) := Sweep(rows, pending, maxRetries, interrupted, ticks);
      rows <= after && Shaped(after[|rows|..], interrupted, end == Ended(StoppedByDefect))
    decreases |pending|
  {
    hide Attempts, Shaped, Unremarkable;
    var (all, end) := Sweep(rows, pending, maxRetries, interrupted, ticks);
    assert rows[|rows|..] == [];
    NothingAdded();
    if pending != [] && ticks != [] {
      if interrupted || ticks[0].signalled {
        var row := RowFor(rows, pending[0], ABORTED);
        SweepShape(rows + [row], pending[1..], maxRetries, true, ticks[1..]);
        AbortedFirst(rows, row, all, end == Ended(StoppedByDefect));
      } else if !ticks[0].late {
        var (after, left, stop) := Attempts(rows, pending[0], 0, maxRetries, ticks[1..]);
        AttemptsShape(rows, pending[0], maxRetries, ticks[1..]);
        if stop == Settled && left != [] && !left[0].drifted {
          SweepShape(after, pending[1..], maxRetries, false, left[1..]);
          ShapedAfter(rows, after, all, end == Ended(StoppedByDefect));
        }
      }
    }
  }

  lemma AttemptsShape(rows: seq<Row>, key: Key, maxRetries: int, ticks: seq<Tick>)
    ensures var (after, _, end) := Attempts(rows, key, 0, maxRetries, ticks);
      && rows <= after && Shaped(after[|rows|..], false, end == Suspicious)
      && (end != Suspicious ==> Unremarkable(after[|rows|..]))
  {
    hide Attempts, AllReport, StopsAs, AllInfrastructure, Shaped, Unremarkable;
    var (after, left, end) := Attempts(rows, key, 0, maxRetries, ticks);
    var added := AttemptsAre(rows, key, 0, maxRetries, ticks);
    ShapedAttempts(added, end, |added| > maxRetries, |added| == |ticks|, |rows|, key, ticks);
    assert after[|rows|..] == added;
  }

  /** What the exit code of a session says about the ledger it leaves: it is refused exactly for a dirty tree, stops by
      defect exactly when it recorded one, which is then the last row, and is still pending only with a condition that
      is not VALID yet. */
  lemma ExitMeans(rows: seq<Row>, plan: Plan, ticks: seq<Tick>)
    ensures var (after, exit) := Session(rows, plan, ticks);
      && rows <= after && Shaped(after[|rows|..], false, exit == StoppedByDefect)
      && (exit == Refused <==> plan.dirty) && (plan.dirty ==> after == rows)
      && (exit == StillPending ==> exists k :: k in plan.conditions && ValidRows(after, k) == 0)
      && (exit == Complete ==> forall k | k in plan.conditions :: ValidRows(after, k) > 0)
  {
    hide Sweep, Pending, Completed, ValidRows, Shaped;
    var (after, exit) := Session(rows, plan, ticks);
    var pending := Pending(plan.conditions, Completed(rows));
    PendingIs(plan.conditions, Completed(rows));
    PendingIs(plan.conditions, Completed(after));
    SweepShape(rows, pending, plan.maxRetries, false, ticks);
    SweepNeverCompletes(rows, pending, plan.maxRetries, false, ticks);
    assert rows[|rows|..] == [];
    NothingAdded();
    forall k ensures k in Completed(after) <==> ValidRows(after, k) > 0 {
      CompletedIs(after, k);
    }
    if exit == StillPending {
      var k := Pending(plan.conditions, Completed(after))[0];
      assert k in plan.conditions && ValidRows(after, k) == 0;
    }
  }

  lemma NothingAdded()
    ensures Shaped([], false, false) && Shaped([], true, false)
  {}

  // -- across sessions ----------------------------------------------------------

  datatype Visit = Visit(plan: Plan, ticks: seq<Tick>)

  /** The ledger after a series of sessions, the first of which found none. */
  function After(visits: seq<Visit>): seq<Row> {
    if visits == [] then []
    else
      var last := visits[|visits| - 1];
      Session(After(visits[..|visits| - 1]), last.plan, last.ticks).0
  }

  /** Whatever series of sessions, with whatever plans, each stopped wherever it was: the rows are numbered in order, no
      condition has two VALID rows, and after a session that exits 0 every condition of its plan has exactly one. */
  lemma {:induction false} EveryCampaign(visits: seq<Visit>, k: Key)
    requires forall i | 0 <= i < |visits| :: Distinct(visits[i].plan.conditions)
    ensures Numbered(After(visits)) && ValidRows(After(visits), k) <= 1
    ensures visits != [] ==>
      var n := |visits| - 1;
      var (rows, exit) := Session(After(visits[..n]), visits[n].plan, visits[n].ticks);
      && After(visits[..n]) <= After(visits) && rows == After(visits)
      && (exit == Complete && k in visits[n].plan.conditions ==> ValidRows(rows, k) == 1)
  {
    hide Session, Numbered, Distinct;
    if visits == [] {
      NothingRecorded(k);
    } else {
      var n := |visits| - 1;
      EveryCampaign(visits[..n], k);
      SessionDoes(After(visits[..n]), visits[n].plan, visits[n].ticks, k);
    }
  }

  lemma NothingRecorded(k: Key)
    ensures Numbered([]) && ValidRows([], k) == 0
  {}

  // -- repeated conditions ----------------------------------------------------------

  const SMOOTH := Tick(false, false, Succeeded, false, false)

  /** An undisturbed environment in which everything succeeds. */
  function AllGoesWell(n: nat): seq<Tick> {
    seq(3 * n, i => SMOOTH)
  }

  /** An undisturbed sweep records one VALID row for every pending entry, repeated or not. */
  lemma {:induction false} SmoothSweep(rows: seq<Row>, pending: seq<Key>, maxRetries: nat, k: Key)
    ensures var (after, end) := Sweep(rows, pending, maxRetries, false, AllGoesWell(|pending|));
      end == Swept && ValidRows(after, k) == ValidRows(rows, k) + Times(pending, k)
    decreases |pending|
  {
    hide ValidRows, Times;
    if pending == [] {
      TimesNone(k);
    } else {
      var ticks := AllGoesWell(|pending|);
      var row := RowFor(rows, pending[0], VALID);
      assert ticks[1..][1..][1..] == AllGoesWell(|pending[1..]|);
      assert Attempts(rows, pending[0], 0, maxRetries, ticks[1..]) == (rows + [row], ticks[1..][1..], Settled);
      SmoothSweep(rows + [row], pending[1..], maxRetries, k);
      CountsGrow(rows, row, k);
      assert pending == [pending[0]] + pending[1..];
      TimesAdd([pending[0]], pending[1..], k);
      TimesSplit([pending[0]], k);
      TimesNone(k);
    }
  }

  /** Wherever earlier sessions were stopped, one undisturbed session finishes the campaign. */
  lemma ResumeFinishes(rows: seq<Row>, plan: Plan)
    requires !plan.dirty && plan.maxRetries >= 0
    ensures Session(rows, plan, AllGoesWell(|Pending(plan.conditions, Completed(rows))|)).1 == Complete
  {
    hide ValidRows, Completed, Sweep, Pending, Times;
    var pending := Pending(plan.conditions, Completed(rows));
    var after := Sweep(rows, pending, plan.maxRetries, false, AllGoesWell(|pending|)).0;
    PendingIs(plan.conditions, Completed(rows));
    PendingIs(plan.conditions, Completed(after));
    forall k | k in plan.conditions ensures k in Completed(after) {
      SmoothSweep(rows, pending, plan.maxRetries, k);
      CompletedIs(rows, k);
      CompletedIs(after, k);
      TimesOf(pending, k);
    }
    EmptyOrNot(Pending(plan.conditions, Completed(after)));
    if pending != [] { SmoothSweep(rows, pending, plan.maxRetries, pending[0]); }
  }

  lemma EmptyOrNot(keys: seq<Key>)
    ensures keys == [] || exists k :: k in keys
  {
    if keys != [] { assert keys[0] in keys; }
  }

  lemma {:induction false} PendingTimes(conditions: seq<Key>, done: set<Key>, k: Key)
    requires k !in done
    ensures Times(Pending(conditions, done), k) == Times(conditions, k)
  {
    hide Times;
    if conditions != [] {
      var n := |conditions| - 1;
      PendingTimes(conditions[..n], done, k);
      TimesSplit(conditions, k);
      TimesAdd(Pending(conditions[..n], done), [conditions[n]], k);
      TimesSplit([conditions[n]], k);
      TimesNone(k);
      TimesAdd(Pending(conditions[..n], done), [], k);
    }
  }

  /** Every session against an empty ledger keeps VALID rows unique. */
  ghost predicate NeverDuplicates(plan: Plan) {
    forall ticks, k :: ValidRows(Session([], plan, ticks).0, k) <= 1
  }

  /** Exactly when the plan's conditions are distinct can a session not record one of them VALID twice. A repeated seed
      list entry is enough to lose it. */
  lemma UniqueExactlyWhenDistinct(plan: Plan)
    requires !plan.dirty && plan.maxRetries >= 0
    ensures NeverDuplicates(plan) <==> Distinct(plan.conditions)
  {
    hide Session, ValidRows, Times, Distinct;
    if Distinct(plan.conditions) {
      forall ticks, k ensures ValidRows(Session([], plan, ticks).0, k) <= 1 {
        NothingRecorded(k);
        SessionDoes([], plan, ticks, k);
      }
    } else {
      var k := RepeatedTwice(plan.conditions);
      var ticks := RepeatIsRecorded(plan, k);
      assert ValidRows(Session([], plan, ticks).0, k) > 1;
    }
  }

  lemma RepeatIsRecorded(plan: Plan, k: Key) returns (ticks: seq<Tick>)
    requires !plan.dirty && plan.maxRetries >= 0 && Times(plan.conditions, k) >= 2
    ensures ValidRows(Session([], plan, ticks).0, k) >= 2
  {
    hide Sweep, Times, Pending;
    NothingRecorded(k);
    CompletedIs([], k);
    var pending := Pending(plan.conditions, Completed([]));
    PendingTimes(plan.conditions, Completed([]), k);
    TimesNone(k);
    ticks := AllGoesWell(|pending|);
    SmoothSweep([], pending, plan.maxRetries, k);
  }
}
