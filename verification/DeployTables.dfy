/** The deploy scheduler as it runs, on a table updated in place. */
module DeployTables {
  import opened Common
  import opened Deploys

  class DeployTable {
    const local: bool
    const version: string
    var rows: Processes
    var tasks: Tasks
    var results: map<nat, Status>

    function Now(): State
      reads this
    {
      State(rows, tasks, results)
    }

    constructor (local: bool, version: string, tasks: Tasks)
      ensures Now() == State(map[], tasks, map[]) && this.local == local && this.version == version
    {
      this.local, this.version, this.tasks := local, version, tasks;
      rows, results := map[], map[];
    }

    /** The `status` property. */
    method GetStatus(n: string) returns (status: Status)
      requires n in rows
      modifies this`rows
      ensures status == StatusOf(old(rows[n]), results)
      ensures rows == old(rows)[n := Observed(old(rows[n]), results)]
    {
      var p := rows[n];
      if p.status != NoStatus {
        status := p.status;
      } else if p.taskId.None? {
        status := NoStatus;
      } else {
        status := if p.taskId.value in results then results[p.taskId.value] else Pending;
        if status == Success || status == Failure {
          rows := rows[n := p.(status := status)];
        }
      }
      assert rows[n] == Observed(old(rows[n]), results);
    }

    method RecreateProcesses()
      modifies this
      ensures Now() == AfterRecreate(old(Now()), local)
    {
      if local {
        tasks := map n | n in tasks && tasks[n].runInTests :: tasks[n];
      }
      var names := Rows(tasks.Keys);
      ghost var before, declared := rows, tasks;
      ListedMembers(names, tasks.Keys);
      for i := 0 to |names|
        invariant tasks == declared && results == old(results)
        invariant UpsertedFirst(before, declared, names[..i], rows)
      {
        ListedNext(names, tasks.Keys, i);
        UpsertNext(before, declared, names[..i], rows, names[i]);
        rows := rows[names[i] := Upserted(rows, tasks, names[i])];
      }
      UpsertedAll(before, declared, names, rows);
      rows := map n | n in rows && n in tasks :: rows[n];
    }

    method GetProcessesToRun(now: int) returns (names: seq<string>)
      requires rows.Keys == tasks.Keys
      modifies this`rows
      ensures rows == AllObserved(old(rows), results)
      ensures Lists(names, Selected(old(rows), tasks, results, now, version))
    {
      var all := Rows(rows.Keys);
      names := [];
      ghost var before := rows;
      ghost var selected := Selected(before, tasks, results, now, version);
      ListedMembers(all, rows.Keys);
      for i := 0 to |all|
        invariant Visited(before, results, all[..i], rows)
        invariant NoDuplicates(names) && forall n :: n in names <==> n in all[..i] && n in selected
      {
        hide StatusOf, Observed, ToRun, Visited, Selected;
        var n := all[i];
        ListedNext(all, before.Keys, i);
        VisitNext(before, results, all[..i], rows, n);
        var status := GetStatus(n);
        SelectedNext(before, tasks, results, now, version, n);
        if ToRun(rows[n], status, tasks[n], now, version) {
          names := names + [n];
        }
      }
      assert rows == AllObserved(before, results);
    }

    method RunTask(n: string, outcome: Outcome, now: int)
      requires n in rows
      modifies this`rows
      ensures rows == old(rows)[n := Ran(old(rows[n]), outcome, now, version)]
    {
      var p := rows[n].(status := NoStatus, lastRun := Some(now));
      rows := rows[n := p];
      match outcome {
        case Done => p := p.(status := Success);
        case Queued(id) => p := p.(taskId := Some(id));
        case Raised => p := p.(status := Failure);
      }
      p := p.(lastRunVersion := version);
      rows := rows[n := p];
      assert rows[n] == Ran(old(rows[n]), outcome, now, version);
    }

    /** Each selected process is started once, in order of priority. */
    method Deploy(now: int, outcomes: map<string, Outcome>) returns (started: seq<string>)
      modifies this
      ensures Now() == Step(old(Now()), local, version, Op.Deploy(now, outcomes))
      ensures Lists(started, Started(old(Now()), local, version, Op.Deploy(now, outcomes)).Keys)
      ensures ByPriority(rows, started)
    {
      hide SortedByPriority, Ran, Observed, ByPriority, Recreated, Declared;
      RecreateProcesses();
      ghost var s1 := Now();
      RecreatedExact(old(rows), tasks, results, now, version);
      ghost var toRun := Selected(s1.rows, s1.tasks, s1.results, now, version);
      var selected := GetProcessesToRun(now);
      ghost var observed := rows;
      ListedMembers(selected, toRun);
      started := SortedByPriority(rows, selected);
      SortSorts(rows, selected);
      SamePermutation(selected, started);
      ListedMembers(started, toRun);
      for i := 0 to |started|
        invariant results == s1.results && tasks == s1.tasks && rows.Keys == observed.Keys
        invariant forall n | n in rows ::
          rows[n] == if n in started[..i] then Ran(observed[n], OutcomeOf(outcomes, n), now, version) else observed[n]
      {
        ListedNext(started, toRun, i);
        RunTask(started[i], OutcomeOf(outcomes, started[i]), now);
      }
      RanPriority(observed, started, rows, now, version, outcomes);
      DeployedIs(s1, now, version, outcomes, started, rows);
    }

    /** An asynchronous result arrives. */
    method Finish(id: nat, result: Status)
      modifies this`results
      ensures Now() == Step(old(Now()), local, version, Op.Finish(id, result))
    {
      results := results[id := result];
    }
  }

  /** The status of these processes has been asked for, and stored where it was final. */
  ghost predicate Visited(before: Processes, results: map<nat, Status>, done: seq<string>, rows: Processes) {
    && rows.Keys == before.Keys
    && forall n | n in rows :: rows[n] == if n in done then Observed(before[n], results) else before[n]
  }

  /** Storing the status first makes no difference to the selection. */
  lemma SelectedNext(
      before: Processes, tasks: Tasks, results: map<nat, Status>, now: int, version: string, n: string)
    requires n in before && n in tasks
    ensures n in Selected(before, tasks, results, now, version) <==>
              ToRun(Observed(before[n], results), StatusOf(before[n], results), tasks[n], now, version)
  {
  }

  lemma VisitNext(before: Processes, results: map<nat, Status>, done: seq<string>, rows: Processes, n: string)
    requires Visited(before, results, done, rows) && n in before && n !in done
    ensures rows.Keys == before.Keys && rows[n] == before[n]
    ensures Visited(before, results, done + [n], rows[n := Observed(rows[n], results)])
  {
  }

  /** `bulk_create` with `update_conflicts` on one row: insert, or update the priority. */
  function Upserted(rows: Processes, tasks: Tasks, n: string): Process
    requires n in tasks
  {
    if n in rows then rows[n].(priority := tasks[n].priority)
    else Process(tasks[n].priority, None, None, "", NoStatus)
  }

  ghost predicate UpsertedFirst(before: Processes, tasks: Tasks, names: seq<string>, rows: Processes) {
    && (forall n | n in names :: n in tasks)
    && (forall n :: n in rows <==> n in before || n in names)
    && (forall n | n in rows :: rows[n] == if n in names then Upserted(before, tasks, n) else before[n])
  }

  lemma UpsertNext(before: Processes, tasks: Tasks, names: seq<string>, rows: Processes, n: string)
    requires UpsertedFirst(before, tasks, names, rows) && n in tasks && n !in names
    ensures UpsertedFirst(before, tasks, names + [n], rows[n := Upserted(rows, tasks, n)])
  {
  }

  lemma UpsertedAll(before: Processes, tasks: Tasks, names: seq<string>, rows: Processes)
    requires UpsertedFirst(before, tasks, names, rows) && forall n :: n in names <==> n in tasks
    ensures (map n | n in rows && n in tasks :: rows[n]) == Recreated(before, tasks)
  {
  }

  lemma DeployedIs(s1: State, now: int, version: string, outcomes: map<string, Outcome>,
                   started: seq<string>, rows: Processes)
    requires Lists(started, Selected(s1.rows, s1.tasks, s1.results, now, version))
    requires var observed := AllObserved(s1.rows, s1.results);
      && rows.Keys == observed.Keys
      && forall n | n in rows ::
           rows[n] == if n in started then Ran(observed[n], OutcomeOf(outcomes, n), now, version) else observed[n]
    ensures rows == DeployedRows(s1, now, version, outcomes)
  {
  }

  lemma RanPriority(observed: Processes, started: seq<string>, rows: Processes,
                    now: int, version: string, outcomes: map<string, Outcome>)
    requires rows.Keys == observed.Keys && ByPriority(observed, started)
    requires forall n | n in rows ::
      rows[n] == if n in started then Ran(observed[n], OutcomeOf(outcomes, n), now, version) else observed[n]
    ensures ByPriority(rows, started)
  {
  }

  lemma SamePermutation(xs: seq<string>, ys: seq<string>)
    requires NoDuplicates(xs) && multiset(ys) == multiset(xs)
    ensures NoDuplicates(ys) && Elements(ys) == Elements(xs)
  {
    forall x ensures x in ys <==> x in xs {
      assert x in ys <==> x in multiset(ys);
      assert x in xs <==> x in multiset(xs);
    }
    forall i, j | 0 <= i < j < |ys| ensures ys[i] != ys[j] {
      if ys[i] == ys[j] {
        assert ys == ys[..i] + [ys[i]] + ys[i + 1..j] + [ys[j]] + ys[j + 1..];
        assert multiset(ys)[ys[i]] >= 2;
        OnceOnly(xs, ys[i]);
      }
    }
  }

  lemma {:induction false} OnceOnly(xs: seq<string>, x: string)
    requires NoDuplicates(xs)
    ensures multiset(xs)[x] <= 1
  {
    if xs != [] {
      assert xs == [xs[0]] + xs[1..];
      OnceOnly(xs[1..], x);
      if xs[0] == x {
        assert x !in xs[1..];
        assert x !in multiset(xs[1..]);
      }
    }
  }
}
