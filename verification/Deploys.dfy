/** Post-deploy processes: which are started by a deploy, and when one is started again. */
module Deploys {
  import opened Common

  datatype Status = NoStatus | Pending | Success | Failure

  datatype Task = Task(priority: int, sleepMinutes: int, runInTests: bool)

  /** A row: `status` is what is stored; the result of `taskId` is asked for while it is blank. */
  datatype Process = Process(
    priority: int, taskId: Option<nat>, lastRun: Option<int>, lastRunVersion: string, status: Status)

  type Processes = map<string, Process>

  type Tasks = map<string, Task>

  /** What became of starting a task: done at once, queued under an id, or an exception. */
  datatype Outcome = Done | Queued(id: nat) | Raised

  datatype State = State(rows: Processes, tasks: Tasks, results: map<nat, Status>)

  // ----- the pieces of a deploy -----

  /** Local environments keep the tasks that run in tests. */
  function Declared(local: bool, tasks: Tasks): Tasks {
    if local then map n | n in tasks && tasks[n].runInTests :: tasks[n] else tasks
  }

  function Recreated(rows: Processes, tasks: Tasks): Processes {
    map n | n in tasks ::
      if n in rows then rows[n].(priority := tasks[n].priority)
      else Process(tasks[n].priority, None, None, "", NoStatus)
  }

  /** The `status` property, which stores a final result it sees. */
  function StatusOf(p: Process, results: map<nat, Status>): Status {
    if p.status != NoStatus then p.status
    else if p.taskId.None? then NoStatus
    else if p.taskId.value in results then results[p.taskId.value]
    else Pending
  }

  function Observed(p: Process, results: map<nat, Status>): Process {
    var status := StatusOf(p, results);
    if status == Success || status == Failure then p.(status := status) else p
  }

  function AllObserved(rows: Processes, results: map<nat, Status>): Processes {
    map n | n in rows :: Observed(rows[n], results)
  }

  predicate ToRun(p: Process, status: Status, task: Task, now: int, version: string) {
    || status == Failure
    || ((p.lastRun.None? || p.lastRun.value < now - task.sleepMinutes * 60) && p.lastRunVersion != version)
  }

  function Selected(rows: Processes, tasks: Tasks, results: map<nat, Status>, now: int, version: string): set<string> {
    set n | n in rows && n in tasks && ToRun(rows[n], StatusOf(rows[n], results), tasks[n], now, version)
  }

  function OutcomeOf(outcomes: map<string, Outcome>, n: string): Outcome {
    if n in outcomes then outcomes[n] else Raised
  }

  /** `run_task`; the id of an earlier queued run stays unless a new one is queued. */
  function Ran(p: Process, outcome: Outcome, now: int, version: string): Process {
    var started := p.(status := NoStatus, lastRun := Some(now), lastRunVersion := version);
    match outcome
    case Done => started.(status := Success)
    case Queued(id) => started.(taskId := Some(id))
    case Raised => started.(status := Failure)
  }

  // ----- runs at one version -----

  datatype Op =
    | Deploy(now: int, outcomes: map<string, Outcome>)
    | Finish(id: nat, result: Status)
    | Check(name: string)

  function AfterRecreate(s: State, local: bool): State {
    var tasks := Declared(local, s.tasks);
    s.(tasks := tasks, rows := Recreated(s.rows, tasks))
  }

  /** The processes a deploy starts, each with its status when it was selected. */
  function Started(s: State, local: bool, version: string, op: Op): map<string, Status> {
    if op.Deploy? then
      var s1 := AfterRecreate(s, local);
      map n | n in Selected(s1.rows, s1.tasks, s1.results, op.now, version) :: StatusOf(s1.rows[n], s1.results)
    else map[]
  }

  function DeployedRows(s1: State, now: int, version: string, outcomes: map<string, Outcome>): Processes {
    var observed := AllObserved(s1.rows, s1.results);
    map n | n in s1.rows ::
      if n in Selected(s1.rows, s1.tasks, s1.results, now, version)
      then Ran(observed[n], OutcomeOf(outcomes, n), now, version) else observed[n]
  }

  function Step(s: State, local: bool, version: string, op: Op): State {
    match op
    case Deploy(now, outcomes) =>
      var s1 := AfterRecreate(s, local);
      s1.(rows := DeployedRows(s1, now, version, outcomes))
    case Finish(id, result) => s.(results := s.results[id := result])
    case Check(n) => if n in s.rows then s.(rows := s.rows[n := Observed(s.rows[n], s.results)]) else s
  }

  function Run(s: State, local: bool, version: string, ops: seq<Op>): State {
    if ops == [] then s else Step(Run(s, local, version, ops[..|ops| - 1]), local, version, ops[|ops| - 1])
  }

  /** The processes started by the `i`-th operation of a run. */
  function StartedAt(s: State, local: bool, version: string, ops: seq<Op>, i: nat): map<string, Status>
    requires i < |ops|
  {
    Started(Run(s, local, version, ops[..i]), local, version, ops[i])
  }

  // ----- recreation -----

  /** Exactly the declared tasks have a row; rows that survive keep their run history, so
      recreating them does not change whether they are to be run. */
  lemma RecreatedExact(rows: Processes, tasks: Tasks, results: map<nat, Status>, now: int, version: string)
    ensures Recreated(rows, tasks).Keys == tasks.Keys
    ensures Recreated(Recreated(rows, tasks), tasks) == Recreated(rows, tasks)
    ensures forall n | n in tasks && n in rows ::
              var p := Recreated(rows, tasks)[n];
              && p.priority == tasks[n].priority && p.(priority := rows[n].priority) == rows[n]
              && (ToRun(p, StatusOf(p, results), tasks[n], now, version) <==>
                  ToRun(rows[n], StatusOf(rows[n], results), tasks[n], now, version))
  {
  }

  /** A task declared for the first time is started by the next deploy of a named version,
      unless the environment is local and the task does not run in tests. */
  lemma NewTaskStarts(s: State, local: bool, version: string, op: Op, n: string)
    requires op.Deploy? && n !in s.rows && version != ""
    ensures n in Started(s, local, version, op) <==> n in s.tasks && (local ==> s.tasks[n].runInTests)
    ensures n in Started(s, local, version, op) ==>
              Started(s, local, version, op)[n] == NoStatus && RunAt(Step(s, local, version, op), local, version, n)
  {
    if n in Declared(local, s.tasks) {
      DeployedRow(s, local, version, op, n);
      assert n in Started(s, local, version, op);
      StartedRunsAt(s, local, version, op, n);
      hide Step, Started;
    }
  }

  // ----- what a start leaves -----

  /** After a start the status is that of its outcome; a queued run waits for its own result. */
  lemma RanStatus(p: Process, outcome: Outcome, now: int, version: string, results: map<nat, Status>)
    ensures var status := StatusOf(Ran(p, outcome, now, version), results);
            match outcome
            case Done => status == Success
            case Raised => status == Failure
            case Queued(id) => status == if id in results then results[id] else Pending
  {
  }

  /** Once seen, a final status stays whatever results arrive later; before, asking for it
      changes nothing. */
  lemma FinalStatusSticks(p: Process, results: map<nat, Status>, later: map<nat, Status>)
    ensures StatusOf(p, results) in {Success, Failure} ==>
              StatusOf(Observed(p, results), later) == StatusOf(p, results)
    ensures StatusOf(p, results) !in {Success, Failure} ==> Observed(p, results) == p
  {
  }

  // ----- starting again -----

  /** The process was last started at this version and its task is still declared. */
  ghost predicate RunAt(s: State, local: bool, version: string, n: string) {
    && n in s.rows && s.rows[n].lastRunVersion == version
    && n in Declared(local, s.tasks)
  }

  lemma DeclaredStays(local: bool, tasks: Tasks)
    ensures Declared(local, Declared(local, tasks)) == Declared(local, tasks)
  {
  }

  /** What a deploy makes of one declared task's row. */
  lemma DeployedRow(s: State, local: bool, version: string, op: Op, n: string)
    requires op.Deploy? && n in Declared(local, s.tasks)
    ensures var s1 := AfterRecreate(s, local);
            && n in s1.rows && n in s1.tasks && n in Step(s, local, version, op).rows
            && Step(s, local, version, op).tasks == s1.tasks
            && (n in Started(s, local, version, op) <==>
                  ToRun(s1.rows[n], StatusOf(s1.rows[n], s1.results), s1.tasks[n], op.now, version))
            && (n in Started(s, local, version, op) ==>
                  && Started(s, local, version, op)[n] == StatusOf(s1.rows[n], s1.results)
                  && Step(s, local, version, op).rows[n] ==
                       Ran(Observed(s1.rows[n], s1.results), OutcomeOf(op.outcomes, n), op.now, version))
            && (n !in Started(s, local, version, op) ==>
                  Step(s, local, version, op).rows[n] == Observed(s1.rows[n], s1.results))
            && (n in s.rows ==> s1.rows[n] == s.rows[n].(priority := s1.tasks[n].priority))
  {
    hide ToRun, StatusOf, Observed, Ran, Declared;
  }

  lemma StepKeepsRunAt(s: State, local: bool, version: string, op: Op, n: string)
    requires RunAt(s, local, version, n)
    ensures RunAt(Step(s, local, version, op), local, version, n)
    ensures n in Started(s, local, version, op) <==>
              op.Deploy? && StatusOf(s.rows[n], s.results) == Failure
    ensures n in Started(s, local, version, op) ==> Started(s, local, version, op)[n] == Failure
  {
    if op.Deploy? {
      DeclaredStays(local, s.tasks);
      DeployedRow(s, local, version, op, n);
      hide Declared, Recreated, Started, Step;
    }
  }

  lemma StartedRunsAt(s: State, local: bool, version: string, op: Op, n: string)
    requires n in Started(s, local, version, op)
    ensures RunAt(Step(s, local, version, op), local, version, n)
  {
    assert n in Declared(local, s.tasks);
    DeclaredStays(local, s.tasks);
    DeployedRow(s, local, version, op, n);
    hide Declared, Recreated, Started, Step;
  }

  lemma {:induction false} RunKeepsRunAt(s: State, local: bool, version: string, ops: seq<Op>, i: nat, j: nat, n: string)
    requires i <= j <= |ops| && RunAt(Run(s, local, version, ops[..i]), local, version, n)
    ensures RunAt(Run(s, local, version, ops[..j]), local, version, n)
    decreases j
  {
    hide RunAt, Step;
    if i < j {
      RunKeepsRunAt(s, local, version, ops, i, j - 1, n);
      assert ops[..j][..j - 1] == ops[..j - 1];
      StepKeepsRunAt(Run(s, local, version, ops[..j - 1]), local, version, ops[j - 1], n);
    }
  }

  /** Over any run at one version, with results arriving in any order, a process already
      started is started again exactly by the deploys that find its status to be FAILURE. */
  lemma RestartIffFailure(s: State, local: bool, version: string, ops: seq<Op>, i: nat, j: nat, n: string)
    requires i < j < |ops| && n in StartedAt(s, local, version, ops, i)
    ensures var before := Run(s, local, version, ops[..j]);
            && n in before.rows
            && (n in StartedAt(s, local, version, ops, j) <==>
                  ops[j].Deploy? && StatusOf(before.rows[n], before.results) == Failure)
            && (n in StartedAt(s, local, version, ops, j) ==> StartedAt(s, local, version, ops, j)[n] == Failure)
  {
    StartedRunsAt(Run(s, local, version, ops[..i]), local, version, ops[i], n);
    hide Step, Started;
    assert ops[..i + 1][..i] == ops[..i];
    RunKeepsRunAt(s, local, version, ops, i + 1, j, n);
    StepKeepsRunAt(Run(s, local, version, ops[..j]), local, version, ops[j], n);
  }

  /** Success is final: a process with a stored SUCCESS at this version is never started again
      at this version, and keeps it. */
  lemma {:induction false} SuccessIsFinal(s: State, local: bool, version: string, ops: seq<Op>, j: nat, n: string)
    requires RunAt(s, local, version, n) && s.rows[n].status == Success && j <= |ops|
    ensures var s1 := Run(s, local, version, ops[..j]);
            RunAt(s1, local, version, n) && s1.rows[n].status == Success
    ensures j < |ops| ==> n !in StartedAt(s, local, version, ops, j)
    decreases j
  {
    hide Step, Started;
    if j > 0 {
      SuccessIsFinal(s, local, version, ops, j - 1, n);
      assert ops[..j][..j - 1] == ops[..j - 1];
      StepKeepsSuccess(Run(s, local, version, ops[..j - 1]), local, version, ops[j - 1], n);
    }
    if j < |ops| {
      StepKeepsRunAt(Run(s, local, version, ops[..j]), local, version, ops[j], n);
    }
  }

  lemma StepKeepsSuccess(s: State, local: bool, version: string, op: Op, n: string)
    requires RunAt(s, local, version, n) && s.rows[n].status == Success
    ensures RunAt(Step(s, local, version, op), local, version, n)
    ensures Step(s, local, version, op).rows[n].status == Success
  {
  }

  // ----- from one deploy to the next -----

  ghost predicate Quiet(ops: seq<Op>) {
    forall op | op in ops :: !op.Deploy?
  }

  ghost predicate KeepsHistory(p: Process, p': Process) {
    && p'.lastRun == p.lastRun && p'.lastRunVersion == p.lastRunVersion
    && (p.status != NoStatus ==> p'.status == p.status)
  }

  lemma {:induction false} QuietKeeps(s: State, local: bool, version: string, ops: seq<Op>, n: string)
    requires Quiet(ops) && n in s.rows
    ensures var s1 := Run(s, local, version, ops);
            s1.tasks == s.tasks && n in s1.rows && KeepsHistory(s.rows[n], s1.rows[n])
  {
    if ops != [] {
      var before, op := ops[..|ops| - 1], ops[|ops| - 1];
      assert op in ops && forall o | o in before :: o in ops;
      QuietKeeps(s, local, version, before, n);
    }
  }

  lemma StartedRow(s: State, local: bool, version: string, op: Op, n: string)
    requires n in Started(s, local, version, op)
    ensures var s1 := Step(s, local, version, op);
            && RunAt(s1, local, version, n) && s1.rows[n].lastRun == Some(op.now)
            && (n !in op.outcomes || op.outcomes[n] == Raised ==> s1.rows[n].status == Failure)
            && (n in op.outcomes && op.outcomes[n] == Done ==> s1.rows[n].status == Success)
  {
    assert n in Declared(local, s.tasks);
    StartedRunsAt(s, local, version, op, n);
    DeployedRow(s, local, version, op, n);
    hide Step, Started, Declared, Observed, RunAt;
  }

  lemma StartsIff(s: State, local: bool, version: string, op: Op, n: string)
    requires op.Deploy? && n in s.rows && n in Declared(local, s.tasks) && s.rows[n].lastRun.Some?
    ensures n in s.tasks
    ensures n in Started(s, local, version, op) <==>
              || StatusOf(s.rows[n], s.results) == Failure
              || (s.rows[n].lastRunVersion != version
                  && s.rows[n].lastRun.value + s.tasks[n].sleepMinutes * 60 < op.now)
  {
    DeployedRow(s, local, version, op, n);
    hide Step, Started;
  }

  /** The next deploy, at any version, starts a process again exactly when its status is
      FAILURE, or at another version once its task's pause is over; a start that raised an
      exception counts as a failure, one that was done at once does not. */
  lemma NextDeployStartsIff(
      s: State, local: bool, version: string, op: Op, quiet: seq<Op>, version': string, op': Op, n: string)
    requires n in Started(s, local, version, op) && Quiet(quiet) && op'.Deploy?
    ensures var s2 := Run(Step(s, local, version, op), local, version, quiet);
            && n in s2.rows && n in s2.tasks
            && var status := StatusOf(s2.rows[n], s2.results);
               && (n in Started(s2, local, version', op') <==>
                     status == Failure
                     || (version' != version && op.now + s2.tasks[n].sleepMinutes * 60 < op'.now))
               && (n !in op.outcomes || op.outcomes[n] == Raised ==> status == Failure)
               && (n in op.outcomes && op.outcomes[n] == Done ==> status == Success)
  {
    hide Run, Step, Started, Declared;
    StartedRow(s, local, version, op, n);
    QuietKeeps(Step(s, local, version, op), local, version, quiet, n);
    StartsIff(Run(Step(s, local, version, op), local, version, quiet), local, version', op', n);
  }

  // ----- queued starts -----

  /** The result of a queued run after these operations: the last that arrived, if any. */
  function ResultAfter(results: map<nat, Status>, ops: seq<Op>, id: nat): Status {
    if ops == [] then (if id in results then results[id] else Pending)
    else
      var op := ops[|ops| - 1];
      if op.Finish? && op.id == id then op.result else ResultAfter(results, ops[..|ops| - 1], id)
  }

  /** The final result that is there the first time somebody asks for the process's status and
      finds one. */
  function SeenFirst(results: map<nat, Status>, ops: seq<Op>, n: string, id: nat): Option<Status> {
    if ops == [] then None
    else
      var before, op := ops[..|ops| - 1], ops[|ops| - 1];
      var seen, current := SeenFirst(results, before, n, id), ResultAfter(results, before, id);
      if seen.None? && op == Check(n) && current in {Success, Failure} then Some(current) else seen
  }

  lemma {:induction false} ResultsArrive(s: State, local: bool, version: string, ops: seq<Op>, id: nat)
    requires Quiet(ops)
    ensures var results := Run(s, local, version, ops).results;
            ResultAfter(s.results, ops, id) == if id in results then results[id] else Pending
  {
    if ops != [] {
      var before, op := ops[..|ops| - 1], ops[|ops| - 1];
      assert op in ops && forall o | o in before :: o in ops;
      ResultsArrive(s, local, version, before, id);
    }
  }

  lemma {:induction false} QueuedStatus(s: State, local: bool, version: string, ops: seq<Op>, n: string, id: nat)
    requires Quiet(ops) && n in s.rows && s.rows[n].status == NoStatus && s.rows[n].taskId == Some(id)
    ensures var s1 := Run(s, local, version, ops);
            && n in s1.rows && s1.rows[n].taskId == Some(id)
            && match SeenFirst(s.results, ops, n, id)
               case Some(result) => s1.rows[n].status == result && result in {Success, Failure}
               case None => s1.rows[n].status == NoStatus
  {
    if ops != [] {
      var before, op := ops[..|ops| - 1], ops[|ops| - 1];
      assert op in ops && forall o | o in before :: o in ops;
      QueuedStatus(s, local, version, before, n, id);
      ResultsArrive(s, local, version, before, id);
      QuietStep(Run(s, local, version, before), local, version, op, n);
      hide Step, ResultAfter;
    }
  }

  lemma QuietStep(s: State, local: bool, version: string, op: Op, n: string)
    requires !op.Deploy? && n in s.rows
    ensures var s1 := Step(s, local, version, op);
            n in s1.rows && s1.rows[n] == if op == Check(n) then Observed(s.rows[n], s.results) else s.rows[n]
  {
  }

  /** After a start that was queued, up to the next deploy: until a final result is seen, the
      status is that of the result; the final result seen first stays, whatever arrives later. */
  lemma QueuedStart(s: State, local: bool, version: string, op: Op, quiet: seq<Op>, n: string, id: nat)
    requires n in Started(s, local, version, op) && Quiet(quiet)
    requires n in op.outcomes && op.outcomes[n] == Queued(id)
    ensures var s2 := Run(Step(s, local, version, op), local, version, quiet);
            && n in s2.rows
            && StatusOf(s2.rows[n], s2.results) ==
                 match SeenFirst(s.results, quiet, n, id)
                 case Some(result) => result
                 case None => ResultAfter(s.results, quiet, id)
  {
    var s1 := Step(s, local, version, op);
    assert n in Declared(local, s.tasks);
    DeployedRow(s, local, version, op, n);
    assert s1.results == s.results;
    assert s1.rows[n].status == NoStatus && s1.rows[n].taskId == Some(id);
    hide Step, Run, Started, Declared, OutcomeOf, SeenFirst, ResultAfter;
    QueuedStatus(s1, local, version, quiet, n, id);
    ResultsArrive(s1, local, version, quiet, id);
  }

  // ----- order -----

  ghost predicate ByPriority(rows: Processes, names: seq<string>) {
    forall i, j | 0 <= i < j < |names| && names[i] in rows && names[j] in rows ::
      rows[names[i]].priority <= rows[names[j]].priority
  }

  function InsertByPriority(rows: Processes, n: string, sorted: seq<string>): seq<string>
    requires n in rows && forall m | m in sorted :: m in rows
  {
    if sorted == [] || rows[n].priority <= rows[sorted[0]].priority then [n] + sorted
    else [sorted[0]] + InsertByPriority(rows, n, sorted[1..])
  }

  /** `sorted(..., key=priority)` */
  function SortedByPriority(rows: Processes, names: seq<string>): (r: seq<string>)
    requires forall n | n in names :: n in rows
    ensures multiset(r) == multiset(names)
  {
    if names == [] then []
    else
      var rest := SortedByPriority(rows, names[1..]);
      SameMembers(rest, names[1..]);
      InsertKeeps(rows, names[0], rest);
      assert names == [names[0]] + names[1..];
      InsertByPriority(rows, names[0], rest)
  }

  lemma SameMembers(xs: seq<string>, ys: seq<string>)
    requires multiset(xs) == multiset(ys)
    ensures forall x :: x in xs <==> x in ys
  {
    forall x ensures x in xs <==> x in ys {
      assert x in xs <==> x in multiset(xs);
      assert x in ys <==> x in multiset(ys);
    }
  }

  lemma {:induction false} InsertKeeps(rows: Processes, n: string, sorted: seq<string>)
    requires n in rows && forall m | m in sorted :: m in rows
    ensures multiset(InsertByPriority(rows, n, sorted)) == multiset(sorted) + multiset{n}
  {
    if sorted != [] {
      assert sorted == [sorted[0]] + sorted[1..];
      if rows[n].priority > rows[sorted[0]].priority { InsertKeeps(rows, n, sorted[1..]); }
    }
  }

  lemma {:induction false} InsertSorts(rows: Processes, n: string, sorted: seq<string>)
    requires n in rows && (forall m | m in sorted :: m in rows) && ByPriority(rows, sorted)
    ensures ByPriority(rows, InsertByPriority(rows, n, sorted))
  {
    if sorted != [] && rows[n].priority > rows[sorted[0]].priority {
      var rest, inserted := sorted[1..], InsertByPriority(rows, n, sorted[1..]);
      assert ByPriority(rows, rest) by {
        forall i, j | 0 <= i < j < |rest| ensures rows[rest[i]].priority <= rows[rest[j]].priority {
          assert rest[i] == sorted[i + 1] && rest[j] == sorted[j + 1];
        }
      }
      InsertSorts(rows, n, rest);
      InsertKeeps(rows, n, rest);
      forall m | m in inserted ensures m in rows && rows[sorted[0]].priority <= rows[m].priority {
        assert m in multiset(inserted);
        if m != n {
          assert m in multiset(rest);
          var i :| 0 <= i < |rest| && rest[i] == m;
          assert sorted[i + 1] == m;
        }
      }
    }
  }

  lemma {:induction false} SortSorts(rows: Processes, names: seq<string>)
    requires forall n | n in names :: n in rows
    ensures ByPriority(rows, SortedByPriority(rows, names))
  {
    if names != [] {
      var rest := SortedByPriority(rows, names[1..]);
      SortSorts(rows, names[1..]);
      SameMembers(rest, names[1..]);
      InsertSorts(rows, names[0], rest);
    }
  }
}
