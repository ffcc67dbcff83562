/**
 * The job-queue runner (`run_tracy`): it fetches the jobs of the `todolist`
 * table whose `inprogress` flag is 0 and processes them in the order they
 * were fetched. Each job is first marked in progress and written back; its
 * function name is looked up in a fixed alias table; a known job runs its
 * handler, and on an exception is marked failed, written back and reported.
 * A known job is then reported as processed and deleted, whatever the
 * handler did; an unknown job is left in progress, with no report and no
 * delete.
 *
 * The database and Teams are not modelled: the table is an input, and the
 * updates, deletes and posts the run makes are returned as a trace. What the
 * handlers do is not modelled either: `parse` stands for `int(job["args"])`
 * and `handler` says whether fetching the prediction job and running the
 * task completed without an exception.
 */
module RunTracy {
  import opened Wrappers

  /** The `inprogress` column: 0, 1 or 2. Deletion stands for "done". */
  datatype Status = Pending | InProgress | Failed

  function InProgressFlag(s: Status): (flag: int)
    ensures flag == 0 <==> s == Pending
    ensures flag == 1 <==> s == InProgress
    ensures flag == 2 <==> s == Failed
  {
    match s
    case Pending => 0
    case InProgress => 1
    case Failed => 2
  }

  /** A row of the `todolist` table. */
  datatype Job = Job(id: int, functionName: string, args: string, status: Status)

  /** What a function name is dispatched to. */
  datatype Kind = Train | Optimize | Unknown

  /** The names, current and deprecated, of the training task. */
  const TrainNames: seq<string> := ["train_model", "train_specific_model"]

  /** The names, current and deprecated, of the hyperparameter task. */
  const OptimizeNames: seq<string> := ["optimize_hyperparameters", "optimize_hyperparameters_for_specific_pid"]

  /** The dispatch of lines 70, 77 and 82. */
  function Classify(name: string): (k: Kind)
    ensures k == Train <==> name in TrainNames
    ensures k == Optimize <==> name in OptimizeNames
    ensures k == Unknown <==> name !in TrainNames && name !in OptimizeNames
  {
    if name in TrainNames then Train
    else if name in OptimizeNames then Optimize
    else Unknown
  }

  /** `int(job["args"])`: the prediction job id, or None when it raises. */
  type PidParser = string -> Option<int>

  /**
   * Whether `get_prediction_job(pid)` and the task of that kind completed
   * without raising, for the job with the given id (the table's primary
   * key): two jobs of the same kind and pid may fare differently.
   */
  type Handler = (int, Kind, int) -> bool

  /** Whether the `try` block of a known job finishes without an exception. */
  predicate Completes(job: Job, parse: PidParser, handler: Handler)
    requires Classify(job.functionName) != Unknown
  {
    match parse(job.args)
    case None => false
    case Some(pid) => handler(job.id, Classify(job.functionName), pid)
  }

  /** Two fetched jobs with the same name and arguments can still end differently: one completes, the other raises. */
  lemma JobsFareApart(first: Job, second: Job, parse: PidParser)
    requires first.id != second.id && first.functionName == second.functionName && first.args == second.args
    requires Classify(first.functionName) != Unknown && parse(first.args).Some?
    ensures exists handler: Handler :: Completes(first, parse, handler) && !Completes(second, parse, handler)
  {
    var handler: Handler := (id: int, kind: Kind, pid: int) => id == first.id;
    assert Completes(first, parse, handler) && !Completes(second, parse, handler);
  }

  /** A Teams post: the exception report, or the "processed" report. Both show the job as it is then. */
  datatype Message = ExceptionOccured(job: Job) | SuccesfullyProcessed(job: Job)

  /** A side effect of the run. */
  datatype Event = UpdateJob(job: Job) | DeleteJob(job: Job) | PostTeams(message: Message)

  /** `get_all_tracy_jobs(inprogress=0)`: the pending rows, in table order. */
  function PendingJobs(table: seq<Job>): seq<Job> {
    if table == [] then []
    else (if table[0].status == Pending then [table[0]] else []) + PendingJobs(table[1..])
  }

  /** The fetched jobs are exactly the table's rows with `inprogress` 0. */
  lemma {:induction false} PendingJobsMembers(table: seq<Job>)
    ensures forall j :: j in PendingJobs(table) <==> j in table && j.status == Pending
    ensures forall j :: j in PendingJobs(table) <==> j in table && InProgressFlag(j.status) == 0
  {
    if table != [] {
      PendingJobsMembers(table[1..]);
      assert table == [table[0]] + table[1..];
    }
  }

  /** The effects of processing one fetched job (one pass of the loop body). */
  function JobEvents(job: Job, parse: PidParser, handler: Handler): seq<Event> {
    var marked := job.(status := InProgress);
    if Classify(job.functionName) == Unknown then
      [UpdateJob(marked)]
    else if Completes(job, parse, handler) then
      [UpdateJob(marked), PostTeams(SuccesfullyProcessed(marked)), DeleteJob(marked)]
    else
      var failed := marked.(status := Failed);
      [UpdateJob(marked), UpdateJob(failed), PostTeams(ExceptionOccured(failed)),
       PostTeams(SuccesfullyProcessed(failed)), DeleteJob(failed)]
  }

  /** The effects of processing the fetched jobs in order. */
  function RunEvents(jobs: seq<Job>, parse: PidParser, handler: Handler): seq<Event> {
    if jobs == [] then []
    else RunEvents(jobs[..|jobs| - 1], parse, handler) + JobEvents(jobs[|jobs| - 1], parse, handler)
  }

  lemma RunEventsPrefix(jobs: seq<Job>, i: int, parse: PidParser, handler: Handler)
    requires 0 <= i < |jobs|
    ensures RunEvents(jobs[..i + 1], parse, handler) == RunEvents(jobs[..i], parse, handler) + JobEvents(jobs[i], parse, handler)
  {
    assert jobs[..i + 1][..i] == jobs[..i];
  }

  /** The effects of a known job: marked, then on an exception failed and reported, then reported processed and deleted. */
  lemma KnownJobEvents(job: Job, parse: PidParser, handler: Handler)
    requires Classify(job.functionName) != Unknown
    ensures
      var marked := job.(status := InProgress);
      var last := if Completes(job, parse, handler) then marked else marked.(status := Failed);
      JobEvents(job, parse, handler) ==
        [UpdateJob(marked)]
        + (if Completes(job, parse, handler) then [] else [UpdateJob(last), PostTeams(ExceptionOccured(last))])
        + [PostTeams(SuccesfullyProcessed(last)), DeleteJob(last)]
  {
  }

  /** One pass of the loop body of `run_tracy`, with its `continue` and its `except`. */
  method ProcessJob(fetched: Job, parse: PidParser, handler: Handler) returns (events: seq<Event>)
    ensures events == JobEvents(fetched, parse, handler)
  {
    var job := fetched.(status := InProgress);
    events := [UpdateJob(job)];
    var kind := Classify(job.functionName);
    if kind == Unknown {
      return;
    }
    var completed := false;
    var pid := parse(job.args);
    if pid.Some? {
      completed := handler(fetched.id, kind, pid.value);
    }
    ghost var done := events;
    ghost var rest: seq<Event> := [];
    if !completed {
      job := job.(status := Failed);
      events := events + [UpdateJob(job), PostTeams(ExceptionOccured(job))];
      rest := [UpdateJob(job), PostTeams(ExceptionOccured(job))];
    }
    events := events + [PostTeams(SuccesfullyProcessed(job)), DeleteJob(job)];
    rest := rest + [PostTeams(SuccesfullyProcessed(job)), DeleteJob(job)];
    assert events == done + rest;
    KnownJobEvents(fetched, parse, handler);
    assert completed == Completes(fetched, parse, handler);
  }

  /** `run_tracy(context)`: the jobs are fetched once and processed in the order fetched. */
  method RunTracyJobs(table: seq<Job>, parse: PidParser, handler: Handler) returns (trace: seq<Event>)
    ensures trace == RunEvents(PendingJobs(table), parse, handler)
  {
    var tracyJobs := PendingJobs(table);
    if |tracyJobs| == 0 {
      return [];
    }
    trace := [];
    for i := 0 to |tracyJobs|
      invariant trace == RunEvents(tracyJobs[..i], parse, handler)
    {
      var events := ProcessJob(tracyJobs[i], parse, handler);
      RunEventsPrefix(tracyJobs, i, parse, handler);
      trace := trace + events;
    }
    assert tracyJobs[..|tracyJobs|] == tracyJobs;
  }

  lemma {:induction false} RunEventsAppend(a: seq<Job>, b: seq<Job>, parse: PidParser, handler: Handler)
    ensures RunEvents(a + b, parse, handler) == RunEvents(a, parse, handler) + RunEvents(b, parse, handler)
    decreases |b|
  {
    if b == [] {
      assert a + b == a;
    } else {
      var n := |b| - 1;
      assert (a + b)[..|a + b| - 1] == a + b[..n];
      RunEventsAppend(a, b[..n], parse, handler);
    }
  }

  /** Jobs are processed one after another: each job's events form one block, after those of the jobs before it. */
  lemma JobBlock(before: seq<Job>, job: Job, after: seq<Job>, parse: PidParser, handler: Handler)
    ensures RunEvents(before + [job] + after, parse, handler) ==
      RunEvents(before, parse, handler) + JobEvents(job, parse, handler) + RunEvents(after, parse, handler)
  {
    RunEventsAppend(before + [job], after, parse, handler);
    assert (before + [job])[..|before|] == before;
  }

  /** With nothing pending, the run updates, deletes and posts nothing. */
  lemma NothingPendingNoEffects(table: seq<Job>, parse: PidParser, handler: Handler)
    requires forall j :: j in table ==> j.status != Pending
    ensures RunEvents(PendingJobs(table), parse, handler) == []
  {
    PendingJobsMembers(table);
  }

  // ----- Which effects concern which job -----

  /** The kinds of effect counted per job. */
  datatype Effect = Deleted | Processed | Excepted

  predicate Concerns(e: Event, id: int, effect: Effect) {
    match effect
    case Deleted => e.DeleteJob? && e.job.id == id
    case Processed => e.PostTeams? && e.message.SuccesfullyProcessed? && e.message.job.id == id
    case Excepted => e.PostTeams? && e.message.ExceptionOccured? && e.message.job.id == id
  }

  /** How many events of the trace are effects of that kind on job `id`. */
  function Count(trace: seq<Event>, id: int, effect: Effect): nat {
    if trace == [] then 0
    else Count(trace[..|trace| - 1], id, effect) + (if Concerns(trace[|trace| - 1], id, effect) then 1 else 0)
  }

  lemma {:induction false} CountAppend(a: seq<Event>, b: seq<Event>, id: int, effect: Effect)
    ensures Count(a + b, id, effect) == Count(a, id, effect) + Count(b, id, effect)
    decreases |b|
  {
    if b == [] {
      assert a + b == a;
    } else {
      var n := |b| - 1;
      assert (a + b)[..|a + b| - 1] == a + b[..n];
      CountAppend(a, b[..n], id, effect);
    }
  }

  /**
   * The effects a fetched job gets: a known job is reported as processed and
   * deleted once, and reported as an exception once exactly when its handler
   * raised; an unknown job gets none of them.
   */
  function Expected(job: Job, parse: PidParser, handler: Handler, effect: Effect): nat {
    if Classify(job.functionName) == Unknown then 0
    else match effect
      case Deleted => 1
      case Processed => 1
      case Excepted => if Completes(job, parse, handler) then 0 else 1
  }

  lemma CountSnoc(trace: seq<Event>, e: Event, id: int, effect: Effect)
    ensures Count(trace + [e], id, effect) == Count(trace, id, effect) + (if Concerns(e, id, effect) then 1 else 0)
  {
    assert (trace + [e])[..|trace|] == trace;
  }

  lemma CountDone(marked: Job, id: int, effect: Effect)
    requires marked.status == InProgress
    ensures Count([UpdateJob(marked), PostTeams(SuccesfullyProcessed(marked)), DeleteJob(marked)], id, effect) ==
      if id != marked.id || effect == Excepted then 0 else 1
  {
    var a, b, c := UpdateJob(marked), PostTeams(SuccesfullyProcessed(marked)), DeleteJob(marked);
    CountSnoc([], a, id, effect);
    assert [] + [a] == [a];
    CountSnoc([a], b, id, effect);
    assert [a] + [b] == [a, b];
    CountSnoc([a, b], c, id, effect);
    assert [a, b] + [c] == [a, b, c];
  }

  lemma CountFailed(marked: Job, failed: Job, id: int, effect: Effect)
    requires failed.id == marked.id
    ensures Count([UpdateJob(marked), UpdateJob(failed), PostTeams(ExceptionOccured(failed)),
                   PostTeams(SuccesfullyProcessed(failed)), DeleteJob(failed)], id, effect) ==
      if id != marked.id then 0 else 1
  {
    var a, b, c, d, e := UpdateJob(marked), UpdateJob(failed), PostTeams(ExceptionOccured(failed)),
      PostTeams(SuccesfullyProcessed(failed)), DeleteJob(failed);
    CountSnoc([], a, id, effect);
    assert [] + [a] == [a];
    CountSnoc([a], b, id, effect);
    assert [a] + [b] == [a, b];
    CountSnoc([a, b], c, id, effect);
    assert [a, b] + [c] == [a, b, c];
    CountSnoc([a, b, c], d, id, effect);
    assert [a, b, c] + [d] == [a, b, c, d];
    CountSnoc([a, b, c, d], e, id, effect);
    assert [a, b, c, d] + [e] == [a, b, c, d, e];
  }

  /** The count of an effect over the events of one job. */
  lemma JobEventsCount(job: Job, parse: PidParser, handler: Handler, id: int, effect: Effect)
    ensures Count(JobEvents(job, parse, handler), id, effect) ==
      if id != job.id then 0 else Expected(job, parse, handler, effect)
  {
    var marked := job.(status := InProgress);
    if Classify(job.functionName) == Unknown {
      CountSnoc([], UpdateJob(marked), id, effect);
      assert [] + [UpdateJob(marked)] == [UpdateJob(marked)];
    } else if Completes(job, parse, handler) {
      CountDone(marked, id, effect);
    } else {
      CountFailed(marked, marked.(status := Failed), id, effect);
    }
  }

  /** The ids of the fetched jobs are distinct (`id` is the table's primary key). */
  ghost predicate DistinctIds(jobs: seq<Job>) {
    forall i, j :: 0 <= i < j < |jobs| ==> jobs[i].id != jobs[j].id
  }


  /** An id no fetched job has sees no effect. */
  lemma {:induction false} UnlistedNoEffects(jobs: seq<Job>, parse: PidParser, handler: Handler, id: int, effect: Effect)
    requires forall i :: 0 <= i < |jobs| ==> jobs[i].id != id
    ensures Count(RunEvents(jobs, parse, handler), id, effect) == 0
  {
    if jobs != [] {
      var n := |jobs| - 1;
      var front := jobs[..n];
      assert forall i :: 0 <= i < n ==> front[i] == jobs[i];
      UnlistedNoEffects(front, parse, handler, id, effect);
      var done, last := RunEvents(front, parse, handler), JobEvents(jobs[n], parse, handler);
      assert RunEvents(jobs, parse, handler) == done + last;
      CountAppend(done, last, id, effect);
      JobEventsCount(jobs[n], parse, handler, id, effect);
    }
  }

  /** Over the whole run, each fetched job gets exactly its own effects. */
  lemma {:induction false} PerJobEffects(jobs: seq<Job>, parse: PidParser, handler: Handler, k: int, effect: Effect)
    requires DistinctIds(jobs)
    requires 0 <= k < |jobs|
    ensures Count(RunEvents(jobs, parse, handler), jobs[k].id, effect) == Expected(jobs[k], parse, handler, effect)
  {
    var n := |jobs| - 1;
    var id := jobs[k].id;
    CountAppend(RunEvents(jobs[..n], parse, handler), JobEvents(jobs[n], parse, handler), id, effect);
    JobEventsCount(jobs[n], parse, handler, id, effect);
    if k == n {
      UnlistedNoEffects(jobs[..n], parse, handler, id, effect);
    } else {
      PerJobEffects(jobs[..n], parse, handler, k, effect);
    }
  }

  /** No Teams message and no delete for a job whose function name is unknown. */
  lemma UnknownJobUntouched(jobs: seq<Job>, parse: PidParser, handler: Handler, k: int)
    requires DistinctIds(jobs)
    requires 0 <= k < |jobs|
    requires Classify(jobs[k].functionName) == Unknown
    ensures Count(RunEvents(jobs, parse, handler), jobs[k].id, Deleted) == 0
    ensures Count(RunEvents(jobs, parse, handler), jobs[k].id, Processed) == 0
    ensures Count(RunEvents(jobs, parse, handler), jobs[k].id, Excepted) == 0
  {
    PerJobEffects(jobs, parse, handler, k, Deleted);
    PerJobEffects(jobs, parse, handler, k, Processed);
    PerJobEffects(jobs, parse, handler, k, Excepted);
  }

  // ----- Order of processing -----

  /** The jobs the trace marks as in progress, in the order it marks them. */
  function Marks(trace: seq<Event>): seq<Job> {
    if trace == [] then []
    else
      var e := trace[|trace| - 1];
      Marks(trace[..|trace| - 1]) + (if e.UpdateJob? && e.job.status == InProgress then [e.job] else [])
  }

  lemma {:induction false} MarksAppend(a: seq<Event>, b: seq<Event>)
    ensures Marks(a + b) == Marks(a) + Marks(b)
    decreases |b|
  {
    if b == [] {
      assert a + b == a;
    } else {
      var n := |b| - 1;
      assert (a + b)[..|a + b| - 1] == a + b[..n];
      MarksAppend(a, b[..n]);
    }
  }

  lemma JobEventsMarks(job: Job, parse: PidParser, handler: Handler)
    ensures Marks(JobEvents(job, parse, handler)) == [job.(status := InProgress)]
  {
    var marked := job.(status := InProgress);
    var failed := marked.(status := Failed);
    var es := JobEvents(job, parse, handler);
    if Classify(job.functionName) == Unknown {
      assert es[..0] == [];
    } else {
      var rest := es[1..];
      assert es == [es[0]] + rest;
      assert [es[0]][..0] == [];
      MarksAppend([es[0]], rest);
      NoMarks(rest);
    }
  }

  lemma {:induction false} NoMarks(trace: seq<Event>)
    requires forall i :: 0 <= i < |trace| ==> !(trace[i].UpdateJob? && trace[i].job.status == InProgress)
    ensures Marks(trace) == []
  {
    if trace != [] {
      NoMarks(trace[..|trace| - 1]);
    }
  }

  /** The fetched jobs as they are written back when marked in progress, in fetch order. */
  function MarkedCopies(jobs: seq<Job>): (marked: seq<Job>)
    ensures |marked| == |jobs|
    ensures forall i :: 0 <= i < |jobs| ==> marked[i] == jobs[i].(status := InProgress)
  {
    if jobs == [] then []
    else MarkedCopies(jobs[..|jobs| - 1]) + [jobs[|jobs| - 1].(status := InProgress)]
  }

  /** Every fetched job is marked in progress once, in the order it was fetched. */
  lemma {:induction false} MarkedInFetchOrder(jobs: seq<Job>, parse: PidParser, handler: Handler)
    ensures Marks(RunEvents(jobs, parse, handler)) == MarkedCopies(jobs)
  {
    if jobs != [] {
      var n := |jobs| - 1;
      MarkedInFetchOrder(jobs[..n], parse, handler);
      MarksAppend(RunEvents(jobs[..n], parse, handler), JobEvents(jobs[n], parse, handler));
      JobEventsMarks(jobs[n], parse, handler);
    }
  }

  /** The first thing done with a job is writing it back in progress. */
  lemma MarkedFirst(job: Job, parse: PidParser, handler: Handler)
    ensures JobEvents(job, parse, handler)[0] == UpdateJob(job.(status := InProgress))
    ensures InProgressFlag(JobEvents(job, parse, handler)[0].job.status) == 1
  {
  }

  // ----- The table after the run -----

  /** `UPDATE todolist ... WHERE id = job.id`: the row with that id becomes `job`. */
  function Replace(table: seq<Job>, job: Job): seq<Job> {
    if table == [] then []
    else [if table[0].id == job.id then job else table[0]] + Replace(table[1..], job)
  }

  /** `DELETE FROM todolist WHERE id = ...`. */
  function Remove(table: seq<Job>, id: int): seq<Job> {
    if table == [] then []
    else (if table[0].id == id then [] else [table[0]]) + Remove(table[1..], id)
  }

  /** What one event does to the table; a Teams post leaves it alone. */
  function Apply(table: seq<Job>, e: Event): seq<Job> {
    match e
    case UpdateJob(job) => Replace(table, job)
    case DeleteJob(job) => Remove(table, job.id)
    case PostTeams(_) => table
  }

  function ApplyAll(table: seq<Job>, trace: seq<Event>): seq<Job> {
    if trace == [] then table
    else Apply(ApplyAll(table, trace[..|trace| - 1]), trace[|trace| - 1])
  }

  lemma {:induction false} ApplyAllAppend(table: seq<Job>, a: seq<Event>, b: seq<Event>)
    ensures ApplyAll(table, a + b) == ApplyAll(ApplyAll(table, a), b)
    decreases |b|
  {
    if b == [] {
      assert a + b == a;
    } else {
      var n := |b| - 1;
      assert (a + b)[..|a + b| - 1] == a + b[..n];
      ApplyAllAppend(table, a, b[..n]);
    }
  }

  lemma ApplyAllSingle(table: seq<Job>, e: Event)
    ensures ApplyAll(table, [e]) == Apply(table, e)
  {
    assert [e][..0] == [];
  }

  /** The table with the row of each id in `over` replaced (Some) or removed (None). */
  function Overlay(table: seq<Job>, over: map<int, Option<Job>>): seq<Job> {
    if table == [] then []
    else
      (if table[0].id !in over then [table[0]]
       else match over[table[0].id] case None => [] case Some(job) => [job])
      + Overlay(table[1..], over)
  }

  /** A replaced row keeps its id. */
  ghost predicate IdsKept(over: map<int, Option<Job>>) {
    forall id :: id in over && over[id].Some? ==> over[id].value.id == id
  }

  lemma {:induction false} OverlayNothing(table: seq<Job>)
    ensures Overlay(table, map[]) == table
  {
    if table != [] {
      OverlayNothing(table[1..]);
    }
  }

  lemma {:induction false} ReplaceAppend(a: seq<Job>, b: seq<Job>, job: Job)
    ensures Replace(a + b, job) == Replace(a, job) + Replace(b, job)
  {
    if a != [] {
      assert (a + b)[1..] == a[1..] + b;
      ReplaceAppend(a[1..], b, job);
    } else {
      assert a + b == b;
    }
  }

  lemma {:induction false} RemoveAppend(a: seq<Job>, b: seq<Job>, id: int)
    ensures Remove(a + b, id) == Remove(a, id) + Remove(b, id)
  {
    if a != [] {
      assert (a + b)[1..] == a[1..] + b;
      RemoveAppend(a[1..], b, id);
    } else {
      assert a + b == b;
    }
  }

  lemma {:induction false} ReplaceOverlay(table: seq<Job>, over: map<int, Option<Job>>, job: Job)
    requires IdsKept(over)
    requires job.id !in over || over[job.id].Some?
    ensures Replace(Overlay(table, over), job) == Overlay(table, over[job.id := Some(job)])
  {
    if table != [] {
      var r := table[0];
      var head := if r.id !in over then [r] else match over[r.id] case None => [] case Some(j) => [j];
      assert Overlay(table, over) == head + Overlay(table[1..], over);
      ReplaceAppend(head, Overlay(table[1..], over), job);
      ReplaceOverlay(table[1..], over, job);
      if head != [] {
        assert head[1..] == [];
      }
    }
  }

  lemma {:induction false} RemoveOverlay(table: seq<Job>, over: map<int, Option<Job>>, id: int)
    requires IdsKept(over)
    ensures Remove(Overlay(table, over), id) == Overlay(table, over[id := None])
  {
    if table != [] {
      var r := table[0];
      var head := if r.id !in over then [r] else match over[r.id] case None => [] case Some(j) => [j];
      assert Overlay(table, over) == head + Overlay(table[1..], over);
      RemoveAppend(head, Overlay(table[1..], over), id);
      RemoveOverlay(table[1..], over, id);
      if head != [] {
        assert head[1..] == [];
      }
    }
  }

  /** Where a fetched job's row ends up: left in progress if unknown, deleted otherwise. */
  function Outcome(job: Job): Option<Job> {
    if Classify(job.functionName) == Unknown then Some(job.(status := InProgress)) else None
  }

  lemma ApplySnoc(table: seq<Job>, trace: seq<Event>, e: Event)
    ensures ApplyAll(table, trace + [e]) == Apply(ApplyAll(table, trace), e)
  {
    assert (trace + [e])[..|trace|] == trace;
  }

  lemma JobOverlayDone(table: seq<Job>, over: map<int, Option<Job>>, job: Job)
    requires IdsKept(over)
    requires job.id !in over
    ensures
      var marked := job.(status := InProgress);
      ApplyAll(Overlay(table, over), [UpdateJob(marked), PostTeams(SuccesfullyProcessed(marked)), DeleteJob(marked)])
      == Overlay(table, over[job.id := None])
  {
    var t := Overlay(table, over);
    var marked := job.(status := InProgress);
    var over1 := over[job.id := Some(marked)];
    var a, b, c := UpdateJob(marked), PostTeams(SuccesfullyProcessed(marked)), DeleteJob(marked);
    ApplyAllSingle(t, a);
    ReplaceOverlay(table, over, marked);
    ApplySnoc(t, [a], b);
    assert [a] + [b] == [a, b];
    ApplySnoc(t, [a, b], c);
    assert [a, b] + [c] == [a, b, c];
    RemoveOverlay(table, over1, job.id);
    assert over1[job.id := None] == over[job.id := None];
  }

  lemma JobOverlayFailed(table: seq<Job>, over: map<int, Option<Job>>, job: Job)
    requires IdsKept(over)
    requires job.id !in over
    ensures
      var marked := job.(status := InProgress);
      var failed := marked.(status := Failed);
      ApplyAll(Overlay(table, over), [UpdateJob(marked), UpdateJob(failed), PostTeams(ExceptionOccured(failed)),
        PostTeams(SuccesfullyProcessed(failed)), DeleteJob(failed)])
      == Overlay(table, over[job.id := None])
  {
    var t := Overlay(table, over);
    var marked := job.(status := InProgress);
    var failed := marked.(status := Failed);
    var over1 := over[job.id := Some(marked)];
    var over2 := over1[job.id := Some(failed)];
    var a, b, c, d, e := UpdateJob(marked), UpdateJob(failed), PostTeams(ExceptionOccured(failed)),
      PostTeams(SuccesfullyProcessed(failed)), DeleteJob(failed);
    ApplyAllSingle(t, a);
    ReplaceOverlay(table, over, marked);
    ApplySnoc(t, [a], b);
    assert [a] + [b] == [a, b];
    ReplaceOverlay(table, over1, failed);
    ApplySnoc(t, [a, b], c);
    assert [a, b] + [c] == [a, b, c];
    ApplySnoc(t, [a, b, c], d);
    assert [a, b, c] + [d] == [a, b, c, d];
    ApplySnoc(t, [a, b, c, d], e);
    assert [a, b, c, d] + [e] == [a, b, c, d, e];
    RemoveOverlay(table, over2, job.id);
    assert over2[job.id := None] == over[job.id := None];
  }

  /** Processing one job sets its row to the job's outcome and leaves every other row alone. */
  lemma JobOverlay(table: seq<Job>, over: map<int, Option<Job>>, job: Job, parse: PidParser, handler: Handler)
    requires IdsKept(over)
    requires job.id !in over
    ensures ApplyAll(Overlay(table, over), JobEvents(job, parse, handler)) == Overlay(table, over[job.id := Outcome(job)])
  {
    if Classify(job.functionName) == Unknown {
      ApplyAllSingle(Overlay(table, over), UpdateJob(job.(status := InProgress)));
      ReplaceOverlay(table, over, job.(status := InProgress));
    } else if Completes(job, parse, handler) {
      JobOverlayDone(table, over, job);
    } else {
      JobOverlayFailed(table, over, job);
    }
  }

  /** The outcomes of the fetched jobs, by id. */
  function Outcomes(jobs: seq<Job>): map<int, Option<Job>> {
    if jobs == [] then map[]
    else Outcomes(jobs[..|jobs| - 1])[jobs[|jobs| - 1].id := Outcome(jobs[|jobs| - 1])]
  }

  lemma {:induction false} OutcomesShape(jobs: seq<Job>)
    ensures IdsKept(Outcomes(jobs))
    ensures forall id :: id in Outcomes(jobs) <==> exists i :: 0 <= i < |jobs| && jobs[i].id == id
  {
    if jobs != [] {
      var n := |jobs| - 1;
      OutcomesShape(jobs[..n]);
      forall id | id in Outcomes(jobs)
        ensures exists i :: 0 <= i < |jobs| && jobs[i].id == id
      {
        if id != jobs[n].id {
          var i :| 0 <= i < n && jobs[..n][i].id == id;
          assert jobs[i].id == id;
        }
      }
      forall id | exists i :: 0 <= i < |jobs| && jobs[i].id == id
        ensures id in Outcomes(jobs)
      {
        var i :| 0 <= i < |jobs| && jobs[i].id == id;
        if i < n {
          assert jobs[..n][i].id == id;
        }
      }
    }
  }

  lemma {:induction false} OutcomesAt(jobs: seq<Job>, k: int)
    requires DistinctIds(jobs)
    requires 0 <= k < |jobs|
    ensures jobs[k].id in Outcomes(jobs) && Outcomes(jobs)[jobs[k].id] == Outcome(jobs[k])
  {
    var n := |jobs| - 1;
    if k < n {
      OutcomesAt(jobs[..n], k);
    }
  }

  /** The run sets each fetched job's row to its outcome and leaves every other row alone. */
  lemma {:induction false} RunOverlay(table: seq<Job>, jobs: seq<Job>, parse: PidParser, handler: Handler)
    requires DistinctIds(jobs)
    ensures ApplyAll(table, RunEvents(jobs, parse, handler)) == Overlay(table, Outcomes(jobs))
  {
    if jobs == [] {
      OverlayNothing(table);
    } else {
      var n := |jobs| - 1;
      RunOverlay(table, jobs[..n], parse, handler);
      ApplyAllAppend(table, RunEvents(jobs[..n], parse, handler), JobEvents(jobs[n], parse, handler));
      OutcomesShape(jobs[..n]);
      assert jobs[n].id !in Outcomes(jobs[..n]);
      JobOverlay(table, Outcomes(jobs[..n]), jobs[n], parse, handler);
    }
  }

  /** The table the run leaves: pending rows of known jobs gone, of unknown jobs in progress, the rest unchanged. */
  function FinalTable(table: seq<Job>): seq<Job> {
    if table == [] then []
    else
      var r := table[0];
      (if r.status != Pending then [r]
       else if Classify(r.functionName) == Unknown then [r.(status := InProgress)]
       else [])
      + FinalTable(table[1..])
  }

  lemma {:induction false} OverlayFinal(table: seq<Job>, over: map<int, Option<Job>>)
    requires forall i :: 0 <= i < |table| ==> (table[i].id in over <==> table[i].status == Pending)
    requires forall i :: 0 <= i < |table| && table[i].id in over ==> over[table[i].id] == Outcome(table[i])
    ensures Overlay(table, over) == FinalTable(table)
  {
    if table != [] {
      assert forall i :: 1 <= i < |table| ==> table[1..][i - 1] == table[i];
      OverlayFinal(table[1..], over);
    }
  }

  lemma {:induction false} PendingDistinct(table: seq<Job>)
    requires DistinctIds(table)
    ensures DistinctIds(PendingJobs(table))
  {
    if table != [] {
      var rest := PendingJobs(table[1..]);
      PendingDistinct(table[1..]);
      PendingJobsMembers(table[1..]);
      if table[0].status == Pending {
        forall j | 0 <= j < |rest|
          ensures rest[j].id != table[0].id
        {
          assert rest[j] in table[1..];
          var m :| 0 <= m < |table[1..]| && table[1..][m] == rest[j];
          assert table[m + 1] == rest[j];
        }
        var p := PendingJobs(table);
        assert p == [table[0]] + rest;
        forall i, j | 0 <= i < j < |p|
          ensures p[i].id != p[j].id
        {
          if i == 0 {
            assert p[j] == rest[j - 1];
          } else {
            assert p[i] == rest[i - 1] && p[j] == rest[j - 1];
          }
        }
      }
    }
  }

  /**
   * After the run, each pending row of a known job is deleted and each pending
   * row of an unknown job is left in progress, whether or not the handlers
   * raised; the other rows are unchanged.
   */
  lemma FinalState(table: seq<Job>, parse: PidParser, handler: Handler)
    requires DistinctIds(table)
    ensures ApplyAll(table, RunEvents(PendingJobs(table), parse, handler)) == FinalTable(table)
  {
    var jobs := PendingJobs(table);
    PendingDistinct(table);
    PendingJobsMembers(table);
    RunOverlay(table, jobs, parse, handler);
    OutcomesShape(jobs);
    var over := Outcomes(jobs);
    forall i | 0 <= i < |table|
      ensures (table[i].id in over <==> table[i].status == Pending)
      ensures table[i].id in over ==> over[table[i].id] == Outcome(table[i])
    {
      if table[i].status == Pending {
        assert table[i] in jobs;
        var k :| 0 <= k < |jobs| && jobs[k] == table[i];
        OutcomesAt(jobs, k);
      }
      if table[i].id in over {
        var k :| 0 <= k < |jobs| && jobs[k].id == table[i].id;
        assert jobs[k] in table;
        var m :| 0 <= m < |table| && table[m] == jobs[k];
        assert m == i;
        OutcomesAt(jobs, k);
      }
    }
    OverlayFinal(table, over);
  }
}
