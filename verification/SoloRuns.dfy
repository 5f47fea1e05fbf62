/** The procedures of the coordinator are runs of the transition system: a job that nobody interrupts
    ends in exactly the store, with exactly the slot, that `FullRefresh` and `SingleRefresh` name. */
module SoloRuns {
  import opened Base
  import opened StoreModel
  import Coordinator
  import opened Protocol

  /** `n` steps of `r` lead from `s` to `t`. */
  ghost predicate Chain<S(!new)>(r: (S, S) -> bool, s: S, t: S, n: nat)
    decreases n
  {
    if n == 0 then s == t else exists m :: r(s, m) && Chain(r, m, t, n - 1)
  }

  lemma {:induction false} ChainThen<S(!new)>(r: (S, S) -> bool, s: S, m: S, t: S, i: nat, j: nat)
    requires Chain(r, s, m, i) && Chain(r, m, t, j)
    ensures Chain(r, s, t, i + j)
    decreases i
  {
    if i > 0 {
      var x :| r(s, x) && Chain(r, x, m, i - 1);
      ChainThen(r, x, m, t, i - 1, j);
    }
  }

  /** Job `id` takes one step of its own, or raises. */
  ghost predicate Moves(id: JobId, s: System, t: System) {
    (exists input :: Next(s, Step(id, input)) == Some(t)) || Next(s, Crash(id)) == Some(t)
  }

  ghost function MovesOf(id: JobId): (System, System) -> bool {
    (s, t) => Moves(id, s, t)
  }

  /** Job `id` alone can take `s` to `t`. */
  ghost predicate Reaches(id: JobId, s: System, t: System) {
    exists n: nat :: Chain(MovesOf(id), s, t, n)
  }

  lemma ReachesThen(id: JobId, s: System, m: System, t: System)
    requires Reaches(id, s, m) && Reaches(id, m, t)
    ensures Reaches(id, s, t)
  {
    var i: nat :| Chain(MovesOf(id), s, m, i);
    var j: nat :| Chain(MovesOf(id), m, t, j);
    ChainThen(MovesOf(id), s, m, t, i, j);
  }

  lemma MoveReaches(id: JobId, s: System, t: System)
    requires Moves(id, s, t)
    ensures Reaches(id, s, t)
  {
    assert MovesOf(id)(s, t);
    assert Chain(MovesOf(id), t, t, 0);
    assert Chain(MovesOf(id), s, t, 1);
  }

  /** `s` after job `id` moved to `job` and left this store and slot. */
  function Moved(s: System, id: JobId, job: Job, st: Store, running: Option<Handle>): System {
    s.(store := st, running := running, jobs := s.jobs[id := job])
  }

  /** Alone, job `id` can get from `s` to position `pc` with snapshot `sid` and nothing pending,
      leaving this store and slot, and everything else as it was. */
  ghost predicate Arrives(id: JobId, s: System, sid: SnapshotId, pc: Pc, st: Store, running: Option<Handle>)
    requires id in s.jobs
  {
    exists job: Job :: ArrivesAs(id, s, job, sid, pc, st, running)
  }

  ghost predicate ArrivesAs(id: JobId, s: System, job: Job, sid: SnapshotId, pc: Pc, st: Store, running: Option<Handle>)
    requires id in s.jobs
  {
    && job.pc == pc && job.kind == s.jobs[id].kind && job.sid == sid && !job.checked
    && Reaches(id, s, Moved(s, id, job, st, running))
  }

  /** A leg of the way, then whatever the job can do from there. */
  lemma LegThenArrives(id: JobId, s: System, leg: Effect, sid: SnapshotId, pc: Pc, st: Store, running: Option<Handle>)
    requires id in s.jobs && leg.job.kind == s.jobs[id].kind
    requires Reaches(id, s, Moved(s, id, leg.job, leg.store, leg.running))
    requires Arrives(id, Moved(s, id, leg.job, leg.store, leg.running), sid, pc, st, running)
    ensures Arrives(id, s, sid, pc, st, running)
  {
    var m := Moved(s, id, leg.job, leg.store, leg.running);
    var job: Job :| ArrivesAs(id, m, job, sid, pc, st, running);
    assert Moved(m, id, job, st, running) == Moved(s, id, job, st, running) by {
      assert s.jobs[id := leg.job][id := job] == s.jobs[id := job];
    }
    ReachesThen(id, s, m, Moved(s, id, job, st, running));
    assert ArrivesAs(id, s, job, sid, pc, st, running);
  }

  lemma StepThenArrives(id: JobId, s: System, input: Input, e: Effect, sid: SnapshotId, pc: Pc, st: Store,
        running: Option<Handle>)
    requires id in s.jobs && Act(s.store, s.running, id, s.jobs[id], input) == Some(e)
    requires e.job.kind == s.jobs[id].kind
    requires Arrives(id, Moved(s, id, e.job, e.store, e.running), sid, pc, st, running)
    ensures Arrives(id, s, sid, pc, st, running)
  {
    var m := Moved(s, id, e.job, e.store, e.running);
    assert Next(s, Step(id, input)) == Some(m);
    MoveReaches(id, s, m);
    LegThenArrives(id, s, e, sid, pc, st, running);
  }

  lemma Stays(id: JobId, s: System)
    requires id in s.jobs && !s.jobs[id].checked
    ensures Arrives(id, s, s.jobs[id].sid, s.jobs[id].pc, s.store, s.running)
  {
    assert s.jobs[id := s.jobs[id]] == s.jobs;
    assert Moved(s, id, s.jobs[id], s.store, s.running) == s;
    assert Chain(MovesOf(id), s, s, 0);
    assert ArrivesAs(id, s, s.jobs[id], s.jobs[id].sid, s.jobs[id].pc, s.store, s.running);
  }

  lemma StepArrives(id: JobId, s: System, input: Input, e: Effect)
    requires id in s.jobs && Act(s.store, s.running, id, s.jobs[id], input) == Some(e)
    requires e.job.kind == s.jobs[id].kind && !e.job.checked
    ensures Arrives(id, s, e.job.sid, e.job.pc, e.store, e.running)
  {
    Stays(id, Moved(s, id, e.job, e.store, e.running));
    StepThenArrives(id, s, input, e, e.job.sid, e.job.pc, e.store, e.running);
  }

  lemma CrashArrives(id: JobId, s: System)
    requires id in s.jobs && !s.jobs[id].checked
    requires CrashJob(s.jobs[id]) == Some(s.jobs[id].(pc := Done(Crashed)))
    ensures Arrives(id, s, s.jobs[id].sid, Done(Crashed), s.store, s.running)
  {
    var job := s.jobs[id].(pc := Done(Crashed));
    MoveReaches(id, s, Moved(s, id, job, s.store, s.running));
    assert ArrivesAs(id, s, job, job.sid, Done(Crashed), s.store, s.running);
  }

  // ---------------------------------------------------------------- the analysis loop

  function PcAfter(failure: Option<Coordinator.JobError>): Pc {
    match failure
    case None => Commit
    case Some(GitLab(e)) => Abort(GitLabFailure(e))
    case Some(Other) => Done(Crashed)
  }

  lemma {:induction false} AnalyzeAlone(id: JobId, s: System, answers: seq<Outcome<string, Coordinator.JobError>>)
    requires id in s.jobs
    requires var job := s.jobs[id];
             && job.pc == Analyze && !job.checked && job.fetched.None?
             && job.next <= |job.enumerated| == |answers|
    ensures var job := s.jobs[id];
            var (st, failure) := Coordinator.AnalyzeFrom(s.store, job.sid, job.enumerated, answers, job.next);
            Arrives(id, s, job.sid, PcAfter(failure), st, s.running)
    decreases |s.jobs[id].enumerated| - s.jobs[id].next
  {
    var job := s.jobs[id];
    var (st, failure) := Coordinator.AnalyzeFrom(s.store, job.sid, job.enumerated, answers, job.next);
    if job.next == |job.enumerated| {
      StepArrives(id, s, Nothing, Act(s.store, s.running, id, job, Nothing).value);
    } else if job.enumerated[job.next].sha.None? {
      SkipAlone(id, s, answers);
    } else if answers[job.next].Raised? {
      match answers[job.next].error {
        case GitLab(e) => StepArrives(id, s, GitLabFails(e), Act(s.store, s.running, id, job, GitLabFails(e)).value);
        case Other => CrashArrives(id, s);
      }
    } else {
      WriteAlone(id, s, answers);
    }
  }

  /** The pass of the loop over a project without a SHA. */
  lemma {:induction false} SkipAlone(id: JobId, s: System, answers: seq<Outcome<string, Coordinator.JobError>>)
    requires id in s.jobs
    requires var job := s.jobs[id];
             && job.pc == Analyze && !job.checked && job.fetched.None?
             && job.next < |job.enumerated| == |answers| && job.enumerated[job.next].sha.None?
    ensures var job := s.jobs[id];
            var (st, failure) := Coordinator.AnalyzeFrom(s.store, job.sid, job.enumerated, answers, job.next);
            Arrives(id, s, job.sid, PcAfter(failure), st, s.running)
    decreases |s.jobs[id].enumerated| - s.jobs[id].next, 0
  {
    var job := s.jobs[id];
    var (st, failure) := Coordinator.AnalyzeFrom(s.store, job.sid, job.enumerated, answers, job.next);
    var checking := Act(s.store, s.running, id, job, Nothing).value;
    if RequireInProgress(s.store, job.sid).Raised? {
      StepArrives(id, s, Nothing, checking);
    } else {
      var s1 := Moved(s, id, checking.job, s.store, s.running);
      var put := Act(s1.store, s1.running, id, s1.jobs[id], Nothing).value;
      var s2 := Moved(s1, id, put.job, put.store, put.running);
      AnalyzeAlone(id, s2, answers);
      StepThenArrives(id, s1, Nothing, put, job.sid, PcAfter(failure), st, s.running);
      StepThenArrives(id, s, Nothing, checking, job.sid, PcAfter(failure), st, s.running);
    }
  }

  /** The pass of the loop over a project that is fetched and analysed. */
  lemma {:induction false} WriteAlone(id: JobId, s: System, answers: seq<Outcome<string, Coordinator.JobError>>)
    requires id in s.jobs
    requires var job := s.jobs[id];
             && job.pc == Analyze && !job.checked && job.fetched.None?
             && job.next < |job.enumerated| == |answers|
             && job.enumerated[job.next].sha.Some? && answers[job.next].Ok?
    ensures var job := s.jobs[id];
            var (st, failure) := Coordinator.AnalyzeFrom(s.store, job.sid, job.enumerated, answers, job.next);
            Arrives(id, s, job.sid, PcAfter(failure), st, s.running)
    decreases |s.jobs[id].enumerated| - s.jobs[id].next, 0
  {
    var job := s.jobs[id];
    var e := job.enumerated[job.next];
    var (st, failure) := Coordinator.AnalyzeFrom(s.store, job.sid, job.enumerated, answers, job.next);
    var body := AnalysedAs(answers[job.next].value);
    var fetching := Act(s.store, s.running, id, job, body).value;
    var s1 := Moved(s, id, fetching.job, s.store, s.running);
    var checking := Act(s1.store, s1.running, id, s1.jobs[id], Nothing).value;
    if e.sha.value == "" || RequireInProgress(s.store, job.sid).Raised? {
      StepArrives(id, s1, Nothing, checking);
    } else {
      var s2 := Moved(s1, id, checking.job, s.store, s.running);
      var put := Act(s2.store, s2.running, id, s2.jobs[id], Nothing).value;
      var s3 := Moved(s2, id, put.job, put.store, put.running);
      AnalyzeAlone(id, s3, answers);
      StepThenArrives(id, s2, Nothing, put, job.sid, PcAfter(failure), st, s.running);
      StepThenArrives(id, s1, Nothing, checking, job.sid, PcAfter(failure), st, s.running);
    }
    StepThenArrives(id, s, body, fetching, job.sid, PcAfter(failure), st, s.running);
  }

  // ---------------------------------------------------------------- whole procedures

  /** The ending of a job whose procedure leaves `a` behind. */
  function EndingOf(a: Coordinator.Aftermath): Ending {
    match a.result
    case Completes => Committed
    case RaisesInProgress => Rejected
    case RaisesGitLab(e) => GitLabFailure(e)
    case RaisesNotInScope => NotInScope
    case RaisesOther => if a.leaked then Crashed else AbortRaised
  }

  /** The job goes on to leave exactly `a`: it gives the slot `running` back unless `a` leaks it. */
  ghost predicate Finishes(id: JobId, s: System, sid: SnapshotId, a: Coordinator.Aftermath, running: Option<Handle>)
    requires id in s.jobs
  {
    Arrives(id, s, sid, Done(EndingOf(a)), a.store, if a.leaked then running else Release(running, id))
  }

  lemma FailAlone(id: JobId, s: System, why: Coordinator.Result)
    requires id in s.jobs && !s.jobs[id].checked && !why.RaisesOther?
    requires s.jobs[id].pc == Abort(EndingOf(Coordinator.Aftermath(s.store, why, false)))
    ensures Finishes(id, s, s.jobs[id].sid, Coordinator.FailWith(s.store, s.jobs[id].sid, why), s.running)
  {
    var sid := s.jobs[id].sid;
    var checking := Act(s.store, s.running, id, s.jobs[id], Nothing).value;
    var s1 := Moved(s, id, checking.job, checking.store, checking.running);
    var failing := Act(s1.store, s1.running, id, s1.jobs[id], Nothing).value;
    if RequireInProgress(s.store, sid).Raised? {
      StepArrives(id, s1, Nothing, failing);
    } else {
      var s2 := Moved(s1, id, failing.job, failing.store, failing.running);
      var unwinding := Act(s2.store, s2.running, id, s2.jobs[id], Nothing).value;
      StepArrives(id, s2, Nothing, unwinding);
      StepThenArrives(id, s1, Nothing, failing, sid, unwinding.job.pc, unwinding.store, unwinding.running);
    }
    var a := Coordinator.FailWith(s.store, sid, why);
    StepThenArrives(id, s, Nothing, checking, sid, Done(EndingOf(a)), a.store, Release(s.running, id));
  }

  /** From the commit step on. */
  lemma CommitAlone(id: JobId, s: System)
    requires id in s.jobs && !s.jobs[id].checked && s.jobs[id].pc == Commit
    ensures var (st, r) := StoreModel.Commit(s.store, s.jobs[id].sid);
            var a := if r.Ok? then Coordinator.Aftermath(st, Coordinator.Completes, false)
                     else Coordinator.Aftermath(st, Coordinator.RaisesOther, true);
            Finishes(id, s, s.jobs[id].sid, a, s.running)
  {
    var job := s.jobs[id];
    var checking := Act(s.store, s.running, id, job, Nothing).value;
    if RequireInProgress(s.store, job.sid).Raised? {
      StepArrives(id, s, Nothing, checking);
    } else {
      var s1 := Moved(s, id, checking.job, s.store, s.running);
      var promoting := Act(s1.store, s1.running, id, s1.jobs[id], Nothing).value;
      var s2 := Moved(s1, id, promoting.job, promoting.store, promoting.running);
      var ending := Act(s2.store, s2.running, id, s2.jobs[id], Nothing).value;
      StepArrives(id, s2, Nothing, ending);
      StepThenArrives(id, s1, Nothing, promoting, job.sid, ending.job.pc, ending.store, ending.running);
      StepThenArrives(id, s, Nothing, checking, job.sid, ending.job.pc, ending.store, ending.running);
    }
  }

  lemma TailAlone(id: JobId, s: System, answers: seq<Outcome<string, Coordinator.JobError>>)
    requires id in s.jobs
    requires var job := s.jobs[id];
             && job.pc == Analyze && !job.checked && job.fetched.None?
             && job.next == 0 && |job.enumerated| == |answers|
    ensures var job := s.jobs[id];
            Finishes(id, s, job.sid, Coordinator.AnalyzeAndCommit(s.store, job.sid, job.enumerated, answers), s.running)
  {
    var job := s.jobs[id];
    var (st, failure) := Coordinator.AnalyzeFrom(s.store, job.sid, job.enumerated, answers, 0);
    var a := Coordinator.AnalyzeAndCommit(s.store, job.sid, job.enumerated, answers);
    AnalyzeAlone(id, s, answers);
    var job': Job :| ArrivesAs(id, s, job', job.sid, PcAfter(failure), st, s.running);
    var m := Moved(s, id, job', st, s.running);
    match failure {
      case None => CommitAlone(id, m);
      case Some(GitLab(e)) => FailAlone(id, m, Coordinator.RaisesGitLab(e));
      case Some(Other) => Stays(id, m);
    }
    LegThenArrives(id, s, Effect(job', st, s.running), job.sid, Done(EndingOf(a)), a.store,
                   if a.leaked then s.running else Release(s.running, id));
  }

  /** The slot a procedure leaves, when it found `running` in it. */
  function SlotAfter(running: Option<Handle>, id: JobId, sid: SnapshotId, a: Coordinator.Aftermath): Option<Handle> {
    if running.Some? then running else if a.leaked then Some(Handle(id, sid)) else None
  }

  /** From a full refresh's catalog step on. */
  lemma PopulateAlone(id: JobId, s: System, answers: seq<Outcome<string, Coordinator.JobError>>)
    requires id in s.jobs
    requires var job := s.jobs[id];
             && job.pc == Populate && !job.checked && job.fetched.None?
             && job.next == 0 && |job.enumerated| == |answers|
    ensures var job := s.jobs[id];
            Finishes(id, s, job.sid, Coordinator.FullFrom(s.store, job.sid, Ok(job.enumerated), answers), s.running)
  {
    var job := s.jobs[id];
    var a := Coordinator.FullFrom(s.store, job.sid, Ok(job.enumerated), answers);
    var slot := if a.leaked then s.running else Release(s.running, id);
    var checking := Act(s.store, s.running, id, job, Nothing).value;
    if RequireInProgress(s.store, job.sid).Raised? {
      StepArrives(id, s, Nothing, checking);
    } else {
      var s1 := Moved(s, id, checking.job, s.store, s.running);
      var putting := Act(s1.store, s1.running, id, s1.jobs[id], Nothing).value;
      TailAlone(id, Moved(s1, id, putting.job, putting.store, putting.running), answers);
      StepThenArrives(id, s1, Nothing, putting, job.sid, Done(EndingOf(a)), a.store, slot);
      StepThenArrives(id, s, Nothing, checking, job.sid, Done(EndingOf(a)), a.store, slot);
    }
  }

  /** From a full refresh's enumeration on. */
  lemma FullFromAlone(id: JobId, s: System, enumeration: Outcome<seq<EnumeratedProject>, Coordinator.JobError>,
                      answers: seq<Outcome<string, Coordinator.JobError>>)
    requires id in s.jobs
    requires var job := s.jobs[id];
             job.kind == FullRefresh && job.pc == Enumerate && !job.checked && job.fetched.None? && job.next == 0
    requires enumeration.Ok? ==> |answers| == |enumeration.value|
    ensures var sid := s.jobs[id].sid;
            Finishes(id, s, sid, Coordinator.FullFrom(s.store, sid, enumeration, answers), s.running)
  {
    var job := s.jobs[id];
    var a := Coordinator.FullFrom(s.store, job.sid, enumeration, answers);
    if enumeration == Raised(Coordinator.Other) {
      CrashArrives(id, s);
    } else {
      var input := match enumeration
        case Raised(GitLab(e)) => GitLabFails(e)
        case Raised(Other) => Nothing
        case Ok(es) => Enumerated(es);
      var asking := Act(s.store, s.running, id, job, input).value;
      var m := Moved(s, id, asking.job, asking.store, asking.running);
      if enumeration.Ok? {
        PopulateAlone(id, m, answers);
      } else {
        FailAlone(id, m, Coordinator.RaisesGitLab(enumeration.error.error));
      }
      StepThenArrives(id, s, input, asking, job.sid, Done(EndingOf(a)), a.store,
                      if a.leaked then s.running else Release(s.running, id));
    }
  }

  /** From a single-project refresh's enumeration on. */
  lemma SingleFromAlone(id: JobId, s: System, project: ProjectId,
        enumeration: Outcome<seq<EnumeratedProject>, Coordinator.JobError>,
                        answer: Outcome<string, Coordinator.JobError>)
    requires id in s.jobs
    requires var job := s.jobs[id];
             && job.kind == Kind.SingleRefresh(project) && job.pc == Enumerate && !job.checked
             && job.fetched.None? && job.next == 0
    ensures var sid := s.jobs[id].sid;
            Finishes(id, s, sid, Coordinator.SingleFrom(s.store, sid, project, enumeration, answer), s.running)
  {
    var job := s.jobs[id];
    var a := Coordinator.SingleFrom(s.store, job.sid, project, enumeration, answer);
    if enumeration == Raised(Coordinator.Other) {
      CrashArrives(id, s);
    } else {
      var input := match enumeration
        case Raised(GitLab(e)) => GitLabFails(e)
        case Raised(Other) => Nothing
        case Ok(es) => Enumerated(es);
      var asking := Act(s.store, s.running, id, job, input).value;
      var m := Moved(s, id, asking.job, asking.store, asking.running);
      if enumeration.Raised? {
        FailAlone(id, m, Coordinator.RaisesGitLab(enumeration.error.error));
      } else if Matching(enumeration.value, project) == [] {
        FailAlone(id, m, Coordinator.RaisesNotInScope);
      } else {
        TailAlone(id, m, [answer]);
      }
      StepThenArrives(id, s, input, asking, job.sid, Done(EndingOf(a)), a.store,
                      if a.leaked then s.running else Release(s.running, id));
    }
  }

  /** The refusal of a start while another handle occupies the slot. */
  lemma RejectAlone(id: JobId, s: System)
    requires id in s.jobs && !s.jobs[id].checked && s.jobs[id].pc == TryStart && s.running.Some?
    ensures var sid := s.jobs[id].sid;
            var a := Coordinator.FailWith(s.store, sid, Coordinator.RaisesInProgress);
            Arrives(id, s, sid, Done(EndingOf(a)), a.store, s.running)
  {
    var job := s.jobs[id];
    var refusing := Act(s.store, s.running, id, job, Nothing).value;
    var m := Moved(s, id, refusing.job, refusing.store, refusing.running);
    var checking := Act(m.store, m.running, id, m.jobs[id], Nothing).value;
    var a := Coordinator.FailWith(s.store, job.sid, Coordinator.RaisesInProgress);
    if RequireInProgress(s.store, job.sid).Raised? {
      StepArrives(id, m, Nothing, checking);
    } else {
      var m1 := Moved(m, id, checking.job, checking.store, checking.running);
      var failing := Act(m1.store, m1.running, id, m1.jobs[id], Nothing).value;
      StepArrives(id, m1, Nothing, failing);
      StepThenArrives(id, m, Nothing, checking, job.sid, Done(EndingOf(a)), a.store, s.running);
    }
    StepThenArrives(id, s, Nothing, refusing, job.sid, Done(EndingOf(a)), a.store, s.running);
  }

  /** From a full refresh's `try_start` on. */
  lemma StartFullAlone(id: JobId, s: System, enumeration: Outcome<seq<EnumeratedProject>, Coordinator.JobError>,
                       answers: seq<Outcome<string, Coordinator.JobError>>)
    requires id in s.jobs
    requires var job := s.jobs[id];
             job.kind == FullRefresh && job.pc == TryStart && !job.checked && job.fetched.None? && job.next == 0
    requires enumeration.Ok? ==> |answers| == |enumeration.value|
    ensures var sid := s.jobs[id].sid;
            var a := if s.running.Some? then Coordinator.FailWith(s.store, sid, Coordinator.RaisesInProgress)
                     else Coordinator.FullFrom(s.store, sid, enumeration, answers);
            Arrives(id, s, sid, Done(EndingOf(a)), a.store, SlotAfter(s.running, id, sid, a))
  {
    var sid := s.jobs[id].sid;
    if s.running.Some? {
      RejectAlone(id, s);
    } else {
      var a := Coordinator.FullFrom(s.store, sid, enumeration, answers);
      var starting := Act(s.store, s.running, id, s.jobs[id], Nothing).value;
      FullFromAlone(id, Moved(s, id, starting.job, starting.store, starting.running), enumeration, answers);
      StepThenArrives(id, s, Nothing, starting, sid, Done(EndingOf(a)), a.store, SlotAfter(s.running, id, sid, a));
    }
  }

  /** A full refresh that nobody interrupts is `FullRefresh`: same store, same ending, and the slot is
      held afterwards exactly when it says so. */
  lemma FullRefreshIsASoloRun(id: JobId, s: System, enumeration: Outcome<seq<EnumeratedProject>, Coordinator.JobError>,
                              answers: seq<Outcome<string, Coordinator.JobError>>)
    requires id in s.jobs && s.jobs[id] == NewJob(FullRefresh)
    requires enumeration.Ok? ==> |answers| == |enumeration.value|
    ensures var sid := s.store.lastId + 1;
            var a := Coordinator.FullRefresh(s.store, s.running.Some?, enumeration, answers);
            Arrives(id, s, sid, Done(EndingOf(a)), a.store, SlotAfter(s.running, id, sid, a))
  {
    var a := Coordinator.FullRefresh(s.store, s.running.Some?, enumeration, answers);
    var opening := Act(s.store, s.running, id, s.jobs[id], Nothing).value;
    var sid := opening.job.sid;
    StartFullAlone(id, Moved(s, id, opening.job, opening.store, opening.running), enumeration, answers);
    StepThenArrives(id, s, Nothing, opening, sid, Done(EndingOf(a)), a.store, SlotAfter(s.running, id, sid, a));
  }

  /** From an accepted single-project refresh's `begin_snapshot` on. */
  lemma OpenSingleAlone(id: JobId, s: System, project: ProjectId,
        enumeration: Outcome<seq<EnumeratedProject>, Coordinator.JobError>,
                        answer: Outcome<string, Coordinator.JobError>)
    requires id in s.jobs
    requires var job := s.jobs[id];
             && job.kind == Kind.SingleRefresh(project) && job.pc == BeginSnapshot && !job.checked
             && job.fetched.None? && job.next == 0
             && job.parent.Some? && job.parent.value in s.store.snapshots
    ensures var sid := s.store.lastId + 1;
            var begun := Begin(s.store, SingleProject, s.jobs[id].parent).0;
            var a := Coordinator.StartSingleFrom(begun, sid, s.running.Some?, project, enumeration, answer);
            Arrives(id, s, sid, Done(EndingOf(a)), a.store, SlotAfter(s.running, id, sid, a))
  {
    var opening := Act(s.store, s.running, id, s.jobs[id], Nothing).value;
    var sid := opening.job.sid;
    var a := Coordinator.StartSingleFrom(opening.store, sid, s.running.Some?, project, enumeration, answer);
    var s1 := Moved(s, id, opening.job, opening.store, opening.running);
    var slot := SlotAfter(s.running, id, sid, a);
    if s.running.Some? {
      RejectAlone(id, s1);
    } else {
      var starting := Act(s1.store, s1.running, id, s1.jobs[id], Nothing).value;
      SingleFromAlone(id, Moved(s1, id, starting.job, starting.store, starting.running), project, enumeration, answer);
      StepThenArrives(id, s1, Nothing, starting, sid, Done(EndingOf(a)), a.store, slot);
    }
    StepThenArrives(id, s, Nothing, opening, sid, Done(EndingOf(a)), a.store, slot);
  }

  /** From the scope checks' last query on, both pointer reads having seen the current snapshot. */
  lemma ScopeRowAlone(id: JobId, s: System, project: ProjectId,
        enumeration: Outcome<seq<EnumeratedProject>, Coordinator.JobError>,
                      answer: Outcome<string, Coordinator.JobError>)
    requires id in s.jobs && s.store.current.Some?
    requires s.jobs[id] ==
             NewJob(Kind.SingleRefresh(project)).(pc := ScopeRow, parent := s.store.current, scope := s.store.current)
    ensures var a := Coordinator.SingleRefresh(s.store, s.running.Some?, project, enumeration, answer);
            var sid := if Coordinator.ScopedParent(s.store, project).None? then 0 else s.store.lastId + 1;
            Arrives(id, s, sid, Done(EndingOf(a)), a.store, SlotAfter(s.running, id, sid, a))
  {
    var a := Coordinator.SingleRefresh(s.store, s.running.Some?, project, enumeration, answer);
    var third := Act(s.store, s.running, id, s.jobs[id], Nothing).value;
    if Coordinator.ScopedParent(s.store, project).None? {
      StepArrives(id, s, Nothing, third);
    } else {
      var sid := s.store.lastId + 1;
      OpenSingleAlone(id, Moved(s, id, third.job, s.store, s.running), project, enumeration, answer);
      StepThenArrives(id, s, Nothing, third, sid, Done(EndingOf(a)), a.store, SlotAfter(s.running, id, sid, a));
    }
  }

  /** A single-project refresh that nobody interrupts is `SingleRefresh`; refused for scope, it opens
      no snapshot. */
  lemma SingleRefreshIsASoloRun(id: JobId, s: System, project: ProjectId,
                                enumeration: Outcome<seq<EnumeratedProject>, Coordinator.JobError>,
                                answer: Outcome<string, Coordinator.JobError>)
    requires id in s.jobs && s.jobs[id] == NewJob(Kind.SingleRefresh(project))
    ensures var a := Coordinator.SingleRefresh(s.store, s.running.Some?, project, enumeration, answer);
            var sid := if Coordinator.ScopedParent(s.store, project).None? then 0 else s.store.lastId + 1;
            Arrives(id, s, sid, Done(EndingOf(a)), a.store, SlotAfter(s.running, id, sid, a))
  {
    var a := Coordinator.SingleRefresh(s.store, s.running.Some?, project, enumeration, answer);
    var sid := if Coordinator.ScopedParent(s.store, project).None? then 0 else s.store.lastId + 1;
    var slot := SlotAfter(s.running, id, sid, a);
    var first := Act(s.store, s.running, id, s.jobs[id], Nothing).value;
    if s.store.current.None? {
      StepArrives(id, s, Nothing, first);
    } else {
      var s1 := Moved(s, id, first.job, s.store, s.running);
      var second := Act(s1.store, s1.running, id, s1.jobs[id], Nothing).value;
      ScopeRowAlone(id, Moved(s1, id, second.job, s.store, s.running), project, enumeration, answer);
      StepThenArrives(id, s1, Nothing, second, sid, Done(EndingOf(a)), a.store, slot);
      StepThenArrives(id, s, Nothing, first, sid, Done(EndingOf(a)), a.store, slot);
    }
  }
}
