/** Where the payloads of committed profiles come from, for every run: each is the answer the job was
    given for that very project. */
module Payloads {
  import opened Base
  import opened StoreModel
  import opened Protocol
  import opened ProtocolInvariant
  import opened Outcomes

  /** The step from state `l` gives job `id` the answer `body` for the project at position `i`. */
  ghost predicate Answers(trace: seq<System>, l: nat, id: JobId, i: nat, body: string)
    requires l + 1 < |trace|
  {
    && id in trace[l].jobs
    && var job := trace[l].jobs[id];
    && job.pc.Analyze? && job.fetched.None? && job.next == i < |job.enumerated| && job.enumerated[i].sha.Some?
    && Next(trace[l], Step(id, AnalysedAs(body))) == Some(trace[l + 1])
  }

  ghost predicate Answered(trace: seq<System>, m: nat, id: JobId, i: nat, body: string)
    requires m < |trace|
  {
    exists l: nat :: l < m && Answers(trace, l, id, i, body)
  }

  // ---------------------------------------------------------------- what one step does to a job

  predicate SameProgress(job: Job, job': Job) {
    job'.enumerated == job.enumerated && job'.next == job.next && job'.fetched == job.fetched
      && job'.written == job.written
  }

  predicate Fetches(job: Job, job': Job, input: Input) {
    && job.pc.Analyze? && job.fetched.None? && job.next < |job.enumerated| && job.enumerated[job.next].sha.Some?
    && input.AnalysedAs? && job' == job.(fetched := Some(input.body))
  }

  predicate Skips(job: Job, job': Job) {
    && job.next < |job.enumerated| && job.enumerated[job.next].sha.None?
    && job'.enumerated == job.enumerated && job'.next == job.next + 1
    && job'.fetched == job.fetched && job'.written == job.written
  }

  predicate Writes(job: Job, job': Job) {
    && job.next < |job.enumerated| && job.enumerated[job.next].sha.Some? && job.fetched.Some?
    && var e := job.enumerated[job.next];
    && job'.enumerated == job.enumerated && job'.next == job.next + 1 && job'.fetched.None?
    && job'.written == job.written[e.id := ProfileRow(e.path, e.branch, e.sha.value, job.fetched.value)]
  }

  predicate Lists(job: Job, job': Job) {
    job.pc.Enumerate? && job'.next == job.next && job'.fetched == job.fetched && job'.written == job.written
  }

  lemma AnalyzeProgress(st: Store, job: Job, input: Input)
    requires job.pc.Analyze? && AnalyzeStep(st, job, input).Some?
    ensures var job' := AnalyzeStep(st, job, input).value.0;
            SameProgress(job, job') || Fetches(job, job', input) || Skips(job, job') || Writes(job, job')
  {}

  lemma StartProgress(st: Store, running: Option<Handle>, id: JobId, job: Job)
    ensures StartStep(st, running, id, job).Some? ==> SameProgress(job, StartStep(st, running, id, job).value.job)
    ensures EndStep(st, running, id, job).Some? ==> SameProgress(job, EndStep(st, running, id, job).value.job)
  {}

  lemma ActProgress(st: Store, running: Option<Handle>, id: JobId, job: Job, input: Input)
    requires Act(st, running, id, job, input).Some?
    ensures var job' := Act(st, running, id, job, input).value.job;
            || SameProgress(job, job') || Fetches(job, job', input) || Skips(job, job') || Writes(job, job')
            || Lists(job, job')
  {
    StartProgress(st, running, id, job);
    if job.pc.Analyze? { AnalyzeProgress(st, job, input); }
  }

  /** From one state to the next a job makes one of these moves, is new, or stays. */
  lemma StepProgress(s: System, a: Action, t: System, id: JobId)
    requires Next(s, a) == Some(t) && id in t.jobs
    ensures id !in s.jobs ==> exists kind :: t.jobs[id] == NewJob(kind)
    ensures id in s.jobs ==>
              var job, job' := s.jobs[id], t.jobs[id];
              || SameProgress(job, job') || Skips(job, job') || Writes(job, job') || Lists(job, job')
              || (exists input :: Fetches(job, job', input) && a == Step(id, input))
  {
    if a.Step? && a.id == id {
      ActProgress(s.store, s.running, id, s.jobs[id], a.input);
    }
  }

  // ---------------------------------------------------------------- what a job knows

  /** What the job is about to write, and what it has written, it was told. */
  ghost predicate Told(trace: seq<System>, m: nat, id: JobId)
    requires m < |trace| && id in trace[m].jobs
  {
    var job := trace[m].jobs[id];
    && job.next <= |job.enumerated|
    && (job.fetched.Some? ==>
          && job.next < |job.enumerated| && job.enumerated[job.next].sha.Some?
          && Answered(trace, m, id, job.next, job.fetched.value))
    && forall i: nat :: LastAnalysed(job.enumerated, job.next, i) ==> ToldAt(trace, m, id, i)
  }

  /** The row written for the project at position `i` is made of that project and its answer. */
  ghost predicate ToldAt(trace: seq<System>, m: nat, id: JobId, i: nat)
    requires m < |trace| && id in trace[m].jobs
  {
    var job := trace[m].jobs[id];
    && i < |job.enumerated| && job.enumerated[i].sha.Some?
    && var e := job.enumerated[i];
    && e.id in job.written
    && var row := job.written[e.id];
    row == ProfileRow(e.path, e.branch, e.sha.value, row.body) && Answered(trace, m, id, i, row.body)
  }

  lemma AnsweredStays(trace: seq<System>, m: nat, id: JobId, i: nat, body: string)
    requires m + 1 < |trace| && Answered(trace, m, id, i, body)
    ensures Answered(trace, m + 1, id, i, body)
  {
    var l: nat :| l < m && Answers(trace, l, id, i, body);
  }

  lemma SameStaysTold(trace: seq<System>, m: nat, id: JobId)
    requires m + 1 < |trace| && id in trace[m].jobs && id in trace[m + 1].jobs && Told(trace, m, id)
    requires SameProgress(trace[m].jobs[id], trace[m + 1].jobs[id])
    ensures Told(trace, m + 1, id)
  {
    var job := trace[m].jobs[id];
    if job.fetched.Some? { AnsweredStays(trace, m, id, job.next, job.fetched.value); }
    forall i: nat | LastAnalysed(job.enumerated, job.next, i) ensures ToldAt(trace, m + 1, id, i) {
      assert ToldAt(trace, m, id, i);
      AnsweredStays(trace, m, id, i, job.written[job.enumerated[i].id].body);
    }
  }

  lemma FetchTells(trace: seq<System>, m: nat, id: JobId, input: Input)
    requires m + 1 < |trace| && id in trace[m].jobs && id in trace[m + 1].jobs && Told(trace, m, id)
    requires Fetches(trace[m].jobs[id], trace[m + 1].jobs[id], input)
    requires Next(trace[m], Step(id, input)) == Some(trace[m + 1])
    ensures Told(trace, m + 1, id)
  {
    var job := trace[m].jobs[id];
    assert Answers(trace, m, id, job.next, input.body);
    forall i: nat | LastAnalysed(job.enumerated, job.next, i) ensures ToldAt(trace, m + 1, id, i) {
      assert ToldAt(trace, m, id, i);
      AnsweredStays(trace, m, id, i, job.written[job.enumerated[i].id].body);
    }
  }

  lemma SkipStaysTold(trace: seq<System>, m: nat, id: JobId)
    requires m + 1 < |trace| && id in trace[m].jobs && id in trace[m + 1].jobs && Told(trace, m, id)
    requires Skips(trace[m].jobs[id], trace[m + 1].jobs[id])
    ensures Told(trace, m + 1, id)
  {
    var job := trace[m].jobs[id];
    var n := job.next + 1;
    forall i: nat | LastAnalysed(job.enumerated, n, i) ensures ToldAt(trace, m + 1, id, i) {
      assert LastAnalysed(job.enumerated, job.next, i);
      assert ToldAt(trace, m, id, i);
      AnsweredStays(trace, m, id, i, job.written[job.enumerated[i].id].body);
    }
  }

  lemma WriteStaysTold(trace: seq<System>, m: nat, id: JobId)
    requires m + 1 < |trace| && id in trace[m].jobs && id in trace[m + 1].jobs && Told(trace, m, id)
    requires Writes(trace[m].jobs[id], trace[m + 1].jobs[id])
    ensures Told(trace, m + 1, id)
  {
    var job := trace[m].jobs[id];
    AnsweredStays(trace, m, id, job.next, job.fetched.value);
    var n := job.next + 1;
    forall i: nat | LastAnalysed(job.enumerated, n, i) ensures ToldAt(trace, m + 1, id, i) {
      if i < job.next {
        assert job.enumerated[job.next].id != job.enumerated[i].id;
        assert LastAnalysed(job.enumerated, job.next, i);
        assert ToldAt(trace, m, id, i);
        AnsweredStays(trace, m, id, i, job.written[job.enumerated[i].id].body);
      }
    }
  }

  /** Every job, in every state of every run. */
  lemma {:induction false} RunTold(trace: seq<System>, m: nat, id: JobId)
    requires Run(trace) && m < |trace| && id in trace[m].jobs
    ensures Told(trace, m, id)
    decreases m
  {
    if m > 0 {
      var n := m - 1;
      var a := StepOf(trace, n);
      StepProgress(trace[n], a, trace[n + 1], id);
      if id in trace[n].jobs {
        RunTold(trace, n, id);
        StepTells(trace, n, a, id);
      }
    }
  }

  lemma StepTells(trace: seq<System>, m: nat, a: Action, id: JobId)
    requires Run(trace) && m + 1 < |trace| && Next(trace[m], a) == Some(trace[m + 1])
    requires id in trace[m].jobs && id in trace[m + 1].jobs && Told(trace, m, id)
    ensures Told(trace, m + 1, id)
  {
    var job, job' := trace[m].jobs[id], trace[m + 1].jobs[id];
    StepProgress(trace[m], a, trace[m + 1], id);
    if SameProgress(job, job') {
      SameStaysTold(trace, m, id);
    } else if Skips(job, job') {
      SkipStaysTold(trace, m, id);
    } else if Writes(job, job') {
      WriteStaysTold(trace, m, id);
    } else if Lists(job, job') {
      RunInv(trace, m);
      assert JobOk(trace[m].store, trace[m].running, trace[m].captured, id, job);
      assert job.next == 0;
    } else {
      var input :| Fetches(job, job', input) && a == Step(id, input);
      FetchTells(trace, m, id, input);
    }
  }

  // ---------------------------------------------------------------- one answer per project

  /** The job is past asking about position `i`. */
  predicate Past(job: Job, i: nat) {
    job.next > i || (job.next == i && job.fetched.Some?)
  }

  lemma StepStaysPast(s: System, a: Action, t: System, id: JobId, i: nat)
    requires Next(s, a) == Some(t) && id in s.jobs && Past(s.jobs[id], i)
    ensures id in t.jobs && Past(t.jobs[id], i)
  {
    if a.Step? && a.id == id {
      ActProgress(s.store, s.running, id, s.jobs[id], a.input);
    }
  }

  lemma StepOf(trace: seq<System>, n: nat) returns (a: Action)
    requires Run(trace) && n + 1 < |trace|
    ensures Next(trace[n], a) == Some(trace[n + 1])
  {
    assert CanStep(trace[n], trace[n + 1]);
    a :| Next(trace[n], a) == Some(trace[n + 1]);
  }

  ghost predicate PastAt(trace: seq<System>, n: nat, id: JobId, i: nat) {
    n < |trace| && id in trace[n].jobs && Past(trace[n].jobs[id], i)
  }

  lemma NextIsPast(trace: seq<System>, n: nat, id: JobId, i: nat)
    requires Run(trace) && n + 1 < |trace| && PastAt(trace, n, id, i)
    ensures PastAt(trace, n + 1, id, i)
  {
    var a := StepOf(trace, n);
    StepStaysPast(trace[n], a, trace[n + 1], id, i);
  }

  lemma {:induction false} StepsStayPast(trace: seq<System>, l: nat, m: nat, id: JobId, i: nat)
    requires forall n: nat :: l <= n < m && PastAt(trace, n, id, i) ==> PastAt(trace, n + 1, id, i)
    requires l <= m < |trace| && PastAt(trace, l, id, i)
    ensures PastAt(trace, m, id, i)
    decreases m
  {
    if l < m {
      StepsStayPast(trace, l, m - 1, id, i);
      assert PastAt(trace, m - 1 + 1, id, i);
    }
  }

  lemma StaysPast(trace: seq<System>, l: nat, m: nat, id: JobId, i: nat)
    requires Run(trace) && l <= m < |trace| && PastAt(trace, l, id, i)
    ensures PastAt(trace, m, id, i)
  {
    forall n: nat | l <= n < m && PastAt(trace, n, id, i) ensures PastAt(trace, n + 1, id, i) {
      NextIsPast(trace, n, id, i);
    }
    StepsStayPast(trace, l, m, id, i);
  }

  lemma AnswerIsFetched(trace: seq<System>, l: nat, id: JobId, i: nat, body: string)
    requires l + 1 < |trace| && Answers(trace, l, id, i, body)
    ensures id in trace[l + 1].jobs && trace[l + 1].jobs[id].fetched == Some(body) && trace[l + 1].jobs[id].next == i
  {}

  /** A job is given one answer per position. */
  lemma OneAnswerPerPosition(trace: seq<System>, k: nat, l: nat, id: JobId, i: nat, body: string, body': string)
    requires Run(trace) && k + 1 < |trace| && l + 1 < |trace|
    requires Answers(trace, k, id, i, body) && Answers(trace, l, id, i, body')
    ensures k == l && body == body'
  {
    AnswerIsFetched(trace, k, id, i, body);
    AnswerIsFetched(trace, l, id, i, body');
    assert PastAt(trace, k + 1, id, i) && PastAt(trace, l + 1, id, i);
    if k < l {
      StaysPast(trace, k + 1, l, id, i);
    } else if l < k {
      StaysPast(trace, l + 1, k, id, i);
    }
  }

  // ---------------------------------------------------------------- what is stored

  /** The write step puts the one answer the job was given for this project under its id. */
  lemma WriteStepStoresAnswer(trace: seq<System>, m: nat, id: JobId, input: Input)
    requires Run(trace) && m + 1 < |trace| && id in trace[m].jobs
    requires var job := trace[m].jobs[id];
             && job.pc.Analyze? && job.next < |job.enumerated| && job.enumerated[job.next].sha.Some?
             && job.fetched.Some? && job.checked
    requires Next(trace[m], Step(id, input)) == Some(trace[m + 1])
    ensures var job := trace[m].jobs[id]; var e := job.enumerated[job.next];
            && job.sid in trace[m + 1].store.snapshots
            && var profiles := trace[m + 1].store.snapshots[job.sid].profiles;
            && e.id in profiles
            && profiles[e.id] == ProfileRow(e.path, e.branch, e.sha.value, profiles[e.id].body)
            && Answered(trace, m, id, job.next, profiles[e.id].body)
  {
    RunInv(trace, m);
    RunTold(trace, m, id);
    assert JobOk(trace[m].store, trace[m].running, trace[m].captured, id, trace[m].jobs[id]);
  }

  /** A committed full refresh shows, for each id, the answer given for the last project listed with that
      id and a SHA. */
  lemma CommittedPayloadsAreAnswers(trace: seq<System>, m: nat, id: JobId, i: nat)
    requires Run(trace) && m < |trace| && id in trace[m].jobs && HasCommitted(trace[m].jobs[id].pc)
    requires LastAnalysed(trace[m].jobs[id].enumerated, |trace[m].jobs[id].enumerated|, i)
    ensures var job := trace[m].jobs[id]; var e := job.enumerated[i];
            && CompletedIn(trace[m].store, job.sid)
            && var profiles := trace[m].store.snapshots[job.sid].profiles;
            && e.id in profiles
            && profiles[e.id] == ProfileRow(e.path, e.branch, e.sha.value, profiles[e.id].body)
            && Answered(trace, m, id, i, profiles[e.id].body)
  {
    RunInv(trace, m);
    RunTold(trace, m, id);
    var job := trace[m].jobs[id];
    assert JobOk(trace[m].store, trace[m].running, trace[m].captured, id, job);
    assert job.next == |job.enumerated|;
    assert ToldAt(trace, m, id, i);
    assert job.enumerated[i].id in job.written;
  }
}
