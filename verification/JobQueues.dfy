/** Job queues with a dead-letter queue, a dead-letter hash and replay.

    Every step below is one command against Redis. A worker or an operator's replay may crash
    between any two of them, and any number of replays may be under way at once. */
module JobQueues {

  import opened Prelude

  datatype Payload = Payload(queue: string, name: string, data: string)

  /** `Failed` remembers whether the failure handler has parked the job. */
  datatype Status = Waiting | Active | Delayed | Failed(parked: bool)

  /** `origin` identifies the enqueue call a job goes back to, however often it was replayed. */
  datatype Job = Job(payload: Payload, origin: nat, attemptsMade: nat, attempts: Option<nat>, status: Status) {
    function MaxAttempts(): nat {
      if attempts.Some? then attempts.value else 1
    }
  }

  datatype Parked = Parked(payload: Payload, origin: nat)

  type JobKey = (string, nat)

  /** Where a replay reads its item: the dead-letter queue or the dead-letter hash. */
  datatype Source = FromDeadLetter(id: nat) | FromHash(recordId: string)

  /** A replay under way: where it read its item, and whether it has added it back yet. */
  datatype Replay = Replay(source: Source, item: Parked, added: bool)

  datatype State = State(
    jobs: map<JobKey, Job>, deadLetter: map<nat, Parked>, hash: map<string, Parked>, replays: map<nat, Replay>,
    enqueued: map<nat, Payload>,  // every job ever enqueued, by origin
    completed: set<nat>,          // origins whose job has been completed
    deadLetterIds: set<nat>)      // dead-letter ids ever used

  const EMPTY := State(map[], map[], map[], map[], map[], {}, {})

  datatype Step =
    | Enqueue(key: JobKey, payload: Payload, attempts: Option<nat>, origin: nat)
    | Start(key: JobKey)
    | Complete(key: JobKey)
    | FailAttempt(key: JobKey)
    | Stall(key: JobKey)
    | OnFailed(key: JobKey, deadLetterId: nat)
    | Evict(key: JobKey)
    | PushToHash(recordId: string, key: JobKey)
    | DeleteRecord(recordId: string)
    | ReplayRead(replay: nat, id: nat)
    | RequeueRead(replay: nat, recordId: string)
    | ReplayAdd(replay: nat, key: JobKey, attempts: Option<nat>)
    | ReplayRemove(replay: nat)
    | ReplayCrash(replay: nat)

  predicate HasStatus(s: State, key: JobKey, status: Status) {
    key in s.jobs && s.jobs[key].status == status
  }

  /** An attempt of the job has failed and its failure handler may still run: the record is kept
      as failed until it has, or the job has been put back for another attempt. */
  predicate Announced(s: State, key: JobKey) {
    key in s.jobs && if s.jobs[key].status.Failed? then !s.jobs[key].status.parked else s.jobs[key].attemptsMade > 0
  }

  /** What Redis and the queue library allow. New job ids and dead-letter ids are fresh; a failed
      record is evicted only after the failure handler has run. Hash record ids are up to the caller. */
  predicate Possible(s: State, a: Step) {
    match a
    case Enqueue(key, payload, _, origin) => key !in s.jobs && key.0 == payload.queue && origin !in s.enqueued
    case Start(key) => HasStatus(s, key, Waiting) || HasStatus(s, key, Delayed)
    case Complete(key) => HasStatus(s, key, Active)
    case FailAttempt(key) => HasStatus(s, key, Active)
    case Stall(key) => HasStatus(s, key, Active)
    case OnFailed(key, id) => Announced(s, key) && id !in s.deadLetterIds
    case Evict(key) => HasStatus(s, key, Failed(true))
    case PushToHash(_, key) => key in s.jobs
    case DeleteRecord(recordId) => recordId in s.hash
    case ReplayRead(r, id) => r !in s.replays && id in s.deadLetter
    case RequeueRead(r, recordId) => r !in s.replays && recordId in s.hash
    case ReplayAdd(r, key, _) =>
      r in s.replays && !s.replays[r].added && key !in s.jobs && key.0 == s.replays[r].item.payload.queue
    case ReplayRemove(r) => r in s.replays && s.replays[r].added
    case ReplayCrash(r) => r in s.replays
  }

  /** The state after a step, table by table. */
  function Apply(s: State, a: Step): State
    requires Possible(s, a)
  {
    State(JobsAfter(s, a), DeadLetterAfter(s, a), HashAfter(s, a), ReplaysAfter(s, a),
          if a.Enqueue? then s.enqueued[a.origin := a.payload] else s.enqueued,
          if a.Complete? then s.completed + {s.jobs[a.key].origin} else s.completed,
          if Parks(s, a) then s.deadLetterIds + {a.deadLetterId} else s.deadLetterIds)
  }

  /** The failure handler dead-letters a job whose attempts are used up, and no other. */
  predicate Parks(s: State, a: Step)
    requires Possible(s, a)
  {
    a.OnFailed? && s.jobs[a.key].attemptsMade >= s.jobs[a.key].MaxAttempts()
  }

  function JobsAfter(s: State, a: Step): map<JobKey, Job>
    requires Possible(s, a)
  {
    match a
    case Enqueue(key, payload, attempts, origin) => s.jobs[key := Job(payload, origin, 0, attempts, Waiting)]
    case Start(key) => s.jobs[key := s.jobs[key].(status := Active)]
    case Complete(key) => s.jobs - {key}
    case FailAttempt(key) => s.jobs[key := AfterFailure(s.jobs[key])]
    case Stall(key) => s.jobs[key := s.jobs[key].(status := Waiting)]
    case OnFailed(key, _) => if Parks(s, a) then s.jobs[key := s.jobs[key].(status := Failed(true))] else s.jobs
    case Evict(key) => s.jobs - {key}
    case ReplayAdd(r, key, attempts) =>
      s.jobs[key := Job(s.replays[r].item.payload, s.replays[r].item.origin, 0, attempts, Waiting)]
    case _ => s.jobs
  }

  /** A failed attempt is retried later while attempts are left. */
  function AfterFailure(job: Job): Job {
    var made := job.attemptsMade + 1;
    job.(attemptsMade := made, status := if made < job.MaxAttempts() then Delayed else Failed(false))
  }

  function DeadLetterAfter(s: State, a: Step): map<nat, Parked>
    requires Possible(s, a)
  {
    if Parks(s, a) then s.deadLetter[a.deadLetterId := Parked(s.jobs[a.key].payload, s.jobs[a.key].origin)]
    else if a.ReplayRemove? && s.replays[a.replay].source.FromDeadLetter? then
      s.deadLetter - {s.replays[a.replay].source.id}
    else s.deadLetter
  }

  function HashAfter(s: State, a: Step): map<string, Parked>
    requires Possible(s, a)
  {
    match a
    case PushToHash(recordId, key) => s.hash[recordId := Parked(s.jobs[key].payload, s.jobs[key].origin)]
    case DeleteRecord(recordId) => s.hash - {recordId}
    case ReplayRemove(r) => if s.replays[r].source.FromHash? then s.hash - {s.replays[r].source.recordId} else s.hash
    case _ => s.hash
  }

  function ReplaysAfter(s: State, a: Step): map<nat, Replay>
    requires Possible(s, a)
  {
    match a
    case ReplayRead(r, id) => s.replays[r := Replay(FromDeadLetter(id), s.deadLetter[id], false)]
    case RequeueRead(r, recordId) => s.replays[r := Replay(FromHash(recordId), s.hash[recordId], false)]
    case ReplayAdd(r, _, _) => s.replays[r := s.replays[r].(added := true)]
    case ReplayRemove(r) => s.replays - {r}
    case ReplayCrash(r) => s.replays - {r}
    case _ => s.replays
  }

  // ---------- Conservation ----------

  /** The places that keep a job from being lost. The hash is not one of them: it holds copies. */
  datatype Carrier = AtQueue(key: JobKey) | InDeadLetter(id: nat)

  /** `c` durably holds the job of `origin`, with its queue, name and data: a failed record that
      has been parked elsewhere does not count. */
  predicate Holds(s: State, c: Carrier, origin: nat) {
    origin in s.enqueued &&
    match c
    case AtQueue(key) =>
      && key in s.jobs && s.jobs[key].origin == origin && s.jobs[key].payload == s.enqueued[origin]
      && key.0 == s.enqueued[origin].queue && s.jobs[key].status != Failed(true)
    case InDeadLetter(id) => id in s.deadLetter && s.deadLetter[id] == Parked(s.enqueued[origin], origin)
  }

  predicate Live(s: State, origin: nat) {
    origin in s.enqueued && origin !in s.completed
  }

  /** A replay that has added its item is about to remove `c`. */
  predicate AboutToGo(s: State, c: Carrier) {
    c.InDeadLetter? && exists r :: r in s.replays && s.replays[r].added && s.replays[r].source == FromDeadLetter(c.id)
  }

  /** Every uncompleted job is held somewhere, and somewhere that no replay under way is about
      to clear. */
  ghost predicate Conserved(s: State) {
    forall origin :: Live(s, origin) ==> exists c :: Holds(s, c, origin) && !AboutToGo(s, c)
  }

  /** Everything stored still carries the payload it was enqueued with, in its own queue. */
  ghost predicate Faithful(s: State) {
    JobsFaithful(s) && DeadLetterFaithful(s) && HashFaithful(s) && ReplaysFaithful(s)
  }

  ghost predicate JobsFaithful(s: State) {
    forall key :: key in s.jobs ==> JobFaithful(s, key.0, s.jobs[key])
  }

  predicate JobFaithful(s: State, queue: string, job: Job) {
    && job.payload.queue == queue && Genuine(s, Parked(job.payload, job.origin))
    && (job.status.Failed? ==> job.attemptsMade >= job.MaxAttempts())
    && (!job.status.Failed? && job.attemptsMade > 0 ==> job.attemptsMade < job.MaxAttempts())
  }

  ghost predicate DeadLetterFaithful(s: State) {
    forall id :: id in s.deadLetter ==> Genuine(s, s.deadLetter[id]) && id in s.deadLetterIds
  }

  ghost predicate HashFaithful(s: State) {
    forall recordId :: recordId in s.hash ==> Genuine(s, s.hash[recordId])
  }

  ghost predicate ReplaysFaithful(s: State) {
    forall r :: r in s.replays ==> Genuine(s, s.replays[r].item) && SourceMatches(s, s.replays[r])
  }

  predicate Genuine(s: State, item: Parked) {
    item.origin in s.enqueued && item.payload == s.enqueued[item.origin]
  }

  /** A dead-letter entry that a replay read, if it is still there, holds the replay's own job. A
      hash record may have been replaced since. */
  predicate SourceMatches(s: State, replay: Replay) {
    match replay.source
    case FromDeadLetter(id) => id in s.deadLetterIds && (id in s.deadLetter ==> s.deadLetter[id] == replay.item)
    case FromHash(_) => true
  }

  lemma JobsStep(s: State, a: Step)
    requires JobsFaithful(s) && ReplaysFaithful(s) && Possible(s, a)
    ensures JobsFaithful(Apply(s, a))
  {
    hide SourceMatches, DeadLetterAfter, HashAfter, ReplaysAfter;
    var next := Apply(s, a);
    forall key | key in next.jobs ensures JobFaithful(next, key.0, next.jobs[key]) {
      if key in s.jobs {
        assert JobFaithful(s, key.0, s.jobs[key]);
      }
    }
  }

  lemma DeadLetterStep(s: State, a: Step)
    requires JobsFaithful(s) && DeadLetterFaithful(s) && Possible(s, a)
    ensures DeadLetterFaithful(Apply(s, a))
  {
    hide HashAfter, ReplaysAfter, JobsAfter;
  }

  lemma HashStep(s: State, a: Step)
    requires JobsFaithful(s) && HashFaithful(s) && Possible(s, a)
    ensures HashFaithful(Apply(s, a))
  {
    hide DeadLetterAfter, ReplaysAfter, JobsAfter;
  }

  lemma SourceStep(s: State, a: Step, replay: Replay)
    requires DeadLetterFaithful(s) && HashFaithful(s) && Possible(s, a)
    requires Genuine(s, replay.item) && SourceMatches(s, replay)
    ensures Genuine(Apply(s, a), replay.item) && SourceMatches(Apply(s, a), replay)
  {
    hide JobsAfter, ReplaysAfter, HashAfter;
  }

  lemma ReplaysStep(s: State, a: Step)
    requires Faithful(s) && Possible(s, a)
    ensures ReplaysFaithful(Apply(s, a))
  {
    var next := Apply(s, a);
    forall r | r in next.replays ensures Genuine(next, next.replays[r].item) && SourceMatches(next, next.replays[r]) {
      hide JobsFaithful, JobsAfter, DeadLetterAfter, HashAfter, Parks;
      var replay := if r in s.replays then s.replays[r] else next.replays[r];
      SourceStep(s, a, replay);
      assert next.replays[r] == replay.(added := next.replays[r].added);
    }
  }

  lemma StepFaithful(s: State, a: Step)
    requires Faithful(s) && Possible(s, a)
    ensures Faithful(Apply(s, a))
  {
    JobsStep(s, a);
    DeadLetterStep(s, a);
    HashStep(s, a);
    ReplaysStep(s, a);
  }

  /** Where the job of `origin` is after a step, given a place that held it safely before. */
  function Moved(s: State, a: Step, c: Carrier): Carrier
    requires Possible(s, a)
  {
    if a.OnFailed? && c == AtQueue(a.key) && Parks(s, a) then InDeadLetter(a.deadLetterId)
    else if a.ReplayAdd? && c.InDeadLetter? && s.replays[a.replay].source == FromDeadLetter(c.id) then AtQueue(a.key)
    else c
  }

  /** Only adding an item back dooms its source. */
  lemma AboutToGoStep(s: State, a: Step, c: Carrier)
    requires Possible(s, a) && AboutToGo(Apply(s, a), c)
    ensures AboutToGo(s, c) || (a.ReplayAdd? && c.InDeadLetter? && s.replays[a.replay].source == FromDeadLetter(c.id))
  {
    hide DeadLetterAfter, HashAfter, JobsAfter;
    var source := FromDeadLetter(c.id);
    var r :| r in Apply(s, a).replays && Apply(s, a).replays[r].added && Apply(s, a).replays[r].source == source;
    if r in s.replays && s.replays[r].added && s.replays[r].source == source {
      assert AboutToGo(s, c);
    }
  }

  lemma NewPlaceIsSafe(s: State, a: Step, c: Carrier)
    requires ReplaysFaithful(s) && Possible(s, a)
    requires c.AtQueue? || c.id !in s.deadLetterIds
    ensures !AboutToGo(s, c) && !(a.ReplayAdd? && c.InDeadLetter? && s.replays[a.replay].source == FromDeadLetter(c.id))
  {
  }

  lemma QueueHoldsMoved(s: State, a: Step, origin: nat, key: JobKey)
    requires JobsFaithful(s) && Possible(s, a) && Live(Apply(s, a), origin) && Holds(s, AtQueue(key), origin)
    ensures Holds(Apply(s, a), Moved(s, a, AtQueue(key)), origin)
  {
    hide ReplaysAfter, HashAfter, JobsFaithful;
    JobIsFaithful(s, key);
  }

  /** Faithfulness of one job. */
  lemma JobIsFaithful(s: State, key: JobKey)
    requires JobsFaithful(s) && key in s.jobs
    ensures JobFaithful(s, key.0, s.jobs[key])
  {
  }

  lemma DeadLetterHoldsMoved(s: State, a: Step, origin: nat, id: nat)
    requires DeadLetterFaithful(s) && Possible(s, a) && Live(Apply(s, a), origin) && Holds(s, InDeadLetter(id), origin)
    requires a.ReplayRemove? || a.ReplayAdd? ==> s.replays[a.replay].source != FromDeadLetter(id)
    ensures Holds(Apply(s, a), InDeadLetter(id), origin)
  {
    hide HashAfter, ReplaysAfter, JobsAfter;
  }

  lemma SourceHoldsMoved(s: State, a: Step, origin: nat, id: nat)
    requires ReplaysFaithful(s) && Possible(s, a) && a.ReplayAdd? && s.replays[a.replay].source == FromDeadLetter(id)
    requires Holds(s, InDeadLetter(id), origin)
    ensures Holds(Apply(s, a), AtQueue(a.key), origin)
  {
    assert SourceMatches(s, s.replays[a.replay]);
  }

  /** A place that nothing is about to clear keeps its job, or the step moves the job on. */
  lemma HoldsMoved(s: State, a: Step, origin: nat, c: Carrier)
    requires Faithful(s) && Possible(s, a)
    requires Live(Apply(s, a), origin) && Holds(s, c, origin) && !AboutToGo(s, c)
    ensures Holds(Apply(s, a), Moved(s, a, c), origin)
  {
    hide Apply, Live, JobsFaithful, DeadLetterFaithful, HashFaithful, ReplaysFaithful;
    match c
    case AtQueue(key) => QueueHoldsMoved(s, a, origin, key);
    case InDeadLetter(id) =>
      if a.ReplayAdd? && s.replays[a.replay].source == FromDeadLetter(id) {
        SourceHoldsMoved(s, a, origin, id);
      } else {
        DeadLetterHoldsMoved(s, a, origin, id);
      }
  }

  lemma OldJobsConserved(s: State, a: Step, origin: nat, c: Carrier) returns (c': Carrier)
    requires Faithful(s) && Possible(s, a)
    requires Live(Apply(s, a), origin) && Holds(s, c, origin) && !AboutToGo(s, c)
    ensures Holds(Apply(s, a), c', origin) && !AboutToGo(Apply(s, a), c')
  {
    hide Holds, Apply, Live, AboutToGo, JobsFaithful, DeadLetterFaithful, HashFaithful, ReplaysFaithful;
    c' := Moved(s, a, c);
    HoldsMoved(s, a, origin, c);
    if c'.AtQueue? || c' != c {
      NewPlaceIsSafe(s, a, c');
    }
    if AboutToGo(Apply(s, a), c') {
      AboutToGoStep(s, a, c');
    }
  }

  /** Every step keeps every job, under crashes and overlapping replays. */
  lemma StepConserved(s: State, a: Step)
    requires Faithful(s) && Conserved(s) && Possible(s, a)
    ensures Conserved(Apply(s, a))
  {
    var next := Apply(s, a);
    forall origin | Live(next, origin) ensures exists c :: Holds(next, c, origin) && !AboutToGo(next, c) {
      if Live(s, origin) {
        var c :| Holds(s, c, origin) && !AboutToGo(s, c);
        var c' := OldJobsConserved(s, a, origin, c);
      } else {
        NewJobConserved(s, a, origin);
      }
    }
  }

  lemma NewJobConserved(s: State, a: Step, origin: nat)
    requires Possible(s, a) && Live(Apply(s, a), origin) && !Live(s, origin)
    ensures a.Enqueue? && Holds(Apply(s, a), AtQueue(a.key), origin) && !AboutToGo(Apply(s, a), AtQueue(a.key))
  {
    assert a.Enqueue?;
  }

  // ---------- Whole runs ----------

  /** `end` is reached from the empty system by `steps`. */
  ghost predicate Reaches(steps: seq<Step>, end: State)
    decreases |steps|
  {
    if steps == [] then end == EMPTY
    else
      var last := steps[|steps| - 1];
      exists s :: Reaches(steps[..|steps| - 1], s) && Possible(s, last) && end == Apply(s, last)
  }

  ghost predicate Held(s: State, origin: nat) {
    exists c :: Holds(s, c, origin)
  }

  lemma {:induction false} RunConserves(steps: seq<Step>, end: State)
    requires Reaches(steps, end)
    ensures Faithful(end) && Conserved(end)
    decreases |steps|
  {
    if steps == [] {
    } else {
      var last := steps[|steps| - 1];
      var s :| Reaches(steps[..|steps| - 1], s) && Possible(s, last) && end == Apply(s, last);
      RunConserves(steps[..|steps| - 1], s);
      StepFaithful(s, last);
      StepConserved(s, last);
    }
  }

  /** No job is lost: in every run, wherever workers and replays crash and however hash records
      are pushed, replaced and deleted, an uncompleted job is held by its own queue or the
      dead-letter queue, with the queue, name and data it was enqueued with. */
  lemma JobsNeverLost(steps: seq<Step>, end: State, origin: nat)
    requires Reaches(steps, end) && Live(end, origin)
    ensures Held(end, origin)
  {
    RunConserves(steps, end);
  }

  /** In every run the failure handler parks exactly the jobs that have failed for good; a job
      that will be tried again it leaves alone. */
  lemma FailedJobsParked(steps: seq<Step>, end: State, a: Step)
    requires Reaches(steps, end) && Possible(end, a) && a.OnFailed?
    ensures var job, next := end.jobs[a.key], Apply(end, a);
      && (job.status.Failed? ==>
            && next.deadLetter == end.deadLetter[a.deadLetterId := Parked(job.payload, job.origin)]
            && next.jobs == end.jobs[a.key := job.(status := Failed(true))])
      && (!job.status.Failed? ==> next == end)
  {
    RunConserves(steps, end);
    JobIsFaithful(end, a.key);
  }

  /** The step creates the queue record `key`. */
  predicate Creates(a: Step, key: JobKey) {
    (a.Enqueue? || a.ReplayAdd?) && a.key == key
  }

  function FailedAttempts(steps: seq<Step>, key: JobKey): nat {
    if steps == [] then 0
    else FailedAttempts(steps[..|steps| - 1], key) + if steps[|steps| - 1] == FailAttempt(key) then 1 else 0
  }

  /** Step `k` created the record that `key` stands for at the end of the run. */
  predicate CreatedAt(steps: seq<Step>, key: JobKey, k: nat) {
    k < |steps| && Creates(steps[k], key) && forall j :: k < j < |steps| ==> !Creates(steps[j], key)
  }

  /** In every run a queue record has the attempts its creation asked for, the payload it was
      enqueued with, and as many attempts made as have failed since. */
  lemma {:induction false} AttemptsKept(steps: seq<Step>, end: State, key: JobKey) returns (k: nat)
    requires Reaches(steps, end) && key in end.jobs
    ensures CreatedAt(steps, key, k)
    ensures end.jobs[key].attempts == steps[k].attempts
    ensures steps[k].Enqueue? ==> end.jobs[key].payload == steps[k].payload && end.jobs[key].origin == steps[k].origin
    ensures end.jobs[key].attemptsMade == FailedAttempts(steps[k + 1..], key)
    decreases |steps|
  {
    if steps == [] {
      assert false;
    } else {
      var rest, last := steps[..|steps| - 1], steps[|steps| - 1];
      var s := LastStep(steps, end);
      hide Reaches, Apply, Possible;
      RecordStep(s, last, key);
      if Creates(last, key) {
        k := |rest|;
      } else {
        k := AttemptsKept(rest, s, key);
        assert steps[k + 1..][..|steps[k + 1..]| - 1] == rest[k + 1..];
      }
    }
  }

  lemma LastStep(steps: seq<Step>, end: State) returns (s: State)
    requires Reaches(steps, end) && steps != []
    ensures Reaches(steps[..|steps| - 1], s)
    ensures Possible(s, steps[|steps| - 1]) && end == Apply(s, steps[|steps| - 1])
  {
    hide Apply, Possible;
    s :| Reaches(steps[..|steps| - 1], s) && Possible(s, steps[|steps| - 1]) && end == Apply(s, steps[|steps| - 1]);
  }

  /** What one step does to one queue record. */
  lemma RecordStep(s: State, a: Step, key: JobKey)
    requires Possible(s, a) && key in Apply(s, a).jobs
    ensures var job := Apply(s, a).jobs[key];
      && (Creates(a, key) ==> job.attempts == a.attempts && job.attemptsMade == 0)
      && (a.Enqueue? && a.key == key ==> job.payload == a.payload && job.origin == a.origin)
      && (!Creates(a, key) ==>
            && key in s.jobs && job.attempts == s.jobs[key].attempts
            && job.payload == s.jobs[key].payload && job.origin == s.jobs[key].origin
            && job.attemptsMade == s.jobs[key].attemptsMade + if a == FailAttempt(key) then 1 else 0)
  {
    hide DeadLetterAfter, HashAfter, ReplaysAfter;
  }

  predicate Ends(a: Step, key: JobKey) {
    a == Complete(key) || a == Evict(key)
  }

  /** A queue record exists from its creation until it is completed or evicted. */
  lemma RecordLife(s: State, a: Step, key: JobKey)
    requires Possible(s, a)
    ensures key in Apply(s, a).jobs <==> Creates(a, key) || (key in s.jobs && !Ends(a, key))
  {
    hide DeadLetterAfter, HashAfter, ReplaysAfter;
  }

  /** Its status follows starts, stalls, failures and the failure handler. */
  lemma StatusLife(s: State, a: Step, key: JobKey)
    requires JobsFaithful(s) && Possible(s, a) && key in Apply(s, a).jobs && !Creates(a, key)
    ensures key in s.jobs
    ensures var job, next := s.jobs[key], Apply(s, a).jobs[key];
      var needed := if job.attempts.Some? then job.attempts.value else 1;
      && (a == Start(key) ==> next.status == Active)
      && (a == Stall(key) ==> next.status == Waiting)
      && (a == FailAttempt(key) ==>
            next.status == if job.attemptsMade + 1 < needed then Delayed else Failed(false))
      && (a.OnFailed? && a.key == key ==>
            next.status == if job.status == Failed(false) then Failed(true) else job.status)
      && (a != Start(key) && a != Stall(key) && a != FailAttempt(key) && !(a.OnFailed? && a.key == key) ==>
            next.status == job.status)
  {
    hide DeadLetterAfter, HashAfter, ReplaysAfter;
    RecordLife(s, a, key);
    JobIsFaithful(s, key);
    hide JobsFaithful;
  }

  lemma CreationWaits(s: State, a: Step, key: JobKey)
    requires Possible(s, a) && Creates(a, key)
    ensures key in Apply(s, a).jobs && Apply(s, a).jobs[key].status == Waiting
  {
    hide DeadLetterAfter, HashAfter, ReplaysAfter;
  }

  /** A replay lasts from its reading to its removal or crash, and has added its item since it did. */
  lemma ReplayLife(s: State, a: Step, r: nat)
    requires Possible(s, a)
    ensures var next := Apply(s, a);
      && (r in next.replays <==>
            || ((a.ReplayRead? || a.RequeueRead?) && a.replay == r)
            || (r in s.replays && a != ReplayRemove(r) && a != ReplayCrash(r)))
      && (r in next.replays && r in s.replays ==>
            && next.replays[r].item == s.replays[r].item && next.replays[r].source == s.replays[r].source
            && next.replays[r].added == (s.replays[r].added || (a.ReplayAdd? && a.replay == r)))
  {
    hide DeadLetterAfter, HashAfter, JobsAfter;
  }

  /** Neither a completion nor an eviction has followed the last creation of `key`. */
  ghost predicate Standing(steps: seq<Step>, key: JobKey) {
    exists k :: 0 <= k < |steps| && CreatedAt(steps, key, k) && forall j :: k < j < |steps| ==> !Ends(steps[j], key)
  }

  lemma StandingStep(steps: seq<Step>, last: Step, key: JobKey)
    ensures Standing(steps + [last], key) <==> Creates(last, key) || (Standing(steps, key) && !Ends(last, key))
  {
    var more := steps + [last];
    hide Creates, Ends;
    if Creates(last, key) {
      assert CreatedAt(more, key, |steps|);
    } else if Standing(steps, key) && !Ends(last, key) {
      var k :| 0 <= k < |steps| && CreatedAt(steps, key, k) && forall j :: k < j < |steps| ==> !Ends(steps[j], key);
      assert CreatedAt(more, key, k);
    }
    if Standing(more, key) && !Creates(last, key) {
      var k :| 0 <= k < |more| && CreatedAt(more, key, k) && forall j :: k < j < |more| ==> !Ends(more[j], key);
      assert more[|steps|] == last && k < |steps|;
      assert forall j :: 0 <= j < |steps| ==> more[j] == steps[j];
      assert CreatedAt(steps, key, k);
    }
  }

  /** In every run a record exists exactly when neither a completion nor an eviction has followed its
      last creation. */
  lemma {:induction false} RecordExact(steps: seq<Step>, end: State, key: JobKey)
    requires Reaches(steps, end)
    ensures key in end.jobs <==> Standing(steps, key)
    decreases |steps|
  {
    if steps == [] {
    } else {
      var rest, last := steps[..|steps| - 1], steps[|steps| - 1];
      hide Reaches, Apply, Possible, Standing;
      var s := LastStep(steps, end);
      assert steps == rest + [last];
      RecordExact(rest, s, key);
      RecordLife(s, last, key);
      StandingStep(rest, last, key);
    }
  }

  /** So in every run a record is failed for good, and the failure handler parks it, exactly when at
      least as many attempts have failed since its creation as that asked for, one when it asked
      for none; a record that has failed fewer times is still to be tried. */
  lemma FailedAfterAttempts(steps: seq<Step>, end: State, key: JobKey) returns (k: nat)
    requires Reaches(steps, end) && key in end.jobs
    ensures CreatedAt(steps, key, k)
    ensures var asked, failed := steps[k].attempts, FailedAttempts(steps[k + 1..], key);
      var needed := if asked.Some? then asked.value else 1;
      && (failed > 0 ==> (end.jobs[key].status.Failed? <==> failed >= needed))
      && (failed == 0 && needed > 0 ==> !end.jobs[key].status.Failed?)
      && forall id :: Possible(end, OnFailed(key, id)) ==> (Parks(end, OnFailed(key, id)) <==> failed >= needed)
  {
    k := AttemptsKept(steps, end, key);
    RunConserves(steps, end);
    JobIsFaithful(end, key);
  }

  /** A replay that crashes between its two writes leaves the job in both places. */
  lemma CrashDuplicates(s: State, r: nat, id: nat, key: JobKey, attempts: Option<nat>)
    requires Faithful(s) && Possible(s, ReplayRead(r, id)) && key !in s.jobs && key.0 == s.deadLetter[id].payload.queue
    ensures var s1 := Apply(s, ReplayRead(r, id));
      Possible(s1, ReplayAdd(r, key, attempts)) &&
      var s2 := Apply(s1, ReplayAdd(r, key, attempts));
      Possible(s2, ReplayCrash(r)) &&
      var s3 := Apply(s2, ReplayCrash(r));
      Holds(s3, InDeadLetter(id), s.deadLetter[id].origin) && Holds(s3, AtQueue(key), s.deadLetter[id].origin)
  {
  }

  /** A job that can be brought back from the hash. */
  ghost predicate Retriable(s: State, origin: nat) {
    exists recordId :: recordId in s.hash && s.hash[recordId].origin == origin
  }

  /** Queues number their jobs independently, so record ids may be shared. Pushing a second job
      under the id of a first then ends retries of the first from the hash, unless it has another
      record; the first job itself stays held. */
  lemma SharedRecordDisplaces(steps: seq<Step>, s: State, recordId: string, key: JobKey, origin: nat)
    requires Reaches(steps, s) && Possible(s, PushToHash(recordId, key))
    requires recordId in s.hash && s.hash[recordId].origin == origin != s.jobs[key].origin
    ensures var next := Apply(s, PushToHash(recordId, key));
      && next.hash[recordId].origin == s.jobs[key].origin
      && (Retriable(next, origin) <==>
            exists other :: other != recordId && other in s.hash && s.hash[other].origin == origin)
      && (Live(s, origin) ==> Held(next, origin))
  {
    var next := Apply(s, PushToHash(recordId, key));
    RunConserves(steps, s);
    StepConserved(s, PushToHash(recordId, key));
    if Live(s, origin) {
      assert Live(next, origin);
    }
    assert next.hash == s.hash[recordId := next.hash[recordId]];
    if other :| other in next.hash && next.hash[other].origin == origin {
      assert other != recordId && other in s.hash;
    }
    if other :| other != recordId && other in s.hash && s.hash[other].origin == origin {
      assert next.hash[other].origin == origin;
    }
  }

  // ---------- The services ----------

  /** An undisturbed replay: add the item to its queue, then drop what was read. */
  function Replayed(s: State, item: Parked, id: nat, attempts: Option<nat>, source: Source): State {
    Cleared(s, source).(
      jobs := s.jobs[(item.payload.queue, id) := Job(item.payload, item.origin, 0, attempts, Waiting)])
  }

  function Cleared(s: State, source: Source): State {
    match source
    case FromDeadLetter(id) => s.(deadLetter := s.deadLetter - {id})
    case FromHash(recordId) => s.(hash := s.hash - {recordId})
  }

  lemma ReplaySteps(s: State, read: Step, item: Parked, id: nat, attempts: Option<nat>, r: nat)
    requires (read.ReplayRead? || read.RequeueRead?) && read.replay == r && Possible(s, read)
    requires item == (if read.ReplayRead? then s.deadLetter[read.id] else s.hash[read.recordId])
    requires (item.payload.queue, id) !in s.jobs
    ensures var source := if read.ReplayRead? then FromDeadLetter(read.id) else FromHash(read.recordId);
      var add := ReplayAdd(r, (item.payload.queue, id), attempts);
      var s1 := Apply(s, read);
      Possible(s1, add) && var s2 := Apply(s1, add);
      Possible(s2, ReplayRemove(r)) && Apply(s2, ReplayRemove(r)) == Replayed(s, item, id, attempts, source)
  {
    var source := if read.ReplayRead? then FromDeadLetter(read.id) else FromHash(read.recordId);
    assert s.replays[r := Replay(source, item, true)] - {r} == s.replays;
  }

  datatype ReplayOutcome = Requeued | RecordNotFound | UnknownQueue

  class QueueService {
    const registered: set<string>
    var state: State

    constructor (registered: set<string>)
      ensures this.registered == registered && state == EMPTY && Valid()
    {
      this.registered := registered;
      state := EMPTY;
    }

    ghost predicate Valid()
      reads this
    {
      Faithful(state) && Conserved(state)
    }

    /** One command. */
    method Do(a: Step)
      requires Valid() && Possible(state, a)
      modifies this
      ensures Valid() && state == Apply(old(state), a)
    {
      StepFaithful(state, a);
      StepConserved(state, a);
      state := Apply(state, a);
    }

    method EnqueueJob(payload: Payload, attempts: Option<nat>, id: nat, origin: nat) returns (ok: bool)
      requires Valid() && (payload.queue, id) !in state.jobs && origin !in state.enqueued
      modifies this
      ensures Valid() && ok == (payload.queue in registered)
      ensures !ok ==> state == old(state)
      ensures ok ==> state == old(state).(
        jobs := old(state).jobs[(payload.queue, id) := Job(payload, origin, 0, attempts, Waiting)],
        enqueued := old(state).enqueued[origin := payload])
    {
      if payload.queue !in registered {
        return false;
      }
      Do(Enqueue((payload.queue, id), payload, attempts, origin));
      return true;
    }

    /** The worker's failure handler: nothing for a missing job or one with attempts left. */
    method HandleFailed(key: JobKey, deadLetterId: nat) returns (parked: bool)
      requires Valid() && deadLetterId !in state.deadLetterIds && (key in state.jobs ==> Announced(state, key))
      modifies this
      ensures Valid() && parked == (key in old(state).jobs && old(state).jobs[key].status.Failed?)
      ensures !parked ==> state == old(state)
      ensures parked ==>
        && state.jobs == old(state).jobs[key := old(state).jobs[key].(status := Failed(true))]
        && state.deadLetter ==
             old(state).deadLetter[deadLetterId := Parked(old(state).jobs[key].payload, old(state).jobs[key].origin)]
        && state.hash == old(state).hash && state.completed == old(state).completed
    {
      if key !in state.jobs {
        return false;
      }
      JobIsFaithful(state, key);
      if state.jobs[key].attemptsMade >= state.jobs[key].MaxAttempts() {
        Do(OnFailed(key, deadLetterId));
        return true;
      }
      return false;
    }

    /** Copies a job's record into the hash, over whatever the id held before. */
    method PushToDLQ(recordId: string, key: JobKey)
      requires Valid() && key in state.jobs
      modifies this
      ensures Valid()
      ensures state == old(state).(
        hash := old(state).hash[recordId := Parked(old(state).jobs[key].payload, old(state).jobs[key].origin)])
    {
      Do(PushToHash(recordId, key));
    }

    /** Adds a dead-lettered job back to its queue and then drops it from the dead-letter queue;
        `id` and `attempts` are what the queue gives the new job, `r` names this call. */
    method ReplayDeadLetter(jobId: nat, id: nat, attempts: Option<nat>, r: nat) returns (outcome: ReplayOutcome)
      requires Valid() && r !in state.replays && forall q :: (q, id) !in state.jobs
      modifies this
      ensures Valid()
      ensures outcome == if jobId !in old(state).deadLetter then RecordNotFound
                         else if old(state).deadLetter[jobId].payload.queue !in registered then UnknownQueue
                         else Requeued
      ensures outcome != Requeued ==> state == old(state)
      ensures outcome == Requeued ==>
        var item := old(state).deadLetter[jobId];
        state == old(state).(
          jobs := old(state).jobs[(item.payload.queue, id) := Job(item.payload, item.origin, 0, attempts, Waiting)],
          deadLetter := old(state).deadLetter - {jobId})
    {
      if jobId !in state.deadLetter {
        return RecordNotFound;
      }
      var item := state.deadLetter[jobId];
      if item.payload.queue !in registered {
        return UnknownQueue;
      }
      ReplaySteps(state, ReplayRead(r, jobId), item, id, attempts, r);
      hide Apply, Possible, Faithful, Conserved;
      Do(ReplayRead(r, jobId));
      Do(ReplayAdd(r, (item.payload.queue, id), attempts));
      Do(ReplayRemove(r));
      return Requeued;
    }

    /** The same for the dead-letter hash, where a missing record or queue is reported as false. */
    method Requeue(recordId: string, id: nat, attempts: Option<nat>, r: nat) returns (ok: bool)
      requires Valid() && r !in state.replays && forall q :: (q, id) !in state.jobs
      modifies this
      ensures Valid()
      ensures ok <==> recordId in old(state).hash && old(state).hash[recordId].payload.queue in registered
      ensures !ok ==> state == old(state)
      ensures ok ==>
        var item := old(state).hash[recordId];
        state == old(state).(
          jobs := old(state).jobs[(item.payload.queue, id) := Job(item.payload, item.origin, 0, attempts, Waiting)],
          hash := old(state).hash - {recordId})
    {
      if recordId !in state.hash || state.hash[recordId].payload.queue !in registered {
        return false;
      }
      var item := state.hash[recordId];
      ReplaySteps(state, RequeueRead(r, recordId), item, id, attempts, r);
      hide Apply, Possible, Faithful, Conserved;
      Do(RequeueRead(r, recordId));
      Do(ReplayAdd(r, (item.payload.queue, id), attempts));
      Do(ReplayRemove(r));
      return true;
    }

    method DeleteJob(recordId: string) returns (removed: bool)
      requires Valid()
      modifies this
      ensures Valid() && removed == (recordId in old(state).hash)
      ensures state == old(state).(hash := old(state).hash - {recordId})
    {
      if recordId !in state.hash {
        assert state.hash - {recordId} == state.hash;
        return false;
      }
      Do(DeleteRecord(recordId));
      return true;
    }
  }
}
