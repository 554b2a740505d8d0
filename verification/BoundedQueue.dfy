/** A bounded queue between one sender and a fixed pool of workers: `BoundedExecutor` in
    ui/desktop/src/main.rs and the HTTP worker pool in ui/web/src/lib.rs.  Jobs do not panic. */
module BoundedQueue {
  import opened Sequences
  import opened Text

  /** A job is known by the number of the submission that brought it. */
  type Job = nat

  /** A worker wants the receiver's lock, holds it and waits for a job, runs one, or has returned. */
  datatype Worker = Idle | Receiving | Running(job: Job) | Exited

  datatype State = State(
    capacity: nat,
    workers: seq<Worker>,
    queue: seq<Job>,
    open: bool,
    submitted: nat,
    accepted: seq<Job>,
    rejected: set<Job>,
    dispatched: seq<Job>,
    done: seq<Job>)

  function Start(workerCount: nat, capacity: nat): State {
    State(capacity, seq(workerCount, _ => Idle), [], true, 0, [], {}, [], [])
  }

  // ---------- Steps ----------

  /** The worker that waits in `recv`. */
  function Receiver(workers: seq<Worker>): (w: nat)
    ensures w <= |workers|
    ensures w < |workers| ==> workers[w] == Receiving
    ensures w == |workers| ==> forall i :: 0 <= i < |workers| ==> workers[i] != Receiving
  {
    if workers == [] || workers[0] == Receiving then 0 else 1 + Receiver(workers[1..])
  }

  ghost predicate AllExited(workers: seq<Worker>) { forall w :: 0 <= w < |workers| ==> workers[w] == Exited }

  datatype Step = SubmitJob | DropSender | Lock(w: nat) | Receive(w: nat) | Disconnect(w: nat) | FinishJob(w: nat)

  predicate Enabled(s: State, step: Step) {
    match step
    case SubmitJob => s.open
    case DropSender => s.open
    case Lock(w) => w < |s.workers| && s.workers[w] == Idle && Receiver(s.workers) == |s.workers|
    case Receive(w) => w < |s.workers| && s.workers[w] == Receiving && s.queue != []
    case Disconnect(w) => w < |s.workers| && s.workers[w] == Receiving && s.queue == [] && !s.open
    case FinishJob(w) => w < |s.workers| && s.workers[w].Running?
  }

  /** `try_send`: a channel with room takes the job, a channel without a buffer hands it to a worker
      that already waits, and otherwise the job comes back. */
  function Submitted(s: State): State {
    var job, waiting := s.submitted, Receiver(s.workers);
    if |s.queue| < s.capacity then
      s.(submitted := job + 1, queue := s.queue + [job], accepted := s.accepted + [job])
    else if s.capacity == 0 && waiting < |s.workers| then
      s.(submitted := job + 1, workers := s.workers[waiting := Running(job)],
         accepted := s.accepted + [job], dispatched := s.dispatched + [job])
    else
      s.(submitted := job + 1, rejected := s.rejected + {job})
  }

  function Next(s: State, step: Step): State
    requires Enabled(s, step)
  {
    match step
    case SubmitJob => Submitted(s)
    case DropSender => s.(open := false)
    case Lock(w) => s.(workers := s.workers[w := Receiving])
    case Receive(w) =>
      s.(workers := s.workers[w := Running(s.queue[0])], queue := s.queue[1..],
         dispatched := s.dispatched + [s.queue[0]])
    case Disconnect(w) => s.(workers := s.workers[w := Exited])
    case FinishJob(w) => s.(workers := s.workers[w := Idle], done := s.done + [s.workers[w].job])
  }

  // ---------- The executor ----------

  class BoundedExecutor {
    const capacity: nat
    var workers: seq<Worker>
    var queue: seq<Job>
    var open: bool
    var submitted: nat
    ghost var accepted: seq<Job>
    ghost var rejected: set<Job>
    ghost var dispatched: seq<Job>
    ghost var done: seq<Job>

    ghost function Snapshot(): State
      reads this
    {
      State(capacity, workers, queue, open, submitted, accepted, rejected, dispatched, done)
    }

    constructor (workerCount: nat, capacity: nat)
      requires workerCount > 0
      ensures Snapshot() == Start(workerCount, capacity)
    {
      this.capacity := capacity;
      workers, queue, open, submitted := seq(workerCount, _ => Idle), [], true, 0;
      accepted, rejected, dispatched, done := [], {}, [], [];
    }

    /** The job that is given back, if it was not accepted. */
    method Submit() returns (refused: Option<Job>)
      requires open
      modifies this
      ensures Snapshot() == Next(old(Snapshot()), SubmitJob)
      ensures refused == if accepted == old(accepted) then Some(old(submitted)) else None
      ensures refused.None? <==>
        || old(|queue|) < capacity
        || (capacity == 0 && exists w :: 0 <= w < |old(workers)| && old(workers)[w] == Receiving)
    {
      var job := submitted;
      var waiting := Receiver(workers);
      submitted := job + 1;
      if |queue| < capacity {
        queue, accepted := queue + [job], accepted + [job];
        return None;
      }
      if capacity == 0 && waiting < |workers| {
        workers := workers[waiting := Running(job)];
        accepted, dispatched := accepted + [job], dispatched + [job];
        return None;
      }
      rejected := rejected + {job};
      return Some(job);
    }

    /** One turn of a worker's loop; it makes no progress while it must wait. */
    method Turn(w: nat) returns (ghost taken: Option<Step>)
      requires w < |workers|
      modifies this
      ensures taken.Some? ==> Enabled(old(Snapshot()), taken.value) && Snapshot() == Next(old(Snapshot()), taken.value)
      ensures taken.None? ==> Snapshot() == old(Snapshot()) && forall step :: OfWorker(step, w) ==>
        !Enabled(Snapshot(), step)
    {
      match workers[w] {
        case Idle =>
          if Receiver(workers) < |workers| {
            return None;
          }
          workers := workers[w := Receiving];
          return Some(Lock(w));
        case Receiving =>
          if queue != [] {
            var job := queue[0];
            workers, queue, dispatched := workers[w := Running(job)], queue[1..], dispatched + [job];
            return Some(Receive(w));
          }
          if !open {
            workers := workers[w := Exited];
            return Some(Disconnect(w));
          }
          return None;
        case Running(job) =>
          workers, done := workers[w := Idle], done + [job];
          return Some(FinishJob(w));
        case Exited =>
          return None;
      }
    }
  }

  predicate OfWorker(step: Step, w: nat) { !step.SubmitJob? && !step.DropSender? && step.w == w }

  // ---------- The invariant ----------

  function Held(worker: Worker): multiset<Job> { if worker.Running? then multiset{worker.job} else multiset{} }

  /** The jobs that are being run. */
  function InHands(workers: seq<Worker>): multiset<Job> {
    if workers == [] then multiset{} else Held(workers[0]) + InHands(workers[1..])
  }

  ghost predicate Ascending(jobs: seq<Job>) { forall i, j :: 0 <= i < j < |jobs| ==> jobs[i] < jobs[j] }

  ghost predicate OneReceiver(workers: seq<Worker>) {
    forall i, j :: 0 <= i < j < |workers| ==> !(workers[i] == Receiving && workers[j] == Receiving)
  }

  /** Every submission was either accepted, in the order of the submissions, or rejected. */
  ghost predicate Decided(submitted: nat, accepted: seq<Job>, rejected: set<Job>) {
    && Ascending(accepted)
    && (forall job: Job :: job < submitted <==> job in accepted || job in rejected)
    && (forall job: Job :: job in rejected ==> job !in accepted)
  }

  /** Jobs leave the queue in the order in which they were accepted. */
  ghost predicate InOrder(s: State) { s.accepted == s.dispatched + s.queue && |s.queue| <= s.capacity }

  /** What left the queue is being run or done. */
  ghost predicate Conserved(dispatched: seq<Job>, workers: seq<Worker>, done: seq<Job>) {
    multiset(dispatched) == InHands(workers) + multiset(done)
  }

  /** One worker waits at a time, and none leaves before the sender is gone and the queue is empty. */
  ghost predicate Orderly(s: State) {
    && OneReceiver(s.workers)
    && (forall w :: 0 <= w < |s.workers| && s.workers[w] == Exited ==> !s.open && s.queue == [])
  }

  ghost predicate Inv(s: State) {
    && Decided(s.submitted, s.accepted, s.rejected)
    && InOrder(s)
    && Conserved(s.dispatched, s.workers, s.done)
    && Orderly(s)
  }

  lemma Exchange<T>(first: multiset<T>, a: multiset<T>, b: multiset<T>, c: multiset<T>, d: multiset<T>)
    requires a + b == c + d
    ensures first + a + b == first + c + d
  {
    assert first + a + b == first + (a + b);
    assert first + c + d == first + (c + d);
  }

  lemma {:induction false} HandsChange(workers: seq<Worker>, w: nat, worker: Worker)
    requires w < |workers|
    ensures InHands(workers) + Held(worker) == InHands(workers[w := worker]) + Held(workers[w])
    decreases |workers|
  {
    var changed := workers[w := worker];
    if w == 0 {
      assert changed[1..] == workers[1..];
      var rest := InHands(workers[1..]);
      assert Held(workers[0]) + rest + Held(worker) == Held(worker) + rest + Held(workers[0]);
    } else {
      assert changed[1..] == workers[1..][w - 1 := worker];
      HandsChange(workers[1..], w - 1, worker);
      Exchange(Held(workers[0]), InHands(workers[1..]), Held(worker), InHands(changed[1..]), Held(workers[w]));
    }
  }

  lemma {:induction false} NothingInHands(workers: seq<Worker>)
    requires forall w :: 0 <= w < |workers| ==> !workers[w].Running?
    ensures InHands(workers) == multiset{}
    decreases |workers|
  {
    if workers != [] {
      NothingInHands(workers[1..]);
    }
  }

  lemma StartKeepsInv(workerCount: nat, capacity: nat)
    ensures Inv(Start(workerCount, capacity))
  {
    NothingInHands(Start(workerCount, capacity).workers);
  }

  lemma StartsJob(dispatched: seq<Job>, workers: seq<Worker>, done: seq<Job>, w: nat, job: Job)
    requires Conserved(dispatched, workers, done) && w < |workers| && !workers[w].Running?
    ensures Conserved(dispatched + [job], workers[w := Running(job)], done)
  {
    HandsChange(workers, w, Running(job));
    hide InHands;
    var before, after := InHands(workers), InHands(workers[w := Running(job)]);
    assert after == after + multiset{} == before + multiset{job};
    assert multiset(dispatched + [job]) == before + multiset(done) + multiset{job};
  }

  lemma FinishesJob(dispatched: seq<Job>, workers: seq<Worker>, done: seq<Job>, w: nat)
    requires Conserved(dispatched, workers, done) && w < |workers| && workers[w].Running?
    ensures Conserved(dispatched, workers[w := Idle], done + [workers[w].job])
  {
    HandsChange(workers, w, Idle);
    hide InHands;
    var before, after := InHands(workers), InHands(workers[w := Idle]);
    assert before == before + multiset{} == after + multiset{workers[w].job};
    assert multiset(done + [workers[w].job]) == multiset(done) + multiset{workers[w].job};
  }

  lemma StaysEmptyHanded(dispatched: seq<Job>, workers: seq<Worker>, done: seq<Job>, w: nat, worker: Worker)
    requires Conserved(dispatched, workers, done) && w < |workers| && !workers[w].Running? && !worker.Running?
    ensures Conserved(dispatched, workers[w := worker], done)
  {
    HandsChange(workers, w, worker);
    hide InHands;
    var before, after := InHands(workers), InHands(workers[w := worker]);
    assert before == before + multiset{} == after + multiset{} == after;
  }

  lemma SubmitDecides(s: State)
    requires Decided(s.submitted, s.accepted, s.rejected)
    ensures var t := Submitted(s); Decided(t.submitted, t.accepted, t.rejected)
  {
    var t := Submitted(s);
    assert forall i :: 0 <= i < |s.accepted| ==> s.accepted[i] in s.accepted;
    if t.rejected == s.rejected {
      assert forall job :: job in t.accepted <==> job in s.accepted || job == s.submitted;
    }
  }

  lemma SubmitKeepsInv(s: State)
    requires Inv(s) && s.open
    ensures Inv(Submitted(s))
  {
    var t, job, waiting := Submitted(s), s.submitted, Receiver(s.workers);
    SubmitDecides(s);
    hide Decided, Conserved;
    Associative(s.dispatched, s.queue, [job]);
    if |s.queue| >= s.capacity && s.capacity == 0 && waiting < |s.workers| {
      StartsJob(s.dispatched, s.workers, s.done, waiting, job);
      assert s.queue == [];
    }
  }

  lemma ReceiveKeepsInv(s: State, w: nat)
    requires Inv(s) && Enabled(s, Receive(w))
    ensures Inv(Next(s, Receive(w)))
  {
    hide Decided, Conserved;
    StartsJob(s.dispatched, s.workers, s.done, w, s.queue[0]);
    TakeDrop(s.queue, 1);
    assert s.queue[..1] == [s.queue[0]];
    Associative(s.dispatched, [s.queue[0]], s.queue[1..]);
  }

  lemma FinishKeepsInv(s: State, w: nat)
    requires Inv(s) && Enabled(s, FinishJob(w))
    ensures Inv(Next(s, FinishJob(w)))
  {
    hide Decided, Conserved;
    FinishesJob(s.dispatched, s.workers, s.done, w);
  }

  lemma LockKeepsInv(s: State, w: nat)
    requires Inv(s) && Enabled(s, Lock(w))
    ensures Inv(Next(s, Lock(w)))
  {
    hide Decided, Conserved;
    StaysEmptyHanded(s.dispatched, s.workers, s.done, w, Receiving);
  }

  lemma StepKeepsInv(s: State, step: Step)
    requires Inv(s) && Enabled(s, step)
    ensures Inv(Next(s, step))
  {
    match step
    case SubmitJob => SubmitKeepsInv(s);
    case DropSender =>
    case Lock(w) => LockKeepsInv(s, w);
    case Receive(w) => ReceiveKeepsInv(s, w);
    case Disconnect(w) =>
      hide Conserved;
      StaysEmptyHanded(s.dispatched, s.workers, s.done, w, Exited);
    case FinishJob(w) => FinishKeepsInv(s, w);
  }

  ghost predicate IsRun(s: State, steps: seq<Step>, t: State)
    decreases |steps|
  {
    if steps == [] then s == t else Enabled(s, steps[0]) && IsRun(Next(s, steps[0]), steps[1..], t)
  }

  lemma {:induction false} RunKeepsInv(s: State, steps: seq<Step>, t: State)
    requires Inv(s) && IsRun(s, steps, t)
    ensures Inv(t) && t.capacity == s.capacity && |t.workers| == |s.workers|
    decreases |steps|
  {
    hide Inv;
    if steps != [] {
      StepKeepsInv(s, steps[0]);
      RunKeepsInv(Next(s, steps[0]), steps[1..], t);
    }
  }

  // ---------- What every reachable state guarantees ----------

  lemma AscendingIsUnique(jobs: seq<Job>, job: Job)
    requires Ascending(jobs)
    ensures multiset(jobs)[job] == if job in jobs then 1 else 0
    decreases |jobs|
  {
    if jobs != [] {
      var n := |jobs| - 1;
      assert jobs == jobs[..n] + [jobs[n]];
      AscendingIsUnique(jobs[..n], job);
    }
  }

  lemma {:induction false} HandsAreFew(workers: seq<Worker>)
    ensures |InHands(workers)| <= |workers|
    decreases |workers|
  {
    if workers != [] {
      HandsAreFew(workers[1..]);
    }
  }

  /** In every reachable state each job that was submitted is in exactly one place, at most once:
      given back, waiting, being run, or done.  The waiting ones are at most the capacity, the running
      ones at most the workers, and jobs are started in the order in which they were accepted. */
  lemma EveryJobIsInOnePlace(workerCount: nat, capacity: nat, steps: seq<Step>, t: State, job: Job)
    requires IsRun(Start(workerCount, capacity), steps, t)
    ensures (if job in t.rejected then 1 else 0) + multiset(t.queue)[job] + InHands(t.workers)[job] +
      multiset(t.done)[job]
      == if job < t.submitted then 1 else 0
    ensures |t.queue| <= capacity && |InHands(t.workers)| <= workerCount
    ensures t.dispatched <= t.accepted
  {
    StartKeepsInv(workerCount, capacity);
    RunKeepsInv(Start(workerCount, capacity), steps, t);
    hide IsRun, InHands;
    AscendingIsUnique(t.accepted, job);
    assert multiset(t.accepted) == multiset(t.dispatched) + multiset(t.queue);
    HandsAreFew(t.workers);
  }

  /** The channel can take no job now: it is full, or it has no buffer and no worker waits. */
  predicate HasNoRoom(s: State) { |s.queue| == s.capacity && (s.capacity == 0 ==> Receiver(s.workers) == |s.workers|) }

  /** While the sender lives no worker has left, and a job is given back exactly for lack of room. */
  lemma NeverDisconnected(workerCount: nat, capacity: nat, steps: seq<Step>, t: State)
    requires IsRun(Start(workerCount, capacity), steps, t) && t.open
    ensures forall w :: 0 <= w < |t.workers| ==> t.workers[w] != Exited
    ensures t.submitted in Next(t, SubmitJob).rejected <==> HasNoRoom(t)
    ensures t.submitted in Next(t, SubmitJob).accepted <==> !HasNoRoom(t)
  {
    StartKeepsInv(workerCount, capacity);
    RunKeepsInv(Start(workerCount, capacity), steps, t);
  }

  lemma {:induction false} DecisionsLast(s: State, steps: seq<Step>, t: State)
    requires Inv(s) && IsRun(s, steps, t)
    ensures s.accepted <= t.accepted && s.rejected <= t.rejected && s.dispatched <= t.dispatched && s.done <= t.done
    decreases |steps|
  {
    hide Inv;
    if steps != [] {
      StepKeepsInv(s, steps[0]);
      DecisionsLast(Next(s, steps[0]), steps[1..], t);
    }
  }

  /** A job that was given back is never started, in any continuation. */
  lemma RejectedNeverRuns(s: State, steps: seq<Step>, t: State, job: Job)
    requires Inv(s) && job in s.rejected && IsRun(s, steps, t)
    ensures job !in t.accepted && job !in t.dispatched && job !in t.done && job !in InHands(t.workers)
  {
    RunKeepsInv(s, steps, t);
    DecisionsLast(s, steps, t);
    hide IsRun, InHands;
    assert job !in t.dispatched by {
      assert forall x :: x in t.dispatched ==> x in t.accepted;
    }
    assert job !in multiset(t.dispatched);
  }

  // ---------- Shutdown ----------

  function Weight(worker: Worker): nat {
    match worker case Exited => 0 case Receiving => 1 case Idle => 2 case Running(_) => 3
  }

  function WeightOf(workers: seq<Worker>): nat {
    if workers == [] then 0 else Weight(workers[0]) + WeightOf(workers[1..])
  }

  /** How many turns of workers are left once the sender is gone. */
  function Rank(s: State): nat { 3 * |s.queue| + WeightOf(s.workers) }

  lemma {:induction false} WeightChange(workers: seq<Worker>, w: nat, worker: Worker)
    requires w < |workers|
    ensures WeightOf(workers[w := worker]) + Weight(workers[w]) == WeightOf(workers) + Weight(worker)
    decreases |workers|
  {
    var changed := workers[w := worker];
    if w == 0 {
      assert changed[1..] == workers[1..];
    } else {
      assert changed[1..] == workers[1..][w - 1 := worker];
      WeightChange(workers[1..], w - 1, worker);
    }
  }

  lemma StepLowersRank(s: State, step: Step)
    requires Enabled(s, step) && !s.open
    ensures !Next(s, step).open && Rank(Next(s, step)) == Rank(s) - 1
  {
    hide WeightOf;
    WeightChange(s.workers, step.w, Next(s, step).workers[step.w]);
  }

  lemma {:induction false} WeightIsZero(workers: seq<Worker>)
    ensures WeightOf(workers) == 0 <==> AllExited(workers)
    decreases |workers|
  {
    if workers != [] {
      WeightIsZero(workers[1..]);
      assert AllExited(workers) <==> workers[0] == Exited && AllExited(workers[1..]) by {
        assert forall w :: 0 < w < |workers| ==> workers[w] == workers[1..][w - 1];
      }
    }
  }

  /** Once the sender is gone some worker can always go on until all have left. */
  lemma SomeStepEnabled(s: State) returns (step: Step)
    requires Inv(s) && !s.open && !AllExited(s.workers)
    ensures Enabled(s, step)
  {
    hide InHands, Ascending;
    var r := Receiver(s.workers);
    if r < |s.workers| {
      step := if s.queue != [] then Receive(r) else Disconnect(r);
    } else {
      var w :| 0 <= w < |s.workers| && s.workers[w] != Exited;
      step := if s.workers[w] == Idle then Lock(w) else FinishJob(w);
    }
  }

  /** Every schedule drains the queue: it ends after exactly as many turns as the rank says, and then
      all workers have left and every accepted job has been run. */
  lemma {:induction false} EveryShutdownDrains(s: State, steps: seq<Step>, t: State)
    requires Inv(s) && |s.workers| > 0 && !s.open && IsRun(s, steps, t)
    ensures |steps| + Rank(t) == Rank(s)
    ensures AllExited(t.workers) <==> |steps| == Rank(s)
    ensures AllExited(t.workers) ==> t.queue == [] && multiset(t.done) == multiset(s.accepted)
    ensures !AllExited(t.workers) ==> exists step :: Enabled(t, step)
  {
    RanksFall(s, steps, t);
    RunKeepsInv(s, steps, t);
    WeightIsZero(t.workers);
    AcceptedIsFixed(s, steps, t);
    hide IsRun, InHands, WeightOf, Ascending;
    if AllExited(t.workers) {
      assert t.workers[0] == Exited;
      NothingInHands(t.workers);
      assert t.dispatched + [] == t.dispatched;
    } else {
      var step := SomeStepEnabled(t);
    }
  }

  lemma {:induction false} RanksFall(s: State, steps: seq<Step>, t: State)
    requires !s.open && IsRun(s, steps, t)
    ensures !t.open && |steps| + Rank(t) == Rank(s)
    decreases |steps|
  {
    hide Rank;
    if steps != [] {
      StepLowersRank(s, steps[0]);
      RanksFall(Next(s, steps[0]), steps[1..], t);
    }
  }

  lemma {:induction false} AcceptedIsFixed(s: State, steps: seq<Step>, t: State)
    requires !s.open && IsRun(s, steps, t)
    ensures t.accepted == s.accepted
    decreases |steps|
  {
    if steps != [] {
      AcceptedIsFixed(Next(s, steps[0]), steps[1..], t);
    }
  }
}
