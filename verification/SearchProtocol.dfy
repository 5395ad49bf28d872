/** The producer and the workers around the work queue (search_file_worker and the enqueue in
    search_dir, search.c; thread start, done_adding_files and join, main.c), as a state machine:
    one step per mutex or condition-variable operation and per access inside a critical section,
    in any order the lock allows, with spurious wake-ups. */
module SearchProtocol {

  type Path = string

  /** Where a worker is. */
  datatype Worker =
    | Idle                     // about to lock the mutex
    | Checking                 // holds the mutex, at the test of work_queue
    | Waiting                  // inside pthread_cond_wait, not woken
    | Woken                    // woken, about to take the mutex again
    | Holding(path: Path)      // has taken an item, still holds the mutex
    | Searching(path: Path)    // in search_file
    | Exited

  /** Where the producer is. */
  datatype Producer =
    | Walking                  // between two enqueues; about to lock, or to finish
    | Locked                   // holds the mutex for an enqueue
    | Appended                 // has appended, not yet signalled
    | Signalled                // has signalled, not yet unlocked
    | Finishing                // holds the mutex to end the walk
    | Announced                // done_adding_files is set, broadcast still to come
    | Broadcast                // has broadcast, not yet unlocked
    | Joining                  // in pthread_join

  datatype Owner = Nobody | TheProducer | TheWorker(w: nat)

  /** `files` is what the walk will find, `added` how many have been enqueued, `log` who took what in which order. */
  datatype State = State(files: seq<Path>, added: nat, queue: seq<Path>, done: bool, lock: Owner,
                         producer: Producer, workers: seq<Worker>, log: seq<(nat, Path)>)

  predicate Init(s: State) {
    && s.added == 0 && s.queue == [] && !s.done && s.lock == Nobody && s.producer == Walking && s.log == []
    && |s.workers| > 0 && forall w | 0 <= w < |s.workers| :: s.workers[w] == Idle
  }

  // ----- the steps of the producer -----

  predicate Lock(s: State, t: State) {
    s.producer == Walking && s.added < |s.files| && s.lock == Nobody && t == s.(lock := TheProducer, producer := Locked)
  }

  predicate Append(s: State, t: State) {
    s.producer == Locked && s.added < |s.files|
    && t == s.(queue := s.queue + [s.files[s.added]], added := s.added + 1, producer := Appended)
  }

  /** pthread_cond_signal wakes at least one waiter, if there is one. */
  ghost predicate Signal(s: State, t: State) {
    && s.producer == Appended && t == s.(producer := Signalled, workers := t.workers)
    && |t.workers| == |s.workers|
    && (forall w | 0 <= w < |s.workers| ::
          t.workers[w] == s.workers[w] || (s.workers[w] == Waiting && t.workers[w] == Woken))
    && (SomeWaits(s) ==> exists w :: Wakes(s, t, w))
  }

  ghost predicate SomeWaits(s: State) { exists w :: 0 <= w < |s.workers| && s.workers[w] == Waiting }

  predicate Wakes(s: State, t: State, w: int) {
    0 <= w < |s.workers| && |t.workers| == |s.workers| && s.workers[w] == Waiting && t.workers[w] == Woken
  }

  predicate Unlock(s: State, t: State) {
    s.producer == Signalled && t == s.(lock := Nobody, producer := Walking)
  }

  predicate Finish(s: State, t: State) {
    s.producer == Walking && s.added == |s.files| && s.lock == Nobody && t == s.(lock := TheProducer, producer := Finishing)
  }

  predicate Announce(s: State, t: State) {
    s.producer == Finishing && t == s.(done := true, producer := Announced)
  }

  function WakeAll(workers: seq<Worker>): (r: seq<Worker>)
    ensures |r| == |workers|
    ensures forall w | 0 <= w < |workers| :: r[w] == if workers[w] == Waiting then Woken else workers[w]
  {
    seq(|workers|, w requires 0 <= w < |workers| => if workers[w] == Waiting then Woken else workers[w])
  }

  predicate WakeEverybody(s: State, t: State) {
    s.producer == Announced && t == s.(producer := Broadcast, workers := WakeAll(s.workers))
  }

  predicate Join(s: State, t: State) {
    s.producer == Broadcast && t == s.(lock := Nobody, producer := Joining)
  }

  ghost predicate ProducerStep(s: State, t: State) {
    || Lock(s, t) || Append(s, t) || Signal(s, t) || Unlock(s, t)
    || Finish(s, t) || Announce(s, t) || WakeEverybody(s, t) || Join(s, t)
  }

  // ----- the steps of worker w -----

  predicate Moves(s: State, t: State, w: nat, to: Worker, lock: Owner) {
    w < |s.workers| && t == s.(workers := s.workers[w := to], lock := lock)
  }

  predicate TakeLock(s: State, t: State, w: nat) {
    w < |s.workers| && (s.workers[w] == Idle || s.workers[w] == Woken) && s.lock == Nobody
    && Moves(s, t, w, Checking, TheWorker(w))
  }

  predicate Wait(s: State, t: State, w: nat) {
    w < |s.workers| && s.workers[w] == Checking && s.queue == [] && !s.done && Moves(s, t, w, Waiting, Nobody)
  }

  predicate Wake(s: State, t: State, w: nat) {
    w < |s.workers| && s.workers[w] == Waiting && Moves(s, t, w, Woken, s.lock)
  }

  predicate Exit(s: State, t: State, w: nat) {
    w < |s.workers| && s.workers[w] == Checking && s.queue == [] && s.done && Moves(s, t, w, Exited, Nobody)
  }

  predicate Take(s: State, t: State, w: nat) {
    w < |s.workers| && s.workers[w] == Checking && s.queue != []
    && t == s.(workers := s.workers[w := Holding(s.queue[0])], queue := s.queue[1..], log := s.log + [(w, s.queue[0])])
  }

  predicate Release(s: State, t: State, w: nat) {
    w < |s.workers| && s.workers[w].Holding? && Moves(s, t, w, Searching(s.workers[w].path), Nobody)
  }

  predicate Return(s: State, t: State, w: nat) {
    w < |s.workers| && s.workers[w].Searching? && Moves(s, t, w, Idle, s.lock)
  }

  ghost predicate WorkerStep(s: State, t: State, w: nat) {
    || TakeLock(s, t, w) || Wait(s, t, w) || Wake(s, t, w) || Exit(s, t, w)
    || Take(s, t, w) || Release(s, t, w) || Return(s, t, w)
  }

  ghost predicate Next(s: State, t: State) { ProducerStep(s, t) || exists w: nat :: WorkerStep(s, t, w) }

  // ----- the invariant -----

  predicate HoldsLock(x: Worker) { x == Checking || x.Holding? }

  predicate ProducerHoldsLock(p: Producer) { p != Walking && p != Joining }

  predicate Active(x: Worker) { x != Waiting && x != Exited }

  ghost predicate SomeActive(s: State) { exists w :: 0 <= w < |s.workers| && Active(s.workers[w]) }

  function Paths(log: seq<(nat, Path)>): (r: seq<Path>)
    ensures |r| == |log| && forall i | 0 <= i < |log| :: r[i] == log[i].1
  {
    seq(|log|, i requires 0 <= i < |log| => log[i].1)
  }

  /** The mutex has one owner, and only the owner is inside a critical section. */
  ghost predicate Exclusive(s: State) {
    && (ProducerHoldsLock(s.producer) <==> s.lock == TheProducer)
    && (forall w | 0 <= w < |s.workers| :: HoldsLock(s.workers[w]) <==> s.lock == TheWorker(w))
    && (s.lock.TheWorker? ==> s.lock.w < |s.workers|)
  }

  /** What has been taken, in this order, and then what is queued, is what has been added. */
  ghost predicate Conserved(s: State) {
    s.added <= |s.files| && Paths(s.log) + s.queue == s.files[..s.added]
  }

  /** The flag is set last, and workers leave only behind it, with the queue empty. */
  ghost predicate DoneLast(s: State) {
    && (s.done <==> s.producer == Announced || s.producer == Broadcast || s.producer == Joining)
    && (s.done || s.producer == Finishing ==> s.added == |s.files|)
    && ((exists w :: 0 <= w < |s.workers| && s.workers[w] == Exited) ==> s.done && s.queue == [])
    && (s.producer == Locked ==> s.added < |s.files|)
  }

  /** No wake-up is lost. */
  ghost predicate NoneForgotten(s: State) {
    && (s.queue != [] && s.producer != Appended ==> SomeActive(s))
    && (s.producer == Broadcast || s.producer == Joining ==> !SomeWaits(s))
  }

  ghost predicate Inv(s: State) {
    |s.workers| > 0 && Exclusive(s) && Conserved(s) && DoneLast(s) && NoneForgotten(s)
  }

  lemma InitInv(s: State)
    requires Init(s)
    ensures Inv(s)
  {
    assert Paths(s.log) + s.queue == s.files[..0];
  }

  lemma StillActive(s: State, t: State, w: nat)
    requires |s.workers| == |t.workers| && SomeActive(s)
    requires forall v | 0 <= v < |s.workers| && v != w && Active(s.workers[v]) :: Active(t.workers[v])
    requires w < |t.workers| ==> Active(t.workers[w])
    ensures SomeActive(t)
  {
    var v :| 0 <= v < |s.workers| && Active(s.workers[v]);
    assert Active(t.workers[v]);
  }

  lemma ProducerKeepsInv(s: State, t: State)
    requires Inv(s) && ProducerStep(s, t)
    ensures Inv(t)
  {
    if Append(s, t) {
      AppendConserves(s, t);
    } else if Signal(s, t) {
      SignalKeepsInv(s, t);
    } else if SomeActive(s) {
      StillActive(s, t, |s.workers|);
    }
  }

  lemma AppendConserves(s: State, t: State)
    requires Conserved(s) && Append(s, t)
    ensures Conserved(t)
  {
    assert s.files[..t.added] == s.files[..s.added] + [s.files[s.added]];
  }

  lemma SignalKeepsInv(s: State, t: State)
    requires Inv(s) && Signal(s, t)
    ensures Inv(t)
  {
    if SomeWaits(s) {
      var w :| Wakes(s, t, w);
      assert Active(t.workers[w]);
    } else {
      assert s.workers[0] != Exited;
      assert Active(t.workers[0]);
    }
  }

  lemma TakeKeepsInv(s: State, t: State, w: nat)
    requires Inv(s) && Take(s, t, w)
    ensures Inv(t)
  {
    assert Paths(t.log) == Paths(s.log) + [s.queue[0]];
    assert Paths(t.log) + t.queue == Paths(s.log) + s.queue;
    assert Active(t.workers[w]);
  }

  lemma WorkerKeepsInv(s: State, t: State, w: nat)
    requires Inv(s) && WorkerStep(s, t, w)
    ensures Inv(t)
  {
    if Take(s, t, w) {
      TakeKeepsInv(s, t, w);
    } else {
      assert Conserved(t);
      if s.queue != [] && s.producer != Appended {
        StillActive(s, t, w);
      }
    }
  }

  lemma NextKeepsInv(s: State, t: State)
    requires Inv(s) && Next(s, t)
    ensures Inv(t)
  {
    if ProducerStep(s, t) {
      ProducerKeepsInv(s, t);
    } else {
      var w: nat :| WorkerStep(s, t, w);
      WorkerKeepsInv(s, t, w);
    }
  }

  // ----- whole runs -----

  ghost predicate Run(states: seq<State>) {
    states != [] && Init(states[0]) && forall i | 0 <= i < |states| - 1 :: Next(states[i], states[i + 1])
  }

  lemma RunSteps(states: seq<State>, i: nat)
    requires Run(states) && i + 1 < |states|
    ensures Next(states[i], states[i + 1])
  {
  }

  lemma RunStarts(states: seq<State>)
    requires Run(states)
    ensures states != [] && Init(states[0])
  {
  }

  lemma NextKeepsFiles(s: State, t: State)
    requires Next(s, t)
    ensures t.files == s.files && |t.workers| == |s.workers| && s.log <= t.log
  {
  }

  lemma {:induction false} RunKeepsInv(states: seq<State>, i: nat)
    requires Run(states) && i < |states|
    ensures Inv(states[i]) && states[i].files == states[0].files && |states[i].workers| == |states[0].workers|
    decreases i
  {
    hide *;
    RunStarts(states);
    if i == 0 {
      InitInv(states[0]);
    } else {
      RunKeepsInv(states, i - 1);
      RunSteps(states, i - 1);
      NextKeepsInv(states[i - 1], states[i]);
      NextKeepsFiles(states[i - 1], states[i]);
    }
  }

  /** In every interleaving: paths are taken in the order in which they were enqueued, each by one worker. */
  lemma TakenInOrder(states: seq<State>, i: nat)
    requires Run(states) && i < |states|
    ensures var s := states[i];
      && |s.log| <= |s.files| && Paths(s.log) == s.files[..|s.log|]
      && |s.log| + |s.queue| == s.added
  {
    RunKeepsInv(states, i);
    var s := states[i];
    assert |Paths(s.log) + s.queue| == s.added;
    assert Paths(s.log) == (Paths(s.log) + s.queue)[..|s.log|] == s.files[..s.added][..|s.log|] == s.files[..|s.log|];
  }

  /** The log only grows: what a worker has taken stays taken. */
  lemma {:induction false} LogGrows(states: seq<State>, i: nat, j: nat)
    requires Run(states) && i <= j < |states|
    ensures states[i].log <= states[j].log
    decreases j - i
  {
    hide *;
    if i < j {
      LogGrows(states, i, j - 1);
      RunSteps(states, j - 1);
      NextKeepsFiles(states[j - 1], states[j]);
    }
  }

  /** A non-empty queue leaves some worker neither waiting nor gone, except between an append and its signal. */
  lemma NoLostWakeup(states: seq<State>, i: nat)
    requires Run(states) && i < |states| && states[i].queue != [] && states[i].producer != Appended
    ensures SomeActive(states[i])
  {
    RunKeepsInv(states, i);
  }

  // ----- progress -----

  /** Everything is over. */
  ghost predicate AllExited(s: State) { s.producer == Joining && forall w | 0 <= w < |s.workers| :: s.workers[w] == Exited }

  /** Some step other than a spurious wake-up is possible. */
  ghost predicate CanMove(s: State) {
    (exists t :: ProducerStep(s, t)) || exists w: nat, t :: WorkerStep(s, t, w) && !Wake(s, t, w)
  }

  lemma WorkerCanMove(s: State, w: nat)
    requires Inv(s) && w < |s.workers| && s.workers[w] != Exited && s.workers[w] != Waiting
    requires HoldsLock(s.workers[w]) || s.lock == Nobody || s.workers[w].Searching?
    ensures CanMove(s)
  {
    var x := s.workers[w];
    var t :=
      if x == Checking && s.queue != [] then
        s.(workers := s.workers[w := Holding(s.queue[0])], queue := s.queue[1..], log := s.log + [(w, s.queue[0])])
      else if x == Checking then s.(workers := s.workers[w := if s.done then Exited else Waiting], lock := Nobody)
      else if x.Holding? then s.(workers := s.workers[w := Searching(x.path)], lock := Nobody)
      else if x.Searching? then s.(workers := s.workers[w := Idle])
      else s.(workers := s.workers[w := Checking], lock := TheWorker(w));
    assert WorkerStep(s, t, w) && !Wake(s, t, w);
  }

  lemma ProducerCanMove(s: State)
    requires Inv(s) && s.producer != Joining && (s.lock == TheProducer || s.lock == Nobody)
    ensures CanMove(s)
  {
    var t := match s.producer
      case Walking => s.(lock := TheProducer, producer := if s.added < |s.files| then Locked else Finishing)
      case Locked => s.(queue := s.queue + [s.files[s.added]], added := s.added + 1, producer := Appended)
      case Appended => s.(producer := Signalled, workers := WakeAll(s.workers))
      case Signalled => s.(lock := Nobody, producer := Walking)
      case Finishing => s.(done := true, producer := Announced)
      case Announced => s.(producer := Broadcast, workers := WakeAll(s.workers))
      case _ => s.(lock := Nobody, producer := Joining);
    if s.producer == Appended && SomeWaits(s) {
      var w :| 0 <= w < |s.workers| && s.workers[w] == Waiting;
      assert Wakes(s, t, w);
    }
    assert ProducerStep(s, t);
  }

  /** There is no deadlock: until everything is over, some thread can move. */
  lemma NeverStuck(states: seq<State>, i: nat)
    requires Run(states) && i < |states| && !AllExited(states[i])
    ensures CanMove(states[i])
  {
    RunKeepsInv(states, i);
    var s := states[i];
    if s.lock.TheWorker? {
      WorkerCanMove(s, s.lock.w);
    } else if s.producer != Joining {
      ProducerCanMove(s);
    } else {
      var w :| 0 <= w < |s.workers| && s.workers[w] != Exited;
      WorkerCanMove(s, w);
    }
  }

  function Rank(x: Worker): nat {
    match x
    case Holding(_) => 4
    case Searching(_) => 3
    case Idle => 2
    case Woken => 2
    case Waiting => 2
    case Checking => 1
    case Exited => 0
  }

  function Ranks(workers: seq<Worker>): nat {
    if workers == [] then 0 else Ranks(workers[..|workers| - 1]) + Rank(workers[|workers| - 1])
  }

  lemma {:induction false} RankOfOne(workers: seq<Worker>, w: nat, x: Worker)
    requires w < |workers|
    ensures Ranks(workers[w := x]) == Ranks(workers) - Rank(workers[w]) + Rank(x)
    decreases |workers|
  {
    var n := |workers| - 1;
    if w < n {
      RankOfOne(workers[..n], w, x);
      assert workers[w := x][..n] == workers[..n][w := x];
    } else {
      assert workers[w := x][..n] == workers[..n];
    }
  }

  /** What is left to do once the producer is in pthread_join. */
  function Left(s: State): nat { 4 * |s.queue| + Ranks(s.workers) }

  lemma WorkerComesNearer(s: State, t: State, w: nat)
    requires WorkerStep(s, t, w) && !Wait(s, t, w) && !Wake(s, t, w)
    ensures Left(t) < Left(s)
  {
    RankOfOne(s.workers, w, t.workers[w]);
  }

  /** Once the producer joins, every step brings the end nearer, and nothing can be added or wait any more. */
  lemma JoiningComesNearer(s: State, t: State)
    requires Inv(s) && s.producer == Joining && Next(s, t)
    ensures Inv(t) && t.producer == Joining && Left(t) < Left(s)
  {
    NextKeepsInv(s, t);
    hide Left, Conserved;
    var w: nat :| WorkerStep(s, t, w);
    assert !SomeWaits(s);
    WorkerComesNearer(s, t, w);
  }

  lemma {:induction false} JoiningRunsOut(states: seq<State>, i: nat, j: nat)
    requires Run(states) && i <= j < |states| && states[i].producer == Joining
    ensures states[j].producer == Joining && Inv(states[j]) && Left(states[j]) + (j - i) <= Left(states[i])
    decreases j - i
  {
    hide *;
    RunKeepsInv(states, i);
    if i < j {
      JoiningRunsOut(states, i, j - 1);
      RunSteps(states, j - 1);
      JoiningComesNearer(states[j - 1], states[j]);
    }
  }

  /** At most Left steps remain in any run. */
  lemma JoinTerminates(states: seq<State>, i: nat)
    requires Run(states) && i < |states| && states[i].producer == Joining
    ensures |states| - 1 - i <= Left(states[i])
  {
    JoiningRunsOut(states, i, |states| - 1);
  }

  /** At the end every file of the walk has been searched, exactly once and in order. */
  lemma EndedWithAll(states: seq<State>, i: nat)
    requires Run(states) && i < |states| && AllExited(states[i])
    ensures states[i].queue == [] && Paths(states[i].log) == states[0].files
  {
    RunKeepsInv(states, i);
    var s := states[i];
    assert s.workers[0] == Exited;
    assert Paths(s.log) + s.queue == Paths(s.log) && s.files[..s.added] == s.files;
  }
}
