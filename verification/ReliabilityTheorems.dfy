/**
 What holds over every run of the reliability spine, whatever crashes, redelivers,
 throws or races.
 */
module ReliabilityTheorems {
  import opened Wrappers
  import opened ReliabilitySpine
  import opened ReliabilitySteps

  lemma StepKeepsInvariant(cfg: Config, s: State, a: Action)
    requires Invariant(cfg, s) && Enabled(cfg, s, a) && cfg.outboxAttempts > 0
    ensures Invariant(cfg, Do(cfg, s, a))
  {
    hide ClaimsHold, DeliveriesSafe, JobsRouted, WorkersOk, EffectsExact, AttemptsBounded, Do, Enabled;
    KeepsClaims(cfg, s, a);
    KeepsDeliveries(cfg, s, a);
    KeepsJobs(cfg, s, a);
    KeepsWorkers(cfg, s, a);
    KeepsEffects(cfg, s, a);
    KeepsAttempts(cfg, s, a);
  }

  lemma {:induction false} RunKeepsInvariant(cfg: Config, s: State, actions: seq<Action>, t: State)
    requires Invariant(cfg, s) && Runs(cfg, s, actions, t) && cfg.outboxAttempts > 0
    ensures Invariant(cfg, t)
    decreases |actions|
  {
    hide Invariant, Do, Enabled;
    if actions != [] {
      StepKeepsInvariant(cfg, s, actions[0]);
      RunKeepsInvariant(cfg, Do(cfg, s, actions[0]), actions[1..], t);
    }
  }

  lemma EmptyInvariant(cfg: Config)
    ensures Invariant(cfg, EMPTY)
  {
  }

  /**
   Exactly-once effects: in every reachable state the transactions committed for
   an event at its consumer number one if its key is claimed and none otherwise,
   and what they wrote is each of the event's handlers, once, in order.
   */
  lemma EffectsExactlyOnce(cfg: Config, actions: seq<Action>, t: State, key: Key)
    requires Runs(cfg, EMPTY, actions, t) && cfg.outboxAttempts > 0 && Routed(cfg, t, key)
    ensures t.commits[key] == if key in t.keys then 1 else 0
    ensures EffectsOf(t, key) == if key in t.keys then HandlersFor(cfg, t, key) else []
  {
    EmptyInvariant(cfg);
    RunKeepsInvariant(cfg, EMPTY, actions, t);
  }

  /** Once written, the effects of an event never change again. */
  lemma {:induction false} EffectsFrozen(cfg: Config, s: State, actions: seq<Action>, t: State, key: Key)
    requires Invariant(cfg, s) && Runs(cfg, s, actions, t) && cfg.outboxAttempts > 0 && key in s.keys
    ensures key in t.keys && EffectsOf(t, key) == EffectsOf(s, key)
    decreases |actions|
  {
    if actions != [] {
      var m := Do(cfg, s, actions[0]);
      StepFreezes(cfg, s, actions[0], key);
      StepKeepsInvariant(cfg, s, actions[0]);
      EffectsFrozen(cfg, m, actions[1..], t, key);
    }
  }

  lemma StepFreezes(cfg: Config, s: State, a: Action, key: Key)
    requires WorkersOk(cfg, s) && Enabled(cfg, s, a) && key in s.keys
    ensures key in Do(cfg, s, a).keys && EffectsOf(Do(cfg, s, a), key) == EffectsOf(s, key)
  {
    hide Do, Enabled, WorkersOk;
    OutcomesAfter(cfg, s, a);
    if a.CommitWork? {
      WorkerWasOk(cfg, s, a.w);
    }
  }

  /**
   Nothing is lost: every row ever written is still pending, was parked after
   its full quota of failed publishes, or is dispatched with its job still held
   (waiting, active or failed) or its work committed.
   */
  lemma NothingLost(cfg: Config, actions: seq<Action>, t: State, id: EventId)
    requires Runs(cfg, EMPTY, actions, t) && cfg.outboxAttempts > 0 && id in t.rows
    ensures match t.rows[id].status
            case Pending => t.rows[id].attempts < cfg.outboxAttempts
            case Parked => t.rows[id].attempts >= cfg.outboxAttempts
            case Dispatched =>
              var key := KeyOf(cfg, t, id);
              key in t.keys || (key in t.jobs && t.jobs[key].state in {Waiting, Active, Failed})
  {
    EmptyInvariant(cfg);
    RunKeepsInvariant(cfg, EMPTY, actions, t);
    assert RowOk(cfg, t.rows[id]);
  }

  // ----- Dead letters -----

  /** Only a failed job can have used up its attempts, and only such a job is copied to the dead-letter queue. */
  ghost predicate DeadLettersFinal(cfg: Config, s: State) {
    && (forall key :: key in s.jobs && s.jobs[key].state != Failed ==> s.jobs[key].attemptsMade < cfg.queueAttempts)
    && (forall key :: key in s.deadLetters ==> key in s.jobs && s.jobs[key].attemptsMade >= cfg.queueAttempts)
  }

  lemma StepKeepsDeadLetters(cfg: Config, s: State, a: Action)
    requires DeadLettersFinal(cfg, s) && Enabled(cfg, s, a) && cfg.queueAttempts > 0
    ensures DeadLettersFinal(cfg, Do(cfg, s, a))
  {
    hide Do, Enabled, Routed;
    JobsStay(cfg, s, a);
    JobSteps(cfg, s, a);
    LettersAfter(cfg, s, a);
    var t := Do(cfg, s, a);
    forall key | key in t.jobs && t.jobs[key].state != Failed
      ensures t.jobs[key].attemptsMade < cfg.queueAttempts
    {
      assert JobStep(cfg, s, a, t, key);
    }
    forall key | key in t.deadLetters
      ensures key in t.jobs && t.jobs[key].attemptsMade >= cfg.queueAttempts
    {
      assert key in s.jobs && s.jobs[key].state == Failed;
    }
  }

  lemma {:induction false} RunKeepsDeadLetters(cfg: Config, s: State, actions: seq<Action>, t: State)
    requires DeadLettersFinal(cfg, s) && Runs(cfg, s, actions, t) && cfg.queueAttempts > 0
    ensures DeadLettersFinal(cfg, t)
    decreases |actions|
  {
    hide DeadLettersFinal, Do, Enabled;
    if actions != [] {
      StepKeepsDeadLetters(cfg, s, actions[0]);
      RunKeepsDeadLetters(cfg, Do(cfg, s, actions[0]), actions[1..], t);
    }
  }

  /** Whatever is in the dead-letter queue is still held by its own queue, failed, with every attempt spent. */
  lemma DeadLetteredIsFailed(cfg: Config, actions: seq<Action>, t: State, key: Key)
    requires Runs(cfg, EMPTY, actions, t) && cfg.queueAttempts > 0 && key in t.deadLetters
    ensures key in t.jobs && t.jobs[key].state == Failed && t.jobs[key].attemptsMade >= cfg.queueAttempts
  {
    RunKeepsDeadLetters(cfg, EMPTY, actions, t);
  }

  /** A throw counts one attempt more, and leaves the job waiting for the next exactly while some remain. */
  lemma ThrowLeavesWaiting(cfg: Config, s: State, w: nat)
    requires Enabled(cfg, s, FailJob(w)) && s.workers[w].key in s.jobs && s.jobs[s.workers[w].key].state == Active
    ensures var key, t := s.workers[w].key, Do(cfg, s, FailJob(w));
            && key in t.jobs && t.jobs[key].attemptsMade == s.jobs[key].attemptsMade + 1
            && (t.jobs[key].state == Waiting <==> t.jobs[key].attemptsMade < cfg.queueAttempts)
            && (t.jobs[key].state == Failed <==> t.jobs[key].attemptsMade >= cfg.queueAttempts)
  {
  }

  /** No job has been attempted too often, and one that failed early was given up by the queue for stalling. */
  ghost predicate FailuresAccounted(cfg: Config, s: State, stalled: set<Key>) {
    forall key :: key in s.jobs ==>
      && s.jobs[key].attemptsMade <= cfg.queueAttempts
      && (s.jobs[key].state != Failed ==> s.jobs[key].attemptsMade < cfg.queueAttempts)
      && (s.jobs[key].state == Failed && s.jobs[key].attemptsMade < cfg.queueAttempts ==> key in stalled)
  }

  /** The jobs the queue gave up for stalling in a run. */
  ghost function GivenUp(actions: seq<Action>): set<Key> {
    set a | a in actions && a.Stall? && a.exhausted :: a.key
  }

  lemma StepAccounts(cfg: Config, s: State, a: Action, stalled: set<Key>)
    requires FailuresAccounted(cfg, s, stalled) && Enabled(cfg, s, a) && cfg.queueAttempts > 0
    ensures FailuresAccounted(cfg, Do(cfg, s, a), stalled + GivenUp([a]))
  {
    hide Do, Enabled, Routed;
    JobSteps(cfg, s, a);
    var t := Do(cfg, s, a);
    forall key | key in t.jobs
      ensures t.jobs[key].attemptsMade <= cfg.queueAttempts
      ensures t.jobs[key].state != Failed ==> t.jobs[key].attemptsMade < cfg.queueAttempts
      ensures t.jobs[key].state == Failed && t.jobs[key].attemptsMade < cfg.queueAttempts ==>
                key in stalled + GivenUp([a])
    {
      assert JobStep(cfg, s, a, t, key);
      assert a in [a];
    }
  }

  lemma {:induction false} RunAccounts(cfg: Config, s: State, actions: seq<Action>, t: State, stalled: set<Key>)
    requires FailuresAccounted(cfg, s, stalled) && Runs(cfg, s, actions, t) && cfg.queueAttempts > 0
    ensures FailuresAccounted(cfg, t, stalled + GivenUp(actions))
    decreases |actions|
  {
    hide FailuresAccounted, Do, Enabled;
    if actions == [] {
      assert stalled + GivenUp(actions) == stalled;
    } else {
      StepAccounts(cfg, s, actions[0], stalled);
      RunAccounts(cfg, Do(cfg, s, actions[0]), actions[1..], t, stalled + GivenUp([actions[0]]));
      assert forall a :: a in actions <==> a in [actions[0]] || a in actions[1..];
      assert stalled + GivenUp([actions[0]]) + GivenUp(actions[1..]) == stalled + GivenUp(actions);
    }
  }

  /**
   In every run a job has failed exactly when it has used the attempts its queue gives it, to the number, or the queue
   gave it up for stalling.
   */
  lemma FailedExactly(cfg: Config, actions: seq<Action>, t: State, key: Key)
    requires Runs(cfg, EMPTY, actions, t) && cfg.queueAttempts > 0 && key in t.jobs
    ensures t.jobs[key].attemptsMade <= cfg.queueAttempts
    ensures t.jobs[key].attemptsMade == cfg.queueAttempts ==> t.jobs[key].state == Failed
    ensures t.jobs[key].state == Failed ==>
              t.jobs[key].attemptsMade == cfg.queueAttempts || Stall(key, true) in actions
  {
    RunAccounts(cfg, EMPTY, actions, t, {});
  }

  /**
   In every reachable state a job can be dead-lettered exactly when it is held and has used all its attempts, and then
   a letter is there that tells them and its event.
   */
  lemma DeadLetteredExactly(cfg: Config, actions: seq<Action>, s: State, key: Key)
    requires Runs(cfg, EMPTY, actions, s) && cfg.queueAttempts > 0
    ensures Enabled(cfg, s, DeadLetter(key)) <==> key in s.jobs && s.jobs[key].attemptsMade == cfg.queueAttempts
    ensures Enabled(cfg, s, DeadLetter(key)) ==>
              var t := Do(cfg, s, DeadLetter(key));
              && s.jobs[key].state == Failed
              && key in t.deadLetters && t.jobs == s.jobs
              && (key !in s.deadLetters ==> t.deadLetters[key] == Letter(cfg.queueAttempts, key.event, None))
  {
    RunAccounts(cfg, EMPTY, actions, s, {});
  }

  ghost predicate AllRegistered(cfg: Config, s: State) {
    forall key :: key in s.jobs ==> key.queue in cfg.registered
  }

  lemma {:induction false} RunRegisters(cfg: Config, s: State, actions: seq<Action>, t: State)
    requires AllRegistered(cfg, s) && Runs(cfg, s, actions, t)
    ensures AllRegistered(cfg, t)
    decreases |actions|
  {
    hide AllRegistered, Do, Enabled;
    if actions != [] {
      StepRegisters(cfg, s, actions[0]);
      RunRegisters(cfg, Do(cfg, s, actions[0]), actions[1..], t);
    }
  }

  /** No step adds a job to a queue that is not registered. */
  lemma StepRegisters(cfg: Config, s: State, a: Action)
    requires AllRegistered(cfg, s) && Enabled(cfg, s, a)
    ensures AllRegistered(cfg, Do(cfg, s, a))
  {
    hide Locked, ClaimInFlight, DistinctIds, HandlersFor, EffectsOf, MarkDispatched, MarkFailed, Left, AfterFailure;
  }

  /** In every reachable state a job is at a registered queue, the one its event's kind is routed to. */
  lemma JobsAtHome(cfg: Config, actions: seq<Action>, s: State, key: Key)
    requires Runs(cfg, EMPTY, actions, s) && cfg.outboxAttempts > 0 && key in s.jobs
    ensures key.queue in cfg.registered && key.event in s.rows && key.queue == cfg.home(s.rows[key.event].kind)
  {
    RunRegisters(cfg, EMPTY, actions, s);
    EmptyInvariant(cfg);
    RunKeepsInvariant(cfg, EMPTY, actions, s);
    InvariantParts(cfg, s);
  }

  /** Every process may die at any time, all of them together too, and nothing but the processes is gone. */
  lemma {:induction false} AllMayCrash(cfg: Config, s: State) returns (actions: seq<Action>)
    ensures Runs(cfg, s, actions, s.(workers := map[], dispatchers := map[]))
    decreases |s.workers|
  {
    hide Enabled, Do, Runs;
    if s.workers.Keys == {} {
      actions := DispatchersMayCrash(cfg, s);
      assert s.workers == map[];
    } else {
      var w :| w in s.workers.Keys;
      WorkerMayCrash(cfg, s, w);
      var rest := AllMayCrash(cfg, s.(workers := s.workers - {w}));
      actions := [CrashWorker(w)] + rest;
      RunsFirst(cfg, s, CrashWorker(w), rest, s.(workers := map[], dispatchers := map[]));
    }
  }

  lemma {:induction false} DispatchersMayCrash(cfg: Config, s: State) returns (actions: seq<Action>)
    ensures Runs(cfg, s, actions, s.(dispatchers := map[]))
    decreases |s.dispatchers|
  {
    hide Enabled, Do, Runs;
    if s.dispatchers.Keys == {} {
      actions := [];
      RunsNowhere(cfg, s);
      assert s.dispatchers == map[];
    } else {
      var d :| d in s.dispatchers.Keys;
      DispatcherMayCrash(cfg, s, d);
      var rest := DispatchersMayCrash(cfg, s.(dispatchers := s.dispatchers - {d}));
      actions := [CrashDispatcher(d)] + rest;
      RunsFirst(cfg, s, CrashDispatcher(d), rest, s.(dispatchers := map[]));
    }
  }

  lemma RunsFirst(cfg: Config, s: State, a: Action, rest: seq<Action>, end: State)
    requires Enabled(cfg, s, a) && Runs(cfg, Do(cfg, s, a), rest, end)
    ensures Runs(cfg, s, [a] + rest, end)
  {
    hide Enabled, Do;
    assert ([a] + rest)[1..] == rest;
  }

  lemma RunsNowhere(cfg: Config, s: State)
    ensures Runs(cfg, s, [], s)
  {
  }

  lemma WorkerMayCrash(cfg: Config, s: State, w: nat)
    requires w in s.workers
    ensures Enabled(cfg, s, CrashWorker(w)) && Do(cfg, s, CrashWorker(w)) == s.(workers := s.workers - {w})
    ensures |s.workers - {w}| < |s.workers|
  {
    assert (s.workers - {w}).Keys == s.workers.Keys - {w};
    assert |(s.workers - {w}).Keys| < |s.workers.Keys|;
  }

  lemma DispatcherMayCrash(cfg: Config, s: State, d: nat)
    requires d in s.dispatchers
    ensures Enabled(cfg, s, CrashDispatcher(d))
    ensures Do(cfg, s, CrashDispatcher(d)) == s.(dispatchers := s.dispatchers - {d})
    ensures |s.dispatchers - {d}| < |s.dispatchers|
  {
    assert (s.dispatchers - {d}).Keys == s.dispatchers.Keys - {d};
    assert |(s.dispatchers - {d}).Keys| < |s.dispatchers.Keys|;
  }

  // ----- Nothing is stuck either -----

  lemma {:induction false} Unused(used: set<nat>) returns (n: nat)
    ensures forall u :: u in used ==> u < n
  {
    if used == {} {
      n := 0;
    } else {
      var u :| u in used;
      var m := Unused(used - {u});
      assert forall x :: x in used ==> x == u || x in used - {u};
      n := if u < m then m else u + 1;
    }
  }

  /** `key`'s consumer can commit its work in some continuation from `s`. */
  ghost predicate CanCommit(cfg: Config, s: State, key: Key) {
    exists actions, t :: Runs(cfg, s, actions, t) && key in t.keys
  }

  lemma CommitLater(cfg: Config, s: State, a: Action, key: Key)
    requires Enabled(cfg, s, a) && CanCommit(cfg, Do(cfg, s, a), key)
    ensures CanCommit(cfg, s, key)
  {
    var actions, t :| Runs(cfg, Do(cfg, s, a), actions, t) && key in t.keys;
    assert ([a] + actions)[1..] == actions;
    assert Runs(cfg, s, [a] + actions, t);
  }

  lemma CommittedAlready(cfg: Config, s: State, key: Key)
    requires key in s.keys
    ensures CanCommit(cfg, s, key)
  {
    assert Runs(cfg, s, [], s);
  }

  /** A worker that holds the claim can run its remaining handlers and commit. */
  lemma {:induction false} FinishHandlers(cfg: Config, s: State, w: nat, key: Key)
    requires w in s.workers && Holds(s.workers[w], key) && key.event in s.rows
    requires |s.workers[w].ran| <= |HandlersFor(cfg, s, key)|
    ensures CanCommit(cfg, s, key)
    decreases |HandlersFor(cfg, s, key)| - |s.workers[w].ran|
  {
    if |s.workers[w].ran| < |HandlersFor(cfg, s, key)| {
      var t := Do(cfg, s, RunHandler(w));
      FinishHandlers(cfg, t, w, key);
      CommitLater(cfg, s, RunHandler(w), key);
    } else {
      CommittedAlready(cfg, Do(cfg, s, CommitWork(w)), key);
      CommitLater(cfg, s, CommitWork(w), key);
    }
  }

  /** A waiting job can be taken by a fresh worker; a rival holding the claim can itself finish. */
  lemma FromWaiting(cfg: Config, s: State, key: Key)
    requires WorkersOk(cfg, s) && Routed(cfg, s, key)
    requires key in s.jobs && s.jobs[key].state == Waiting
    ensures CanCommit(cfg, s, key)
  {
    if key in s.keys {
      CommittedAlready(cfg, s, key);
    } else if ClaimInFlight(s, key) {
      var w :| w in s.workers && s.workers[w].Open? && s.workers[w].key == key && s.workers[w].holdsClaim;
      assert WorkerOk(cfg, s, s.workers[w]);
      FinishHandlers(cfg, s, w, key);
    } else {
      var w := Unused(s.workers.Keys);
      var taken := Do(cfg, s, Take(w, key));
      assert !ClaimInFlight(taken, key);
      var claimed := Do(cfg, taken, ClaimKey(w));
      FinishHandlers(cfg, claimed, w, key);
      CommitLater(cfg, taken, ClaimKey(w), key);
      CommitLater(cfg, s, Take(w, key), key);
    }
  }

  lemma FromHeld(cfg: Config, s: State, key: Key)
    requires JobsRouted(cfg, s) && WorkersOk(cfg, s) && Routed(cfg, s, key)
    requires key in s.jobs && s.jobs[key].state != Failed
    ensures CanCommit(cfg, s, key)
  {
    match s.jobs[key].state
    case Completed => CommittedAlready(cfg, s, key);
    case Waiting => FromWaiting(cfg, s, key);
    case Active =>
      var a := Stall(key, false);
      var t := Do(cfg, s, a);
      KeepsWorkers(cfg, s, a);
      FromWaiting(cfg, t, key);
      CommitLater(cfg, s, a, key);
  }

  lemma OneClaimed(cfg: Config, s: State, d: nat, id: EventId)
    requires d !in s.dispatchers && cfg.batchSize > 0
    requires id in s.rows && s.rows[id].status == Pending && !Locked(s, id)
    ensures Enabled(cfg, s, ClaimBatch(d, [id]))
  {
    hide Locked;
  }

  lemma InvariantParts(cfg: Config, s: State)
    requires Invariant(cfg, s)
    ensures JobsRouted(cfg, s) && WorkersOk(cfg, s)
  {
    hide JobsRouted, WorkersOk;
  }

  /** A pending row nobody has locked can be claimed and published by a fresh dispatcher. */
  lemma FromUnlocked(cfg: Config, s: State, id: EventId)
    requires Invariant(cfg, s) && cfg.batchSize > 0 && cfg.outboxAttempts > 0
    requires id in s.rows && s.rows[id].status == Pending && !Locked(s, id)
    requires KeyOf(cfg, s, id).queue in cfg.registered && KeyOf(cfg, s, id) !in s.jobs
    ensures CanCommit(cfg, s, KeyOf(cfg, s, id))
  {
    hide Do, Enabled, Invariant, CanCommit;
    var key := KeyOf(cfg, s, id);
    var d := Unused(s.dispatchers.Keys);
    var claim := ClaimBatch(d, [id]);
    OneClaimed(cfg, s, d, id);
    ClaimTaken(cfg, s, d, [id]);
    var t := Do(cfg, s, claim);
    StepKeepsInvariant(cfg, s, claim);
    assert NextEvent(t, d) == id;
    PublishGoes(cfg, t, d);
    StepKeepsInvariant(cfg, t, PublishOk(d));
    InvariantParts(cfg, Do(cfg, t, PublishOk(d)));
    FromHeld(cfg, Do(cfg, t, PublishOk(d)), key);
    CommitLater(cfg, t, PublishOk(d), key);
    CommitLater(cfg, s, claim, key);
  }

  lemma FromPending(cfg: Config, s: State, id: EventId)
    requires Invariant(cfg, s) && cfg.batchSize > 0 && cfg.outboxAttempts > 0
    requires id in s.rows && s.rows[id].status == Pending
    requires KeyOf(cfg, s, id).queue in cfg.registered && KeyOf(cfg, s, id) !in s.jobs
    ensures CanCommit(cfg, s, KeyOf(cfg, s, id))
  {
    if Locked(s, id) {
      var d :| d in s.dispatchers && s.dispatchers[d].Publishing? && id in s.dispatchers[d].claimed;
      var a := CrashDispatcher(d);
      var t := Do(cfg, s, a);
      StepKeepsInvariant(cfg, s, a);
      forall e | e in t.dispatchers && t.dispatchers[e].Publishing?
        ensures id !in t.dispatchers[e].claimed
      {
        assert Disjoint(s.dispatchers[d], s.dispatchers[e]);
      }
      FromUnlocked(cfg, t, id);
      CommitLater(cfg, s, a, KeyOf(cfg, s, id));
    } else {
      FromUnlocked(cfg, s, id);
    }
  }

  /** A worker already inside its transaction can go on, or the rival it waits for can. */
  lemma FromOpen(cfg: Config, s: State, key: Key, w: nat)
    requires WorkersOk(cfg, s) && w in s.workers && s.workers[w].Open? && s.workers[w].key == key
    ensures CanCommit(cfg, s, key)
  {
    assert WorkerOk(cfg, s, s.workers[w]);
    if key in s.keys {
      CommittedAlready(cfg, s, key);
    } else if ClaimInFlight(s, key) {
      var v :| v in s.workers && s.workers[v].Open? && s.workers[v].key == key && s.workers[v].holdsClaim;
      assert WorkerOk(cfg, s, s.workers[v]);
      FinishHandlers(cfg, s, v, key);
    } else {
      FinishHandlers(cfg, Do(cfg, s, ClaimKey(w)), w, key);
      CommitLater(cfg, s, ClaimKey(w), key);
    }
  }

  /** The job is out of attempts, its work is uncommitted and nobody is still working on it. */
  ghost predicate Exhausted(s: State, key: Key) {
    && key !in s.keys
    && key in s.jobs && s.jobs[key].state == Failed
    && forall w :: w in s.workers ==> !(s.workers[w].Open? && s.workers[w].key == key)
  }

  lemma ExhaustedStays(cfg: Config, s: State, a: Action, key: Key)
    requires Exhausted(s, key) && Enabled(cfg, s, a)
    ensures Exhausted(Do(cfg, s, a), key)
  {
    hide Do, Enabled;
    OutcomesAfter(cfg, s, a);
    JobsStay(cfg, s, a);
    OpenedByTaking(cfg, s, a);
  }

  lemma {:induction false} ExhaustedThrough(cfg: Config, s: State, actions: seq<Action>, t: State, key: Key)
    requires Exhausted(s, key) && LettersBare(s) && Runs(cfg, s, actions, t)
    ensures Exhausted(t, key) && LettersBare(t)
    decreases |actions|
  {
    hide Do, Enabled, Exhausted, LettersBare;
    if actions != [] {
      ExhaustedStays(cfg, s, actions[0], key);
      StepKeepsLettersBare(cfg, s, actions[0]);
      ExhaustedThrough(cfg, Do(cfg, s, actions[0]), actions[1..], t, key);
    }
  }

  /** Once exhausted, always so, whatever is requeued, replayed or dropped: and no replay is ever there to be taken. */
  lemma ExhaustedForGood(cfg: Config, history: seq<Action>, s: State, actions: seq<Action>, t: State, key: Key)
    requires Runs(cfg, EMPTY, history, s) && Exhausted(s, key) && Runs(cfg, s, actions, t)
    ensures Exhausted(t, key) && t.replays == map[]
  {
    RunKeepsLettersBare(cfg, EMPTY, history, s);
    ExhaustedThrough(cfg, s, actions, t, key);
  }

  /**
   No reachable state strands an event, short of one: its work can still be
   committed unless its job sits in the failed list with nobody working on it,
   and then it never will be. Parked rows get there by being requeued.
   */
  lemma StuckOnlyWhenExhausted(cfg: Config, history: seq<Action>, s: State, id: EventId)
    requires Runs(cfg, EMPTY, history, s) && cfg.batchSize > 0 && cfg.outboxAttempts > 0
    requires id in s.rows && KeyOf(cfg, s, id).queue in cfg.registered
    ensures CanCommit(cfg, s, KeyOf(cfg, s, id)) <==> !Exhausted(s, KeyOf(cfg, s, id))
  {
    EmptyInvariant(cfg);
    RunKeepsInvariant(cfg, EMPTY, history, s);
    var key := KeyOf(cfg, s, id);
    if Exhausted(s, key) {
      forall actions, t | Runs(cfg, s, actions, t)
        ensures key !in t.keys
      {
        ExhaustedForGood(cfg, history, s, actions, t, key);
      }
    } else {
      hide Invariant, Runs;
      CanCommitUnlessExhausted(cfg, s, id);
    }
  }

  lemma CanCommitUnlessExhausted(cfg: Config, s: State, id: EventId)
    requires Invariant(cfg, s) && cfg.batchSize > 0 && cfg.outboxAttempts > 0
    requires id in s.rows && KeyOf(cfg, s, id).queue in cfg.registered
    requires !Exhausted(s, KeyOf(cfg, s, id))
    ensures CanCommit(cfg, s, KeyOf(cfg, s, id))
  {
    hide Do, Enabled, Runs, CanCommit;
    var key := KeyOf(cfg, s, id);
    if key in s.keys {
      CommittedAlready(cfg, s, key);
    } else if key in s.jobs && s.jobs[key].state == Failed {
      var w :| w in s.workers && s.workers[w].Open? && s.workers[w].key == key;
      FromOpen(cfg, s, key, w);
    } else if key in s.jobs {
      FromHeld(cfg, s, key);
    } else if s.rows[id].status == Pending {
      FromPending(cfg, s, id);
    } else {
      FromParked(cfg, s, id);
    }
  }

  lemma FromParked(cfg: Config, s: State, id: EventId)
    requires Invariant(cfg, s) && cfg.batchSize > 0 && cfg.outboxAttempts > 0
    requires id in s.rows && s.rows[id].status == Parked
    requires KeyOf(cfg, s, id).queue in cfg.registered && KeyOf(cfg, s, id) !in s.jobs
    ensures CanCommit(cfg, s, KeyOf(cfg, s, id))
  {
    StepKeepsInvariant(cfg, s, Requeue(id));
    FromPending(cfg, Do(cfg, s, Requeue(id)), id);
    CommitLater(cfg, s, Requeue(id), KeyOf(cfg, s, id));
  }

  // ----- Exhausted events, and what replaying their letters does -----

  /** Some continuation from `s` leaves `key`'s job out of attempts and its work uncommitted. */
  ghost predicate CanExhaust(cfg: Config, s: State, key: Key) {
    exists actions, t :: Runs(cfg, s, actions, t) && Exhausted(t, key)
  }

  lemma ExhaustLater(cfg: Config, s: State, a: Action, key: Key)
    requires Enabled(cfg, s, a) && CanExhaust(cfg, Do(cfg, s, a), key)
    ensures CanExhaust(cfg, s, key)
  {
    hide Do, Enabled, Exhausted;
    var actions, t :| Runs(cfg, Do(cfg, s, a), actions, t) && Exhausted(t, key);
    assert ([a] + actions)[1..] == actions;
    assert Runs(cfg, s, [a] + actions, t);
  }

  /** A handler that keeps throwing uses up every attempt. */
  lemma {:induction false} FailingExhausts(cfg: Config, s: State, key: Key)
    requires key in s.jobs && s.jobs[key].state == Waiting && s.jobs[key].attemptsMade < cfg.queueAttempts
    requires key !in s.keys && s.workers == map[]
    ensures CanExhaust(cfg, s, key)
    decreases cfg.queueAttempts - s.jobs[key].attemptsMade
  {
    hide Do, Enabled, CanExhaust;
    var taken := s.(jobs := s.jobs[key := s.jobs[key].(state := Active)], workers := map[0 := Open(key, false, [])]);
    var thrown := taken.(workers := map[0 := Broken(key)]);
    var failed := thrown.(jobs := thrown.jobs[key := AfterFailure(cfg, taken.jobs[key])], workers := map[]);
    TakenJob(cfg, s, key);
    FailedJob(cfg, taken, thrown, failed, key);
    if failed.jobs[key].state == Failed {
      ExhaustedAlready(cfg, failed, key);
    } else {
      FailingExhausts(cfg, failed, key);
    }
    ExhaustLater(cfg, thrown, FailJob(0), key);
    ExhaustLater(cfg, taken, Throw(0), key);
    ExhaustLater(cfg, s, Take(0, key), key);
  }

  lemma TakenJob(cfg: Config, s: State, key: Key)
    requires key in s.jobs && s.jobs[key].state == Waiting && s.workers == map[]
    ensures Enabled(cfg, s, Take(0, key))
    ensures Do(cfg, s, Take(0, key)) ==
              s.(jobs := s.jobs[key := s.jobs[key].(state := Active)], workers := map[0 := Open(key, false, [])])
  {
  }

  /** The worker throws, and the job fails. */
  lemma FailedJob(cfg: Config, taken: State, thrown: State, failed: State, key: Key)
    requires taken.workers == map[0 := Open(key, false, [])] && key in taken.jobs && taken.jobs[key].state == Active
    requires thrown == taken.(workers := map[0 := Broken(key)])
    requires failed == thrown.(jobs := thrown.jobs[key := AfterFailure(cfg, taken.jobs[key])], workers := map[])
    ensures Enabled(cfg, taken, Throw(0)) && Do(cfg, taken, Throw(0)) == thrown
    ensures Enabled(cfg, thrown, FailJob(0)) && Do(cfg, thrown, FailJob(0)) == failed
  {
    hide AfterFailure;
    assert taken.workers[0 := Broken(key)] == thrown.workers && thrown.workers - {0} == map[];
  }

  lemma ExhaustedAlready(cfg: Config, s: State, key: Key)
    requires Exhausted(s, key)
    ensures CanExhaust(cfg, s, key)
  {
    hide Do, Enabled, Exhausted;
    assert Runs(cfg, s, [], s);
  }

  /** Under every configuration that routes the event, a run leads from nothing to it being exhausted. */
  lemma ExhaustedIsReached(cfg: Config, kind: Kind)
    requires cfg.batchSize > 0 && cfg.queueAttempts > 0 && cfg.home(kind) in cfg.registered
    ensures CanExhaust(cfg, EMPTY, Key(cfg.home(kind), 0))
  {
    hide Do, Enabled, CanExhaust;
    var key := Key(cfg.home(kind), 0);
    FirstSteps(cfg, kind);
    LaterSteps(cfg, kind);
    FailingExhausts(cfg, EventDispatched(cfg, kind), key);
    ExhaustLater(cfg, EventPublished(cfg, kind), CommitBatch(0), key);
    ExhaustLater(cfg, EventClaimed(kind), PublishOk(0), key);
    ExhaustLater(cfg, EventWritten(kind), ClaimBatch(0, [0]), key);
    ExhaustLater(cfg, EMPTY, Enqueue(0, kind), key);
  }

  // One event on its way: written, claimed, published, and marked dispatched.

  ghost function EventWritten(kind: Kind): State {
    EMPTY.(rows := map[0 := Row(kind, Pending, 0)])
  }

  ghost function EventClaimed(kind: Kind): State {
    EventWritten(kind).(dispatchers := map[0 := Publishing([0], 0, [], [])])
  }

  ghost function EventPublished(cfg: Config, kind: Kind): State {
    EventWritten(kind).(dispatchers := map[0 := Publishing([0], 1, [0], [])],
                        jobs := map[Key(cfg.home(kind), 0) := Job(Waiting, 0)])
  }

  ghost function EventDispatched(cfg: Config, kind: Kind): State {
    EventPublished(cfg, kind).(dispatchers := map[], rows := map[0 := Row(kind, Dispatched, 0)])
  }

  lemma FirstSteps(cfg: Config, kind: Kind)
    requires cfg.batchSize > 0
    ensures Enabled(cfg, EMPTY, Enqueue(0, kind)) && Do(cfg, EMPTY, Enqueue(0, kind)) == EventWritten(kind)
    ensures Enabled(cfg, EventWritten(kind), ClaimBatch(0, [0]))
    ensures Do(cfg, EventWritten(kind), ClaimBatch(0, [0])) == EventClaimed(kind)
  {
  }

  lemma LaterSteps(cfg: Config, kind: Kind)
    requires cfg.home(kind) in cfg.registered
    ensures Enabled(cfg, EventClaimed(kind), PublishOk(0))
    ensures Do(cfg, EventClaimed(kind), PublishOk(0)) == EventPublished(cfg, kind)
    ensures Enabled(cfg, EventPublished(cfg, kind), CommitBatch(0))
    ensures Do(cfg, EventPublished(cfg, kind), CommitBatch(0)) == EventDispatched(cfg, kind)
  {
    PublishStep(cfg, kind);
    CommitStep(cfg, kind);
  }

  lemma PublishStep(cfg: Config, kind: Kind)
    requires cfg.home(kind) in cfg.registered
    ensures Enabled(cfg, EventClaimed(kind), PublishOk(0))
    ensures Do(cfg, EventClaimed(kind), PublishOk(0)) == EventPublished(cfg, kind)
  {
    var s, key := EventClaimed(kind), Key(cfg.home(kind), 0);
    assert NextEvent(s, 0) == 0 && KeyOf(cfg, s, 0) == key && AddJob(s.jobs, key) == map[key := Job(Waiting, 0)];
    var delivered: seq<EventId> := [];
    assert delivered + [0] == [0];
  }

  lemma CommitStep(cfg: Config, kind: Kind)
    ensures Enabled(cfg, EventPublished(cfg, kind), CommitBatch(0))
    ensures Do(cfg, EventPublished(cfg, kind), CommitBatch(0)) == EventDispatched(cfg, kind)
  {
    var s := EventPublished(cfg, kind);
    assert MarkDispatched(s.rows, [0]) == map[0 := Row(kind, Dispatched, 0)];
  }

  /** No letter carries the envelope that a replay looks for, and nothing has ever been replayed. */
  ghost predicate LettersBare(s: State) {
    s.replays == map[] && forall key | key in s.deadLetters :: s.deadLetters[key].envelope.None?
  }

  lemma StepKeepsLettersBare(cfg: Config, s: State, a: Action)
    requires LettersBare(s) && Enabled(cfg, s, a)
    ensures LettersBare(Do(cfg, s, a))
    ensures a.ReplayLetter? ==> Do(cfg, s, a) == s
  {
    hide Do, DoDispatcher, DoWorker, DoElsewhere;
    LettersAfter(cfg, s, a);
  }

  lemma {:induction false} RunKeepsLettersBare(cfg: Config, s: State, actions: seq<Action>, t: State)
    requires LettersBare(s) && Runs(cfg, s, actions, t)
    ensures LettersBare(t)
    decreases |actions|
  {
    hide LettersBare, Do, Enabled;
    if actions != [] {
      StepKeepsLettersBare(cfg, s, actions[0]);
      RunKeepsLettersBare(cfg, Do(cfg, s, actions[0]), actions[1..], t);
    }
  }

  /** In every reachable state, replaying a dead letter changes nothing at all: not its queue, not even the letter. */
  lemma ReplayChangesNothing(cfg: Config, history: seq<Action>, s: State, key: Key)
    requires Runs(cfg, EMPTY, history, s) && key in s.deadLetters
    ensures Enabled(cfg, s, ReplayLetter(key)) && Do(cfg, s, ReplayLetter(key)) == s && s.replays == map[]
  {
    RunKeepsLettersBare(cfg, EMPTY, history, s);
    StepKeepsLettersBare(cfg, s, ReplayLetter(key));
  }
}
