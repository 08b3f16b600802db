/** What one step of the reliability spine can do to each part of the state, and that every step keeps the invariant. */
module ReliabilitySteps {
  import opened ReliabilitySpine

  /** Who acts decides what can change. */
  lemma Frames(cfg: Config, s: State, a: Action)
    requires Enabled(cfg, s, a)
    ensures OfDispatcher(a) ==> Do(cfg, s, a) == DoDispatcher(cfg, s, a) && DispatcherKeeps(s, Do(cfg, s, a))
    ensures OfWorker(a) ==> Do(cfg, s, a) == DoWorker(cfg, s, a) && WorkerKeeps(s, Do(cfg, s, a))
    ensures !OfDispatcher(a) && !OfWorker(a) ==>
              OfNeither(a) && Do(cfg, s, a) == DoElsewhere(cfg, s, a) && OthersKeep(s, Do(cfg, s, a))
  {
    hide DoDispatcher, DoWorker, DoElsewhere, Enabled, DispatcherKeeps, WorkerKeeps, OthersKeep;
    if OfDispatcher(a) {
      DispatcherFrame(cfg, s, a);
    } else if OfWorker(a) {
      WorkerFrame(cfg, s, a);
    } else {
      ElsewhereFrame(cfg, s, a);
    }
  }

  predicate DispatcherKeeps(s: State, t: State) {
    && t.keys == s.keys && t.effects == s.effects && t.commits == s.commits
    && t.workers == s.workers && t.deadLetters == s.deadLetters && t.replays == s.replays
  }

  predicate WorkerKeeps(s: State, t: State) {
    t.rows == s.rows && t.dispatchers == s.dispatchers && t.deadLetters == s.deadLetters && t.replays == s.replays
  }

  predicate OthersKeep(s: State, t: State) {
    && t.keys == s.keys && t.effects == s.effects && t.commits == s.commits
    && t.workers == s.workers && t.dispatchers == s.dispatchers
  }

  lemma DispatcherFrame(cfg: Config, s: State, a: Action)
    requires Enabled(cfg, s, a) && OfDispatcher(a)
    ensures DispatcherKeeps(s, DoDispatcher(cfg, s, a))
  {
    hide Enabled, EffectsOf, HandlersFor, KeyOf, LetterOf, MarkDispatched, MarkFailed, AddJob, Left;
  }

  lemma WorkerFrame(cfg: Config, s: State, a: Action)
    requires Enabled(cfg, s, a) && OfWorker(a)
    ensures WorkerKeeps(s, DoWorker(cfg, s, a))
  {
    hide Enabled, EffectsOf, HandlersFor, KeyOf, LetterOf, AfterFailure;
  }

  lemma ElsewhereFrame(cfg: Config, s: State, a: Action)
    requires Enabled(cfg, s, a) && OfNeither(a)
    ensures OthersKeep(s, DoElsewhere(cfg, s, a))
  {
    hide Enabled, EffectsOf, HandlersFor, KeyOf, LetterOf, AddJob, AddLetter;
  }

  // ----- What each part of the state can do in one step -----

  /** A row keeps its kind, and becomes dispatched only by the commit of the batch that delivered it. */
  ghost predicate RowStep(s: State, a: Action, t: State, id: EventId) {
    && (id in s.rows ==> id in t.rows && t.rows[id].kind == s.rows[id].kind)
    && (id in t.rows && t.rows[id].status == Dispatched ==>
          id in s.rows && (s.rows[id].status == Dispatched || DeliveredBy(s, a, id)))
  }

  ghost predicate DeliveredBy(s: State, a: Action, id: EventId) {
    a.CommitBatch? && a.d in s.dispatchers && s.dispatchers[a.d].Publishing? && id in s.dispatchers[a.d].delivered
  }

  lemma RowSteps(cfg: Config, s: State, a: Action)
    requires Enabled(cfg, s, a)
    ensures forall id :: RowStep(s, a, Do(cfg, s, a), id)
  {
    hide DoDispatcher, DoWorker, DoElsewhere, Enabled;
    Frames(cfg, s, a);
    if OfDispatcher(a) {
      RowsByDispatcher(cfg, s, a);
    } else if OfNeither(a) {
      RowsElsewhere(cfg, s, a);
    }
  }

  lemma RowsByDispatcher(cfg: Config, s: State, a: Action)
    requires Enabled(cfg, s, a) && OfDispatcher(a)
    ensures forall id :: RowStep(s, a, DoDispatcher(cfg, s, a), id)
  {
    hide Locked, ClaimInFlight, DistinctIds, HandlersFor, EffectsOf, AddJob, Left;
  }

  lemma RowsElsewhere(cfg: Config, s: State, a: Action)
    requires Enabled(cfg, s, a) && OfNeither(a)
    ensures forall id :: RowStep(s, a, DoElsewhere(cfg, s, a), id)
  {
    hide Locked, ClaimInFlight, DistinctIds, HandlersFor, EffectsOf, AddJob, AddLetter;
  }

  /** Rows are never dropped and never change kind, so every routed key stays routed. */
  lemma RowsPersist(cfg: Config, s: State, a: Action)
    requires Enabled(cfg, s, a)
    ensures forall id :: id in s.rows ==> id in Do(cfg, s, a).rows && Do(cfg, s, a).rows[id].kind == s.rows[id].kind
    ensures forall key :: Routed(cfg, s, key) ==> Routed(cfg, Do(cfg, s, a), key)
    ensures forall key :: Routed(cfg, s, key) ==> HandlersFor(cfg, Do(cfg, s, a), key) == HandlersFor(cfg, s, key)
    ensures s.keys <= Do(cfg, s, a).keys
  {
    hide Do, Enabled;
    RowSteps(cfg, s, a);
    OutcomesAfter(cfg, s, a);
    var t := Do(cfg, s, a);
    forall id | id in s.rows
      ensures id in t.rows && t.rows[id].kind == s.rows[id].kind
    {
      assert RowStep(s, a, t, id);
    }
  }

  /** Only a commit claims a key or writes effects. */
  lemma OutcomesAfter(cfg: Config, s: State, a: Action)
    requires Enabled(cfg, s, a)
    ensures var t := Do(cfg, s, a);
            if a.CommitWork? then
              && a.w in s.workers && Holds(s.workers[a.w], s.workers[a.w].key)
              && t.keys == s.keys + {s.workers[a.w].key}
              && (forall key | key != s.workers[a.w].key :: EffectsOf(t, key) == EffectsOf(s, key))
            else t.keys == s.keys && t.effects == s.effects && t.commits == s.commits
  {
    if a.CommitWork? {
      CommitWrites(cfg, s, a.w);
    } else {
      hide DoDispatcher, DoWorker, DoElsewhere, Enabled;
      Frames(cfg, s, a);
      if OfWorker(a) {
        OthersWriteNothing(cfg, s, a);
      }
    }
  }

  lemma CommitWrites(cfg: Config, s: State, w: nat)
    requires Enabled(cfg, s, CommitWork(w))
    ensures var t := Do(cfg, s, CommitWork(w));
            && w in s.workers && Holds(s.workers[w], s.workers[w].key)
            && t.keys == s.keys + {s.workers[w].key}
            && (forall key | key != s.workers[w].key :: EffectsOf(t, key) == EffectsOf(s, key))
  {
  }

  lemma OthersWriteNothing(cfg: Config, s: State, a: Action)
    requires Enabled(cfg, s, a) && OfWorker(a) && !a.CommitWork?
    ensures var t := DoWorker(cfg, s, a); t.keys == s.keys && t.effects == s.effects && t.commits == s.commits
  {
    hide Locked, ClaimInFlight, DistinctIds, HandlersFor, EffectsOf, AfterFailure;
  }

  /** A job is added waiting, dropped completed, and otherwise moves as its queue moves it. */
  ghost predicate JobStep(cfg: Config, s: State, a: Action, t: State, key: Key) {
    && (key in t.jobs && key !in s.jobs ==> Routed(cfg, s, key) && t.jobs[key] == Job(Waiting, 0))
    && (key in s.jobs && key !in t.jobs ==> s.jobs[key].state == Completed)
    && (key in s.jobs && key in t.jobs && t.jobs[key] != s.jobs[key] ==>
        JobMoves(cfg, s, a, s.jobs[key], t.jobs[key], key))
  }

  ghost predicate JobMoves(cfg: Config, s: State, a: Action, was: Job, now: Job, key: Key) {
    || (was.state == Waiting && now == was.(state := Active) && a.Take? && a.key == key)
    || (was.state == Active && now == was.(state := Waiting) && a == Stall(key, false))
    || (was.state == Active && now == was.(state := Failed) && a == Stall(key, true))
    || (was.state == Active && now.attemptsMade == was.attemptsMade + 1
        && a.FailJob? && a.w in s.workers && s.workers[a.w].key == key
        && now.state == if was.attemptsMade + 1 < cfg.queueAttempts then Waiting else Failed)
    || (was.state == Active && now == was.(state := Completed)
        && a.FinishJob? && a.w in s.workers && s.workers[a.w].key == key)
  }

  lemma JobSteps(cfg: Config, s: State, a: Action)
    requires Enabled(cfg, s, a)
    ensures forall key :: JobStep(cfg, s, a, Do(cfg, s, a), key)
  {
    hide DoDispatcher, DoWorker, DoElsewhere, Enabled, JobStep, DispatcherKeeps, WorkerKeeps, OthersKeep;
    Frames(cfg, s, a);
    if OfDispatcher(a) {
      JobsByDispatcher(cfg, s, a);
    } else if OfWorker(a) {
      JobsByWorker(cfg, s, a);
    } else {
      JobsElsewhere(cfg, s, a);
    }
  }

  lemma JobsByDispatcher(cfg: Config, s: State, a: Action)
    requires Enabled(cfg, s, a) && OfDispatcher(a)
    ensures forall key :: JobStep(cfg, s, a, DoDispatcher(cfg, s, a), key)
  {
    hide Locked, ClaimInFlight, DistinctIds, HandlersFor, EffectsOf, MarkDispatched, MarkFailed, Left, JobMoves;
  }

  lemma JobsByWorker(cfg: Config, s: State, a: Action)
    requires Enabled(cfg, s, a) && OfWorker(a)
    ensures forall key :: JobStep(cfg, s, a, DoWorker(cfg, s, a), key)
  {
    hide Locked, ClaimInFlight, DistinctIds, HandlersFor, EffectsOf, Routed;
  }

  lemma JobsElsewhere(cfg: Config, s: State, a: Action)
    requires Enabled(cfg, s, a) && OfNeither(a)
    ensures forall key :: JobStep(cfg, s, a, DoElsewhere(cfg, s, a), key)
  {
    hide Locked, ClaimInFlight, DistinctIds, HandlersFor, EffectsOf, AddLetter, AfterFailure;
  }

  /** Only completed jobs are dropped, and a failed one stays failed. */
  lemma JobsStay(cfg: Config, s: State, a: Action)
    requires Enabled(cfg, s, a)
    ensures var t := Do(cfg, s, a);
            forall key | key in s.jobs ::
              && (s.jobs[key].state != Completed ==> key in t.jobs)
              && (s.jobs[key].state == Failed ==> t.jobs[key] == s.jobs[key])
  {
    hide Do, Enabled, Routed;
    JobSteps(cfg, s, a);
    var t := Do(cfg, s, a);
    forall key | key in s.jobs
      ensures s.jobs[key].state != Completed ==> key in t.jobs
      ensures s.jobs[key].state == Failed ==> t.jobs[key] == s.jobs[key]
    {
      assert JobStep(cfg, s, a, t, key);
    }
  }

  /** Rows are marked dispatched by the commit of the batch that delivered them, and delivered by a publish. */
  lemma DeliveriesAfter(cfg: Config, s: State, a: Action)
    requires Enabled(cfg, s, a)
    ensures forall d, id | Delivered(Do(cfg, s, a), d, id) ::
              Delivered(s, d, id) || (a == PublishOk(d) && id == NextEvent(s, d))
  {
    hide DoDispatcher, DoWorker, DoElsewhere, Enabled;
    Frames(cfg, s, a);
    if OfDispatcher(a) {
      DeliveriesByDispatcher(cfg, s, a);
    }
  }

  ghost predicate Delivered(s: State, d: nat, id: EventId) {
    d in s.dispatchers && s.dispatchers[d].Publishing? && id in s.dispatchers[d].delivered
  }

  lemma DeliveriesByDispatcher(cfg: Config, s: State, a: Action)
    requires Enabled(cfg, s, a) && OfDispatcher(a)
    ensures forall d, id | Delivered(DoDispatcher(cfg, s, a), d, id) ::
              Delivered(s, d, id) || (a == PublishOk(d) && id == NextEvent(s, d))
  {
    hide Locked, ClaimInFlight, DistinctIds, HandlersFor, EffectsOf, AddJob, MarkDispatched, MarkFailed;
  }

  /** A transaction is opened by taking a waiting job. */
  lemma OpenedByTaking(cfg: Config, s: State, a: Action)
    requires Enabled(cfg, s, a)
    ensures var t := Do(cfg, s, a);
            forall w | w in t.workers && t.workers[w].Open? ::
              || (w in s.workers && s.workers[w].Open? && s.workers[w].key == t.workers[w].key)
              || (a.Take? && t.workers[w].key == a.key && a.key in s.jobs && s.jobs[a.key].state == Waiting)
  {
    hide DoDispatcher, DoWorker, DoElsewhere, Enabled;
    Frames(cfg, s, a);
    if OfWorker(a) {
      OpenedByWorker(cfg, s, a);
    }
  }

  lemma OpenedByWorker(cfg: Config, s: State, a: Action)
    requires Enabled(cfg, s, a) && OfWorker(a)
    ensures var t := DoWorker(cfg, s, a);
            forall w | w in t.workers && t.workers[w].Open? ::
              || (w in s.workers && s.workers[w].Open? && s.workers[w].key == t.workers[w].key)
              || (a.Take? && t.workers[w].key == a.key && a.key in s.jobs && s.jobs[a.key].state == Waiting)
  {
    hide Locked, ClaimInFlight, DistinctIds, HandlersFor, EffectsOf, AfterFailure;
  }

  /** A letter is written for a job that is out of attempts, and a replay of one without an envelope does nothing. */
  lemma LettersAfter(cfg: Config, s: State, a: Action)
    requires Enabled(cfg, s, a)
    ensures var t := Do(cfg, s, a);
            && (forall key | key in t.deadLetters && key !in s.deadLetters ::
                  && a == DeadLetter(key) && key in s.jobs && s.jobs[key].attemptsMade >= cfg.queueAttempts
                  && t.deadLetters[key] == LetterOf(s.jobs[key], key))
            && (forall key | key in t.deadLetters && key in s.deadLetters :: t.deadLetters[key] == s.deadLetters[key])
            && (a.ReplayLetter? && a.key in s.deadLetters && s.deadLetters[a.key].envelope.None? ==> t == s)
            && (!a.ReplayLetter? ==> t.replays == s.replays)
  {
    hide DoDispatcher, DoWorker, DoElsewhere, Enabled;
    Frames(cfg, s, a);
    if OfNeither(a) {
      LettersElsewhere(cfg, s, a);
    }
  }

  lemma LettersElsewhere(cfg: Config, s: State, a: Action)
    requires Enabled(cfg, s, a) && OfNeither(a)
    ensures var t := DoElsewhere(cfg, s, a);
            && (forall key | key in t.deadLetters && key !in s.deadLetters ::
                  && a == DeadLetter(key) && key in s.jobs && s.jobs[key].attemptsMade >= cfg.queueAttempts
                  && t.deadLetters[key] == LetterOf(s.jobs[key], key))
            && (forall key | key in t.deadLetters && key in s.deadLetters :: t.deadLetters[key] == s.deadLetters[key])
            && (a.ReplayLetter? && a.key in s.deadLetters && s.deadLetters[a.key].envelope.None? ==> t == s)
            && (!a.ReplayLetter? ==> t.replays == s.replays)
  {
    hide Locked, ClaimInFlight, DistinctIds, HandlersFor, EffectsOf, AddJob, LetterOf;
  }

  // ----- Every step keeps the invariant -----

  lemma ClaimsAfterClaim(cfg: Config, s: State, d: nat, batch: seq<EventId>)
    requires ClaimsHold(s) && Enabled(cfg, s, ClaimBatch(d, batch))
    ensures ClaimsHold(Do(cfg, s, ClaimBatch(d, batch)))
  {
    hide BatchOk, Disjoint, Locked;
    var p, t := Publishing(batch, 0, [], []), Do(cfg, s, ClaimBatch(d, batch));
    assert t.rows == s.rows && t.dispatchers == s.dispatchers[d := p];
    ClaimedBatchOk(cfg, s, d, batch);
    forall e | e in t.dispatchers && t.dispatchers[e].Publishing?
      ensures BatchOk(t, t.dispatchers[e])
    {
      SameRowsSameBatch(s, t, t.dispatchers[e]);
    }
    forall e | e in s.dispatchers && s.dispatchers[e].Publishing?
      ensures Disjoint(p, s.dispatchers[e]) && Disjoint(s.dispatchers[e], p)
    {
      ClaimedIsDisjoint(cfg, s, d, batch, e);
    }
  }

  lemma ClaimedBatchOk(cfg: Config, s: State, d: nat, batch: seq<EventId>)
    requires Enabled(cfg, s, ClaimBatch(d, batch))
    ensures BatchOk(s, Publishing(batch, 0, [], []))
  {
    hide Locked;
  }

  lemma ClaimedIsDisjoint(cfg: Config, s: State, d: nat, batch: seq<EventId>, e: nat)
    requires Enabled(cfg, s, ClaimBatch(d, batch)) && e in s.dispatchers && s.dispatchers[e].Publishing?
    ensures var p := Publishing(batch, 0, [], []); Disjoint(p, s.dispatchers[e]) && Disjoint(s.dispatchers[e], p)
  {
    forall id | id in batch
      ensures id !in s.dispatchers[e].claimed
    {
      var i :| 0 <= i < |batch| && batch[i] == id;
    }
  }

  lemma ClaimsAfterPublish(cfg: Config, s: State, d: nat, a: Action)
    requires ClaimsHold(s) && Enabled(cfg, s, a) && (a == PublishOk(d) || (a.PublishThrows? && a.d == d))
    ensures ClaimsHold(Do(cfg, s, a))
  {
    hide BatchOk;
    var p, t := s.dispatchers[d], Do(cfg, s, a);
    assert t.rows == s.rows && t.dispatchers == s.dispatchers[d := t.dispatchers[d]];
    BatchAfterPublish(cfg, s, d, a);
    forall e | e in t.dispatchers && t.dispatchers[e].Publishing?
      ensures BatchOk(t, t.dispatchers[e])
    {
      SameRowsSameBatch(s, t, t.dispatchers[e]);
      assert e != d ==> BatchOk(s, s.dispatchers[e]);
    }
    assert t.dispatchers[d].claimed == p.claimed;
  }

  lemma SameRowsSameBatch(s: State, t: State, p: Dispatcher)
    requires p.Publishing? && t.rows == s.rows
    ensures BatchOk(t, p) <==> BatchOk(s, p)
  {
  }

  lemma BatchAfterPublish(cfg: Config, s: State, d: nat, a: Action)
    requires ClaimsHold(s) && Enabled(cfg, s, a) && (a == PublishOk(d) || (a.PublishThrows? && a.d == d))
    ensures BatchOk(s, Do(cfg, s, a).dispatchers[d]) && NextEvent(s, d) in s.dispatchers[d].claimed
    ensures forall id | id in Do(cfg, s, a).dispatchers[d].failed :: id in s.rows
  {
    assert BatchOk(s, s.dispatchers[d]);
  }

  lemma ClaimsAfterCommit(cfg: Config, s: State, d: nat)
    requires ClaimsHold(s) && Enabled(cfg, s, CommitBatch(d))
    ensures ClaimsHold(Do(cfg, s, CommitBatch(d)))
  {
    hide Do, Enabled, BatchOk, MarkDispatched;
    BatchCommitted(cfg, s, d);
    var p, t := s.dispatchers[d], Do(cfg, s, CommitBatch(d));
    assert BatchOk(s, p);
    FailuresHaveRows(s, t, p);
    forall e | e in t.dispatchers && t.dispatchers[e].Publishing?
      ensures BatchOk(t, t.dispatchers[e])
    {
      assert e != d && Disjoint(p, s.dispatchers[e]) && BatchOk(s, s.dispatchers[e]);
      OthersUnmarked(s, t, p, s.dispatchers[e]);
    }
  }

  /** The transaction that claimed the batch ends by marking what was delivered. */
  lemma BatchCommitted(cfg: Config, s: State, d: nat)
    requires Enabled(cfg, s, CommitBatch(d))
    ensures d in s.dispatchers && s.dispatchers[d].Publishing?
    ensures Do(cfg, s, CommitBatch(d)) ==
              s.(rows := MarkDispatched(s.rows, s.dispatchers[d].delivered),
                 dispatchers := Left(s.dispatchers, d, s.dispatchers[d].failed))
  {
    hide MarkDispatched, Left;
  }

  lemma FailuresHaveRows(s: State, t: State, p: Dispatcher)
    requires p.Publishing? && t.rows == MarkDispatched(s.rows, p.delivered)
    ensures forall id :: id in s.rows <==> id in t.rows
  {
  }

  lemma OthersUnmarked(s: State, t: State, p: Dispatcher, q: Dispatcher)
    requires p.Publishing? && q.Publishing? && BatchOk(s, p) && BatchOk(s, q) && Disjoint(p, q)
    requires t.rows == MarkDispatched(s.rows, p.delivered)
    ensures BatchOk(t, q)
  {
  }

  lemma ClaimsAfterFailure(cfg: Config, s: State, d: nat)
    requires ClaimsHold(s) && Enabled(cfg, s, RecordFailure(d))
    ensures ClaimsHold(Do(cfg, s, RecordFailure(d)))
  {
    hide Do, Enabled, BatchOk, Locked, MarkFailed;
    FailureRecorded(cfg, s, d);
    var id, t := s.dispatchers[d].failed[0], Do(cfg, s, RecordFailure(d));
    forall e | e in t.dispatchers && t.dispatchers[e].Publishing?
      ensures BatchOk(t, t.dispatchers[e])
    {
      assert BatchOk(s, s.dispatchers[e]) && id !in s.dispatchers[e].claimed;
      OthersUnfailed(s, t, s.dispatchers[e], id);
    }
  }

  lemma FailureRecorded(cfg: Config, s: State, d: nat)
    requires Enabled(cfg, s, RecordFailure(d))
    ensures d in s.dispatchers && s.dispatchers[d].Recording? && s.dispatchers[d].failed != []
    ensures var id := s.dispatchers[d].failed[0];
            && id in s.rows
            && (forall e | e in s.dispatchers && s.dispatchers[e].Publishing? :: id !in s.dispatchers[e].claimed)
            && Do(cfg, s, RecordFailure(d)) ==
               s.(rows := s.rows[id := MarkFailed(s.rows[id], cfg.outboxAttempts)],
                  dispatchers := Left(s.dispatchers, d, s.dispatchers[d].failed[1..]))
  {
    hide MarkFailed, Left;
  }

  lemma OthersUnfailed(s: State, t: State, q: Dispatcher, id: EventId)
    requires q.Publishing? && BatchOk(s, q) && id !in q.claimed && id in s.rows
    requires id in t.rows && t.rows == s.rows[id := t.rows[id]]
    ensures BatchOk(t, q)
  {
  }

  lemma ClaimsAfterCrash(s: State, t: State, d: nat)
    requires ClaimsHold(s) && t.rows == s.rows && t.dispatchers == s.dispatchers - {d}
    ensures ClaimsHold(t)
  {
    forall e | e in t.dispatchers && t.dispatchers[e].Publishing?
      ensures BatchOk(t, t.dispatchers[e])
    {
      assert BatchOk(s, s.dispatchers[e]);
    }
  }

  lemma ClaimsWhenRowsGrow(s: State, t: State)
    requires ClaimsHold(s) && t.dispatchers == s.dispatchers
    requires forall id :: id in s.rows ==>
        id in t.rows && (s.rows[id].status == Pending ==> t.rows[id].status == Pending)
    ensures ClaimsHold(t)
  {
    forall d | d in t.dispatchers && t.dispatchers[d].Publishing?
      ensures BatchOk(t, t.dispatchers[d])
    {
      assert BatchOk(s, s.dispatchers[d]);
    }
  }

  lemma KeepsClaims(cfg: Config, s: State, a: Action)
    requires ClaimsHold(s) && Enabled(cfg, s, a)
    ensures ClaimsHold(Do(cfg, s, a))
  {
    hide ClaimsHold, DoDispatcher, DoWorker, DoElsewhere, Do, Enabled, DispatcherKeeps;
    Frames(cfg, s, a);
    if OfDispatcher(a) {
      DispatcherKeepsClaims(cfg, s, a);
    } else {
      if OfNeither(a) {
        PendingStays(cfg, s, a);
      }
      ClaimsWhenRowsGrow(s, Do(cfg, s, a));
    }
  }

  lemma PendingStays(cfg: Config, s: State, a: Action)
    requires Enabled(cfg, s, a) && OfNeither(a)
    ensures var t := DoElsewhere(cfg, s, a);
            forall id | id in s.rows :: id in t.rows && (s.rows[id].status == Pending ==> t.rows[id].status == Pending)
  {
    hide Locked, ClaimInFlight, DistinctIds, HandlersFor, EffectsOf, AddJob, AddLetter;
  }

  lemma DispatcherKeepsClaims(cfg: Config, s: State, a: Action)
    requires ClaimsHold(s) && Enabled(cfg, s, a) && OfDispatcher(a)
    ensures ClaimsHold(Do(cfg, s, a))
  {
    hide ClaimsHold, Do, Enabled;
    match a
    case ClaimBatch(d, batch) => ClaimsAfterClaim(cfg, s, d, batch);
    case PublishOk(d) => ClaimsAfterPublish(cfg, s, d, a);
    case PublishThrows(d, _) => ClaimsAfterPublish(cfg, s, d, a);
    case CommitBatch(d) => ClaimsAfterCommit(cfg, s, d);
    case RecordFailure(d) => ClaimsAfterFailure(cfg, s, d);
    case CrashDispatcher(d) =>
      CrashForgets(cfg, s, d);
      ClaimsAfterCrash(s, Do(cfg, s, a), d);
  }

  lemma CrashForgets(cfg: Config, s: State, d: nat)
    requires Enabled(cfg, s, CrashDispatcher(d))
    ensures var t := Do(cfg, s, CrashDispatcher(d)); t.rows == s.rows && t.dispatchers == s.dispatchers - {d}
  {
  }

  /** Once safe, always safe: a job is only completed or dropped over a claimed key. */
  lemma SafePersists(cfg: Config, s: State, a: Action, id: EventId)
    requires JobsRouted(cfg, s) && WorkersOk(cfg, s) && Enabled(cfg, s, a)
    requires id in s.rows && Safe(cfg, s, id)
    ensures id in Do(cfg, s, a).rows && Safe(cfg, Do(cfg, s, a), id)
  {
    hide Do, Enabled, WorkersOk, AfterFailure;
    RowsPersist(cfg, s, a);
    JobsStay(cfg, s, a);
    JobSteps(cfg, s, a);
    if a.FinishJob? {
      FinishedIsClaimed(cfg, s, a.w);
    }
    var key := KeyOf(cfg, s, id);
    assert JobStep(cfg, s, a, Do(cfg, s, a), key);
    FailureNeverCompletes(cfg, s, key);
  }

  lemma PublishedIsSafe(cfg: Config, s: State, d: nat)
    requires JobsRouted(cfg, s) && Enabled(cfg, s, PublishOk(d))
    ensures NextEvent(s, d) in s.rows && Safe(cfg, Do(cfg, s, PublishOk(d)), NextEvent(s, d))
  {
  }

  lemma KeepsDeliveries(cfg: Config, s: State, a: Action)
    requires DeliveriesSafe(cfg, s) && JobsRouted(cfg, s) && WorkersOk(cfg, s) && Enabled(cfg, s, a)
    ensures DeliveriesSafe(cfg, Do(cfg, s, a))
  {
    hide JobsRouted, WorkersOk, Safe, Do, Enabled;
    var t := Do(cfg, s, a);
    RowSteps(cfg, s, a);
    DeliveriesAfter(cfg, s, a);
    forall id | id in t.rows && t.rows[id].status == Dispatched
      ensures Safe(cfg, t, id)
    {
      assert RowStep(s, a, t, id);
      assert Safe(cfg, s, id);
      SafePersists(cfg, s, a, id);
    }
    forall d, id | d in t.dispatchers && t.dispatchers[d].Publishing? && id in t.dispatchers[d].delivered
      ensures id in t.rows && Safe(cfg, t, id)
    {
      assert Delivered(t, d, id);
      if Delivered(s, d, id) {
        SafePersists(cfg, s, a, id);
      } else {
        RowsPersist(cfg, s, a);
        PublishedIsSafe(cfg, s, d);
      }
    }
  }

  lemma KeepsJobs(cfg: Config, s: State, a: Action)
    requires JobsRouted(cfg, s) && WorkersOk(cfg, s) && Enabled(cfg, s, a)
    ensures JobsRouted(cfg, Do(cfg, s, a))
  {
    hide Do, Enabled, WorkersOk, Routed, AfterFailure;
    RowsPersist(cfg, s, a);
    LettersAfter(cfg, s, a);
    if a.FinishJob? {
      FinishedIsClaimed(cfg, s, a.w);
    }
    var t := Do(cfg, s, a);
    JobSteps(cfg, s, a);
    forall key | key in t.jobs
      ensures Routed(cfg, s, key) && (t.jobs[key].state == Completed ==> key in s.keys)
    {
      assert JobStep(cfg, s, a, t, key);
      FailureNeverCompletes(cfg, s, key);
    }
  }

  lemma FailureNeverCompletes(cfg: Config, s: State, key: Key)
    ensures key in s.jobs ==> AfterFailure(cfg, s.jobs[key]).state != Completed
  {
  }

  lemma FinishedIsClaimed(cfg: Config, s: State, w: nat)
    requires WorkersOk(cfg, s) && Enabled(cfg, s, FinishJob(w))
    ensures w in s.workers && s.workers[w].key in s.keys
  {
    assert WorkerOk(cfg, s, s.workers[w]);
  }

  /** Any worker but the acting one is untouched, and stays sound while rows and claims only grow around it. */
  lemma OtherWorkers(cfg: Config, s: State, a: Action, w: nat)
    requires WorkersOk(cfg, s) && Enabled(cfg, s, a)
    requires w in s.workers && w in Do(cfg, s, a).workers && Do(cfg, s, a).workers[w] == s.workers[w]
    ensures WorkerOk(cfg, Do(cfg, s, a), s.workers[w])
  {
    hide Do, Enabled, WorkersOk;
    RowsPersist(cfg, s, a);
    WorkerWasOk(cfg, s, w);
    KeysAfter(cfg, s, a, w);
  }

  lemma WorkerWasOk(cfg: Config, s: State, w: nat)
    requires WorkersOk(cfg, s) && w in s.workers
    ensures WorkerOk(cfg, s, s.workers[w])
  {
  }

  /** Claims stay, and a key that one worker holds is committed by no other. */
  lemma KeysAfter(cfg: Config, s: State, a: Action, w: nat)
    requires WorkersOk(cfg, s) && Enabled(cfg, s, a)
    requires w in s.workers && w in Do(cfg, s, a).workers && Do(cfg, s, a).workers[w] == s.workers[w]
    ensures s.keys <= Do(cfg, s, a).keys
    ensures Holds(s.workers[w], s.workers[w].key) && s.workers[w].key !in s.keys ==>
        s.workers[w].key !in Do(cfg, s, a).keys
  {
    hide Do, Enabled, WorkerOk;
    OutcomesAfter(cfg, s, a);
    if a.CommitWork? && Holds(s.workers[w], s.workers[w].key) && s.workers[a.w].key == s.workers[w].key {
      assert w == a.w;
      CommitSettles(cfg, s, w);
    }
  }

  lemma CommitSettles(cfg: Config, s: State, w: nat)
    requires Enabled(cfg, s, CommitWork(w))
    ensures w in s.workers && w in Do(cfg, s, CommitWork(w)).workers
    ensures Do(cfg, s, CommitWork(w)).workers[w] != s.workers[w]
  {
  }

  lemma ActingWorker(cfg: Config, s: State, a: Action, w: nat)
    requires JobsRouted(cfg, s) && WorkersOk(cfg, s) && Enabled(cfg, s, a)
    requires w in Do(cfg, s, a).workers && (w in s.workers ==> Do(cfg, s, a).workers[w] != s.workers[w])
    ensures WorkerOk(cfg, Do(cfg, s, a), Do(cfg, s, a).workers[w])
  {
    hide DoDispatcher, DoWorker, DoElsewhere, Enabled, WorkersOk, WorkerOk;
    RowsPersist(cfg, s, a);
    Frames(cfg, s, a);
    if w in s.workers {
      WorkerWasOk(cfg, s, w);
    }
    ActingWorkerMoves(cfg, s, a, w);
  }

  lemma ActingWorkerMoves(cfg: Config, s: State, a: Action, w: nat)
    requires Enabled(cfg, s, a) && OfWorker(a) && JobsRouted(cfg, s)
    requires w in DoWorker(cfg, s, a).workers && (w in s.workers ==> DoWorker(cfg, s, a).workers[w] != s.workers[w])
    requires w in s.workers ==> WorkerOk(cfg, s, s.workers[w])
    ensures WorkerOk(cfg, DoWorker(cfg, s, a), DoWorker(cfg, s, a).workers[w])
  {
    hide DoWorker, Enabled;
    WorkerFrame(cfg, s, a);
    match a
    case RunHandler(v) => HandlerMoves(cfg, s, v, w);
    case CommitWork(v) => CommitMoves(cfg, s, v, w);
    case _ => OtherMoves(cfg, s, a, w);
  }

  lemma HandlerMoves(cfg: Config, s: State, v: nat, w: nat)
    requires Enabled(cfg, s, RunHandler(v))
    requires w in DoWorker(cfg, s, RunHandler(v)).workers
    requires w in s.workers ==>
        DoWorker(cfg, s, RunHandler(v)).workers[w] != s.workers[w] && WorkerOk(cfg, s, s.workers[w])
    ensures WorkerOk(cfg, DoWorker(cfg, s, RunHandler(v)), DoWorker(cfg, s, RunHandler(v)).workers[w])
  {
    hide ClaimInFlight, EffectsOf;
  }

  lemma CommitMoves(cfg: Config, s: State, v: nat, w: nat)
    requires Enabled(cfg, s, CommitWork(v))
    requires w in DoWorker(cfg, s, CommitWork(v)).workers
    requires w in s.workers ==>
        DoWorker(cfg, s, CommitWork(v)).workers[w] != s.workers[w] && WorkerOk(cfg, s, s.workers[w])
    ensures WorkerOk(cfg, DoWorker(cfg, s, CommitWork(v)), DoWorker(cfg, s, CommitWork(v)).workers[w])
  {
    hide HandlersFor, EffectsOf;
  }

  lemma OtherMoves(cfg: Config, s: State, a: Action, w: nat)
    requires Enabled(cfg, s, a) && OfWorker(a) && JobsRouted(cfg, s) && !a.RunHandler? && !a.CommitWork?
    requires w in DoWorker(cfg, s, a).workers && (w in s.workers ==> DoWorker(cfg, s, a).workers[w] != s.workers[w])
    requires w in s.workers ==> WorkerOk(cfg, s, s.workers[w])
    ensures WorkerOk(cfg, DoWorker(cfg, s, a), DoWorker(cfg, s, a).workers[w])
  {
    hide ClaimInFlight, EffectsOf, AfterFailure;
  }

  lemma KeepsWorkers(cfg: Config, s: State, a: Action)
    requires JobsRouted(cfg, s) && WorkersOk(cfg, s) && Enabled(cfg, s, a)
    ensures WorkersOk(cfg, Do(cfg, s, a))
  {
    hide DoDispatcher, DoWorker, DoElsewhere, Do, Enabled, WorkerOk;
    var t := Do(cfg, s, a);
    forall w | w in t.workers
      ensures WorkerOk(cfg, t, t.workers[w])
    {
      if w in s.workers && t.workers[w] == s.workers[w] {
        OtherWorkers(cfg, s, a, w);
      } else {
        ActingWorker(cfg, s, a, w);
      }
    }
    HoldersAfter(cfg, s, a);
  }

  lemma HoldersAfter(cfg: Config, s: State, a: Action)
    requires WorkersOk(cfg, s) && Enabled(cfg, s, a)
    ensures var t := Do(cfg, s, a);
            forall w, v | w in t.workers && v in t.workers && w != v && Holds(t.workers[w], t.workers[w].key) ::
              !Holds(t.workers[v], t.workers[w].key)
  {
    hide DoDispatcher, DoWorker, DoElsewhere, Enabled, WorkerOk;
    Frames(cfg, s, a);
    if OfWorker(a) {
      HoldersAfterWorker(cfg, s, a);
    }
  }

  lemma HoldersAfterWorker(cfg: Config, s: State, a: Action)
    requires WorkersOk(cfg, s) && Enabled(cfg, s, a) && OfWorker(a)
    ensures var t := DoWorker(cfg, s, a);
            forall w, v | w in t.workers && v in t.workers && w != v && Holds(t.workers[w], t.workers[w].key) ::
              !Holds(t.workers[v], t.workers[w].key)
  {
    hide Locked, DistinctIds, HandlersFor, EffectsOf, AfterFailure, WorkerOk;
  }

  lemma EffectsAfterCommit(cfg: Config, s: State, w: nat)
    requires EffectsExact(cfg, s) && WorkersOk(cfg, s) && Enabled(cfg, s, CommitWork(w))
    ensures EffectsExact(cfg, Do(cfg, s, CommitWork(w)))
  {
    hide Do, Enabled, WorkersOk;
    CommitResult(cfg, s, w);
    WorkerWasOk(cfg, s, w);
    var o, t := s.workers[w], Do(cfg, s, CommitWork(w));
    assert o.ran == HandlersFor(cfg, s, o.key) && EffectsOf(s, o.key) == [];
    CommittedExactly(cfg, s, t, o.key, o.ran);
  }

  lemma CommittedExactly(cfg: Config, s: State, t: State, key: Key, ran: seq<HandlerName>)
    requires EffectsExact(cfg, s) && key !in s.keys && Routed(cfg, s, key) && ran == HandlersFor(cfg, s, key)
    requires t.rows == s.rows && t.keys == s.keys + {key} && t.commits == s.commits + multiset{key}
    requires t.effects == s.effects[key := EffectsOf(s, key) + ran] && EffectsOf(s, key) == []
    ensures EffectsExact(cfg, t)
  {
    hide HandlersFor;
    assert forall k | k != key :: EffectsOf(t, k) == EffectsOf(s, k);
    assert forall k :: Routed(cfg, s, k) ==> HandlersFor(cfg, t, k) == HandlersFor(cfg, s, k) by {
      SameHandlers(cfg, s, t);
    }
  }

  lemma SameHandlers(cfg: Config, s: State, t: State)
    requires t.rows == s.rows
    ensures forall k :: Routed(cfg, s, k) ==> Routed(cfg, t, k) && HandlersFor(cfg, t, k) == HandlersFor(cfg, s, k)
  {
  }

  lemma CommitResult(cfg: Config, s: State, w: nat)
    requires Enabled(cfg, s, CommitWork(w))
    ensures w in s.workers && s.workers[w].Open? && s.workers[w].holdsClaim && s.workers[w].key.event in s.rows
    ensures |s.workers[w].ran| == |HandlersFor(cfg, s, s.workers[w].key)|
    ensures var o := s.workers[w];
            Do(cfg, s, CommitWork(w)) ==
              s.(keys := s.keys + {o.key}, effects := s.effects[o.key := EffectsOf(s, o.key) + o.ran],
                 commits := s.commits + multiset{o.key}, workers := s.workers[w := Settled(o.key)])
  {
  }

  lemma EffectsUntouched(cfg: Config, s: State, t: State)
    requires EffectsExact(cfg, s) && t.keys == s.keys && t.effects == s.effects && t.commits == s.commits
    requires forall key :: Routed(cfg, s, key) ==>
        Routed(cfg, t, key) && HandlersFor(cfg, t, key) == HandlersFor(cfg, s, key)
    ensures EffectsExact(cfg, t)
  {
  }

  lemma KeepsEffects(cfg: Config, s: State, a: Action)
    requires EffectsExact(cfg, s) && WorkersOk(cfg, s) && Enabled(cfg, s, a)
    ensures EffectsExact(cfg, Do(cfg, s, a))
  {
    hide EffectsExact, WorkersOk, Do, Enabled;
    OutcomesAfter(cfg, s, a);
    if a.CommitWork? {
      EffectsAfterCommit(cfg, s, a.w);
    } else {
      RowsPersist(cfg, s, a);
      EffectsUntouched(cfg, s, Do(cfg, s, a));
    }
  }

  lemma KeepsAttempts(cfg: Config, s: State, a: Action)
    requires ClaimsHold(s) && AttemptsBounded(cfg, s) && Enabled(cfg, s, a) && cfg.outboxAttempts > 0
    ensures AttemptsBounded(cfg, Do(cfg, s, a))
  {
    hide Do, DoDispatcher, DoWorker, DoElsewhere, Enabled, ClaimsHold;
    Frames(cfg, s, a);
    if OfDispatcher(a) {
      AttemptsByDispatcher(cfg, s, a);
    } else if OfNeither(a) {
      AttemptsElsewhere(cfg, s, a);
    }
  }

  lemma AttemptsByDispatcher(cfg: Config, s: State, a: Action)
    requires ClaimsHold(s) && AttemptsBounded(cfg, s) && Enabled(cfg, s, a) && OfDispatcher(a)
    ensures AttemptsBounded(cfg, DoDispatcher(cfg, s, a))
  {
    hide Locked, DistinctIds, AddJob, Left;
    if a.CommitBatch? {
      assert BatchOk(s, s.dispatchers[a.d]);
    }
  }

  lemma AttemptsElsewhere(cfg: Config, s: State, a: Action)
    requires AttemptsBounded(cfg, s) && Enabled(cfg, s, a) && OfNeither(a) && cfg.outboxAttempts > 0
    ensures AttemptsBounded(cfg, DoElsewhere(cfg, s, a))
  {
    hide Locked, ClaimInFlight, DistinctIds, AddJob, AddLetter;
  }

  // ----- Single steps -----

  /** What a publish that goes through does. */
  lemma PublishGoes(cfg: Config, s: State, d: nat)
    requires HasNext(s, d) && NextEvent(s, d) in s.rows
    ensures KeyOf(cfg, s, NextEvent(s, d)).queue in cfg.registered ==>
              && Enabled(cfg, s, PublishOk(d))
              && var p, id := s.dispatchers[d], NextEvent(s, d);
              Do(cfg, s, PublishOk(d)) ==
                s.(jobs := AddJob(s.jobs, KeyOf(cfg, s, id)),
                   dispatchers := s.dispatchers[d := p.(next := p.next + 1, delivered := p.delivered + [id])])
  {
    hide AddJob;
  }

  /** What a publish that throws does, be it after the job was added. */
  lemma PublishFails(cfg: Config, s: State, d: nat, added: bool)
    requires HasNext(s, d) && NextEvent(s, d) in s.rows
    ensures (added ==> KeyOf(cfg, s, NextEvent(s, d)).queue in cfg.registered) ==>
              && Enabled(cfg, s, PublishThrows(d, added))
              && var p, id := s.dispatchers[d], NextEvent(s, d);
              Do(cfg, s, PublishThrows(d, added)) ==
                s.(jobs := if added then AddJob(s.jobs, KeyOf(cfg, s, id)) else s.jobs,
                   dispatchers := s.dispatchers[d := p.(next := p.next + 1, failed := p.failed + [id])])
  {
    hide AddJob;
  }

  lemma ClaimTaken(cfg: Config, s: State, d: nat, batch: seq<EventId>)
    requires Enabled(cfg, s, ClaimBatch(d, batch))
    ensures Do(cfg, s, ClaimBatch(d, batch)) == s.(dispatchers := s.dispatchers[d := Publishing(batch, 0, [], [])])
    ensures forall i :: 0 <= i < |batch| ==> batch[i] in s.rows
  {
    hide Locked, DistinctIds;
  }

  lemma MayCommitBatch(cfg: Config, s: State, d: nat)
    requires d in s.dispatchers && s.dispatchers[d].Publishing? && s.dispatchers[d].next == |s.dispatchers[d].claimed|
    ensures Enabled(cfg, s, CommitBatch(d))
  {
  }

  /** What the steps of one transaction of a worker do to it and to what is committed. */
  lemma WorkerSteps(cfg: Config, s: State, w: nat)
    requires w in s.workers && s.workers[w].Open? && s.workers[w].key.event in s.rows
    ensures var o := s.workers[w];
            && Enabled(cfg, s, Throw(w))
            && Do(cfg, s, Throw(w)) == s.(workers := s.workers[w := Broken(o.key)])
            && (o.holdsClaim && |o.ran| < |HandlersFor(cfg, s, o.key)| ==>
                  && Enabled(cfg, s, RunHandler(w))
                  && Do(cfg, s, RunHandler(w)) ==
                     s.(workers := s.workers[w := o.(ran := o.ran + [HandlersFor(cfg, s, o.key)[|o.ran|]])]))
  {
    hide HandlersFor;
  }

  lemma ClaimStep(cfg: Config, s: State, w: nat)
    requires w in s.workers && s.workers[w].Open? && !s.workers[w].holdsClaim && !ClaimInFlight(s, s.workers[w].key)
    ensures Enabled(cfg, s, ClaimKey(w))
    ensures var key := s.workers[w].key;
            Do(cfg, s, ClaimKey(w)) ==
              s.(workers := s.workers[w := if key in s.keys then Settled(key) else Open(key, true, [])])
  {
    hide ClaimInFlight;
  }

  lemma MayCommit(cfg: Config, s: State, w: nat)
    requires w in s.workers && s.workers[w].Open? && s.workers[w].holdsClaim && s.workers[w].key.event in s.rows
    requires |s.workers[w].ran| == |HandlersFor(cfg, s, s.workers[w].key)|
    ensures Enabled(cfg, s, CommitWork(w))
  {
    hide HandlersFor;
  }
}
