/**
 `dispatchOnce` and `processEnvelope` as the code that takes the spine's steps.
 Every database commit and queue command below is one action of the state
 machine, so whatever these methods do is a run, and every run-wide guarantee
 applies to them.
 */
module ReliabilityProcess {
  import opened Characters
  import opened ReliabilitySpine
  import opened ReliabilitySteps
  import opened ReliabilityTheorems

  /** How one call to the queue went. It may throw after the job was added. */
  datatype Fate = Accepts | Throws(added: bool)

  datatype Outcome =
    | Processed(handlers: nat, results: seq<HandlerName>)
    | Duplicate
    | Threw

  /** What the operator asks to have replayed. */
  datatype ReplayRequest = ById(key: Key) | OfKind(kind: Kind) | Everything

  datatype BatchResult = BatchResult(claimed: nat, dispatched: nat, failed: nat)

  /** The publish succeeds: a queue is registered for the event and took the job. */
  predicate Goes(cfg: Config, row: Row, fate: Fate) {
    cfg.home(row.kind) in cfg.registered && fate.Accepts?
  }

  /** The events of a batch whose publish went (or did not go) through, in order. */
  function Split(cfg: Config, rows: map<EventId, Row>, batch: seq<EventId>, fates: seq<Fate>,
      went: bool): (r: seq<EventId>)
    requires |batch| == |fates| && forall i :: 0 <= i < |batch| ==> batch[i] in rows
    ensures forall id :: id in r ==> id in batch
  {
    if batch == [] then []
    else
      var n := |batch| - 1;
      var r := Split(cfg, rows, batch[..n], fates[..n], went);
      if Goes(cfg, rows[batch[n]], fates[n]) == went then r + [batch[n]] else r
  }

  lemma SplitNone(cfg: Config, rows: map<EventId, Row>, went: bool)
    ensures Split(cfg, rows, [], [], went) == []
  {
  }

  lemma SplitSnoc(cfg: Config, rows: map<EventId, Row>, batch: seq<EventId>, fates: seq<Fate>, i: nat, went: bool)
    requires |batch| == |fates| && (forall i :: 0 <= i < |batch| ==> batch[i] in rows) && i < |batch|
    ensures Split(cfg, rows, batch[..i + 1], fates[..i + 1], went)
         == Split(cfg, rows, batch[..i], fates[..i], went)
            + (if Goes(cfg, rows[batch[i]], fates[i]) == went then [batch[i]] else [])
  {
    assert batch[..i + 1][..i] == batch[..i] && fates[..i + 1][..i] == fates[..i];
  }

  lemma {:induction false} SplitMembers(cfg: Config, rows: map<EventId, Row>, batch: seq<EventId>, fates: seq<Fate>,
      went: bool, i: nat)
    requires |batch| == |fates| && (forall i :: 0 <= i < |batch| ==> batch[i] in rows)
    requires DistinctIds(batch) && i < |batch|
    ensures batch[i] in Split(cfg, rows, batch, fates, went) <==> Goes(cfg, rows[batch[i]], fates[i]) == went
    decreases |batch|
  {
    var n := |batch| - 1;
    if i < n {
      SplitMembers(cfg, rows, batch[..n], fates[..n], went, i);
    }
  }

  lemma {:induction false} SplitCounts(cfg: Config, rows: map<EventId, Row>, batch: seq<EventId>, fates: seq<Fate>)
    requires |batch| == |fates| && (forall i :: 0 <= i < |batch| ==> batch[i] in rows)
    ensures |Split(cfg, rows, batch, fates, true)| + |Split(cfg, rows, batch, fates, false)| == |batch|
    decreases |batch|
  {
    if batch != [] {
      SplitCounts(cfg, rows, batch[..|batch| - 1], fates[..|batch| - 1]);
    }
  }

  lemma {:induction false} SplitDistinct(cfg: Config, rows: map<EventId, Row>, batch: seq<EventId>, fates: seq<Fate>,
      went: bool)
    requires |batch| == |fates| && (forall i :: 0 <= i < |batch| ==> batch[i] in rows) && DistinctIds(batch)
    ensures DistinctIds(Split(cfg, rows, batch, fates, went))
    decreases |batch|
  {
    if batch != [] {
      var n := |batch| - 1;
      SplitDistinct(cfg, rows, batch[..n], fates[..n], went);
      var r := Split(cfg, rows, batch[..n], fates[..n], went);
      forall i | 0 <= i < |r|
        ensures r[i] != batch[n]
      {
        assert r[i] in batch[..n];
      }
    }
  }

  /** The row after its publish went through, or after the failure was recorded. */
  function Settle(cfg: Config, row: Row, fate: Fate): Row {
    if Goes(cfg, row, fate) then row.(status := Dispatched) else MarkFailed(row, cfg.outboxAttempts)
  }

  predicate Wanted(letter: Letter, key: Key, request: ReplayRequest) {
    match request
    case ById(id) => key == id
    case OfKind(kind) => letter.envelope.Some? && letter.envelope.value.kind == kind
    case Everything => true
  }

  function Selected(letters: map<Key, Letter>, jobs: seq<Key>, request: ReplayRequest): (r: seq<Key>)
    requires forall key | key in jobs :: key in letters
    ensures forall key | key in r :: key in letters
  {
    if jobs == [] then []
    else (if Wanted(letters[jobs[0]], jobs[0], request) then [jobs[0]] else []) + Selected(letters, jobs[1..], request)
  }

  /** Of the letters listed, an operator's request selects the one named, those of a kind, or all. */
  lemma {:induction false} SelectedExactly(letters: map<Key, Letter>, jobs: seq<Key>, request: ReplayRequest)
    requires forall key | key in jobs :: key in letters
    ensures forall key :: key in Selected(letters, jobs, request) <==>
              && key in jobs
              && (request.ById? ==> key == request.key)
              && (request.OfKind? ==> letters[key].envelope.Some? && letters[key].envelope.value.kind == request.kind)
  {
    if jobs != [] {
      SelectedExactly(letters, jobs[1..], request);
      assert forall key :: key in jobs <==> key == jobs[0] || key in jobs[1..];
    }
  }

  lemma MarkedRows(rows: map<EventId, Row>, ids: seq<EventId>)
    ensures MarkDispatched(rows, ids).Keys == rows.Keys
    ensures forall id :: id in rows ==> MarkDispatched(rows, ids)[id].kind == rows[id].kind
  {
  }

  /**
   Once what went through is marked and what did not has failed, every row of the batch is settled, and no
   other changed.
   */
  lemma BatchSettled(cfg: Config, rows: map<EventId, Row>, after: map<EventId, Row>, batch: seq<EventId>,
      fates: seq<Fate>)
    requires |batch| == |fates| && (forall i :: 0 <= i < |batch| ==> batch[i] in rows) && DistinctIds(batch)
    requires after.Keys == rows.Keys
    requires forall id :: id in rows ==>
               var marked := MarkDispatched(rows, Split(cfg, rows, batch, fates, true))[id];
               after[id] == if id in Split(cfg, rows, batch, fates, false)
                   then MarkFailed(marked, cfg.outboxAttempts) else marked
    ensures forall i :: 0 <= i < |batch| ==> after[batch[i]] == Settle(cfg, rows[batch[i]], fates[i])
    ensures forall i :: 0 <= i < |batch| && Goes(cfg, rows[batch[i]], fates[i]) ==>
        batch[i] in Split(cfg, rows, batch, fates, true)
    ensures forall id :: id in rows && id !in batch ==> after[id] == rows[id]
    ensures forall id :: id in rows ==> after[id].kind == rows[id].kind
  {
    hide Split, Goes;
    forall i | 0 <= i < |batch|
      ensures after[batch[i]] == Settle(cfg, rows[batch[i]], fates[i])
      ensures Goes(cfg, rows[batch[i]], fates[i]) ==> batch[i] in Split(cfg, rows, batch, fates, true)
    {
      SplitMembers(cfg, rows, batch, fates, true, i);
      SplitMembers(cfg, rows, batch, fates, false, i);
    }
  }

  class Runtime {
    const cfg: Config
    var s: State
    ghost var trace: seq<Action>

    ghost predicate Valid()
      reads this
    {
      Runs(cfg, EMPTY, trace, s)
    }

    constructor (cfg: Config)
      ensures Valid() && this.cfg == cfg && s == EMPTY
    {
      this.cfg := cfg;
      s := EMPTY;
      trace := [];
    }

    method Act(a: Action)
      requires Valid() && Enabled(cfg, s, a)
      modifies this
      ensures Valid() && s == Do(cfg, old(s), a)
    {
      RunThen(cfg, EMPTY, trace, s, a);
      s := Do(cfg, s, a);
      trace := trace + [a];
    }

    /** One call to `publish`, whose error the batch loop catches. */
    method PublishNext(d: nat, fate: Fate) returns (went: bool)
      requires Valid() && HasNext(s, d) && NextEvent(s, d) in s.rows
      modifies this
      ensures Valid() && s.rows == old(s.rows)
      ensures went == (cfg.home(old(s.rows[NextEvent(s, d)]).kind) in cfg.registered && fate.Accepts?)
      ensures var p, id := old(s.dispatchers[d]), old(NextEvent(s, d));
              s.dispatchers == old(s.dispatchers)[d :=
                Publishing(p.claimed, p.next + 1,
                           if went then p.delivered + [id] else p.delivered,
                           if went then p.failed else p.failed + [id])]
      ensures s.keys == old(s.keys) && s.effects == old(s.effects) && s.workers == old(s.workers)
      ensures forall key :: key in old(s.jobs) ==> key in s.jobs && s.jobs[key] == old(s.jobs)[key]
      ensures went ==> KeyOf(cfg, s, old(NextEvent(s, d))) in s.jobs
    {
      hide Valid, Runs, Do, Enabled;
      PublishGoes(cfg, s, d);
      PublishFails(cfg, s, d, false);
      PublishFails(cfg, s, d, true);
      var queue := KeyOf(cfg, s, NextEvent(s, d)).queue;
      went := queue in cfg.registered && fate.Accepts?;
      if went {
        Act(PublishOk(d));
      } else {
        Act(PublishThrows(d, queue in cfg.registered && fate.Throws? && fate.added));
      }
    }

    /** Publishes the claimed batch event by event, still inside the claim transaction. */
    method PublishBatch(d: nat, batch: seq<EventId>, fates: seq<Fate>)
      returns (dispatchedIds: seq<EventId>, failures: seq<EventId>)
      requires Valid() && |fates| == |batch|
      requires forall i :: 0 <= i < |batch| ==> batch[i] in s.rows
      requires d in s.dispatchers && s.dispatchers[d] == Publishing(batch, 0, [], [])
      modifies this
      ensures Valid() && s.rows == old(s.rows)
      ensures dispatchedIds == Split(cfg, old(s.rows), batch, fates, true)
      ensures failures == Split(cfg, old(s.rows), batch, fates, false)
      ensures s.dispatchers == old(s.dispatchers)[d := Publishing(batch, |batch|, dispatchedIds, failures)]
      ensures s.keys == old(s.keys) && s.effects == old(s.effects) && s.workers == old(s.workers)
      ensures forall key :: key in old(s.jobs) ==> key in s.jobs && s.jobs[key] == old(s.jobs)[key]
      ensures forall id :: id in dispatchedIds ==> KeyOf(cfg, s, id) in s.jobs
    {
      hide Valid, Runs, Split;
      SplitNone(cfg, s.rows, true);
      SplitNone(cfg, s.rows, false);
      dispatchedIds, failures := [], [];
      var i := 0;
      while i < |batch|
        invariant i <= |batch|
        invariant Valid() && s.rows == old(s.rows)
        invariant dispatchedIds == Split(cfg, old(s.rows), batch[..i], fates[..i], true)
        invariant failures == Split(cfg, old(s.rows), batch[..i], fates[..i], false)
        invariant s.dispatchers == old(s.dispatchers)[d := Publishing(batch, i, dispatchedIds, failures)]
        invariant s.keys == old(s.keys) && s.effects == old(s.effects) && s.workers == old(s.workers)
        invariant forall key :: key in old(s.jobs) ==> key in s.jobs && s.jobs[key] == old(s.jobs)[key]
        invariant forall id :: id in dispatchedIds ==> KeyOf(cfg, s, id) in s.jobs
      {
        SplitSnoc(cfg, s.rows, batch, fates, i, true);
        SplitSnoc(cfg, s.rows, batch, fates, i, false);
        var went := PublishNext(d, fates[i]);
        if went {
          dispatchedIds := dispatchedIds + [batch[i]];
        } else {
          failures := failures + [batch[i]];
        }
        i := i + 1;
      }
      assert batch[..i] == batch && fates[..i] == fates;
    }

    method RecordNext(d: nat)
      requires Valid() && Enabled(cfg, s, RecordFailure(d))
      modifies this
      ensures Valid()
      ensures var id := old(s.dispatchers[d].failed[0]);
              s.rows == old(s.rows)[id := MarkFailed(old(s.rows[id]), cfg.outboxAttempts)]
      ensures s.dispatchers == Left(old(s.dispatchers), d, old(s.dispatchers[d].failed[1..]))
      ensures s.jobs == old(s.jobs) && s.keys == old(s.keys) && s.effects == old(s.effects)
      ensures s.workers == old(s.workers)
    {
      hide Valid, Runs;
      Act(RecordFailure(d));
    }

    /** After the batch has committed, each failure is recorded in a transaction of its own. */
    method RecordFailures(d: nat, failures: seq<EventId>)
      requires Valid() && cfg.outboxAttempts > 0
      requires DistinctIds(failures) && forall id :: id in failures ==> id in s.rows && !Locked(s, id)
      requires s.dispatchers == Left(s.dispatchers, d, failures)
      modifies this
      ensures Valid()
      ensures forall id :: id in s.rows <==> id in old(s.rows)
      ensures forall id :: id in old(s.rows) ==>
                s.rows[id] == if id in failures then MarkFailed(old(s.rows)[id], cfg.outboxAttempts)
                    else old(s.rows)[id]
      ensures s.dispatchers == old(s.dispatchers) - {d}
      ensures s.jobs == old(s.jobs) && s.keys == old(s.keys) && s.effects == old(s.effects)
      ensures s.workers == old(s.workers)
    {
      hide Valid, Runs, Do, MarkFailed;
      var i := 0;
      while i < |failures|
        invariant i <= |failures|
        invariant Valid()
        invariant forall id :: id in s.rows <==> id in old(s.rows)
        invariant forall id :: id in old(s.rows) ==>
                s.rows[id] == if id in failures[..i] then MarkFailed(old(s.rows)[id], cfg.outboxAttempts)
                    else old(s.rows)[id]
        invariant s.dispatchers == Left(old(s.dispatchers), d, failures[i..])
        invariant s.jobs == old(s.jobs) && s.keys == old(s.keys) && s.effects == old(s.effects)
        invariant s.workers == old(s.workers)
      {
        assert failures[i] !in failures[..i];
        assert failures[i..][1..] == failures[i + 1..];
        assert forall id :: Locked(s, id) ==> old(Locked(s, id));
        RecordNext(d);
        i := i + 1;
      }
    }

    /** The claim transaction: lock the batch, publish it, mark what went through. */
    method ClaimTransaction(d: nat, batch: seq<EventId>, fates: seq<Fate>)
      returns (dispatchedIds: seq<EventId>, failures: seq<EventId>)
      requires Valid() && |fates| == |batch|
      requires d !in s.dispatchers && Enabled(cfg, s, ClaimBatch(d, batch))
      modifies this
      ensures Valid()
      ensures dispatchedIds == Split(cfg, old(s.rows), batch, fates, true)
      ensures failures == Split(cfg, old(s.rows), batch, fates, false)
      ensures s.rows == MarkDispatched(old(s.rows), dispatchedIds)
      ensures s.dispatchers == Left(old(s.dispatchers), d, failures)
      ensures s.keys == old(s.keys) && s.effects == old(s.effects) && s.workers == old(s.workers)
      ensures forall key :: key in old(s.jobs) ==> key in s.jobs && s.jobs[key] == old(s.jobs)[key]
      ensures forall id :: id in dispatchedIds ==> KeyOf(cfg, s, id) in s.jobs
    {
      hide Valid, Runs, Split, Do, Enabled;
      ClaimTaken(cfg, s, d, batch);
      Act(ClaimBatch(d, batch));
      dispatchedIds, failures := PublishBatch(d, batch, fates);
      MayCommitBatch(cfg, s, d);
      BatchCommitted(cfg, s, d);
      Act(CommitBatch(d));
    }

    /**
     Drains one batch. `batch` is what the skip-locked claim returned, and
     `fates` how each queue call went.
     */
    method DispatchOnce(d: nat, batch: seq<EventId>, fates: seq<Fate>) returns (r: BatchResult)
      requires Valid() && cfg.outboxAttempts > 0 && |fates| == |batch|
      requires d !in s.dispatchers && (batch != [] ==> Enabled(cfg, s, ClaimBatch(d, batch)))
      modifies this
      ensures Valid()
      ensures r.claimed == |batch| && r.dispatched + r.failed == r.claimed
      ensures batch != [] ==> r.dispatched == |Split(cfg, old(s.rows), batch, fates, true)|
      ensures s.rows.Keys == old(s.rows).Keys
      ensures forall i :: 0 <= i < |batch| ==> s.rows[batch[i]] == Settle(cfg, old(s.rows)[batch[i]], fates[i])
      ensures forall id :: id in old(s.rows) && id !in batch ==> s.rows[id] == old(s.rows)[id]
      ensures forall i :: 0 <= i < |batch| && Goes(cfg, old(s.rows)[batch[i]], fates[i]) ==>
          KeyOf(cfg, s, batch[i]) in s.jobs
      ensures forall key :: key in old(s.jobs) ==> key in s.jobs && s.jobs[key] == old(s.jobs)[key]
      ensures s.keys == old(s.keys) && s.effects == old(s.effects)
      ensures s.workers == old(s.workers) && s.dispatchers == old(s.dispatchers)
    {
      hide Valid, Runs, Do, Split, Goes, Settle, MarkFailed, MarkDispatched;
      if batch == [] {
        return BatchResult(0, 0, 0);
      }
      ghost var rows, dispatchers := s.rows, s.dispatchers;
      SplitCounts(cfg, rows, batch, fates);
      SplitDistinct(cfg, rows, batch, fates, false);
      var dispatchedIds, failures := ClaimTransaction(d, batch, fates);
      assert forall id :: Locked(s, id) ==> old(Locked(s, id));
      MarkedRows(rows, dispatchedIds);
      RecordFailures(d, failures);
      BatchSettled(cfg, rows, s.rows, batch, fates);
      return BatchResult(|batch|, |dispatchedIds|, |failures|);
    }

    /**
     One delivery of one event, in one transaction. `throwsAt` is the handler
     that throws, if any; past the last handler it is the result write.
     */
    method ProcessEnvelope(w: nat, throwsAt: nat) returns (r: Outcome)
      requires Valid()
      requires w in s.workers && s.workers[w].Open? && !s.workers[w].holdsClaim
      requires !ClaimInFlight(s, s.workers[w].key) && s.workers[w].key.event in s.rows
      modifies this
      ensures Valid()
      ensures var key, handlers := old(s.workers[w].key), old(HandlersFor(cfg, s, s.workers[w].key));
              match r
              case Duplicate => key in old(s.keys) && s.keys == old(s.keys) && s.effects == old(s.effects)
              case Threw => key !in old(s.keys) && throwsAt <= |handlers| && s.keys == old(s.keys)
                  && s.effects == old(s.effects)
              case Processed(n, results) =>
                && key !in old(s.keys) && throwsAt > |handlers|
                && n == |handlers| && results == handlers
                && s.keys == old(s.keys) + {key}
                && s.effects == old(s.effects)[key := old(EffectsOf(s, key)) + handlers]
      ensures s.rows == old(s.rows) && s.jobs == old(s.jobs) && s.dispatchers == old(s.dispatchers)
    {
      hide Valid, Runs, Do, Enabled, ClaimInFlight;
      var key := s.workers[w].key;
      ClaimStep(cfg, s, w);
      Act(ClaimKey(w));
      if s.workers[w].Settled? {
        return Duplicate;
      }
      var handlers := HandlersFor(cfg, s, key);
      var results: seq<HandlerName> := [];
      var i := 0;
      while i < |handlers|
        invariant i <= |handlers| && i <= throwsAt
        invariant Valid() && results == handlers[..i]
        invariant w in s.workers && s.workers[w] == Open(key, true, results)
        invariant s.rows == old(s.rows) && s.jobs == old(s.jobs) && s.dispatchers == old(s.dispatchers)
        invariant s.keys == old(s.keys) && s.effects == old(s.effects)
      {
        WorkerSteps(cfg, s, w);
        if i == throwsAt {
          Act(Throw(w));
          return Threw;
        }
        Act(RunHandler(w));
        results := results + [handlers[i]];
        i := i + 1;
      }
      WorkerSteps(cfg, s, w);
      if i == throwsAt {
        Act(Throw(w));
        return Threw;
      }
      MayCommit(cfg, s, w);
      CommitResult(cfg, s, w);
      Act(CommitWork(w));
      return Processed(|handlers|, results);
    }

    /**
     The operator's replay of dead letters: `jobs` is what the dead-letter queue listed and `typed` the count the
     operator confirmed. A letter without an envelope is skipped, and none has one.
     */
    method ReplayDeadLetters(jobs: seq<Key>, request: ReplayRequest, typed: nat) returns (replayed: int)
      requires Valid() && forall key | key in jobs :: key in s.deadLetters
      modifies this
      ensures Valid() && s == old(s) && replayed == 0
    {
      hide Runs, Selected;
      RunKeepsLettersBare(cfg, EMPTY, trace, s);
      var selected := Selected(s.deadLetters, jobs, request);
      replayed := 0;
      if |selected| == 0 || typed != |selected| {
        return;
      }
      for i := 0 to |selected|
        invariant Valid() && s == old(s) && replayed == 0
      {
        assert selected[i] in selected;
        StepKeepsLettersBare(cfg, s, ReplayLetter(selected[i]));
        var letter := s.deadLetters[selected[i]];
        Act(ReplayLetter(selected[i]));
        replayed := if letter.envelope.Some? then replayed + 1 else replayed;
      }
    }

    /** Gives up on a dead letter, for a reason of at least ten characters, blanks around it not counted. */
    method DropDeadLetter(key: Key, reason: string) returns (dropped: bool)
      requires Valid()
      modifies this
      ensures Valid() && dropped == (key in old(s.deadLetters) && |Trim(reason)| >= 10)
      ensures s == if dropped then old(s).(deadLetters := old(s.deadLetters) - {key}) else old(s)
    {
      hide Valid, Runs, Trim;
      if key !in s.deadLetters || |Trim(reason)| < 10 {
        return false;
      }
      Act(DropLetter(key));
      return true;
    }
  }

  lemma {:induction false} RunThen(cfg: Config, s: State, actions: seq<Action>, t: State, a: Action)
    requires Runs(cfg, s, actions, t) && Enabled(cfg, t, a)
    ensures Runs(cfg, s, actions + [a], Do(cfg, t, a))
    decreases |actions|
  {
    if actions == [] {
      assert [a][1..] == [];
    } else {
      assert (actions + [a])[1..] == actions[1..] + [a];
      RunThen(cfg, Do(cfg, s, actions[0]), actions[1..], t, a);
    }
  }
}
