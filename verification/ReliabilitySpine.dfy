/**
 The reliability spine: outbox table, queues and consumers as one state machine.

 Dispatchers and workers interleave at the grain of their database commits and
 queue commands, and either may die between any two of them. Postgres is taken
 at its word (atomic transactions, row locks held to commit, claims that skip
 locked rows, a key insert that waits for a rival insert to settle), and so is
 the queue (adding a held job id does nothing).
 */
module ReliabilitySpine {
  import opened Wrappers

  type EventId = nat
  type Kind = nat
  type QueueName = string
  type HandlerName = string

  /** One event at its home queue: the job's address and the consumer's idempotency key. */
  datatype Key = Key(queue: QueueName, event: EventId)

  datatype Config = Config(
    home: Kind -> QueueName,
    handlers: Kind -> seq<HandlerName>,
    registered: set<QueueName>,
    batchSize: nat,
    outboxAttempts: nat,
    queueAttempts: nat)

  datatype RowStatus = Pending | Dispatched | Parked
  datatype Row = Row(kind: Kind, status: RowStatus, attempts: nat)

  /** `Waiting` covers delayed retries. Completed jobs linger before they are dropped; failed ones are kept. */
  datatype JobState = Waiting | Active | Completed | Failed
  datatype Job = Job(state: JobState, attemptsMade: nat)

  /** A dispatcher that is not listed is idle. */
  datatype Dispatcher =
    | Publishing(claimed: seq<EventId>, next: nat, delivered: seq<EventId>, failed: seq<EventId>)
    | Recording(failed: seq<EventId>)

  /** A worker that is not listed is free. `Open` is inside its transaction; the others have left it. */
  datatype Worker =
    | Open(key: Key, holdsClaim: bool, ran: seq<HandlerName>)
    | Settled(key: Key)
    | Broken(key: Key)

  datatype Envelope = Envelope(id: EventId, kind: Kind)

  /** What a failed job leaves in the dead-letter queue, and the envelope that replaying it looks for there. */
  datatype Letter = Letter(attemptsMade: nat, data: EventId, envelope: Option<Envelope>)

  /**
   `replays` are the jobs added under the id of a replay. `commits` counts the transactions committed for a
   key; nothing reads it.
   */
  datatype State = State(
    rows: map<EventId, Row>,
    jobs: map<Key, Job>,
    keys: set<Key>,
    effects: map<Key, seq<HandlerName>>,
    commits: multiset<Key>,
    deadLetters: map<Key, Letter>,
    replays: map<Key, Job>,
    dispatchers: map<nat, Dispatcher>,
    workers: map<nat, Worker>)

  datatype Action =
    | Enqueue(id: EventId, kind: Kind)
    | ClaimBatch(d: nat, batch: seq<EventId>)
    | PublishOk(d: nat)
    | PublishThrows(d: nat, added: bool)
    | CommitBatch(d: nat)
    | RecordFailure(d: nat)
    | CrashDispatcher(d: nat)
    | StrayPublish(id: EventId)
    | Requeue(id: EventId)
    | Take(w: nat, key: Key)
    | Stall(key: Key, exhausted: bool)
    | ClaimKey(w: nat)
    | RunHandler(w: nat)
    | Throw(w: nat)
    | CommitWork(w: nat)
    | FinishJob(w: nat)
    | FailJob(w: nat)
    | DeadLetter(key: Key)
    | ReplayLetter(key: Key)
    | DropLetter(key: Key)
    | DropCompleted(key: Key)
    | CrashWorker(w: nat)

  const EMPTY := State(map[], map[], {}, map[], multiset{}, map[], map[], map[], map[])

  function KeyOf(cfg: Config, s: State, id: EventId): Key
    requires id in s.rows
  {
    Key(cfg.home(s.rows[id].kind), id)
  }

  ghost predicate Locked(s: State, id: EventId) {
    exists d :: d in s.dispatchers && s.dispatchers[d].Publishing? && id in s.dispatchers[d].claimed
  }

  /** Some open transaction has inserted the key and has not settled. */
  ghost predicate ClaimInFlight(s: State, key: Key) {
    exists w :: w in s.workers && s.workers[w].Open? && s.workers[w].key == key && s.workers[w].holdsClaim
  }

  predicate DistinctIds(ids: seq<EventId>) {
    forall i, j :: 0 <= i < j < |ids| ==> ids[i] != ids[j]
  }

  /** A key that some row has, at the queue its kind is routed to. */
  predicate Routed(cfg: Config, s: State, key: Key) {
    key.event in s.rows && key == KeyOf(cfg, s, key.event)
  }

  function HandlersFor(cfg: Config, s: State, key: Key): seq<HandlerName>
    requires key.event in s.rows
  {
    cfg.handlers(s.rows[key.event].kind)
  }

  function EffectsOf(s: State, key: Key): seq<HandlerName> {
    if key in s.effects then s.effects[key] else []
  }

  /** Adding a job whose id the queue still holds, in any state, does nothing. */
  function AddJob(jobs: map<Key, Job>, key: Key): map<Key, Job> {
    if key in jobs then jobs else jobs[key := Job(Waiting, 0)]
  }

  /** The failed job's event is written under `data`, and nothing under `envelope`. */
  function LetterOf(job: Job, key: Key): Letter {
    Letter(job.attemptsMade, key.event, None)
  }

  function AddLetter(letters: map<Key, Letter>, key: Key, letter: Letter): map<Key, Letter> {
    if key in letters then letters else letters[key := letter]
  }

  function MarkDispatched(rows: map<EventId, Row>, ids: seq<EventId>): map<EventId, Row> {
    map id | id in rows :: if id in ids then rows[id].(status := Dispatched) else rows[id]
  }

  function MarkFailed(row: Row, maxAttempts: nat): Row {
    Row(row.kind, if row.attempts + 1 >= maxAttempts then Parked else Pending, row.attempts + 1)
  }

  // ----- Steps -----

  ghost predicate Enabled(cfg: Config, s: State, a: Action) {
    match a
    case Enqueue(id, kind) => id !in s.rows
    case ClaimBatch(d, batch) =>
      && d !in s.dispatchers
      && 0 < |batch| <= cfg.batchSize
      && DistinctIds(batch)
      && forall i :: 0 <= i < |batch| ==>
          batch[i] in s.rows && s.rows[batch[i]].status == Pending && !Locked(s, batch[i])
    case PublishOk(d) =>
      && HasNext(s, d)
      && NextEvent(s, d) in s.rows
      && KeyOf(cfg, s, NextEvent(s, d)).queue in cfg.registered
    case PublishThrows(d, added) =>
      && HasNext(s, d)
      && NextEvent(s, d) in s.rows
      && (added ==> KeyOf(cfg, s, NextEvent(s, d)).queue in cfg.registered)
    case CommitBatch(d) =>
      d in s.dispatchers && s.dispatchers[d].Publishing? && s.dispatchers[d].next == |s.dispatchers[d].claimed|
    case RecordFailure(d) =>
      && d in s.dispatchers && s.dispatchers[d].Recording? && s.dispatchers[d].failed != []
      && s.dispatchers[d].failed[0] in s.rows
      && !Locked(s, s.dispatchers[d].failed[0])
    case CrashDispatcher(d) => d in s.dispatchers
    case StrayPublish(id) => id in s.rows && KeyOf(cfg, s, id).queue in cfg.registered
    case Requeue(id) => id in s.rows && s.rows[id].status == Parked
    case Take(w, key) => w !in s.workers && key in s.jobs && s.jobs[key].state == Waiting
    case Stall(key, exhausted) => key in s.jobs && s.jobs[key].state == Active
    case ClaimKey(w) =>
      && w in s.workers && s.workers[w].Open? && !s.workers[w].holdsClaim
      && !ClaimInFlight(s, s.workers[w].key)
    case RunHandler(w) =>
      && w in s.workers && s.workers[w].Open? && s.workers[w].holdsClaim
      && s.workers[w].key.event in s.rows
      && |s.workers[w].ran| < |HandlersFor(cfg, s, s.workers[w].key)|
    case Throw(w) => w in s.workers && s.workers[w].Open?
    case CommitWork(w) =>
      && w in s.workers && s.workers[w].Open? && s.workers[w].holdsClaim
      && s.workers[w].key.event in s.rows
      && |s.workers[w].ran| == |HandlersFor(cfg, s, s.workers[w].key)|
    case FinishJob(w) => w in s.workers && s.workers[w].Settled?
    case FailJob(w) => w in s.workers && s.workers[w].Broken?
    case DeadLetter(key) => key in s.jobs && s.jobs[key].attemptsMade >= cfg.queueAttempts
    case ReplayLetter(key) => key in s.deadLetters
    case DropLetter(key) => key in s.deadLetters
    case DropCompleted(key) => key in s.jobs && s.jobs[key].state == Completed
    case CrashWorker(w) => w in s.workers
  }

  predicate HasNext(s: State, d: nat) {
    d in s.dispatchers && s.dispatchers[d].Publishing? && s.dispatchers[d].next < |s.dispatchers[d].claimed|
  }

  function NextEvent(s: State, d: nat): EventId
    requires HasNext(s, d)
  {
    s.dispatchers[d].claimed[s.dispatchers[d].next]
  }

  predicate OfDispatcher(a: Action) {
    a.ClaimBatch? || a.PublishOk? || a.PublishThrows? || a.CommitBatch? || a.RecordFailure? || a.CrashDispatcher?
  }

  /** A step of a dispatcher. */
  function DoDispatcher(cfg: Config, s: State, a: Action): State
    requires Enabled(cfg, s, a) && OfDispatcher(a)
  {
    match a
    case ClaimBatch(d, batch) => s.(dispatchers := s.dispatchers[d := Publishing(batch, 0, [], [])])
    case PublishOk(d) =>
      var id, p := NextEvent(s, d), s.dispatchers[d];
      s.(jobs := AddJob(s.jobs, KeyOf(cfg, s, id)),
         dispatchers := s.dispatchers[d := p.(next := p.next + 1, delivered := p.delivered + [id])])
    case PublishThrows(d, added) =>
      var id, p := NextEvent(s, d), s.dispatchers[d];
      s.(jobs := if added then AddJob(s.jobs, KeyOf(cfg, s, id)) else s.jobs,
         dispatchers := s.dispatchers[d := p.(next := p.next + 1, failed := p.failed + [id])])
    case CommitBatch(d) =>
      s.(rows := MarkDispatched(s.rows, s.dispatchers[d].delivered),
         dispatchers := Left(s.dispatchers, d, s.dispatchers[d].failed))
    case RecordFailure(d) =>
      var id := s.dispatchers[d].failed[0];
      s.(rows := s.rows[id := MarkFailed(s.rows[id], cfg.outboxAttempts)],
         dispatchers := Left(s.dispatchers, d, s.dispatchers[d].failed[1..]))
    case CrashDispatcher(d) => s.(dispatchers := s.dispatchers - {d})
  }

  predicate OfWorker(a: Action) {
    a.Take? || a.ClaimKey? || a.RunHandler? || a.Throw? || a.CommitWork? || a.FinishJob? || a.FailJob? || a.CrashWorker?
  }

  /** A step of a worker. */
  function DoWorker(cfg: Config, s: State, a: Action): State
    requires Enabled(cfg, s, a) && OfWorker(a)
  {
    match a
    case Take(w, key) =>
      s.(jobs := s.jobs[key := s.jobs[key].(state := Active)], workers := s.workers[w := Open(key, false, [])])
    case ClaimKey(w) =>
      var key := s.workers[w].key;
      s.(workers := s.workers[w := if key in s.keys then Settled(key) else Open(key, true, [])])
    case RunHandler(w) =>
      var o := s.workers[w];
      s.(workers := s.workers[w := o.(ran := o.ran + [HandlersFor(cfg, s, o.key)[|o.ran|]])])
    case Throw(w) => s.(workers := s.workers[w := Broken(s.workers[w].key)])
    case CommitWork(w) =>
      var o := s.workers[w];
      s.(keys := s.keys + {o.key},
         effects := s.effects[o.key := EffectsOf(s, o.key) + o.ran],
         commits := s.commits + multiset{o.key},
         workers := s.workers[w := Settled(o.key)])
    case FinishJob(w) =>
      var key := s.workers[w].key;
      s.(jobs := if key in s.jobs && s.jobs[key].state == Active then s.jobs[key := s.jobs[key].(state := Completed)]
          else s.jobs,
         workers := s.workers - {w})
    case FailJob(w) =>
      var key := s.workers[w].key;
      s.(jobs := if key in s.jobs && s.jobs[key].state == Active then s.jobs[key := AfterFailure(cfg, s.jobs[key])]
          else s.jobs,
         workers := s.workers - {w})
    case CrashWorker(w) => s.(workers := s.workers - {w})
  }

  predicate OfNeither(a: Action) {
    a.Enqueue? || a.StrayPublish? || a.Requeue? || a.Stall? || a.DeadLetter? || a.ReplayLetter? || a.DropLetter?
        || a.DropCompleted?
  }

  /** A step of the application, of the queue itself or of an operator. */
  function DoElsewhere(cfg: Config, s: State, a: Action): State
    requires Enabled(cfg, s, a) && OfNeither(a)
  {
    match a
    case Enqueue(id, kind) => s.(rows := s.rows[id := Row(kind, Pending, 0)])
    case StrayPublish(id) => s.(jobs := AddJob(s.jobs, KeyOf(cfg, s, id)))
    case Requeue(id) => s.(rows := s.rows[id := s.rows[id].(status := Pending, attempts := 0)])
    case Stall(key, exhausted) =>
      s.(jobs := s.jobs[key := s.jobs[key].(state := if exhausted then Failed else Waiting)])
    case DeadLetter(key) => s.(deadLetters := AddLetter(s.deadLetters, key, LetterOf(s.jobs[key], key)))
    case ReplayLetter(key) =>
      (match s.deadLetters[key].envelope
       case None => s
       case Some(e) => s.(replays := AddJob(s.replays, Key(cfg.home(e.kind), e.id)),
                           deadLetters := s.deadLetters - {key}))
    case DropLetter(key) => s.(deadLetters := s.deadLetters - {key})
    case DropCompleted(key) => s.(jobs := s.jobs - {key})
  }

  function Do(cfg: Config, s: State, a: Action): State
    requires Enabled(cfg, s, a)
  {
    if OfDispatcher(a) then DoDispatcher(cfg, s, a)
    else if OfWorker(a) then DoWorker(cfg, s, a)
    else DoElsewhere(cfg, s, a)
  }

  /** Past its claim transaction, a dispatcher has these failures left to record, and is idle once there are none. */
  function Left(dispatchers: map<nat, Dispatcher>, d: nat, failed: seq<EventId>): map<nat, Dispatcher> {
    if failed == [] then dispatchers - {d} else dispatchers[d := Recording(failed)]
  }

  function AfterFailure(cfg: Config, job: Job): Job {
    Job(if job.attemptsMade + 1 >= cfg.queueAttempts then Failed else Waiting, job.attemptsMade + 1)
  }

  // ----- Runs -----

  /** The actions, each enabled when taken, lead from `s` to `t`. */
  ghost predicate Runs(cfg: Config, s: State, actions: seq<Action>, t: State)
    decreases |actions|
  {
    if actions == [] then s == t
    else Enabled(cfg, s, actions[0]) && Runs(cfg, Do(cfg, s, actions[0]), actions[1..], t)
  }

  // ----- What every state keeps -----

  /** The event is at its queue with work still owed, or its work is already committed. */
  predicate Safe(cfg: Config, s: State, id: EventId)
    requires id in s.rows
  {
    var key := KeyOf(cfg, s, id);
    key in s.keys || (key in s.jobs && s.jobs[key].state != Completed)
  }

  /** A batch is distinct pending rows: the ones delivered, the ones that failed, the ones still to come. */
  ghost predicate BatchOk(s: State, p: Dispatcher)
    requires p.Publishing?
  {
    && DistinctIds(p.claimed)
    && p.next <= |p.claimed|
    && (forall id :: id in p.claimed ==> id in s.rows && s.rows[id].status == Pending)
    && (forall id :: id in p.delivered ==> id in p.claimed)
    && (forall id :: id in p.failed ==> id in p.claimed)
    && |p.delivered| + |p.failed| == p.next
  }

  ghost predicate Disjoint(p: Dispatcher, q: Dispatcher)
    requires p.Publishing? && q.Publishing?
  {
    forall id :: id in p.claimed ==> id !in q.claimed
  }

  ghost predicate ClaimsHold(s: State) {
    && (forall d :: d in s.dispatchers && s.dispatchers[d].Publishing? ==> BatchOk(s, s.dispatchers[d]))
    && (forall d :: d in s.dispatchers ==> forall id :: id in s.dispatchers[d].failed ==> id in s.rows)
    && (forall d, e | d in s.dispatchers && e in s.dispatchers && d != e ::
          s.dispatchers[d].Publishing? && s.dispatchers[e].Publishing? ==> Disjoint(s.dispatchers[d], s.dispatchers[e]))
  }

  ghost predicate DeliveriesSafe(cfg: Config, s: State) {
    && (forall id :: id in s.rows && s.rows[id].status == Dispatched ==> Safe(cfg, s, id))
    && (forall d, id :: d in s.dispatchers && s.dispatchers[d].Publishing? && id in s.dispatchers[d].delivered ==>
          id in s.rows && Safe(cfg, s, id))
  }

  ghost predicate JobsRouted(cfg: Config, s: State) {
    && (forall key :: key in s.jobs ==> Routed(cfg, s, key))
    && (forall key :: key in s.jobs && s.jobs[key].state == Completed ==> key in s.keys)
    && (forall key :: key in s.deadLetters ==> Routed(cfg, s, key))
  }

  predicate Holds(o: Worker, key: Key) {
    o.Open? && o.holdsClaim && o.key == key
  }

  ghost predicate WorkerOk(cfg: Config, s: State, o: Worker) {
    && Routed(cfg, s, o.key)
    && (o.Settled? ==> o.key in s.keys)
    && (Holds(o, o.key) ==> o.key !in s.keys && o.ran <= HandlersFor(cfg, s, o.key))
  }

  ghost predicate WorkersOk(cfg: Config, s: State) {
    && (forall w :: w in s.workers ==> WorkerOk(cfg, s, s.workers[w]))
    && (forall w, v | w in s.workers && v in s.workers && w != v ::
          Holds(s.workers[w], s.workers[w].key) ==> !Holds(s.workers[v], s.workers[w].key))
  }

  /** Transactional effects: every handler of the event, once and in order, exactly when the key is claimed. */
  ghost predicate EffectsExact(cfg: Config, s: State) {
    && (forall key :: key in s.keys ==> Routed(cfg, s, key))
    && (forall key :: key in s.effects ==> key in s.keys)
    && (forall key :: key in s.keys ==> EffectsOf(s, key) == HandlersFor(cfg, s, key))
    && (forall key :: s.commits[key] == if key in s.keys then 1 else 0)
  }

  predicate RowOk(cfg: Config, row: Row) {
    row.status == Parked <==> row.attempts >= cfg.outboxAttempts
  }

  ghost predicate AttemptsBounded(cfg: Config, s: State) {
    forall id :: id in s.rows ==> RowOk(cfg, s.rows[id])
  }

  ghost predicate Invariant(cfg: Config, s: State) {
    && ClaimsHold(s)
    && DeliveriesSafe(cfg, s)
    && JobsRouted(cfg, s)
    && WorkersOk(cfg, s)
    && EffectsExact(cfg, s)
    && AttemptsBounded(cfg, s)
  }
}
