/**
 The agent's outer loop, seen as what one run records: the turns the model took, the messages and
 steps they leave behind, and why the run ended. The model and the tools may behave in any way.
 */
module AgentRuns {
  import opened Wrappers
  import opened Characters

  type Name = string

  datatype Call = Call(id: string, name: Name, args: string)
  datatype Completion = Completion(text: string, calls: seq<Call>, inputTokens: nat, outputTokens: nat)

  /** What the tool registry answers: a value that may be a refusal, or a failure. */
  datatype ToolResult =
    | Answered(refused: bool, code: Option<string>, reason: Option<string>, shown: string)
    | Failed(kind: string, detail: string)

  datatype Invocation = Invocation(result: ToolResult, handsOff: bool)

  datatype Role = User | Assistant
  datatype Block =
    | Text(text: string)
    | ToolUse(id: string, name: Name, args: string)
    | ToolAnswer(toolUseId: string, content: string, isError: bool)
  datatype Message = Message(role: Role, content: seq<Block>)

  datatype ObjectiveSpec = ObjectiveSpec(key: string, tools: seq<Name>, metWhen: seq<Name>)
  datatype Caps = Caps(maxSteps: nat, wallClockBudgetMs: int, maxTokensPerRun: int)

  /**
   Everything outside the loop, and as adverse as it likes: the model's completion of each step, what a
   tool does at each call of a step, whether a person has taken over, and how long the run has lasted.
   */
  datatype World = World(
    reply: (nat, seq<Message>) -> Completion,
    invoke: (nat, nat) -> Invocation,
    overridden: nat -> bool,
    elapsedMs: nat -> int)

  datatype Verdict = Verdict(checker: string, code: string, reason: string)
  datatype Executed = Executed(
    name: Name, ok: bool, verdict: Option<Verdict>, blockedToHitl: bool, blockedReason: string, block: Block)

  /** One step of a run: what the model said and what came of its calls. */
  datatype Turn = Turn(completion: Completion, executed: seq<Executed>, handedOff: bool)

  datatype RecordedCall = RecordedCall(name: Name, args: string)
  datatype StepRecord = StepRecord(
    stepIndex: nat, responseText: Option<string>, toolCalls: seq<RecordedCall>, toolResults: seq<(Name, bool)>,
    verdicts: seq<Verdict>, inputTokens: nat, outputTokens: nat)

  /** What the audit trail keeps of a step, written together with it. */
  datatype AuditEntry = AuditEntry(
    stepIndex: nat, toolCalls: seq<Name>, toolResults: seq<(Name, bool)>, verdicts: seq<Verdict>,
    inputTokens: nat, outputTokens: nat)

  datatype Outcome = ObjectiveMet | Handoff | Blocked | BudgetExhausted
  datatype Reason =
    | NoReason
    | HandedToAdvisor
    | HumanReplied
    | HeldBack(why: string)
    | WallClockSpent(steps: nat)
    | TokensSpent(steps: nat)
    | StepCapReached
  datatype Report = Report(outcome: Outcome, steps: nat, reason: Reason, inputTokens: nat, outputTokens: nat,
      overridden: bool)

  const FIRST_TURN := Message(User, [Text("Begin. Call the tools you need.")])
  const NUDGE := Message(User, [Text("That was not a tool call, so nothing happened. Call a tool or hand off.")])

  // ----- One step -----

  predicate Permitted(spec: ObjectiveSpec, call: Call) {
    call.name in spec.tools
  }

  function OrElse(o: Option<string>, default: string): string {
    if o.Some? then o.value else default
  }

  function Execute(spec: ObjectiveSpec, call: Call, answer: ToolResult, refusal: string): Executed {
    if !Permitted(spec, call) then
      Executed(call.name, false, Some(Verdict("objective-scope", "TOOL_NOT_PERMITTED", refusal)), false, "",
               ToolAnswer(call.id, refusal, true))
    else
      match answer
      case Failed(kind, detail) =>
        Executed(call.name, false, Some(Verdict("tool-registry", kind, detail)), false, "",
            ToolAnswer(call.id, detail, true))
      case Answered(refused, code, reason, shown) =>
        var held := refused && code == Some("BLOCKED_TO_HITL");
        Executed(call.name, !refused,
                 if refused then Some(Verdict("tool-guardrail", OrElse(code, "REFUSED"), OrElse(reason, ""))) else None,
                 held, if held then OrElse(reason, "") else "", ToolAnswer(call.id, shown, refused))
  }

  /** The refusal of a call outside the objective's tools names the objective. */
  function Refusal(spec: ObjectiveSpec, call: Call): string {
    "\"" + call.name + "\" is not available for the " + spec.key + " objective. Available: " + Join(spec.tools, ", ")
        + "."
  }

  function ExecuteAll(w: World, spec: ObjectiveSpec, step: nat, calls: seq<Call>): seq<Executed> {
    seq(|calls|, i requires 0 <= i < |calls| =>
      Execute(spec, calls[i], w.invoke(step, i).result, Refusal(spec, calls[i])))
  }

  /** Some call that reached a tool handed the conversation over. */
  predicate AnyHandsOff(w: World, spec: ObjectiveSpec, step: nat, calls: seq<Call>) {
    exists i | 0 <= i < |calls| :: Permitted(spec, calls[i]) && w.invoke(step, i).handsOff
  }

  /** The messages a step sends to the model. */
  function Request(transcript: seq<Message>): seq<Message> {
    if transcript == [] then [FIRST_TURN] else transcript
  }

  function TurnAt(w: World, spec: ObjectiveSpec, step: nat, transcript: seq<Message>): Turn {
    var completion := w.reply(step, Request(transcript));
    Turn(completion, ExecuteAll(w, spec, step, completion.calls), AnyHandsOff(w, spec, step, completion.calls))
  }

  function CallBlocks(calls: seq<Call>): seq<Block> {
    seq(|calls|, i requires 0 <= i < |calls| => ToolUse(calls[i].id, calls[i].name, calls[i].args))
  }

  function AssistantBlocks(text: string, calls: seq<Call>): seq<Block> {
    (if text == "" then [] else [Text(text)]) + CallBlocks(calls)
  }

  function AnswerBlocks(executed: seq<Executed>): seq<Block> {
    seq(|executed|, i requires 0 <= i < |executed| => executed[i].block)
  }

  function MessagesOf(turn: Turn): seq<Message> {
    var c := turn.completion;
    if c.calls != [] then
      [Message(Assistant, AssistantBlocks(c.text, c.calls)), Message(User, AnswerBlocks(turn.executed))]
    else if c.text != "" then [Message(Assistant, [Text(c.text)]), NUDGE]
    else []
  }

  function Recorded(calls: seq<Call>): seq<RecordedCall> {
    seq(|calls|, i requires 0 <= i < |calls| => RecordedCall(calls[i].name, calls[i].args))
  }

  function Results(executed: seq<Executed>): seq<(Name, bool)> {
    seq(|executed|, i requires 0 <= i < |executed| => (executed[i].name, executed[i].ok))
  }

  function Verdicts(executed: seq<Executed>): seq<Verdict> {
    if executed == [] then []
    else (if executed[0].verdict.Some? then [executed[0].verdict.value] else []) + Verdicts(executed[1..])
  }

  function RecordOf(step: nat, turn: Turn): StepRecord {
    var c := turn.completion;
    StepRecord(step, if c.text == "" then None else Some(c.text), Recorded(c.calls), Results(turn.executed),
               Verdicts(turn.executed), c.inputTokens, c.outputTokens)
  }

  function AuditOf(record: StepRecord): AuditEntry {
    AuditEntry(record.stepIndex,
               seq(|record.toolCalls|, i requires 0 <= i < |record.toolCalls| => record.toolCalls[i].name),
               record.toolResults, record.verdicts, record.inputTokens, record.outputTokens)
  }

  function AuditsOf(log: seq<StepRecord>): seq<AuditEntry> {
    seq(|log|, i requires 0 <= i < |log| => AuditOf(log[i]))
  }

  predicate Succeeds(spec: ObjectiveSpec, entry: Executed) {
    entry.ok && entry.name in spec.metWhen
  }

  predicate AnySucceeds(spec: ObjectiveSpec, turn: Turn) {
    exists i | 0 <= i < |turn.executed| :: Succeeds(spec, turn.executed[i])
  }

  predicate AnyHeld(turn: Turn) {
    exists i | 0 <= i < |turn.executed| :: turn.executed[i].blockedToHitl
  }

  predicate Ends(spec: ObjectiveSpec, turn: Turn) {
    turn.handedOff || AnySucceeds(spec, turn) || AnyHeld(turn)
  }

  // ----- A run -----

  /** The first `n` turns, were nothing to stop the run. */
  function Turns(w: World, spec: ObjectiveSpec, n: nat): (turns: seq<Turn>)
    ensures |turns| == n
  {
    if n == 0 then []
    else
      var before := Turns(w, spec, n - 1);
      before + [TurnAt(w, spec, n - 1, Transcript(before))]
  }

  function Transcript(turns: seq<Turn>): seq<Message> {
    if turns == [] then [] else Transcript(turns[..|turns| - 1]) + MessagesOf(turns[|turns| - 1])
  }

  function Records(turns: seq<Turn>): seq<StepRecord> {
    seq(|turns|, i requires 0 <= i < |turns| => RecordOf(i, turns[i]))
  }

  function InputTokens(turns: seq<Turn>): nat {
    if turns == [] then 0 else InputTokens(turns[..|turns| - 1]) + turns[|turns| - 1].completion.inputTokens
  }

  function OutputTokens(turns: seq<Turn>): nat {
    if turns == [] then 0 else OutputTokens(turns[..|turns| - 1]) + turns[|turns| - 1].completion.outputTokens
  }

  function Tokens(turns: seq<Turn>): nat {
    InputTokens(turns) + OutputTokens(turns)
  }

  /** Something stops the run after these turns: the last one, a cap, or a person. */
  predicate Stops(w: World, spec: ObjectiveSpec, caps: Caps, turns: seq<Turn>) {
    || (turns != [] && Ends(spec, turns[|turns| - 1]))
    || |turns| >= caps.maxSteps
    || w.overridden(|turns|)
    || w.elapsedMs(|turns|) > caps.wallClockBudgetMs
    || Tokens(turns) > caps.maxTokensPerRun
  }

  /** The run takes exactly `n` turns: something stops it then, and nothing did before. */
  ghost predicate Runs(w: World, spec: ObjectiveSpec, caps: Caps, n: nat) {
    Stops(w, spec, caps, Turns(w, spec, n)) && forall k: nat | k < n :: !Stops(w, spec, caps, Turns(w, spec, k))
  }

  /** The first call that was held back for review. */
  function FirstHeld(executed: seq<Executed>): Executed
    requires exists i | 0 <= i < |executed| :: executed[i].blockedToHitl
  {
    if executed[0].blockedToHitl then executed[0] else FirstHeld(executed[1..])
  }

  /** What is reported of a run that stopped after these turns. */
  function ReportOf(w: World, spec: ObjectiveSpec, caps: Caps, turns: seq<Turn>): Report {
    var n, input, output := |turns|, InputTokens(turns), OutputTokens(turns);
    if n > 0 && turns[n - 1].handedOff then Report(Handoff, n, HandedToAdvisor, input, output, false)
    else if n > 0 && AnySucceeds(spec, turns[n - 1]) then Report(ObjectiveMet, n, NoReason, input, output, false)
    else if n > 0 && AnyHeld(turns[n - 1]) then
      Report(Blocked, n, HeldBack(FirstHeld(turns[n - 1].executed).blockedReason), input, output, false)
    else if n >= caps.maxSteps then Report(BudgetExhausted, n, StepCapReached, input, output, false)
    else if w.overridden(n) then Report(Handoff, n, HumanReplied, input, output, true)
    else if w.elapsedMs(n) > caps.wallClockBudgetMs
        then Report(BudgetExhausted, n, WallClockSpent(n), input, output, false)
    else Report(BudgetExhausted, n, TokensSpent(n), input, output, false)
  }

  /** The audit's reading of a persisted run: the tool calls it made, in order. */
  function Replay(log: seq<StepRecord>): seq<RecordedCall> {
    if log == [] then [] else log[0].toolCalls + Replay(log[1..])
  }

  // ----- What happens in what order -----

  datatype Event =
    | Asked(step: nat)
    | Invoked(call: RecordedCall)
    | Persisted(record: StepRecord)

  function PermittedCalls(spec: ObjectiveSpec, calls: seq<Call>): seq<RecordedCall> {
    if calls == [] then []
    else
      PermittedCalls(spec, calls[..|calls| - 1])
      + (if Permitted(spec, calls[|calls| - 1]) then Recorded(calls[|calls| - 1..]) else [])
  }

  function Invocations(calls: seq<RecordedCall>): seq<Event> {
    seq(|calls|, i requires 0 <= i < |calls| => Invoked(calls[i]))
  }

  function EventsOf(spec: ObjectiveSpec, step: nat, turn: Turn): seq<Event> {
    [Asked(step)] + Invocations(PermittedCalls(spec, turn.completion.calls)) + [Persisted(RecordOf(step, turn))]
  }

  function Events(spec: ObjectiveSpec, turns: seq<Turn>): seq<Event> {
    if turns == [] then []
    else Events(spec, turns[..|turns| - 1]) + EventsOf(spec, |turns| - 1, turns[|turns| - 1])
  }

  /** The steps on record after some events. */
  function Log(events: seq<Event>): seq<StepRecord> {
    if events == [] then []
    else
      var last := events[|events| - 1];
      Log(events[..|events| - 1]) + if last.Persisted? then [last.record] else []
  }

  /** The calls that reached a tool in some events. */
  function Effects(events: seq<Event>): seq<RecordedCall> {
    if events == [] then []
    else
      var last := events[|events| - 1];
      Effects(events[..|events| - 1]) + if last.Invoked? then [last.call] else []
  }
}
