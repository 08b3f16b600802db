/**
 The runner as it works: a loop that asks, executes, persists and decides, over one run's state.
 Its log, its events and its report are those AgentRuns gives the turns it took.
 */
module AgentRunner {
  import opened Wrappers
  import opened AgentRuns
  import opened AgentRunTheorems

  class Runner {
    const world: World
    const spec: ObjectiveSpec
    const caps: Caps

    var log: seq<StepRecord>
    var audit: seq<AuditEntry>
    var transcript: seq<Message>
    var handedOff: bool
    var finished: Option<Report>
    ghost var events: seq<Event>

    constructor (world: World, spec: ObjectiveSpec, caps: Caps)
      ensures this.world == world && this.spec == spec && this.caps == caps
      ensures log == [] && audit == [] && transcript == [] && !handedOff && finished == None && events == []
    {
      this.world, this.spec, this.caps := world, spec, caps;
      log, audit, transcript, handedOff, finished, events := [], [], [], false, None, [];
    }

    /** Runs one turn's calls in order; one the objective may not use never reaches a tool. */
    method ExecuteCalls(step: nat, calls: seq<Call>) returns (executed: seq<Executed>)
      modifies this`handedOff, this`events
      ensures executed == ExecuteAll(world, spec, step, calls)
      ensures handedOff == (old(handedOff) || AnyHandsOff(world, spec, step, calls))
      ensures events == old(events) + Invocations(PermittedCalls(spec, calls))
    {
      hide PermittedCalls, Invocations, Refusal, OrElse;
      executed := [];
      PermittedNone(spec);
      for i := 0 to |calls|
        invariant |executed| == i
        invariant forall j | 0 <= j < i ::
                    executed[j] == Execute(spec, calls[j], world.invoke(step, j).result, Refusal(spec, calls[j]))
        invariant handedOff == (old(handedOff) || exists j | 0 <= j < i ::
                    Permitted(spec, calls[j]) && world.invoke(step, j).handsOff)
        invariant events == old(events) + Invocations(PermittedCalls(spec, calls[..i]))
      {
        var call := calls[i];
        PermittedNext(spec, calls, i);
        if call.name !in spec.tools {
          var detail := Refusal(spec, call);
          executed := executed
              + [Executed(call.name, false, Some(Verdict("objective-scope", "TOOL_NOT_PERMITTED", detail)),
                                           false, "", ToolAnswer(call.id, detail, true))];
          continue;
        }
        events := events + [Invoked(RecordedCall(call.name, call.args))];
        var invocation := world.invoke(step, i);
        handedOff := handedOff || invocation.handsOff;
        if invocation.result.Failed? {
          var detail := invocation.result.detail;
          executed := executed
              + [Executed(call.name, false, Some(Verdict("tool-registry", invocation.result.kind, detail)),
                                           false, "", ToolAnswer(call.id, detail, true))];
          continue;
        }
        var value := invocation.result;
        var blockedToHitl := value.refused && value.code == Some("BLOCKED_TO_HITL");
        var verdict := None;
        if value.refused {
          verdict := Some(Verdict("tool-guardrail", OrElse(value.code, "REFUSED"), OrElse(value.reason, "")));
        }
        executed := executed + [Executed(call.name, !value.refused, verdict, blockedToHitl,
                                         if blockedToHitl then OrElse(value.reason, "") else "",
                                         ToolAnswer(call.id, value.shown, value.refused))];
      }
      assert calls[..|calls|] == calls;
    }

    /** The step and its audit entry are written in one transaction. */
    method PersistStep(record: StepRecord)
      modifies this`log, this`audit, this`events
      ensures log == old(log) + [record] && audit == old(audit) + [AuditOf(record)]
      ensures events == old(events) + [Persisted(record)]
    {
      log := log + [record];
      audit := audit + [AuditOf(record)];
      events := events + [Persisted(record)];
    }

    /** The state after some turns, none of which stopped the run. */
    ghost predicate Underway(step: nat)
      reads this
    {
      var turns := Turns(world, spec, step);
      && log == Records(turns) && audit == AuditsOf(log)
      && transcript == Transcript(turns)
      && events == Events(spec, turns)
      && finished == None
    }

    /** Asks the model, executes its calls, persists the step, and carries the exchange into the transcript. */
    method TakeTurn(step: nat) returns (completion: Completion, executed: seq<Executed>)
      requires Underway(step) && !handedOff
      modifies this
      ensures Underway(step + 1)
      ensures Turn(completion, executed, handedOff) == TurnAt(world, spec, step, Transcript(Turns(world, spec, step)))
    {
      hide Records, Transcript, Events, Turns, ExecuteAll, AnyHandsOff, PermittedCalls, Invocations, Verdicts,
          InputTokens, OutputTokens, AuditsOf;
      TurnTaken(world, spec, step);
      AuditsAppend(log, RecordOf(step, TurnAt(world, spec, step, transcript)));
      events := events + [Asked(step)];
      completion := world.reply(step, Request(transcript));
      executed := ExecuteCalls(step, completion.calls);
      var responseText := if |completion.text| == 0 then None else Some(completion.text);
      PersistStep(StepRecord(step, responseText, Recorded(completion.calls),
                             Results(executed), Verdicts(executed), completion.inputTokens, completion.outputTokens));
      if |completion.calls| > 0 {
        transcript := transcript + [Message(Assistant, AssistantBlocks(completion.text, completion.calls)),
                                    Message(User, AnswerBlocks(executed))];
      } else if |completion.text| > 0 {
        transcript := transcript + [Message(Assistant, [Text(completion.text)]), NUDGE];
      }
    }

    method Loop() returns (report: Report)
      requires log == [] && audit == [] && transcript == [] && !handedOff && finished == None && events == []
      modifies this
      ensures Runs(world, spec, caps, report.steps)
      ensures report == ReportOf(world, spec, caps, Turns(world, spec, report.steps))
      ensures log == Records(Turns(world, spec, report.steps)) && audit == AuditsOf(log)
      ensures transcript == Transcript(Turns(world, spec, report.steps))
      ensures events == Events(spec, Turns(world, spec, report.steps))
      ensures finished == Some(report)
    {
      hide TurnAt, Records, Transcript, Events, InputTokens, OutputTokens, FirstHeld, AnySucceeds, AnyHeld, Turns,
          AuditsOf;
      NoAudits();
      Starts(world, spec);
      var steps, inputTokens, outputTokens := 0, 0, 0;
      var outcome, reason := BudgetExhausted, NoReason;
      while steps < caps.maxSteps
        invariant 0 <= steps <= caps.maxSteps
        invariant Underway(steps) && !handedOff
        invariant inputTokens == InputTokens(Turns(world, spec, steps))
        invariant outputTokens == OutputTokens(Turns(world, spec, steps))
        invariant forall k: nat | k < steps :: !Stops(world, spec, caps, Turns(world, spec, k))
        invariant steps > 0 ==> !Ends(spec, Turns(world, spec, steps)[steps - 1])
        invariant outcome == BudgetExhausted && reason == NoReason
      {
        if world.overridden(steps) {
          report := Report(Handoff, steps, HumanReplied, inputTokens, outputTokens, true);
          finished := Some(report);
          return;
        }
        if world.elapsedMs(steps) > caps.wallClockBudgetMs {
          reason := WallClockSpent(steps);
          break;
        }
        if inputTokens + outputTokens > caps.maxTokensPerRun {
          reason := TokensSpent(steps);
          break;
        }
        assert !Stops(world, spec, caps, Turns(world, spec, steps));
        var completion, executed := TakeTurn(steps);
        TurnTaken(world, spec, steps);
        steps := steps + 1;
        inputTokens := inputTokens + completion.inputTokens;
        outputTokens := outputTokens + completion.outputTokens;

        var ended;
        ended, outcome, reason := Decide(executed);
        if ended {
          break;
        }
      }
      if steps >= caps.maxSteps && outcome == BudgetExhausted && reason == NoReason {
        reason := StepCapReached;
      }
      report := Report(outcome, steps, reason, inputTokens, outputTokens, false);
      finished := Some(report);
    }

    /** Whether a turn ended the run, and how: a handover beats success, and success beats a hold. */
    method Decide(executed: seq<Executed>) returns (ended: bool, outcome: Outcome, reason: Reason)
      ensures forall completion :: ended <==> Ends(spec, Turn(completion, executed, handedOff))
      ensures forall completion ::
                var turn := Turn(completion, executed, handedOff);
                if handedOff then outcome == Handoff && reason == HandedToAdvisor
                else if AnySucceeds(spec, turn) then outcome == ObjectiveMet && reason == NoReason
                else if AnyHeld(turn) then outcome == Blocked && reason == HeldBack(FirstHeld(executed).blockedReason)
                else outcome == BudgetExhausted && reason == NoReason
    {
      hide FirstHeld, Succeeds;
      if handedOff {
        return true, Handoff, HandedToAdvisor;
      }
      var met := FindSuccess(executed);
      if met {
        return true, ObjectiveMet, NoReason;
      }
      var blocked := FindBlocked(executed);
      if blocked.Some? {
        return true, Blocked, HeldBack(blocked.value.blockedReason);
      }
      return false, BudgetExhausted, NoReason;
    }

    method FindSuccess(executed: seq<Executed>) returns (met: bool)
      ensures met <==> exists i | 0 <= i < |executed| :: Succeeds(spec, executed[i])
    {
      for i := 0 to |executed|
        invariant forall j | 0 <= j < i :: !Succeeds(spec, executed[j])
      {
        if executed[i].ok && executed[i].name in spec.metWhen {
          return true;
        }
      }
      met := false;
    }

    method FindBlocked(executed: seq<Executed>) returns (blocked: Option<Executed>)
      ensures blocked.Some? <==> exists i | 0 <= i < |executed| :: executed[i].blockedToHitl
      ensures blocked.Some? ==> blocked.value == FirstHeld(executed)
    {
      for i := 0 to |executed|
        invariant forall j | 0 <= j < i :: !executed[j].blockedToHitl
      {
        if executed[i].blockedToHitl {
          FirstHeldAt(executed, i);
          return Some(executed[i]);
        }
      }
      blocked := None;
    }

    method ReplayLog() returns (calls: seq<RecordedCall>)
      ensures calls == Replay(log)
    {
      calls := [];
      for i := 0 to |log|
        invariant calls + Replay(log[i..]) == Replay(log)
      {
        calls := calls + log[i].toolCalls;
      }
    }
  }
}
