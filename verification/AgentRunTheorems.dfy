/** What holds of every run of the agent, whatever the model and the tools do. */
module AgentRunTheorems {
  import opened Wrappers
  import opened AgentRuns

  // ----- Taking one more turn -----

  lemma TurnTaken(w: World, spec: ObjectiveSpec, step: nat)
    ensures var before, after := Turns(w, spec, step), Turns(w, spec, step + 1);
            var turn := TurnAt(w, spec, step, Transcript(before));
            && after == before + [turn]
            && Records(after) == Records(before) + [RecordOf(step, turn)]
            && Transcript(after) == Transcript(before) + MessagesOf(turn)
            && Events(spec, after) == Events(spec, before) + EventsOf(spec, step, turn)
            && InputTokens(after) == InputTokens(before) + turn.completion.inputTokens
            && OutputTokens(after) == OutputTokens(before) + turn.completion.outputTokens
  {
    hide TurnAt, MessagesOf, EventsOf, RecordOf;
    var before, after := Turns(w, spec, step), Turns(w, spec, step + 1);
    assert after[..step] == before;
  }

  lemma Starts(w: World, spec: ObjectiveSpec)
    ensures Turns(w, spec, 0) == [] && Records([]) == [] && Transcript([]) == [] && Events(spec, []) == []
    ensures InputTokens([]) == 0 && OutputTokens([]) == 0
  {
  }

  lemma AuditsAppend(log: seq<StepRecord>, record: StepRecord)
    ensures AuditsOf(log + [record]) == AuditsOf(log) + [AuditOf(record)]
  {
  }

  lemma NoAudits()
    ensures AuditsOf([]) == []
  {
  }

  lemma PermittedNone(spec: ObjectiveSpec)
    ensures Invocations(PermittedCalls(spec, [])) == []
  {
  }

  lemma PermittedNext(spec: ObjectiveSpec, calls: seq<Call>, i: nat)
    requires i < |calls|
    ensures Invocations(PermittedCalls(spec, calls[..i + 1]))
            == Invocations(PermittedCalls(spec, calls[..i]))
               + if Permitted(spec, calls[i]) then [Invoked(RecordedCall(calls[i].name, calls[i].args))] else []
  {
    assert calls[..i + 1][..i] == calls[..i];
    assert calls[..i + 1][i..] == [calls[i]];
  }

  lemma {:induction false} FirstHeldAt(executed: seq<Executed>, i: nat)
    requires i < |executed| && executed[i].blockedToHitl && forall j | 0 <= j < i :: !executed[j].blockedToHitl
    ensures FirstHeld(executed) == executed[i]
  {
    if i > 0 {
      assert executed[1..][i - 1] == executed[i];
      FirstHeldAt(executed[1..], i - 1);
    }
  }

  // ----- How a run ends -----

  /** Every run ends, at one number of steps, and within the cap. */
  lemma EndsOnceWithinCap(w: World, spec: ObjectiveSpec, caps: Caps)
    ensures exists n: nat :: n <= caps.maxSteps && Runs(w, spec, caps, n)
    ensures forall n: nat, m: nat :: Runs(w, spec, caps, n) && Runs(w, spec, caps, m) ==> n == m
  {
    var n: nat := 0;
    while !Stops(w, spec, caps, Turns(w, spec, n))
      invariant n <= caps.maxSteps
      invariant forall k: nat | k < n :: !Stops(w, spec, caps, Turns(w, spec, k))
      decreases caps.maxSteps - n
    {
      n := n + 1;
    }
    assert Runs(w, spec, caps, n);
  }

  /** Tokens are spent past the cap by the last step alone. */
  lemma TokensWithinCapBeforeLast(w: World, spec: ObjectiveSpec, caps: Caps, n: nat, k: nat)
    requires Runs(w, spec, caps, n) && k < n
    ensures Tokens(Turns(w, spec, n)[..k]) <= caps.maxTokensPerRun
  {
    TurnsPrefix(w, spec, n, k);
    assert !Stops(w, spec, caps, Turns(w, spec, k));
  }

  lemma {:induction false} TurnsPrefix(w: World, spec: ObjectiveSpec, n: nat, k: nat)
    requires k <= n
    ensures Turns(w, spec, n)[..k] == Turns(w, spec, k)
  {
    hide TurnAt, Transcript;
    if k < n {
      TurnsPrefix(w, spec, n - 1, k);
      assert Turns(w, spec, n)[..k] == Turns(w, spec, n - 1)[..k];
    }
  }

  lemma OnlyLastEnds(w: World, spec: ObjectiveSpec, caps: Caps, n: nat, k: nat)
    requires Runs(w, spec, caps, n) && k < n - 1
    ensures !Ends(spec, Turns(w, spec, n)[k])
  {
    TurnsPrefix(w, spec, n, k + 1);
    assert Turns(w, spec, n)[..k + 1][k] == Turns(w, spec, n)[k];
    assert !Stops(w, spec, caps, Turns(w, spec, k + 1));
  }

  /** Nothing stopped a step before it was taken: neither the person, nor the clock, nor an earlier turn. */
  lemma NothingStoppedAStepTaken(w: World, spec: ObjectiveSpec, caps: Caps, n: nat, k: nat)
    requires Runs(w, spec, caps, n) && k < n
    ensures !w.overridden(k) && w.elapsedMs(k) <= caps.wallClockBudgetMs
    ensures forall j: nat | j < k :: !Ends(spec, Turns(w, spec, n)[j])
  {
    assert !Stops(w, spec, caps, Turns(w, spec, k));
    forall j: nat | j < k
      ensures !Ends(spec, Turns(w, spec, n)[j])
    {
      OnlyLastEnds(w, spec, caps, n, j);
    }
  }

  ghost predicate Meets(spec: ObjectiveSpec, turn: Turn) {
    AnySucceeds(spec, turn) && !turn.handedOff
  }

  ghost predicate Holds(spec: ObjectiveSpec, turn: Turn) {
    AnyHeld(turn) && !turn.handedOff && !AnySucceeds(spec, turn)
  }

  /**
   Which of the four outcomes a run reports, in terms of all its turns: a handover beats success and success
   beats a hold within one turn, the run ends at the first turn with any of them, and a person's reply counts
   as a handover only when no turn ended the run and a step was still to be had.
   */
  lemma OutcomeExactly(w: World, spec: ObjectiveSpec, caps: Caps, n: nat)
    requires Runs(w, spec, caps, n)
    ensures var turns, report := Turns(w, spec, n), ReportOf(w, spec, caps, Turns(w, spec, n));
            && (report.outcome == ObjectiveMet <==> exists k | 0 <= k < n :: Meets(spec, turns[k]))
            && (report.outcome == Blocked <==> exists k | 0 <= k < n :: Holds(spec, turns[k]))
            && (report.reason == HandedToAdvisor <==> exists k | 0 <= k < n :: turns[k].handedOff)
            && (report.overridden
                <==> n < caps.maxSteps && w.overridden(n) && forall k | 0 <= k < n :: !Ends(spec, turns[k]))
            && (report.outcome == Handoff <==> report.reason == HandedToAdvisor || report.overridden)
            && var late, dear := w.elapsedMs(n) > caps.wallClockBudgetMs, Tokens(turns) > caps.maxTokensPerRun;
            && (report.outcome == BudgetExhausted ==> n == caps.maxSteps || late || dear)
            && (report.outcome == BudgetExhausted ==>
                  report.reason == (if n == caps.maxSteps then StepCapReached
                                    else if late then WallClockSpent(n) else TokensSpent(n)))
  {
    hide Turns, FirstHeld, InputTokens, OutputTokens, AnySucceeds, AnyHeld;
    forall k: nat | k < n - 1
      ensures !Ends(spec, Turns(w, spec, n)[k])
    {
      OnlyLastEnds(w, spec, caps, n, k);
    }
    assert Stops(w, spec, caps, Turns(w, spec, caps.maxSteps));
  }

  /**
   Success is only ever observed: the last step made a permitted `metWhen` call whose tool answered and did not
   refuse.
   */
  lemma SuccessWasObserved(w: World, spec: ObjectiveSpec, caps: Caps, n: nat)
    requires Runs(w, spec, caps, n)
    requires ReportOf(w, spec, caps, Turns(w, spec, n)).outcome == ObjectiveMet
    ensures n > 0
    ensures var calls := Turns(w, spec, n)[n - 1].completion.calls;
            exists i | 0 <= i < |calls| ::
              && calls[i].name in spec.tools && calls[i].name in spec.metWhen
              && w.invoke(n - 1, i).result.Answered? && !w.invoke(n - 1, i).result.refused
  {
    hide TurnAt, Transcript, FirstHeld, InputTokens, OutputTokens, Execute, Stops;
    var before := Turns(w, spec, n - 1);
    var turn := Turns(w, spec, n)[n - 1];
    var i :| 0 <= i < |turn.executed| && Succeeds(spec, turn.executed[i]);
    ExecutedAt(w, spec, n - 1, Transcript(before), i);
  }

  /** What an entry of a turn says of its call, in terms of what the tool answered. */
  lemma ExecutedAt(w: World, spec: ObjectiveSpec, step: nat, transcript: seq<Message>, i: nat)
    requires i < |TurnAt(w, spec, step, transcript).executed|
    ensures var turn := TurnAt(w, spec, step, transcript);
            && |turn.executed| == |turn.completion.calls|
            && var call, entry, answer := turn.completion.calls[i], turn.executed[i], w.invoke(step, i).result;
            && entry.name == call.name && entry.block.ToolAnswer? && entry.block.toolUseId == call.id
            && (entry.ok <==> call.name in spec.tools && answer.Answered? && !answer.refused)
            && (entry.verdict.None? <==> entry.ok) && (entry.block.isError <==> !entry.ok)
            && (call.name !in spec.tools ==>
                  && entry.verdict == Some(Verdict("objective-scope", "TOOL_NOT_PERMITTED", Refusal(spec, call)))
                  && entry.block.content == Refusal(spec, call))
            && (call.name in spec.tools && answer.Failed? ==>
                  && entry.verdict == Some(Verdict("tool-registry", answer.kind, answer.detail))
                  && entry.block.content == answer.detail)
            && (call.name in spec.tools && answer.Answered? ==> entry.block.content == answer.shown)
            && (call.name in spec.tools && answer.Answered? && answer.refused ==>
                  && entry.verdict.Some? && entry.verdict.value.checker == "tool-guardrail"
                  && entry.verdict.value.code == (if answer.code.Some? then answer.code.value else "REFUSED")
                  && entry.verdict.value.reason == (if answer.reason.Some? then answer.reason.value else ""))
            && (entry.blockedToHitl <==> HeldFor(spec, call, answer))
            && (entry.blockedToHitl ==> entry.blockedReason == OrElse(answer.reason, ""))
  {
    var turn := TurnAt(w, spec, step, transcript);
    var call := turn.completion.calls[i];
    assert turn.executed[i] == Execute(spec, call, w.invoke(step, i).result, Refusal(spec, call));
  }

  lemma {:induction false} VerdictsExactly(executed: seq<Executed>)
    ensures forall v :: v in Verdicts(executed) <==> exists i | 0 <= i < |executed| :: executed[i].verdict == Some(v)
  {
    if executed != [] {
      VerdictsExactly(executed[1..]);
      assert forall i | 0 < i < |executed| :: executed[i] == executed[1..][i - 1];
    }
  }

  /** What the record of a step and its audit entry say, in terms of what the model said and the tools answered. */
  lemma StepOnRecord(w: World, spec: ObjectiveSpec, step: nat, transcript: seq<Message>)
    ensures var turn := TurnAt(w, spec, step, transcript);
            var c, record := turn.completion, RecordOf(step, turn);
            && (if c.text == "" then record.responseText == None else record.responseText == Some(c.text))
            && |record.toolCalls| == |record.toolResults| == |c.calls|
            && (forall i | 0 <= i < |c.calls| ::
                  var answer := w.invoke(step, i).result;
                  && record.toolCalls[i] == RecordedCall(c.calls[i].name, c.calls[i].args)
                  && record.toolResults[i].0 == c.calls[i].name
                  && (record.toolResults[i].1 <==>
                        c.calls[i].name in spec.tools && answer.Answered? && !answer.refused))
            && (record.verdicts == [] <==> forall i | 0 <= i < |c.calls| :: record.toolResults[i].1)
            && var entry := AuditOf(record);
            && |entry.toolCalls| == |c.calls|
                && (forall i | 0 <= i < |c.calls| :: entry.toolCalls[i] == c.calls[i].name)
            && entry.toolResults == record.toolResults && entry.verdicts == record.verdicts
            && entry.stepIndex == step && entry.inputTokens == c.inputTokens && entry.outputTokens == c.outputTokens
  {
    hide Execute, Refusal, HeldFor;
    var turn := TurnAt(w, spec, step, transcript);
    VerdictsExactly(turn.executed);
    forall i | 0 <= i < |turn.completion.calls|
      ensures i < |turn.executed| && Results(turn.executed)[i] == (turn.executed[i].name, turn.executed[i].ok)
      ensures turn.executed[i].name == turn.completion.calls[i].name
      ensures turn.executed[i].ok
          <==> (turn.completion.calls[i].name in spec.tools
                && w.invoke(step, i).result.Answered? && !w.invoke(step, i).result.refused)
      ensures turn.executed[i].verdict.None? <==> turn.executed[i].ok
    {
      ExecutedAt(w, spec, step, transcript, i);
    }
    if turn.executed != [] && Verdicts(turn.executed) != [] {
      assert Verdicts(turn.executed)[0] in Verdicts(turn.executed);
    }
    forall i | 0 <= i < |turn.executed| && !turn.executed[i].ok
      ensures Verdicts(turn.executed) != []
    {
      assert turn.executed[i].verdict.value in Verdicts(turn.executed);
    }
  }

  // ----- How a run ends, by what the tools answered -----

  /** A permitted tool answered that the call is held for review. */
  ghost predicate HeldFor(spec: ObjectiveSpec, call: Call, answer: ToolResult) {
    call.name in spec.tools && answer.Answered? && answer.refused && answer.code == Some("BLOCKED_TO_HITL")
  }

  /** A permitted tool answered a call the objective is met by, and did not refuse it. */
  ghost predicate MetBy(spec: ObjectiveSpec, call: Call, answer: ToolResult) {
    && call.name in spec.tools && call.name in spec.metWhen && answer.Answered? && !answer.refused
  }

  /** The calls of a turn, handed over, met and held back, as the answers to them say. */
  lemma TurnByAnswers(w: World, spec: ObjectiveSpec, step: nat, transcript: seq<Message>)
    ensures var turn := TurnAt(w, spec, step, transcript);
            var calls := turn.completion.calls;
            && calls == w.reply(step, if transcript == [] then [FIRST_TURN] else transcript).calls
            && (turn.handedOff <==>
                  exists i | 0 <= i < |calls| :: calls[i].name in spec.tools && w.invoke(step, i).handsOff)
            && (AnySucceeds(spec, turn) <==>
                  exists i | 0 <= i < |calls| :: MetBy(spec, calls[i], w.invoke(step, i).result))
            && (AnyHeld(turn) <==>
                  exists i | 0 <= i < |calls| :: HeldFor(spec, calls[i], w.invoke(step, i).result))
  {
    hide Execute, Refusal, HeldFor;
    var turn := TurnAt(w, spec, step, transcript);
    forall i | 0 <= i < |turn.executed|
      ensures Succeeds(spec, turn.executed[i]) <==> MetBy(spec, turn.completion.calls[i], w.invoke(step, i).result)
      ensures turn.executed[i].blockedToHitl
          <==> HeldFor(spec, turn.completion.calls[i], w.invoke(step, i).result)
    {
      ExecutedAt(w, spec, step, transcript, i);
    }
    assert |turn.executed| == |turn.completion.calls|;
  }

  /** The reason given for a hold is that of the first call held. */
  lemma FirstHeldByAnswers(w: World, spec: ObjectiveSpec, step: nat, transcript: seq<Message>)
    requires AnyHeld(TurnAt(w, spec, step, transcript))
    ensures var turn := TurnAt(w, spec, step, transcript);
            var calls := turn.completion.calls;
            exists i ::
              && 0 <= i < |calls| && HeldFor(spec, calls[i], w.invoke(step, i).result)
              && (forall j | 0 <= j < i :: !HeldFor(spec, calls[j], w.invoke(step, j).result))
              && FirstHeld(turn.executed).blockedReason == OrElse(w.invoke(step, i).result.reason, "")
  {
    hide Execute, Refusal, HeldFor, TurnAt;
    var turn := TurnAt(w, spec, step, transcript);
    var i := 0;
    while !turn.executed[i].blockedToHitl
      invariant 0 <= i < |turn.executed|
      invariant forall j | 0 <= j < i :: !turn.executed[j].blockedToHitl
      decreases |turn.executed| - i
    {
      i := i + 1;
    }
    FirstHeldAt(turn.executed, i);
    forall j | 0 <= j <= i
      ensures |turn.executed| == |turn.completion.calls|
      ensures HeldFor(spec, turn.completion.calls[j], w.invoke(step, j).result) <==> j == i
    {
      ExecutedAt(w, spec, step, transcript, j);
    }
    ExecutedAt(w, spec, step, transcript, i);
  }

  /**
   What a run reports, by what its last step's tools answered: a handover where one was made; else success where a call
   met the objective; else a hold where one was held for review, for the reason of the first; and else none of these.
   */
  lemma OutcomeByAnswers(w: World, spec: ObjectiveSpec, caps: Caps, n: nat)
    requires Runs(w, spec, caps, n) && n > 0
    ensures var report := ReportOf(w, spec, caps, Turns(w, spec, n));
            var calls := Turns(w, spec, n)[n - 1].completion.calls;
            var handed := exists i | 0 <= i < |calls| ::
                calls[i].name in spec.tools && w.invoke(n - 1, i).handsOff;
            var met := exists i | 0 <= i < |calls| :: MetBy(spec, calls[i], w.invoke(n - 1, i).result);
            var held := exists i | 0 <= i < |calls| :: HeldFor(spec, calls[i], w.invoke(n - 1, i).result);
            && (report.reason == HandedToAdvisor <==> handed)
            && (report.outcome == ObjectiveMet <==> !handed && met)
            && (report.outcome == Blocked <==> !handed && !met && held)
            && (report.outcome == Blocked ==> exists i ::
                  && 0 <= i < |calls| && HeldFor(spec, calls[i], w.invoke(n - 1, i).result)
                  && (forall j | 0 <= j < i :: !HeldFor(spec, calls[j], w.invoke(n - 1, j).result))
                  && report.reason == HeldBack(OrElse(w.invoke(n - 1, i).result.reason, "")))
  {
    hide TurnAt, Transcript, FirstHeld, InputTokens, OutputTokens, Stops, AnySucceeds, AnyHeld, HeldFor, MetBy;
    var before := Turns(w, spec, n - 1);
    TurnByAnswers(w, spec, n - 1, Transcript(before));
    if AnyHeld(TurnAt(w, spec, n - 1, Transcript(before))) {
      FirstHeldByAnswers(w, spec, n - 1, Transcript(before));
    }
  }

  // ----- The record -----

  /** All the calls the model made, in order. */
  function CallsMade(turns: seq<Turn>): seq<RecordedCall> {
    if turns == [] then [] else CallsMade(turns[..|turns| - 1]) + Recorded(turns[|turns| - 1].completion.calls)
  }

  lemma {:induction false} ReplayAppend(log: seq<StepRecord>, step: StepRecord)
    ensures Replay(log + [step]) == Replay(log) + step.toolCalls
  {
    if log == [] {
      assert Replay([step]) == step.toolCalls;
    } else {
      assert (log + [step])[1..] == log[1..] + [step];
      ReplayAppend(log[1..], step);
    }
  }

  lemma RecordsAppend(turns: seq<Turn>)
    requires turns != []
    ensures Records(turns) == Records(turns[..|turns| - 1]) + [RecordOf(|turns| - 1, turns[|turns| - 1])]
  {
  }

  /** A replay is exactly the calls the model made, over steps numbered from zero without a gap. */
  lemma {:induction false} ReplayIsCallsMade(turns: seq<Turn>)
    ensures Replay(Records(turns)) == CallsMade(turns)
    ensures |Records(turns)| == |turns| && forall k | 0 <= k < |turns| :: Records(turns)[k].stepIndex == k
    decreases |turns|
  {
    if turns != [] {
      var before := turns[..|turns| - 1];
      ReplayIsCallsMade(before);
      RecordsAppend(turns);
      ReplayAppend(Records(before), RecordOf(|before|, turns[|before|]));
    }
  }

  /** Those of the recorded calls the objective may make. */
  function Allowed(spec: ObjectiveSpec, calls: seq<RecordedCall>): seq<RecordedCall> {
    if calls == [] then []
    else
      var last := calls[|calls| - 1];
      Allowed(spec, calls[..|calls| - 1]) + if last.name in spec.tools then [last] else []
  }

  lemma {:induction false} AllowedAppend(spec: ObjectiveSpec, a: seq<RecordedCall>, b: seq<RecordedCall>)
    ensures Allowed(spec, a + b) == Allowed(spec, a) + Allowed(spec, b)
    decreases |b|
  {
    if b == [] {
      assert a + b == a;
    } else {
      assert (a + b)[..|a + b| - 1] == a + b[..|b| - 1];
      AllowedAppend(spec, a, b[..|b| - 1]);
    }
  }

  lemma {:induction false} AllowedRecorded(spec: ObjectiveSpec, calls: seq<Call>)
    ensures Allowed(spec, Recorded(calls)) == PermittedCalls(spec, calls)
    decreases |calls|
  {
    if calls != [] {
      var before := calls[..|calls| - 1];
      AllowedRecorded(spec, before);
      assert Recorded(calls)[..|calls| - 1] == Recorded(before);
      assert Recorded(calls[|calls| - 1..]) == [Recorded(calls)[|calls| - 1]];
    }
  }

  lemma {:induction false} AllowedAreAllowed(spec: ObjectiveSpec, calls: seq<RecordedCall>)
    ensures forall call | call in Allowed(spec, calls) :: call in calls && call.name in spec.tools
    decreases |calls|
  {
    if calls != [] {
      AllowedAreAllowed(spec, calls[..|calls| - 1]);
    }
  }

  // ----- Events -----

  lemma {:induction false} LogAppend(a: seq<Event>, b: seq<Event>)
    ensures Log(a + b) == Log(a) + Log(b) && Effects(a + b) == Effects(a) + Effects(b)
    decreases |b|
  {
    if b == [] {
      assert a + b == a;
    } else {
      assert (a + b)[..|a + b| - 1] == a + b[..|b| - 1];
      LogAppend(a, b[..|b| - 1]);
    }
  }

  lemma {:induction false} InvocationsOnlyInvoke(calls: seq<RecordedCall>)
    ensures Log(Invocations(calls)) == [] && Effects(Invocations(calls)) == calls
    decreases |calls|
  {
    if calls != [] {
      assert Invocations(calls)[..|calls| - 1] == Invocations(calls[..|calls| - 1]);
      InvocationsOnlyInvoke(calls[..|calls| - 1]);
    }
  }

  /** The first part of one turn's events, short of the last: the step is not on record yet. */
  lemma TurnInterrupted(spec: ObjectiveSpec, step: nat, turn: Turn, q: nat)
    requires 0 < q < |EventsOf(spec, step, turn)|
    ensures var permitted := PermittedCalls(spec, turn.completion.calls);
            && q - 1 <= |permitted|
            && Log(EventsOf(spec, step, turn)[..q]) == []
            && Effects(EventsOf(spec, step, turn)[..q]) == permitted[..q - 1]
  {
    var permitted := PermittedCalls(spec, turn.completion.calls);
    assert EventsOf(spec, step, turn)[..q] == [Asked(step)] + Invocations(permitted[..q - 1]);
    LogAppend([Asked(step)], Invocations(permitted[..q - 1]));
    InvocationsOnlyInvoke(permitted[..q - 1]);
    assert Log([Asked(step)]) == [] && Effects([Asked(step)]) == [];
  }

  lemma TurnCompleted(spec: ObjectiveSpec, step: nat, turn: Turn)
    ensures Log(EventsOf(spec, step, turn)) == [RecordOf(step, turn)]
    ensures Effects(EventsOf(spec, step, turn)) == PermittedCalls(spec, turn.completion.calls)
  {
    var all := EventsOf(spec, step, turn);
    TurnInterrupted(spec, step, turn, |all| - 1);
    assert all == all[..|all| - 1] + [Persisted(RecordOf(step, turn))];
  }

  /** A whole run's log is its turns' records, and what reached a tool is what the replay shows, less the forbidden. */
  lemma {:induction false} EffectsAreAllowedReplay(spec: ObjectiveSpec, turns: seq<Turn>)
    ensures Log(Events(spec, turns)) == Records(turns)
    ensures Effects(Events(spec, turns)) == Allowed(spec, Replay(Records(turns)))
    decreases |turns|
  {
    if turns != [] {
      var before, turn := turns[..|turns| - 1], turns[|turns| - 1];
      EffectsAreAllowedReplay(spec, before);
      LogAppend(Events(spec, before), EventsOf(spec, |before|, turn));
      TurnCompleted(spec, |before|, turn);
      RecordsAppend(turns);
      ReplayAppend(Records(before), RecordOf(|before|, turn));
      AllowedAppend(spec, Replay(Records(before)), Recorded(turn.completion.calls));
      AllowedRecorded(spec, turn.completion.calls);
    }
  }

  /** No tool outside the objective's is ever invoked, and every permitted call of a run is, once and in order. */
  lemma OnlyPermittedInvoked(spec: ObjectiveSpec, turns: seq<Turn>)
    ensures forall call | call in Effects(Events(spec, turns)) :: call.name in spec.tools
    ensures Effects(Events(spec, turns)) == Allowed(spec, CallsMade(turns))
  {
    EffectsAreAllowedReplay(spec, turns);
    ReplayIsCallsMade(turns);
    AllowedAreAllowed(spec, CallsMade(turns));
  }

  /** What the calls of the step under way did so far, at most. */
  function StepCalls(spec: ObjectiveSpec, turns: seq<Turn>, k: nat): seq<RecordedCall> {
    if k < |turns| then PermittedCalls(spec, turns[k].completion.calls) else []
  }

  /** The log is the first `k` steps, and all that reached a tool is in its replay, or is in the step under way. */
  ghost predicate Accounted(spec: ObjectiveSpec, turns: seq<Turn>, events: seq<Event>, k: nat)
    requires k <= |turns|
  {
    && Log(events) == Records(turns[..k])
    && exists partial: seq<RecordedCall> ::
      partial <= StepCalls(spec, turns, k) && Effects(events) == Allowed(spec, Replay(Log(events))) + partial
  }

  /**
   A process that dies at any point leaves a complete record of every earlier step. What its tools
   did beyond that record is a first part of one step's calls.
   */
  lemma {:induction false} CrashLeavesRecord(spec: ObjectiveSpec, turns: seq<Turn>, p: nat)
    requires p <= |Events(spec, turns)|
    ensures exists k | 0 <= k <= |turns| :: Accounted(spec, turns, Events(spec, turns)[..p], k)
    decreases |turns|
  {
    hide Log, Effects, Replay, Allowed, PermittedCalls, EventsOf, Records;
    var events := Events(spec, turns);
    if turns == [] {
      EffectsAreAllowedReplay(spec, turns);
      assert events[..p] == events && turns[..0] == turns;
      assert Effects(events) == Allowed(spec, Replay(Log(events))) + [];
      assert Accounted(spec, turns, events[..p], 0);
    } else {
      var n := |turns| - 1;
      var before, turn := turns[..n], turns[n];
      var earlier := Events(spec, before);
      EffectsAreAllowedReplay(spec, before);
      if p <= |earlier| {
        CrashLeavesRecord(spec, before, p);
        var k :| 0 <= k <= n && Accounted(spec, before, earlier[..p], k);
        assert events[..p] == earlier[..p] && turns[..k] == before[..k];
        assert Accounted(spec, turns, events[..p], k);
      } else if p < |events| {
        var q := p - |earlier|;
        assert events[..p] == earlier + EventsOf(spec, n, turn)[..q];
        LogAppend(earlier, EventsOf(spec, n, turn)[..q]);
        TurnInterrupted(spec, n, turn, q);
        var partial := PermittedCalls(spec, turn.completion.calls)[..q - 1];
        assert partial <= StepCalls(spec, turns, n);
        assert Log(events[..p]) == Records(before) + [] == Records(before);
        assert Effects(events[..p]) == Allowed(spec, Replay(Log(events[..p]))) + partial;
        assert Accounted(spec, turns, events[..p], n);
      } else {
        EffectsAreAllowedReplay(spec, turns);
        assert events[..p] == events && turns[..n + 1] == turns;
        assert Effects(events) == Allowed(spec, Replay(Log(events))) + [];
        assert Accounted(spec, turns, events[..p], n + 1);
      }
    }
  }

  /** No step is asked for before every earlier one is on record. */
  lemma {:induction false} PersistedBeforeNext(spec: ObjectiveSpec, turns: seq<Turn>, p: nat)
    requires p < |Events(spec, turns)| && Events(spec, turns)[p].Asked?
    ensures Events(spec, turns)[p].step < |turns|
    ensures Log(Events(spec, turns)[..p]) == Records(turns[..Events(spec, turns)[p].step])
    decreases |turns|
  {
    hide Log;
    var n := |turns| - 1;
    var before := turns[..n];
    var earlier := Events(spec, before);
    if p < |earlier| {
      PersistedBeforeNext(spec, before, p);
      assert Events(spec, turns)[..p] == earlier[..p];
      assert turns[..earlier[p].step] == before[..earlier[p].step];
    } else {
      assert Events(spec, turns)[p] == EventsOf(spec, n, turns[n])[p - |earlier|];
      assert p == |earlier|;
      assert Events(spec, turns)[..p] == earlier;
      EffectsAreAllowedReplay(spec, before);
    }
  }

  // ----- The transcript -----

  /** The user's message answers each of the assistant's calls, in order, and nothing else. */
  ghost predicate Answered(asked: seq<Block>, answers: seq<Block>) {
    exists lead: seq<Block>, calls: seq<Block> ::
      && asked == lead + calls && |lead| <= 1 && (forall b | b in lead :: b.Text?)
      && |calls| == |answers| > 0
      && forall i | 0 <= i < |calls| ::
           calls[i].ToolUse? && answers[i].ToolAnswer? && calls[i].id == answers[i].toolUseId
  }

  ghost predicate Answers(asked: Message, answer: Message) {
    && asked.role == Assistant && answer.role == User
    && if answer == NUDGE then forall b | b in asked.content :: b.Text? else Answered(asked.content, answer.content)
  }

  lemma TurnAnswers(w: World, spec: ObjectiveSpec, step: nat, transcript: seq<Message>)
    ensures var messages := MessagesOf(TurnAt(w, spec, step, transcript));
            messages == [] || (|messages| == 2 && Answers(messages[0], messages[1]))
  {
    var turn := TurnAt(w, spec, step, transcript);
    var c := turn.completion;
    if c.calls != [] {
      var lead := if c.text == "" then [] else [Text(c.text)];
      var calls, answers := CallBlocks(c.calls), AnswerBlocks(turn.executed);
      assert AssistantBlocks(c.text, c.calls) == lead + calls;
      forall i | 0 <= i < |calls|
        ensures calls[i].ToolUse? && answers[i].ToolAnswer? && calls[i].id == answers[i].toolUseId
      {
        ExecutedAt(w, spec, step, transcript, i);
        assert answers[i] == turn.executed[i].block;
      }
      assert Answered(AssistantBlocks(c.text, c.calls), answers);
      assert answers[0] != NUDGE.content[0];
    }
  }

  /** The transcript is a sequence of questions by the assistant, each with its answers. */
  lemma {:induction false} TranscriptAlternates(w: World, spec: ObjectiveSpec, n: nat)
    ensures var transcript := Transcript(Turns(w, spec, n));
            |transcript| % 2 == 0 && forall i | 0 <= i < |transcript| / 2 ::
                Answers(transcript[2 * i], transcript[2 * i + 1])
  {
    hide MessagesOf, TurnAt, Answers, Transcript, Records, Events, EventsOf, InputTokens, OutputTokens;
    if n == 0 {
      Starts(w, spec);
    } else {
      hide Turns;
      TranscriptAlternates(w, spec, n - 1);
      TurnTaken(w, spec, n - 1);
      TurnAnswers(w, spec, n - 1, Transcript(Turns(w, spec, n - 1)));
    }
  }

  lemma {:induction false} SilentTurnsLeaveNothing(turns: seq<Turn>)
    ensures Transcript(turns) == [] <==>
              forall k | 0 <= k < |turns| :: turns[k].completion.calls == [] && turns[k].completion.text == ""
    decreases |turns|
  {
    hide MessagesOf;
    if turns != [] {
      var before, last := turns[..|turns| - 1], turns[|turns| - 1];
      SilentTurnsLeaveNothing(before);
      SilentTurn(last);
      assert Transcript(turns) == Transcript(before) + MessagesOf(last);
      assert forall k | 0 <= k < |before| :: turns[k] == before[k];
    }
  }

  lemma SilentTurn(turn: Turn)
    ensures MessagesOf(turn) == [] <==> turn.completion.calls == [] && turn.completion.text == ""
  {
  }

  /**
   The request of a step opens with the user's turn, and is nothing else, exactly when every completion before it had
   neither calls nor text; in every other case the opening turn is gone and the assistant speaks first.
   */
  lemma OpeningTurnIsNotKept(w: World, spec: ObjectiveSpec, n: nat)
    ensures var request := Request(Transcript(Turns(w, spec, n)));
            && (request == [FIRST_TURN] <==>
                  forall k | 0 <= k < n :: Turns(w, spec, n)[k].completion.calls == []
                                           && Turns(w, spec, n)[k].completion.text == "")
            && request != [] && (request[0].role == User <==> request == [FIRST_TURN])
            && (request[0].role == Assistant ==> request == Transcript(Turns(w, spec, n)))
  {
    hide Answered, Turns, Transcript;
    SilentTurnsLeaveNothing(Turns(w, spec, n));
    TranscriptAlternates(w, spec, n);
    var transcript := Transcript(Turns(w, spec, n));
    if transcript != [] {
      assert Answers(transcript[2 * 0], transcript[2 * 0 + 1]);
    }
  }
}
