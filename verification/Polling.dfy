/** The unsolicited-event protocol of the server: after a GET_DEBUG_EVENT that finds
    nothing, the server polls by itself and sends one RPC_EVENT.  Requests nest, because
    the server may wait for the client's answer in the middle of one; each nested request
    and each poll is a frame on the call stack. */
module Polling {

  datatype Kind = GetEvent | Continue | Other

  // Performing holds the saved polling flag of perform_request; Polling is a call of
  // poll_events that has not returned.
  datatype Frame = Performing(kind: Kind, saved: bool) | Polling

  // poll is poll_debug_events, pending is has_pending_event, inEvent is the flag of the
  // debugger module; sent counts RPC_EVENTs and misses GET_DEBUG_EVENT replies without
  // an event.  The client knows whether it waits for an RPC_EVENT and whether it holds
  // an event it has not continued from.
  datatype Server = Server(
    poll: bool,
    pending: bool,
    stack: seq<Frame>,
    inEvent: bool,
    sent: nat,
    misses: nat,
    waits: bool,
    holds: bool)

  // What the debugger module answers: an event was found or the application resumed, or
  // not; a continue may leave the event and then fail to resume.
  datatype Answer = Yes | No | LeftEvent

  datatype Step =
    | BeginRequest(kind: Kind)
    | EndRequest(answer: Answer)
    | BeginPoll
    | EndPoll(found: bool)

  function Top(s: Server): Frame
    requires s.stack != []
  {
    s.stack[|s.stack| - 1]
  }

  function Popped(s: Server): seq<Frame>
    requires s.stack != []
  {
    s.stack[..|s.stack| - 1]
  }

  // When the program can take the step.
  predicate Enabled(s: Server, step: Step) {
    match step
    case BeginRequest(_) => true
    case EndRequest(_) => s.stack != [] && Top(s).Performing?
    case BeginPoll => s.poll && !s.pending
    case EndPoll(_) => s.stack != [] && Top(s).Polling?
  }

  function Apply(s: Server, step: Step): Server
    requires Enabled(s, step)
  {
    match step
    case BeginRequest(kind) => s.(poll := false, stack := s.stack + [Performing(kind, s.poll)])
    case EndRequest(answer) =>
      var f := Top(s);
      var miss := f.kind == GetEvent && !s.pending && answer != Yes;
      var hit := f.kind == GetEvent && !s.pending && answer == Yes;
      var left := f.kind == Continue && answer != No;
      var resumed := f.kind == Continue && answer == Yes;
      s.(stack := Popped(s),
         poll := s.poll || f.saved || miss,
         misses := if miss then s.misses + 1 else s.misses,
         inEvent := if hit then true else if left then false else s.inEvent,
         waits := if miss then true else s.waits,
         holds := if hit then true else if resumed then false else s.holds)
    case BeginPoll => s.(poll := false, stack := s.stack + [Polling])
    case EndPoll(found) =>
      if found then s.(stack := Popped(s), sent := s.sent + 1, inEvent := true, waits := false, holds := true)
      else s.(stack := Popped(s), poll := true)
  }

  const INITIAL := Server(false, false, [], false, 0, 0, false, false)

  ghost predicate Runs(s: Server, steps: seq<Step>)
    decreases |steps|
  {
    steps == [] || (Enabled(s, steps[0]) && Runs(Apply(s, steps[0]), steps[1..]))
  }

  ghost function Run(s: Server, steps: seq<Step>): Server
    requires Runs(s, steps)
    decreases |steps|
  {
    if steps == [] then s else Run(Apply(s, steps[0]), steps[1..])
  }

  // ---------------------------------------------------------------- every client

  function Token(f: Frame): nat {
    if f.Polling? || f.saved then 1 else 0
  }

  // The polling permissions kept on the call stack.
  function Tokens(stack: seq<Frame>): nat
    decreases |stack|
  {
    if stack == [] then 0 else Tokens(stack[..|stack| - 1]) + Token(stack[|stack| - 1])
  }

  function Permissions(s: Server): nat {
    Tokens(s.stack) + if s.poll then 1 else 0
  }

  predicate Balanced(s: Server) {
    s.sent + Permissions(s) <= s.misses && !s.pending
  }

  lemma PushTokens(stack: seq<Frame>, f: Frame)
    ensures Tokens(stack + [f]) == Tokens(stack) + Token(f)
  {
    assert (stack + [f])[..|stack|] == stack;
  }

  lemma BalancedStep(s: Server, step: Step)
    requires Balanced(s) && Enabled(s, step)
    ensures Balanced(Apply(s, step))
  {
    match step
    case BeginRequest(kind) => PushTokens(s.stack, Performing(kind, s.poll));
    case EndRequest(answer) =>
    case BeginPoll => PushTokens(s.stack, Polling);
    case EndPoll(found) =>
  }

  /** For every client, the unsolicited events sent, plus one if the server is polling,
      never exceed the replies without an event. */
  lemma {:induction false} EventsPaidFor(steps: seq<Step>)
    requires Runs(INITIAL, steps)
    ensures var s := Run(INITIAL, steps); s.sent + (if s.poll then 1 else 0) <= s.misses
  {
    BalancedRun(INITIAL, steps);
  }

  lemma {:induction false} BalancedRun(s: Server, steps: seq<Step>)
    requires Balanced(s) && Runs(s, steps)
    ensures Balanced(Run(s, steps))
    decreases |steps|
  {
    if steps != [] {
      BalancedStep(s, steps[0]);
      BalancedRun(Apply(s, steps[0]), steps[1..]);
    }
  }

  // ---------------------------------------------------------------- disciplined clients

  // Does the step call dbg_get_debug_event?
  predicate CallsGet(s: Server, step: Step)
    requires Enabled(s, step)
  {
    step.BeginPoll? || (step.EndRequest? && Top(s).kind == GetEvent && !s.pending)
  }

  /** The rule that GET_DEBUG_EVENT fails until RPC_EVOK is never enforced: whatever the
      client did before, a GET_DEBUG_EVENT asks the debugger module. */
  lemma EvokNeverHeeded(steps: seq<Step>, answer: Answer)
    requires Runs(INITIAL, steps)
    requires var s := Run(INITIAL, steps); s.stack != [] && Top(s).Performing? && Top(s).kind == GetEvent
    ensures CallsGet(Run(INITIAL, steps), EndRequest(answer))
  {
    BalancedRun(INITIAL, steps);
  }

  // For instance between an RPC_EVENT and its RPC_EVOK, while the event is being handled.
  lemma EvokRuleNotEnforced()
    ensures var steps := [BeginRequest(GetEvent), EndRequest(No), BeginPoll, EndPoll(true), BeginRequest(GetEvent)];
            Runs(INITIAL, steps) &&
            var s := Run(INITIAL, steps); CallsGet(s, EndRequest(Yes)) && s.inEvent
  {
    var s1 := Apply(INITIAL, BeginRequest(GetEvent));
    var s2 := Apply(s1, EndRequest(No));
    var s3 := Apply(s2, BeginPoll);
    var s4 := Apply(s3, EndPoll(true));
    var s5 := Apply(s4, BeginRequest(GetEvent));
    assert Runs(s4, [BeginRequest(GetEvent)]) && Run(s4, [BeginRequest(GetEvent)]) == s5;
    assert Runs(s3, [EndPoll(true), BeginRequest(GetEvent)]) && Run(s3, [EndPoll(true), BeginRequest(GetEvent)]) == s5;
    assert Runs(s2, [BeginPoll, EndPoll(true), BeginRequest(GetEvent)]);
    assert Run(s2, [BeginPoll, EndPoll(true), BeginRequest(GetEvent)]) == s5;
    assert Runs(s1, [EndRequest(No), BeginPoll, EndPoll(true), BeginRequest(GetEvent)]);
    assert Run(s1, [EndRequest(No), BeginPoll, EndPoll(true), BeginRequest(GetEvent)]) == s5;
  }

  predicate Asking(s: Server) {
    exists i :: 0 <= i < |s.stack| && s.stack[i].Performing? && s.stack[i].kind == GetEvent
  }

  // No GET_DEBUG_EVENT while another one is unanswered, while the server polls on the
  // client's behalf, or before a successful continue.
  predicate Disciplined(s: Server, step: Step) {
    step == BeginRequest(GetEvent) ==> !s.waits && !s.holds && !Asking(s)
  }

  ghost predicate DisciplinedRun(s: Server, steps: seq<Step>)
    requires Runs(s, steps)
    decreases |steps|
  {
    steps == [] || (Disciplined(s, steps[0]) && DisciplinedRun(Apply(s, steps[0]), steps[1..]))
  }

  function AskingFrames(stack: seq<Frame>): nat
    decreases |stack|
  {
    if stack == [] then 0
    else
      var f := stack[|stack| - 1];
      AskingFrames(stack[..|stack| - 1]) + if f.Performing? && f.kind == GetEvent then 1 else 0
  }

  // One permission exactly while the client waits, and every miss is paid for or waited
  // for; while there is a permission, or an unanswered request for an event, no event is
  // being handled.
  predicate Orderly(s: Server) {
    && !s.pending
    && Permissions(s) == (if s.waits then 1 else 0)
    && s.misses == s.sent + (if s.waits then 1 else 0)
    && AskingFrames(s.stack) <= 1
    && (AskingFrames(s.stack) == 1 ==> !s.waits && !s.inEvent)
    && (s.waits ==> !s.inEvent)
    && (s.inEvent ==> s.holds)
  }

  lemma PushAsking(stack: seq<Frame>, f: Frame)
    ensures AskingFrames(stack + [f]) == AskingFrames(stack) + if f.Performing? && f.kind == GetEvent then 1 else 0
  {
    assert (stack + [f])[..|stack|] == stack;
  }

  lemma {:induction false} NotAsking(stack: seq<Frame>)
    requires forall i :: 0 <= i < |stack| ==> !(stack[i].Performing? && stack[i].kind == GetEvent)
    ensures AskingFrames(stack) == 0
    decreases |stack|
  {
    if stack != [] { NotAsking(stack[..|stack| - 1]); }
  }

  lemma OrderlyBegin(s: Server, kind: Kind)
    requires Orderly(s) && Disciplined(s, BeginRequest(kind))
    ensures Orderly(Apply(s, BeginRequest(kind)))
  {
    hide Tokens;
    hide AskingFrames;
    PushTokens(s.stack, Performing(kind, s.poll));
    PushAsking(s.stack, Performing(kind, s.poll));
    if kind == GetEvent { NotAsking(s.stack); }
  }

  // The counts before and after a frame is taken off.
  lemma PopCounts(s: Server)
    requires s.stack != []
    ensures Tokens(s.stack) == Tokens(Popped(s)) + Token(Top(s))
    ensures AskingFrames(s.stack)
            == AskingFrames(Popped(s)) + if Top(s).Performing? && Top(s).kind == GetEvent then 1 else 0
  {
  }

  lemma OrderlyEnd(s: Server, step: Step)
    requires Orderly(s) && Enabled(s, step) && (step.EndRequest? || step.EndPoll?)
    ensures Orderly(Apply(s, step)) && (CallsGet(s, step) ==> !s.inEvent)
  {
    hide Tokens;
    hide AskingFrames;
    PopCounts(s);
  }

  lemma OrderlyPoll(s: Server)
    requires Orderly(s) && Enabled(s, BeginPoll)
    ensures Orderly(Apply(s, BeginPoll)) && !s.inEvent
  {
    hide Tokens;
    hide AskingFrames;
    PushTokens(s.stack, Polling);
    PushAsking(s.stack, Polling);
  }

  lemma OrderlyStep(s: Server, step: Step)
    requires Orderly(s) && Enabled(s, step) && Disciplined(s, step)
    ensures Orderly(Apply(s, step)) && (CallsGet(s, step) ==> !s.inEvent)
  {
    hide Orderly;
    match step
    case BeginRequest(kind) => OrderlyBegin(s, kind);
    case EndRequest(answer) => OrderlyEnd(s, step);
    case BeginPoll => OrderlyPoll(s);
    case EndPoll(found) => OrderlyEnd(s, step);
  }

  lemma {:induction false} OrderlyRun(s: Server, steps: seq<Step>)
    requires Orderly(s) && Runs(s, steps) && DisciplinedRun(s, steps)
    ensures Orderly(Run(s, steps))
    decreases |steps|
  {
    hide Orderly;
    if steps != [] {
      OrderlyStep(s, steps[0]);
      OrderlyRun(Apply(s, steps[0]), steps[1..]);
    }
  }

  /** With such a client the debugger module is never asked for an event while one is
      being handled, so assertion 30059 cannot fire. */
  lemma NeverAskedInEvent(steps: seq<Step>, step: Step)
    requires Runs(INITIAL, steps) && DisciplinedRun(INITIAL, steps)
    requires Enabled(Run(INITIAL, steps), step) && Disciplined(Run(INITIAL, steps), step)
    ensures CallsGet(Run(INITIAL, steps), step) ==> !Run(INITIAL, steps).inEvent
  {
    OrderlyRun(INITIAL, steps);
    OrderlyStep(Run(INITIAL, steps), step);
  }

  // Does the frame hold the permission to poll: by a poll in progress, or saved?
  predicate Holds(f: Frame) {
    f.Polling? || f.saved
  }

  lemma {:induction false} TokensZeroIff(stack: seq<Frame>)
    ensures Tokens(stack) == 0 <==> forall i :: 0 <= i < |stack| ==> !Holds(stack[i])
    decreases |stack|
  {
    if stack != [] {
      var rest := stack[..|stack| - 1];
      TokensZeroIff(rest);
      assert forall i :: 0 <= i < |rest| ==> rest[i] == stack[i];
    }
  }

  lemma {:induction false} TokensOneIff(stack: seq<Frame>)
    ensures Tokens(stack) == 1 <==>
            exists i :: 0 <= i < |stack| && Holds(stack[i])
                        && forall j :: 0 <= j < |stack| && j != i ==> !Holds(stack[j])
    decreases |stack|
  {
    if stack != [] {
      var n := |stack| - 1;
      var rest := stack[..n];
      TokensZeroIff(rest);
      TokensOneIff(rest);
      assert forall i :: 0 <= i < n ==> rest[i] == stack[i];
      if Holds(stack[n]) {
        if Tokens(rest) == 0 { assert forall j :: 0 <= j < |stack| && j != n ==> !Holds(stack[j]); }
      } else if Tokens(rest) == 1 {
        var i :| 0 <= i < n && Holds(rest[i]) && forall j :: 0 <= j < n && j != i ==> !Holds(rest[j]);
        assert Holds(stack[i]) && forall j :: 0 <= j < |stack| && j != i ==> !Holds(stack[j]);
      }
    }
  }

  /** The wait of such a client is always covered: it waits for an event exactly if the
      server polls, or one call that has not returned is a poll or will let it poll again,
      and then nothing else holds that permission.  Every miss has been answered by one
      event or is the one waited for. */
  lemma WaitIsCovered(steps: seq<Step>)
    requires Runs(INITIAL, steps) && DisciplinedRun(INITIAL, steps)
    ensures var s := Run(INITIAL, steps);
            && (s.poll ==> s.waits && forall i :: 0 <= i < |s.stack| ==> !Holds(s.stack[i]))
            && (!s.poll && s.waits ==>
                  exists i :: 0 <= i < |s.stack| && Holds(s.stack[i])
                              && forall j :: 0 <= j < |s.stack| && j != i ==> !Holds(s.stack[j]))
            && (!s.waits ==> forall i :: 0 <= i < |s.stack| ==> !Holds(s.stack[i]))
            && s.misses == s.sent + (if s.waits then 1 else 0)
  {
    OrderlyRun(INITIAL, steps);
    TokensZeroIff(Run(INITIAL, steps).stack);
    TokensOneIff(Run(INITIAL, steps).stack);
  }

  // A poll begun between two calls, and its end.
  lemma PollBetween(s: Server, found: bool)
    requires s.stack == [] && s.poll && !s.pending
    ensures Enabled(s, BeginPoll) && Enabled(Apply(s, BeginPoll), EndPoll(found))
    ensures var r := Apply(Apply(s, BeginPoll), EndPoll(found));
            if found then r == s.(poll := false, sent := s.sent + 1, inEvent := true, waits := false, holds := true)
            else r == s
  {
    assert ([] + [Polling])[..0] == [];
  }

  lemma InitialOrderly()
    ensures Orderly(INITIAL)
  {
  }

  lemma PollsWhileWaiting(s: Server)
    requires Orderly(s) && s.stack == [] && s.waits
    ensures s.poll && !s.pending
  {
  }

  /** Hence between two calls the server polls exactly if the client waits; a poll that
      finds nothing leaves it so, and the one that finds an event sends it. */
  lemma NextPollSends(steps: seq<Step>, found: bool)
    requires Runs(INITIAL, steps) && DisciplinedRun(INITIAL, steps)
    requires Run(INITIAL, steps).stack == [] && Run(INITIAL, steps).waits
    ensures var s := Run(INITIAL, steps);
            && Enabled(s, BeginPoll) && Enabled(Apply(s, BeginPoll), EndPoll(found))
            && var r := Apply(Apply(s, BeginPoll), EndPoll(found));
               if found then r == s.(poll := false, sent := s.sent + 1, inEvent := true, waits := false, holds := true)
               else r == s
  {
    hide Orderly;
    hide Apply;
    InitialOrderly();
    OrderlyRun(INITIAL, steps);
    PollsWhileWaiting(Run(INITIAL, steps));
    PollBetween(Run(INITIAL, steps), found);
  }

  /** What an answered request leaves: a GET_DEBUG_EVENT hands out an event or counts as a miss
      that is waited for, whatever the module answered otherwise; a continue leaves the
      event even if it then fails to resume, but the client holds it until one succeeds. */
  lemma RequestAnswered(s: Server, answer: Answer)
    requires Enabled(s, EndRequest(answer)) && !s.pending
    ensures var kind, r := Top(s).kind, Apply(s, EndRequest(answer));
            && r.stack == s.stack[..|s.stack| - 1] && r.sent == s.sent
            && (kind == GetEvent && answer == Yes ==>
                  r.inEvent && r.holds && r.misses == s.misses && r.waits == s.waits)
            && (kind == GetEvent && answer != Yes ==>
                  r.poll && r.waits && r.misses == s.misses + 1 && r.inEvent == s.inEvent && r.holds == s.holds)
            && (kind == Continue ==>
                  && r.inEvent == (s.inEvent && answer == No) && r.holds == (s.holds && answer != Yes)
                  && r.waits == s.waits)
            && (kind == Other ==> r.inEvent == s.inEvent && r.holds == s.holds && r.waits == s.waits)
  {
  }

  // ---------------------------------------------------------------- the server object

  class RpcServer {
    var pollDebugEvents: bool
    var hasPendingEvent: bool
    var callStack: seq<Frame>
    ghost var inEvent: bool
    ghost var sent: nat
    ghost var misses: nat
    ghost var waits: bool
    ghost var holds: bool

    ghost function State(): Server
      reads this
    {
      Server(pollDebugEvents, hasPendingEvent, callStack, inEvent, sent, misses, waits, holds)
    }

    constructor ()
      ensures State() == INITIAL
    {
      pollDebugEvents, hasPendingEvent, callStack := false, false, [];
      inEvent, sent, misses, waits, holds := false, 0, 0, false, false;
    }

    // perform_request: no polling while a request is performed.
    method StartRequest(kind: Kind)
      modifies this
      ensures State() == Apply(old(State()), BeginRequest(kind))
    {
      var savedPollMode := pollDebugEvents;
      pollDebugEvents := false;
      callStack := callStack + [Performing(kind, savedPollMode)];
    }

    // The end of perform_request; answer is what the debugger module says, if asked.
    method FinishRequest(answer: Answer) returns (found: bool)
      requires callStack != [] && callStack[|callStack| - 1].Performing?
      modifies this
      ensures State() == Apply(old(State()), EndRequest(answer))
    {
      var f := callStack[|callStack| - 1];
      var savedPollMode := f.saved;
      found := false;
      if f.kind == GetEvent {
        if !hasPendingEvent {
          found := answer == Yes;
          if found { inEvent, holds := true, true; }
        }
        if !found && !hasPendingEvent {
          savedPollMode := true;
          misses, waits := misses + 1, true;
        }
      } else if f.kind == Continue {
        if answer != No { inEvent := false; }
        if answer == Yes { holds := false; }
      }
      if savedPollMode { pollDebugEvents := true; }
      callStack := callStack[..|callStack| - 1];
    }

    // poll_events, up to the call of dbg_get_debug_event.
    method StartPoll()
      requires pollDebugEvents && !hasPendingEvent
      modifies this
      ensures State() == Apply(old(State()), BeginPoll)
    {
      pollDebugEvents := false;
      callStack := callStack + [Polling];
    }

    // The rest of poll_events.
    method FinishPoll(found: bool)
      requires callStack != [] && callStack[|callStack| - 1].Polling? && !hasPendingEvent
      modifies this
      ensures State() == Apply(old(State()), EndPoll(found))
    {
      hasPendingEvent := found;
      if hasPendingEvent {
        sent, inEvent, waits, holds := sent + 1, true, false, true;
        hasPendingEvent := false;
      } else {
        pollDebugEvents := true;
      }
      callStack := callStack[..|callStack| - 1];
    }
  }
}
