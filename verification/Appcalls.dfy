/** Application calls: every call pushes a context that remembers the registers of its
    thread, and a cleanup takes the top context off again.  Calls nest, because the
    client may issue further ones while a call is waiting for its end. */
module Appcalls {
  import opened DebugEvents

  type Regs = seq<word>

  datatype Context = Context(saved: Regs, ctrl: word, spoiled: bool)

  // appcalls and the registers of the threads.
  datatype Machine = Machine(calls: map<Tid, seq<Context>>, regs: map<Tid, Regs>, x86: bool)

  const X86_REG_EFL: nat := 26

  function Stack(m: Machine, t: Tid): seq<Context> {
    if t in m.calls then m.calls[t] else []
  }

  function RegsOf(m: Machine, t: Tid): Regs {
    if t in m.regs then m.regs[t] else []
  }

  function SetStack(m: Machine, t: Tid, s: seq<Context>): Machine {
    m.(calls := m.calls[t := s])
  }

  function SetRegs(m: Machine, t: Tid, r: Regs): Machine {
    m.(regs := m.regs[t := r])
  }

  // The trace flag is bit 8 of the flags register.
  function WithoutTrace(v: word): word {
    if v / 256 % 2 == 1 then v - 256 else v
  }

  // preprocess_appcall_cleanup: on x86 the trace flag is cleared, every other bit of every
  // register stays.
  function Untraced(x86: bool, r: Regs): (s: Regs)
    ensures |s| == |r|
    ensures forall i :: 0 <= i < |r| && (i == X86_REG_EFL ==> !x86) ==> s[i] == r[i]
    ensures x86 && |r| > X86_REG_EFL ==>
              var (v, w) := (r[X86_REG_EFL], s[X86_REG_EFL]);
              w / 256 % 2 == 0 && w % 256 == v % 256 && w / 512 == v / 512
  {
    if x86 && |r| > X86_REG_EFL then r[X86_REG_EFL := WithoutTrace(r[X86_REG_EFL])] else r
  }

  // Register writes, in order; indexes out of range are not written.
  function Patched(r: Regs, writes: seq<(nat, word)>): (s: Regs)
    ensures |s| == |r|
    decreases |writes|
  {
    if writes == [] then r
    else Patched(if writes[0].0 < |r| then r[writes[0].0 := writes[0].1] else r, writes[1..])
  }

  /** The last write to a register counts; one that is not written keeps its value. */
  lemma {:induction false} PatchedAt(r: Regs, writes: seq<(nat, word)>, i: nat)
    requires i < |r|
    ensures (forall k :: 0 <= k < |writes| ==> writes[k].0 != i) ==> Patched(r, writes)[i] == r[i]
    ensures forall k :: 0 <= k < |writes| && writes[k].0 == i && (forall j :: k < j < |writes| ==> writes[j].0 != i) ==>
              Patched(r, writes)[i] == writes[k].1
    decreases |writes|
  {
    if writes != [] {
      var r1 := if writes[0].0 < |r| then r[writes[0].0 := writes[0].1] else r;
      PatchedAt(r1, writes[1..], i);
      var rest := writes[1..];
      assert Patched(r, writes) == Patched(r1, rest);
      assert forall k :: 0 <= k < |rest| ==> rest[k] == writes[k + 1];
      forall k | 0 <= k < |writes| && writes[k].0 == i && (forall j :: k < j < |writes| ==> writes[j].0 != i)
        ensures Patched(r, writes)[i] == writes[k].1
      {
        if k > 0 { assert rest[k - 1] == writes[k]; }
      }
    }
  }

  // How far the setup of a call gets: not even to saving the registers; not to writing
  // them; to the write that fails; or to the end.
  datatype Stop = AtSaving | BeforeWrites | AtWrite(n: nat) | NotStopped

  datatype Setup = Setup(t: Tid, ctrl: word, writes: seq<(nat, word)>, stop: Stop)

  predicate Sensible(c: Setup) {
    && (c.stop.AtWrite? ==> c.stop.n < |c.writes|)
    && (c.stop.NotStopped? ==> c.writes != [])  // the stack and instruction pointers at least
  }

  function Written(c: Setup): seq<(nat, word)>
    requires Sensible(c)
  {
    match c.stop
    case AtSaving => []
    case BeforeWrites => []
    case AtWrite(n) => c.writes[..n]
    case NotStopped => c.writes
  }

  // dbg_appcall up to the point where it stops or resumes the application.
  function Begun(m: Machine, c: Setup): Machine
    requires Sensible(c)
  {
    var r := RegsOf(m, c.t);
    var ctx := Context(if c.stop.AtSaving? then [] else r, c.ctrl, Written(c) != []);
    SetRegs(SetStack(m, c.t, Stack(m, c.t) + [ctx]), c.t, Patched(r, Written(c)))
  }

  // dbg_cleanup_appcall; restored says whether the registers could be written, left what
  // they are otherwise.
  function Cleaned(m: Machine, t: Tid, restored: bool, left: Regs): (Machine, bool) {
    var s := Stack(m, t);
    if s == [] then (m, false)
    else
      var ctx := s[|s| - 1];
      var saved := Untraced(m.x86, ctx.saved);
      var rest := s[..|s| - 1];
      if ctx.spoiled && !restored then
        (SetRegs(SetStack(m, t, rest + [ctx.(saved := saved)]), t, left), false)
      else if ctx.spoiled then (SetRegs(SetStack(m, t, rest), t, saved), true)
      else (SetStack(m, t, rest), true)
  }

  // How a call that was set up ends.
  datatype Ending = Returned | FailedWith(restored: bool, left: Regs) | ProcessExit

  // The rest of dbg_appcall: only an error is cleaned up at once.
  function Ended(m: Machine, t: Tid, e: Ending): Machine {
    match e
    case Returned => m
    case FailedWith(restored, left) => Cleaned(m, t, restored, left).0
    case ProcessExit => m
  }

  // ---------------------------------------------------------------- runs

  // What happens to calls and registers, on any thread and in any order.  A call whose setup
  // fails is a beginning followed by an end with FailedWith.
  datatype Step =
    | BeginCall(c: Setup)
    | EndCall(t: Tid, e: Ending)
    | Cleanup(t: Tid, restored: bool, left: Regs)
    | Touch(t: Tid, regs: Regs)

  function ThreadOf(step: Step): Tid {
    if step.BeginCall? then step.c.t else step.t
  }

  predicate Possible(steps: seq<Step>) {
    forall i :: 0 <= i < |steps| && steps[i].BeginCall? ==> Sensible(steps[i].c)
  }

  function Apply(m: Machine, step: Step): Machine
    requires step.BeginCall? ==> Sensible(step.c)
  {
    match step
    case BeginCall(c) => Begun(m, c)
    case EndCall(t, e) => Ended(m, t, e)
    case Cleanup(t, restored, left) => Cleaned(m, t, restored, left).0
    case Touch(t, r) => SetRegs(m, t, r)
  }

  function Run(m: Machine, steps: seq<Step>): Machine
    requires Possible(steps)
    decreases |steps|
  {
    if steps == [] then m else Run(Apply(m, steps[0]), steps[1..])
  }

  function Depth(m: Machine, t: Tid): nat {
    |Stack(m, t)|
  }

  // Does the stack of t stay more than n deep all along the run?
  predicate StaysAbove(m: Machine, steps: seq<Step>, t: Tid, n: nat)
    requires Possible(steps)
    decreases |steps|
  {
    Depth(m, t) > n && (steps == [] || StaysAbove(Apply(m, steps[0]), steps[1..], t, n))
  }

  // Equal but for the trace flag in the saved registers, which a cleanup that fails clears.
  predicate SameButTrace(x86: bool, a: Context, b: Context) {
    a.ctrl == b.ctrl && a.spoiled == b.spoiled && Untraced(x86, a.saved) == Untraced(x86, b.saved)
  }

  // From m to r the contexts below position n have not changed, nor the one at n but for
  // the trace flag.
  predicate Untouched(m: Machine, r: Machine, t: Tid, n: nat) {
    && r.x86 == m.x86 && Depth(m, t) > n && Depth(r, t) > n
    && Stack(r, t)[..n] == Stack(m, t)[..n]
    && SameButTrace(m.x86, Stack(m, t)[n], Stack(r, t)[n])
  }

  lemma UntracedTwice(x86: bool, r: Regs)
    ensures Untraced(x86, Untraced(x86, r)) == Untraced(x86, r)
  {
  }

  lemma CleanedAbove(m: Machine, u: Tid, restored: bool, left: Regs, t: Tid, n: nat)
    requires Depth(m, t) > n && Depth(Cleaned(m, u, restored, left).0, t) > n
    ensures Untouched(m, Cleaned(m, u, restored, left).0, t, n)
  {
    var s := Stack(m, u);
    if u == t { UntracedTwice(m.x86, s[|s| - 1].saved); }
  }

  lemma StepAbove(m: Machine, step: Step, t: Tid, n: nat)
    requires (step.BeginCall? ==> Sensible(step.c)) && Depth(m, t) > n && Depth(Apply(m, step), t) > n
    ensures Untouched(m, Apply(m, step), t, n)
  {
    match step
    case BeginCall(c) => BegunOnTop(m, c);
    case EndCall(u, e) => if e.FailedWith? { CleanedAbove(m, u, e.restored, e.left, t, n); }
    case Cleanup(u, restored, left) => CleanedAbove(m, u, restored, left, t, n);
    case Touch(_, _) =>
  }

  /** Contexts that a run never comes down to are not touched by it, whatever it does on
      this thread above them and on the other threads. */
  lemma {:induction false} RunAbove(m: Machine, steps: seq<Step>, t: Tid, n: nat)
    requires Possible(steps) && StaysAbove(m, steps, t, n)
    ensures Untouched(m, Run(m, steps), t, n)
    decreases |steps|
  {
    if steps != [] {
      StepAbove(m, steps[0], t, n);
      RunAbove(Apply(m, steps[0]), steps[1..], t, n);
      UntouchedOn(m, Apply(m, steps[0]), Run(m, steps), t, n);
    }
  }

  lemma UntouchedOn(m: Machine, r: Machine, z: Machine, t: Tid, n: nat)
    requires Untouched(m, r, t, n) && Untouched(r, z, t, n)
    ensures Untouched(m, z, t, n)
  {
  }

  // ---------------------------------------------------------------- one call

  function ContextOf(m: Machine, c: Setup): Context
    requires Sensible(c)
  {
    Context(if c.stop.AtSaving? then [] else RegsOf(m, c.t), c.ctrl, Written(c) != [])
  }

  lemma BegunOnTop(m: Machine, c: Setup)
    requires Sensible(c)
    ensures var r := Begun(m, c);
            && r.x86 == m.x86 && Stack(r, c.t) == Stack(m, c.t) + [ContextOf(m, c)]
            && forall u :: u != c.t ==> Stack(r, u) == Stack(m, u)
  {
  }

  /** The registers of the thread after the setup of a call: those written before it stopped,
      all of them if it did not, and none if it stopped before the writes. */
  lemma BegunRegs(m: Machine, c: Setup, i: nat)
    requires Sensible(c) && i < |RegsOf(m, c.t)|
    ensures var n := if c.stop.AtWrite? then c.stop.n else if c.stop.NotStopped? then |c.writes| else 0;
            var r := RegsOf(Begun(m, c), c.t);
            && |r| == |RegsOf(m, c.t)|
            && ((forall k :: 0 <= k < n ==> c.writes[k].0 != i) ==> r[i] == RegsOf(m, c.t)[i])
            && (forall k :: 0 <= k < n && c.writes[k].0 == i && (forall j :: k < j < n ==> c.writes[j].0 != i) ==>
                  r[i] == c.writes[k].1)
  {
    PatchedAt(RegsOf(m, c.t), Written(c), i);
    assert c.writes[..|c.writes|] == c.writes;
  }

  // From the beginning of a call on m until the state r its context was never taken off, and
  // now it is the top one again.
  predicate OnTopAgain(m: Machine, c: Setup, steps: seq<Step>)
    requires Sensible(c) && Possible(steps)
  {
    && StaysAbove(Begun(m, c), steps, c.t, Depth(m, c.t))
    && Depth(Run(Begun(m, c), steps), c.t) == Depth(m, c.t) + 1
  }

  lemma TopContext(m: Machine, c: Setup, steps: seq<Step>)
    requires Sensible(c) && Possible(steps) && OnTopAgain(m, c, steps)
    ensures var r, n := Run(Begun(m, c), steps), Depth(m, c.t);
            && r.x86 == m.x86 && Depth(r, c.t) == n + 1 && Stack(r, c.t)[..n] == Stack(m, c.t)
            && SameButTrace(m.x86, ContextOf(m, c), Stack(r, c.t)[n])
  {
    BegunOnTop(m, c);
    RunAbove(Begun(m, c), steps, c.t, Depth(m, c.t));
  }

  lemma CleanedTop(r: Machine, t: Tid, s: seq<Context>, ctx: Context, left: Regs)
    requires Stack(r, t) == s + [ctx]
    ensures var (z, ok) := Cleaned(r, t, true, left);
            && ok && z == Ended(r, t, FailedWith(true, left))
            && Stack(z, t) == s && (forall u :: u != t ==> Stack(z, u) == Stack(r, u))
            && RegsOf(z, t) == (if ctx.spoiled then Untraced(r.x86, ctx.saved) else RegsOf(r, t))
            && (forall u :: u != t ==> RegsOf(z, u) == RegsOf(r, u))
  {
    hide Untraced;
  }

  /** Whatever happens between the beginning of a call and its cleanup - calls on this thread
      above it that end in any way, calls on other threads begun before or after and cleaned
      up or not, cleanups that fail and are tried again - as long as its own context is not
      taken off, the cleanup that restores the registers takes off exactly this context:
      the stack of the thread is what it was before the call, the other stacks do not
      change, and the registers are those before the call with the trace flag cleared, if
      the call changed any.  The same holds for a call that ends with an error. */
  lemma CallCleanedUp(m: Machine, c: Setup, steps: seq<Step>, left: Regs)
    requires Sensible(c) && Possible(steps) && OnTopAgain(m, c, steps)
    ensures var r := Run(Begun(m, c), steps);
            var (z, ok) := Cleaned(r, c.t, true, left);
            && ok && z == Ended(r, c.t, FailedWith(true, left))
            && Stack(z, c.t) == Stack(m, c.t) && (forall u :: u != c.t ==> Stack(z, u) == Stack(r, u))
            && RegsOf(z, c.t) == (if Written(c) != [] then Untraced(m.x86, RegsOf(m, c.t)) else RegsOf(r, c.t))
            && (forall u :: u != c.t ==> RegsOf(z, u) == RegsOf(r, u))
  {
    hide Untraced;
    hide Begun;
    hide Run;
    hide StaysAbove;
    hide Cleaned;
    hide Ended;
    TopContext(m, c, steps);
    var r, n := Run(Begun(m, c), steps), Depth(m, c.t);
    assert Stack(r, c.t) == Stack(m, c.t) + [Stack(r, c.t)[n]] by {
      assert Stack(r, c.t) == Stack(r, c.t)[..n] + [Stack(r, c.t)[n]];
    }
    CleanedTop(r, c.t, Stack(m, c.t), Stack(r, c.t)[n], left);
    if Written(c) != [] { SavedAtBegin(m, c); }
  }

  // What is saved if a register is written.
  lemma SavedAtBegin(m: Machine, c: Setup)
    requires Sensible(c) && Written(c) != []
    ensures ContextOf(m, c).saved == RegsOf(m, c.t) && ContextOf(m, c).spoiled
  {
  }

  /** The context of a call is gone when the call returns exactly when it failed and the
      registers, if it changed any, could be restored.  After PROCESS_EXIT the caller is
      told of failure, but the context stays. */
  lemma ContextGoneIff(m: Machine, c: Setup, steps: seq<Step>, e: Ending)
    requires Sensible(c) && Possible(steps) && OnTopAgain(m, c, steps)
    ensures var r := Run(Begun(m, c), steps);
            Stack(Ended(r, c.t, e), c.t) == Stack(m, c.t) <==> e.FailedWith? && (e.restored || Written(c) == [])
    ensures e.ProcessExit? ==> Depth(Ended(Run(Begun(m, c), steps), c.t, e), c.t) == Depth(m, c.t) + 1
  {
    hide Untraced;
    hide Begun;
    hide Run;
    hide StaysAbove;
    TopContext(m, c, steps);
    var r, n := Run(Begun(m, c), steps), Depth(m, c.t);
    assert Stack(r, c.t) == Stack(r, c.t)[..n] + [Stack(r, c.t)[n]];
  }

  // ---------------------------------------------------------------- threads

  function Only(steps: seq<Step>, t: Tid): (r: seq<Step>)
    requires Possible(steps)
    ensures Possible(r)
    decreases |steps|
  {
    if steps == [] then []
    else (if ThreadOf(steps[0]) == t then [steps[0]] else []) + Only(steps[1..], t)
  }

  predicate SameThread(m: Machine, r: Machine, t: Tid) {
    m.x86 == r.x86 && Stack(m, t) == Stack(r, t) && RegsOf(m, t) == RegsOf(r, t)
  }

  lemma ApplyOther(m: Machine, step: Step, t: Tid)
    requires (step.BeginCall? ==> Sensible(step.c)) && ThreadOf(step) != t
    ensures SameThread(m, Apply(m, step), t)
  {
  }

  lemma ApplySame(m: Machine, r: Machine, step: Step, t: Tid)
    requires (step.BeginCall? ==> Sensible(step.c)) && ThreadOf(step) == t && SameThread(m, r, t)
    ensures SameThread(Apply(m, step), Apply(r, step), t)
  {
    hide Untraced;
    match step
    case BeginCall(c) => hide Written; hide Patched;
    case EndCall(_, e) => if e.FailedWith? { CleanedSame(m, r, t, e.restored, e.left); }
    case Cleanup(_, restored, left) => CleanedSame(m, r, t, restored, left);
    case Touch(_, _) =>
  }

  lemma CleanedSame(m: Machine, r: Machine, t: Tid, restored: bool, left: Regs)
    requires SameThread(m, r, t)
    ensures SameThread(Cleaned(m, t, restored, left).0, Cleaned(r, t, restored, left).0, t)
  {
    hide Untraced;
  }

  /** Threads do not interfere: the contexts and registers of a thread after a run are those
      after its own steps alone. */
  lemma {:induction false} ThreadsApart(m: Machine, r: Machine, steps: seq<Step>, t: Tid)
    requires Possible(steps) && SameThread(m, r, t)
    ensures SameThread(Run(m, steps), Run(r, Only(steps, t)), t)
    decreases |steps|
  {
    if steps != [] {
      var rest := Only(steps[1..], t);
      if ThreadOf(steps[0]) == t {
        ApplySame(m, r, steps[0], t);
        ThreadsApart(Apply(m, steps[0]), Apply(r, steps[0]), steps[1..], t);
        assert ([steps[0]] + rest)[1..] == rest;
      } else {
        ApplyOther(m, steps[0], t);
        ThreadsApart(Apply(m, steps[0]), r, steps[1..], t);
        assert [] + rest == rest;
      }
    }
  }

  // ---------------------------------------------------------------- the object

  class AppcallTable {
    var appcalls: map<Tid, seq<Context>>
    var regs: map<Tid, Regs>
    const x86: bool

    function State(): Machine
      reads this
    {
      Machine(appcalls, regs, x86)
    }

    constructor (regs: map<Tid, Regs>, x86: bool)
      ensures State() == Machine(map[], regs, x86)
    {
      appcalls, this.regs, this.x86 := map[], regs, x86;
    }

    // dbg_appcall up to resuming the application.
    method Begin(c: Setup)
      requires Sensible(c)
      modifies this
      ensures State() == Begun(old(State()), c)
    {
      var t := c.t;
      var ctx := Context([], c.ctrl, false);
      var below := Stack(State(), t);
      ghost var r := RegsOf(State(), t);
      if !c.stop.AtSaving? {
        ctx := ctx.(saved := RegsOf(State(), t));
        if !c.stop.BeforeWrites? {
          var n := if c.stop.AtWrite? then c.stop.n else |c.writes|;
          assert c.writes[..|c.writes|] == c.writes;
          var spoiled := WriteRegisters(t, c.writes[..n]);
          ctx := ctx.(spoiled := spoiled);
        }
      }
      appcalls := appcalls[t := below + [ctx]];
      regs := regs[t := RegsOf(State(), t)];
    }

    // The loop over the registers to change.
    method WriteRegisters(t: Tid, writes: seq<(nat, word)>) returns (spoiled: bool)
      modifies this
      ensures appcalls == old(appcalls) && regs == old(regs)[t := Patched(old(RegsOf(State(), t)), writes)]
      ensures spoiled == (writes != [])
    {
      spoiled := false;
      var r := RegsOf(State(), t);
      ghost var goal := Patched(r, writes);
      var todo := writes;
      while todo != []
        invariant State() == old(State()) && Patched(r, todo) == goal
        invariant spoiled == (todo != writes) && |todo| <= |writes|
        decreases |todo|
      {
        var (idx, v) := todo[0];
        if idx < |r| { r := r[idx := v]; }
        spoiled := true;
        todo := todo[1..];
      }
      regs := regs[t := r];
    }

    method CleanupAppcall(t: Tid, restored: bool, left: Regs) returns (popped: bool)
      modifies this
      ensures (State(), popped) == Cleaned(old(State()), t, restored, left)
    {
      var calls := Stack(State(), t);
      if calls == [] { return false; }
      var ctx := calls[|calls| - 1];
      if x86 && |ctx.saved| > X86_REG_EFL {
        ctx := ctx.(saved := ctx.saved[X86_REG_EFL := WithoutTrace(ctx.saved[X86_REG_EFL])]);
      }
      if ctx.spoiled {
        if !restored {
          appcalls := appcalls[t := calls[..|calls| - 1] + [ctx]];
          regs := regs[t := left];
          return false;
        }
        regs := regs[t := ctx.saved];
      }
      appcalls := appcalls[t := calls[..|calls| - 1]];
      return true;
    }

    // The end of dbg_appcall; sp is BADADDR when the caller is told of failure.
    method End(t: Tid, e: Ending, argsSp: word) returns (sp: word)
      modifies this
      ensures State() == Ended(old(State()), t, e)
      ensures sp == if e.Returned? then argsSp else BADADDR
    {
      sp := argsSp;
      match e
      case Returned =>
      case ProcessExit => sp := BADADDR;
      case FailedWith(restored, left) =>
        var _ := CleanupAppcall(t, restored, left);
        sp := BADADDR;
    }
  }
}
