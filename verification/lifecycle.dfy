/** The life cycle every driver shares (`sjsu::Module`): five states, and the
 * guarded transitions Initialize and Enable make between them.
 *
 * The base class calls into the derived driver through `ModuleInitialize` and
 * `ModuleEnable`, which may throw. The model cannot see those drivers: each
 * call takes the hook's result as a parameter (`None` for a normal return,
 * `Some(e)` for an exception carrying `e`) and records the hook call in a
 * trace, so the properties can speak about when the hooks are invoked. */
module Lifecycle {
  import opened Wrappers

  datatype State = Reset | Initialized | Enabled | Disabled | Critical

  /** The value of each state in the `uint8_t` enumeration, in declaration
   * order: `kReset` is 0 and `kCritical` is 4. */
  function Rank(s: State): (r: nat)
    ensures r < 5
  {
    match s
    case Reset => 0
    case Initialized => 1
    case Enabled => 2
    case Disabled => 3
    case Critical => 4
  }

  /** A call into the derived driver and whether it returned normally. */
  datatype Hook = InitializeHook(ok: bool) | EnableHook(enable: bool, ok: bool)

  /** What one lifecycle call does: the new state, the hook calls it makes and
   * its outcome. */
  datatype Step = Step(state: State, hooks: seq<Hook>, outcome: Outcome)

  /** `Initialize()`: only a module in `Reset` calls ModuleInitialize, and
   * only a normal return moves it to `Initialized`. */
  function InitializeStep(s: State, hookResult: Option<Errc>): (r: Step)
    ensures r.hooks == (if s == Reset then [InitializeHook(hookResult.None?)] else [])
    ensures r.state == (if s == Reset && hookResult.None? then Initialized else s)
    ensures r.outcome.Fail? <==> s == Reset && hookResult.Some?
  {
    if s == Reset then
      match hookResult
      case None => Step(Initialized, [InitializeHook(true)], Pass)
      case Some(e) => Step(Reset, [InitializeHook(false)], Fail(e))
    else
      Step(s, [], Pass)
  }

  /** Enable(true) is allowed from `Initialized` or `Disabled`, Enable(false)
   * only from `Enabled`. */
  predicate EnableAllowed(s: State, enable: bool)
  {
    if enable then s == Initialized || s == Disabled else s == Enabled
  }

  /** `Enable(enable)`: an allowed transition calls ModuleEnable and, when it
   * returns normally, moves to `Enabled` or `Disabled`; any other call does
   * nothing. */
  function EnableStep(s: State, enable: bool, hookResult: Option<Errc>): (r: Step)
    ensures r.hooks == (if EnableAllowed(s, enable) then [EnableHook(enable, hookResult.None?)] else [])
    ensures r.state != s <==> EnableAllowed(s, enable) && hookResult.None?
    ensures r.state != s ==> r.state == (if enable then Enabled else Disabled)
    ensures r.outcome.Fail? <==> EnableAllowed(s, enable) && hookResult.Some?
  {
    if EnableAllowed(s, enable) then
      match hookResult
      case None => Step(if enable then Enabled else Disabled, [EnableHook(enable, true)], Pass)
      case Some(e) => Step(s, [EnableHook(enable, false)], Fail(e))
    else
      Step(s, [], Pass)
  }

  /** A driver object holding its life-cycle state. `hooks` is the trace of
   * calls made into the derived driver. */
  class Module {
    var state: State
    var hooks: seq<Hook>

    /** A new module starts in `Reset`. */
    constructor()
      ensures state == Reset && hooks == []
    {
      state := Reset;
      hooks := [];
    }

    /** The state the predicates below test: each `IsX` holds exactly when
     * it is the state returned, and configuration is required exactly while
     * it comes before `Enabled`. */
    function GetState(): (r: State)
      reads this
      ensures IsReset() <==> r == Reset
      ensures IsInitialized() <==> r == Initialized
      ensures IsEnabled() <==> r == Enabled
      ensures IsDisabled() <==> r == Disabled
      ensures IsCritical() <==> r == Critical
      ensures RequiresConfiguration() <==> Rank(r) < Rank(Enabled)
    {
      state
    }

    predicate IsReset()
      reads this
      ensures IsReset() <==> Rank(state) == 0
      ensures IsReset() ==> RequiresConfiguration()
    {
      state == Reset
    }

    predicate IsInitialized()
      reads this
      ensures IsInitialized() <==> Rank(state) == 1
      ensures IsInitialized() ==> RequiresConfiguration()
    {
      state == Initialized
    }

    predicate IsEnabled()
      reads this
      ensures IsEnabled() <==> Rank(state) == 2
      ensures IsEnabled() ==> !RequiresConfiguration()
    {
      state == Enabled
    }

    predicate IsDisabled()
      reads this
      ensures IsDisabled() <==> Rank(state) == 3
      ensures IsDisabled() ==> !RequiresConfiguration()
    {
      state == Disabled
    }

    predicate IsCritical()
      reads this
      ensures IsCritical() <==> Rank(state) == 4
      ensures IsCritical() ==> !RequiresConfiguration()
    {
      state == Critical
    }

    /** Forces the state; makes no hook call. */
    method SetState(newState: State)
      modifies this
      ensures state == newState && hooks == old(hooks)
    {
      state := newState;
    }

    method Initialize(hookResult: Option<Errc>) returns (outcome: Outcome)
      modifies this
      ensures state == InitializeStep(old(state), hookResult).state
      ensures hooks == old(hooks) + InitializeStep(old(state), hookResult).hooks
      ensures outcome == InitializeStep(old(state), hookResult).outcome
    {
      outcome := Pass;
      if IsReset() {
        match hookResult
        case Some(e) =>
          hooks := hooks + [InitializeHook(false)];
          outcome := Fail(e);
          return;
        case None =>
          hooks := hooks + [InitializeHook(true)];
        SetState(Initialized);
      }
    }

    method Enable(enable: bool, hookResult: Option<Errc>) returns (outcome: Outcome)
      modifies this
      ensures state == EnableStep(old(state), enable, hookResult).state
      ensures hooks == old(hooks) + EnableStep(old(state), enable, hookResult).hooks
      ensures outcome == EnableStep(old(state), enable, hookResult).outcome
    {
      outcome := Pass;
      var toEnabled := enable && (IsDisabled() || IsInitialized());
      var toDisabled := !enable && IsEnabled();
      if toEnabled || toDisabled {
        match hookResult
        case Some(e) =>
          hooks := hooks + [EnableHook(enable, false)];
          outcome := Fail(e);
          return;
        case None =>
          hooks := hooks + [EnableHook(enable, true)];
        if enable {
          SetState(Enabled);
        } else {
          SetState(Disabled);
        }
      }
    }

    /** The module has not been enabled yet: its state comes before
     * `Enabled` in the enumeration. */
    predicate RequiresConfiguration()
      reads this
      ensures RequiresConfiguration() <==> Rank(state) < Rank(Enabled)
    {
      state == Reset || state == Initialized
    }
  }

  /** A call a user of the driver makes. */
  datatype Call = InitializeCall(result: Option<Errc>) | EnableCall(enable: bool, result: Option<Errc>)

  function Apply(s: State, c: Call): Step
  {
    match c
    case InitializeCall(result) => InitializeStep(s, result)
    case EnableCall(enable, result) => EnableStep(s, enable, result)
  }

  /** The state and hook trace after a sequence of Initialize and Enable
   * calls starting in `s`. */
  function Run(s: State, calls: seq<Call>): (State, seq<Hook>)
  {
    if |calls| == 0 then (s, [])
    else
      var prev := Run(s, calls[..|calls| - 1]);
      var step := Apply(prev.0, calls[|calls| - 1]);
      (step.state, prev.1 + step.hooks)
  }

  /** The enable flags of the ModuleEnable calls that returned normally. */
  function Enables(h: seq<Hook>): seq<bool>
  {
    if |h| == 0 then []
    else
      var last := h[|h| - 1];
      Enables(h[..|h| - 1]) + (if last.EnableHook? && last.ok then [last.enable] else [])
  }

  /** Number of ModuleInitialize calls that returned normally. */
  function Initializations(h: seq<Hook>): nat
  {
    if |h| == 0 then 0
    else Initializations(h[..|h| - 1]) + (if h[|h| - 1] == InitializeHook(true) then 1 else 0)
  }

  /** Each ModuleEnable call in the trace comes after a ModuleInitialize
   * call that returned normally. */
  predicate EnableAfterInitialize(h: seq<Hook>)
  {
    if |h| == 0 then true
    else
      && EnableAfterInitialize(h[..|h| - 1])
      && (h[|h| - 1].EnableHook? ==> Initializations(h[..|h| - 1]) > 0)
  }

  /** Successful enables and disables alternate, starting with an enable. */
  predicate Alternating(e: seq<bool>)
  {
    forall i :: 0 <= i < |e| ==> e[i] == (i % 2 == 0)
  }

  /** What a trace from `Reset` guarantees about the state it reaches. */
  predicate Consistent(s: State, h: seq<Hook>)
  {
    && s != Critical
    && Initializations(h) == (if s == Reset then 0 else 1)
    && EnableAfterInitialize(h)
    && Alternating(Enables(h))
    && (s == Enabled <==> |Enables(h)| % 2 == 1)
    && ((s == Reset || s == Initialized) <==> Enables(h) == [])
  }

  lemma AppendOne(h: seq<Hook>, x: Hook)
    ensures Enables(h + [x]) == Enables(h) + (if x.EnableHook? && x.ok then [x.enable] else [])
    ensures Initializations(h + [x]) == Initializations(h) + (if x == InitializeHook(true) then 1 else 0)
    ensures EnableAfterInitialize(h + [x]) <==>
            EnableAfterInitialize(h) && (x.EnableHook? ==> Initializations(h) > 0)
  {
    assert (h + [x])[..|h|] == h;
  }

  lemma AlternatingAppend(e: seq<bool>, b: bool)
    requires Alternating(e) && b == (|e| % 2 == 0)
    ensures Alternating(e + [b])
  {
  }

  lemma InitializeConsistent(s: State, h: seq<Hook>, result: Option<Errc>)
    requires Consistent(s, h)
    ensures Consistent(InitializeStep(s, result).state, h + InitializeStep(s, result).hooks)
  {
    if s == Reset {
      AppendOne(h, InitializeHook(result.None?));
    } else {
      assert h + [] == h;
    }
  }

  lemma EnableConsistent(s: State, h: seq<Hook>, enable: bool, result: Option<Errc>)
    requires Consistent(s, h)
    ensures Consistent(EnableStep(s, enable, result).state, h + EnableStep(s, enable, result).hooks)
  {
    if EnableAllowed(s, enable) {
      AppendOne(h, EnableHook(enable, result.None?));
      if result.None? {
        AlternatingAppend(Enables(h), enable);
      }
    } else {
      assert h + [] == h;
    }
  }

  /** One Initialize or Enable call keeps a trace consistent. */
  lemma ApplyConsistent(s: State, h: seq<Hook>, c: Call)
    requires Consistent(s, h)
    ensures Consistent(Apply(s, c).state, h + Apply(s, c).hooks)
  {
    match c
    case InitializeCall(result) => InitializeConsistent(s, h, result);
    case EnableCall(enable, result) => EnableConsistent(s, h, enable, result);
  }

  lemma {:induction false} RunConsistent(calls: seq<Call>)
    ensures Consistent(Run(Reset, calls).0, Run(Reset, calls).1)
  {
    if |calls| > 0 {
      RunConsistent(calls[..|calls| - 1]);
      var prev := Run(Reset, calls[..|calls| - 1]);
      ApplyConsistent(prev.0, prev.1, calls[|calls| - 1]);
    }
  }

  /** Without SetState, a module never reaches `Critical`, ModuleInitialize
   * succeeds at most once, and ModuleEnable is only called after it. */
  lemma RunOrder(calls: seq<Call>)
    ensures Run(Reset, calls).0 != Critical
    ensures Initializations(Run(Reset, calls).1) <= 1
    ensures forall i :: 0 <= i < |Run(Reset, calls).1| && Run(Reset, calls).1[i].EnableHook? ==>
              Initializations(Run(Reset, calls).1[..i]) > 0
  {
    RunConsistent(calls);
    var h := Run(Reset, calls).1;
    forall i | 0 <= i < |h| && h[i].EnableHook?
      ensures Initializations(h[..i]) > 0
    {
      EnableAfterInitializeAt(h, i);
    }
  }

  lemma {:induction false} EnableAfterInitializeAt(h: seq<Hook>, i: nat)
    requires EnableAfterInitialize(h) && i < |h| && h[i].EnableHook?
    ensures Initializations(h[..i]) > 0
  {
    var init := h[..|h| - 1];
    if i < |h| - 1 {
      assert init[..i] == h[..i];
      EnableAfterInitializeAt(init, i);
    }
  }

  /** The successful ModuleEnable calls alternate enable, disable, enable,
   * ..., and the module is `Enabled` exactly after an odd number of them. */
  lemma RunEnablesAlternate(calls: seq<Call>)
    ensures Alternating(Enables(Run(Reset, calls).1))
    ensures Run(Reset, calls).0 == Enabled <==> |Enables(Run(Reset, calls).1)| % 2 == 1
  {
    RunConsistent(calls);
  }

  /** A second Initialize after a successful one does nothing. */
  lemma InitializeIdempotent(s: State, first: Option<Errc>, second: Option<Errc>)
    requires InitializeStep(s, first).outcome == Pass
    ensures InitializeStep(s, first).state != Reset
    ensures InitializeStep(InitializeStep(s, first).state, second) ==
            Step(InitializeStep(s, first).state, [], Pass)
  {
  }

  /** Enabling an enabled module, or disabling a module that is not enabled,
   * calls no hook and changes nothing. */
  lemma EnableIdempotent(s: State, enable: bool, first: Option<Errc>, second: Option<Errc>)
    requires EnableStep(s, enable, first).outcome == Pass
    requires EnableAllowed(s, enable)
    ensures EnableStep(EnableStep(s, enable, first).state, enable, second) ==
            Step(EnableStep(s, enable, first).state, [], Pass)
  {
  }

  /** A failed hook leaves the state where it was. */
  lemma FailedHookKeepsState(s: State, enable: bool, e: Errc)
    ensures InitializeStep(s, Some(e)).state == s
    ensures EnableStep(s, enable, Some(e)).state == s
  {
  }

  /** RequiresConfiguration (the state is `Reset` or `Initialized`) holds
   * exactly until the first ModuleEnable call that returns normally. */
  lemma RequiresConfigurationUntilEnabled(calls: seq<Call>)
    ensures Run(Reset, calls).0 in {Reset, Initialized} <==> Enables(Run(Reset, calls).1) == []
  {
    RunConsistent(calls);
  }
}
