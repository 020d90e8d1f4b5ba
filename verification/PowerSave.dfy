/** The power-save request and confirm protocol of rsi/rsi_91x_ps.c, over a FIFO of requests to the
  * device and a FIFO of confirms back, with any number of host calls that overlap one another. */
module PowerSave {
  import opened Wrappers

  datatype PsState = PS_NONE | PS_ENABLE_REQ_SENT | PS_DISABLE_REQ_SENT | PS_ENABLED
  datatype Request = SLEEP | WAKEUP

  /** Host calls in progress: rsi_enable_ps and rsi_disable_ps between their send and their state
    * change, rsi_conf_uapsd before its first and before its second send. */
  datatype Calls = Calls(enabling: nat, disabling: nat, entered: nat, halfway: nat)

  /** Host state, calls in progress, the state that the handler of a confirm has decided on but not
    * yet set, both channels, and the request the device processed last. */
  datatype System = System(host: PsState, calls: Calls, decided: Option<PsState>,
                           reqs: seq<Request>, cfms: seq<Request>, last: Request)

  datatype Event =
    | EnableSend(ok: bool)     // rsi_enable_ps up to the send
    | EnableSet                // its state change
    | DisableSend(ok: bool)    // rsi_disable_ps up to the send
    | DisableSet               // its state change
    | UapsdEnter               // rsi_conf_uapsd finds power save enabled
    | UapsdFirst(ok: bool)     // its wake-up request
    | UapsdSecond(ok: bool)    // its sleep request
    | DeviceStep               // the device processes a request and confirms it
    | ConfirmRead              // rsi_handle_ps_confirm looks at a confirm and at the host state
    | ConfirmSet               // its state change

  const NO_CALLS := Calls(0, 0, 0, 0)
  const INIT := System(PS_NONE, NO_CALLS, None, [], [], WAKEUP)

  predicate Possible(s: System, e: Event) {
    match e
    case EnableSend(_) => true
    case DisableSend(_) => true
    case EnableSet => s.calls.enabling > 0
    case DisableSet => s.calls.disabling > 0
    case UapsdEnter => s.host == PS_ENABLED
    case UapsdFirst(_) => s.calls.entered > 0
    case UapsdSecond(_) => s.calls.halfway > 0
    case DeviceStep => s.reqs != []
    case ConfirmRead => s.decided == None && s.cfms != []
    case ConfirmSet => s.decided.Some?
  }

  /** The state change that a confirm asks for, if the host waits for it. */
  function Decided(host: PsState, c: Request): Option<PsState> {
    if c == SLEEP && host == PS_ENABLE_REQ_SENT then Some(PS_ENABLED)
    else if c == WAKEUP && host == PS_DISABLE_REQ_SENT then Some(PS_NONE)
    else None
  }

  function Sent(s: System, ok: bool, r: Request): System {
    if ok then s.(reqs := s.reqs + [r]) else s
  }

  function Apply(s: System, e: Event): System
    requires Possible(s, e)
  {
    var c := s.calls;
    match e
    case EnableSend(ok) => Sent(s, ok, SLEEP).(calls := if ok then c.(enabling := c.enabling + 1) else c)
    case EnableSet => s.(host := PS_ENABLE_REQ_SENT, calls := c.(enabling := c.enabling - 1))
    case DisableSend(ok) => Sent(s, ok, WAKEUP).(calls := if ok then c.(disabling := c.disabling + 1) else c)
    case DisableSet => s.(host := PS_DISABLE_REQ_SENT, calls := c.(disabling := c.disabling - 1))
    case UapsdEnter => s.(calls := c.(entered := c.entered + 1))
    case UapsdFirst(ok) =>
      Sent(s, ok, WAKEUP).(calls := c.(entered := c.entered - 1, halfway := if ok then c.halfway + 1 else c.halfway))
    case UapsdSecond(ok) => Sent(s, ok, SLEEP).(calls := c.(halfway := c.halfway - 1))
    case DeviceStep => s.(reqs := s.reqs[1..], cfms := s.cfms + [s.reqs[0]], last := s.reqs[0])
    case ConfirmRead => s.(cfms := s.cfms[1..], decided := Decided(s.host, s.cfms[0]))
    case ConfirmSet => s.(host := s.decided.value, decided := None)
  }

  predicate IsRun(s: System, es: seq<Event>)
    decreases es
  {
    es != [] ==> Possible(s, es[0]) && IsRun(Apply(s, es[0]), es[1..])
  }

  function Run(s: System, es: seq<Event>): System
    requires IsRun(s, es)
    decreases es
  {
    if es == [] then s else Run(Apply(s, es[0]), es[1..])
  }

  predicate Quiescent(s: System) {
    s.reqs == [] && s.cfms == [] && s.calls == NO_CALLS && s.decided == None
  }

  predicate Agrees(s: System) {
    s.host == PS_ENABLED <==> s.last == SLEEP
  }

  // ---------------------------------------------------------------- what the channels will do

  /** The request the device will have processed last once all in flight are. */
  function Target(s: System): Request {
    if s.reqs != [] then s.reqs[|s.reqs| - 1] else s.last
  }

  /** The state the host ends up in when the channels have run dry: the one decided on but not yet
    * set; or the one that the awaited confirm brings, if it is still to come. */
  function EndsUp(s: System): PsState {
    if s.decided.Some? then s.decided.value
    else if s.host == PS_ENABLE_REQ_SENT && SLEEP in s.cfms + s.reqs then PS_ENABLED
    else if s.host == PS_DISABLE_REQ_SENT && WAKEUP in s.cfms + s.reqs then PS_NONE
    else s.host
  }

  predicate WillBeEnabled(s: System) {
    EndsUp(s) == PS_ENABLED
  }

  /** The host waits for a confirm. */
  predicate Waits(host: PsState) {
    host == PS_ENABLE_REQ_SENT || host == PS_DISABLE_REQ_SENT
  }

  predicate Delivers(e: Event) {
    e.DeviceStep? || e.ConfirmRead? || e.ConfirmSet?
  }

  /** A confirm decides for enabled or none only. */
  predicate Shaped(s: System) {
    s.decided.Some? ==> s.decided.value in {PS_ENABLED, PS_NONE}
  }

  lemma {:induction false} RunKeepsShape(s: System, es: seq<Event>)
    requires Shaped(s) && IsRun(s, es)
    ensures Shaped(Run(s, es))
    decreases es
  {
    if es != [] {
      RunKeepsShape(Apply(s, es[0]), es[1..]);
    }
  }

  /** Left to the channels alone, host and device will agree. */
  predicate WillAgree(s: System) {
    WillBeEnabled(s) <==> Target(s) == SLEEP
  }

  /** Processing and confirming change neither outcome. */
  lemma DeliveryKeeps(s: System, e: Event)
    requires Shaped(s) && Possible(s, e) && Delivers(e)
    ensures var t := Apply(s, e);
            t.calls == s.calls && Target(t) == Target(s) && EndsUp(t) == EndsUp(s)
  {
    if e.DeviceStep? {
      assert (s.cfms + [s.reqs[0]]) + s.reqs[1..] == s.cfms + s.reqs;
    } else if e.ConfirmRead? {
      assert s.cfms + s.reqs == [s.cfms[0]] + (s.cfms[1..] + s.reqs);
    }
  }

  // ---------------------------------------------------------------- steps that lead astray

  function InProgress(s: System): nat {
    s.calls.enabling + s.calls.disabling + s.calls.entered + s.calls.halfway
  }

  /** A host call returns. */
  predicate Completes(e: Event) {
    e.EnableSet? || e.DisableSet? || e == UapsdFirst(false) || e.UapsdSecond?
  }

  /** The host state a completing call leaves does not fit the requests sent. With a confirm half
    * handled its decision will overwrite that state. Otherwise an enabling call sets its state
    * although the last request is not sleep, or no confirm of sleep is left to come; a disabling call
    * although the last request is sleep; a reconfiguration asks for sleep again although the host is
    * not enabled any more; or it fails to ask. */
  predicate Misfits(s: System, e: Event) {
    match e
    case EnableSet =>
      if s.decided.Some? then (s.decided.value == PS_ENABLED) != (Target(s) == SLEEP)
      else (SLEEP in s.cfms + s.reqs) != (Target(s) == SLEEP)
    case DisableSet => (s.decided == Some(PS_ENABLED)) != (Target(s) == SLEEP)
    case UapsdSecond(true) =>
      if s.decided.Some? then s.decided.value != PS_ENABLED else s.host in {PS_NONE, PS_DISABLE_REQ_SENT}
    case _ => !WillAgree(s)
  }

  /** The last call in progress returns, and leaves a misfit. */
  predicate Strays(s: System, e: Event) {
    Completes(e) && InProgress(s) == 1 && Misfits(s, e)
  }

  predicate OnTrack(s: System) {
    InProgress(s) == 0 ==> WillAgree(s)
  }

  /** A call returns into agreement or disagreement to come. */
  lemma CompletingIff(s: System, e: Event)
    requires Possible(s, e) && Completes(e)
    ensures InProgress(Apply(s, e)) == InProgress(s) - 1
    ensures WillAgree(Apply(s, e)) <==> !Misfits(s, e)
  {
    if e == UapsdSecond(true) {
      assert s.cfms + (s.reqs + [SLEEP]) == (s.cfms + s.reqs) + [SLEEP];
    }
  }

  /** A step from a state on track leaves it exactly when it strays; a step from a state off track
    * returns to it exactly when it begins a call. */
  lemma StepStraysIff(s: System, e: Event)
    requires Shaped(s) && Possible(s, e)
    ensures OnTrack(s) ==> (Strays(s, e) <==> !OnTrack(Apply(s, e)))
    ensures !OnTrack(s) ==> (OnTrack(Apply(s, e)) <==> InProgress(Apply(s, e)) == 1)
  {
    if Completes(e) {
      CompletingIff(s, e);
    } else if Delivers(e) {
      DeliveryKeeps(s, e);
    }
  }

  predicate Straight(s: System, es: seq<Event>)
    requires IsRun(s, es)
    decreases es
  {
    es != [] ==> !Strays(s, es[0]) && Straight(Apply(s, es[0]), es[1..])
  }

  lemma {:induction false} StraightStaysOnTrack(s: System, es: seq<Event>)
    requires Shaped(s) && OnTrack(s) && IsRun(s, es) && Straight(s, es)
    ensures OnTrack(Run(s, es))
    decreases es
  {
    if es != [] {
      StepStraysIff(s, es[0]);
      StraightStaysOnTrack(Apply(s, es[0]), es[1..]);
    }
  }

  /** A run without a further straying step comes to rest in disagreement. */
  predicate EndsApart(s: System, es: seq<Event>) {
    IsRun(s, es) && Straight(s, es) && Quiescent(Run(s, es)) && !Agrees(Run(s, es))
  }

  lemma Prepend(s: System, e: Event, es: seq<Event>)
    requires Possible(s, e) && !Strays(s, e) && EndsApart(Apply(s, e), es)
    ensures EndsApart(s, [e] + es)
  {
    assert ([e] + es)[1..] == es;
  }

  /** Off the track it is enough to let the channels run dry. */
  lemma {:induction false} DrainsApart(s: System) returns (es: seq<Event>)
    requires Shaped(s) && !OnTrack(s)
    ensures EndsApart(s, es)
    decreases 3 * |s.reqs| + 2 * |s.cfms| + (if s.decided.Some? then 1 else 0)
  {
    if s.reqs == [] && s.cfms == [] && s.decided == None {
      es := [];
    } else {
      var e := if s.decided.Some? then ConfirmSet else if s.reqs != [] then DeviceStep else ConfirmRead;
      DeliveryKeeps(s, e);
      es := DrainsApart(Apply(s, e));
      Prepend(s, e, es);
      es := [e] + es;
    }
  }

  /** From every shaped state, some run without a straying step ends in disagreement exactly when no call is
    * in progress and the channels will not bring host and device together. */
  lemma DisagreementIff(s: System)
    requires Shaped(s)
    ensures (exists es :: EndsApart(s, es)) <==> !OnTrack(s)
  {
    if !OnTrack(s) {
      var es := DrainsApart(s);
    }
    if es :| EndsApart(s, es) {
      if OnTrack(s) {
        StraightStaysOnTrack(s, es);
      }
    }
  }

  /** Under any overlap of enabling, disabling and UAPSD reconfiguration, and with failing sends: a run
    * of the driver without a straying step agrees whenever nothing is in flight; and its next step
    * strays exactly when some continuation, without another such step, ends in disagreement. */
  lemma AgreementIff(es: seq<Event>, e: Event)
    requires IsRun(INIT, es) && Straight(INIT, es) && Possible(Run(INIT, es), e)
    ensures Quiescent(Run(INIT, es)) ==> Agrees(Run(INIT, es))
    ensures Strays(Run(INIT, es), e) <==> exists more :: EndsApart(Apply(Run(INIT, es), e), more)
  {
    RunKeepsShape(INIT, es);
    StraightStaysOnTrack(INIT, es);
    StepStraysIff(Run(INIT, es), e);
    DisagreementIff(Apply(Run(INIT, es), e));
  }

  /** The last time that all calls had returned, if ever, a straying step was the last of them. */
  predicate LastSettledAstray(s: System, es: seq<Event>, astray: bool)
    requires IsRun(s, es)
    decreases es
  {
    if es == [] then astray
    else
      LastSettledAstray(Apply(s, es[0]), es[1..],
                        if Completes(es[0]) && InProgress(s) == 1 then Strays(s, es[0]) else astray)
  }

  lemma {:induction false} SettledIff(s: System, es: seq<Event>, astray: bool)
    requires Shaped(s) && IsRun(s, es) && (InProgress(s) == 0 ==> (WillAgree(s) <==> !astray))
    ensures var t := Run(s, es);
            InProgress(t) == 0 ==> (WillAgree(t) <==> !LastSettledAstray(s, es, astray))
    decreases es
  {
    if es != [] {
      var e := es[0];
      if Completes(e) {
        CompletingIff(s, e);
      } else if Delivers(e) {
        DeliveryKeeps(s, e);
      }
      SettledIff(Apply(s, e), es[1..], if Completes(e) && InProgress(s) == 1 then Strays(s, e) else astray);
    }
  }

  /** For any run of the driver, straying or not: host and device disagree at rest exactly when a
    * straying step was the last to leave no call in progress. */
  lemma RestIff(es: seq<Event>)
    requires IsRun(INIT, es) && Quiescent(Run(INIT, es))
    ensures Agrees(Run(INIT, es)) <==> !LastSettledAstray(INIT, es, false)
  {
    SettledIff(INIT, es, false);
  }

  // ---------------------------------------------------------------- waiting for ever

  /** What a call that returns lets the host end up in. Setting its state, it waits for a confirm that
    * must still be to come, unless a confirm half handled overwrites that state; asking for sleep
    * again, a reconfiguration can only help a host that waits for it. */
  function Leaves(s: System, e: Event): PsState {
    match e
    case EnableSet =>
      if s.decided.Some? then s.decided.value
      else if SLEEP in s.cfms + s.reqs then PS_ENABLED else PS_ENABLE_REQ_SENT
    case DisableSet =>
      if s.decided.Some? then s.decided.value
      else if WAKEUP in s.cfms + s.reqs then PS_NONE else PS_DISABLE_REQ_SENT
    case UapsdSecond(true) =>
      if s.decided == None && s.host == PS_ENABLE_REQ_SENT then PS_ENABLED else EndsUp(s)
    case _ => EndsUp(s)
  }

  lemma CompletingLeaves(s: System, e: Event)
    requires Possible(s, e) && Completes(e)
    ensures EndsUp(Apply(s, e)) == Leaves(s, e)
  {
    if e == UapsdSecond(true) {
      assert s.cfms + (s.reqs + [SLEEP]) == (s.cfms + s.reqs) + [SLEEP];
    }
  }

  /** What the last call to leave no other in progress left the host to end up in. */
  function LastLeft(s: System, es: seq<Event>, left: PsState): PsState
    requires IsRun(s, es)
    decreases es
  {
    if es == [] then left
    else
      LastLeft(Apply(s, es[0]), es[1..], if Completes(es[0]) && InProgress(s) == 1 then Leaves(s, es[0]) else left)
  }

  lemma {:induction false} LeftIsReached(s: System, es: seq<Event>, left: PsState)
    requires Shaped(s) && IsRun(s, es) && (InProgress(s) == 0 ==> EndsUp(s) == left)
    ensures InProgress(Run(s, es)) == 0 ==> EndsUp(Run(s, es)) == LastLeft(s, es, left)
    decreases es
  {
    if es != [] {
      var e := es[0];
      if Completes(e) {
        CompletingLeaves(s, e);
      } else if Delivers(e) {
        DeliveryKeeps(s, e);
      }
      LeftIsReached(Apply(s, e), es[1..], if Completes(e) && InProgress(s) == 1 then Leaves(s, e) else left);
    }
  }

  /** For any run of the driver: the state of the host at rest is what the last call to leave no other
    * in progress let it end up in; so it waits for ever for a confirm exactly when that call set its
    * state after the confirm had passed. */
  lemma RestState(es: seq<Event>)
    requires IsRun(INIT, es) && Quiescent(Run(INIT, es))
    ensures Run(INIT, es).host == LastLeft(INIT, es, PS_NONE)
    ensures Run(INIT, es).host in {PS_NONE, PS_ENABLED} <==> !Waits(LastLeft(INIT, es, PS_NONE))
  {
    LeftIsReached(INIT, es, PS_NONE);
  }

  /** A call sets its state right after its send, a reconfiguration sends right after it found power
    * save enabled, and a confirm is handled in one go: what is begun is finished first. */
  predicate AtOnce(s: System, e: Event) {
    && (s.decided.Some? ==> e == ConfirmSet)
    && (s.calls.enabling > 0 ==> e == EnableSet)
    && (s.calls.disabling > 0 ==> e == DisableSet)
    && (s.calls.entered > 0 ==> e.UapsdFirst?)
  }

  predicate AllAtOnce(s: System, es: seq<Event>)
    requires IsRun(s, es)
    decreases es
  {
    es != [] ==> AtOnce(s, es[0]) && AllAtOnce(Apply(s, es[0]), es[1..])
  }

  /** Nothing is begun, or one thing; and what the host waits for, or is about to, is to come. */
  predicate Attended(s: System) {
    && s.calls.enabling + s.calls.disabling + s.calls.entered + (if s.decided.Some? then 1 else 0) <= 1
    && (s.calls.enabling > 0 ==> SLEEP in s.cfms + s.reqs)
    && (s.calls.disabling > 0 ==> WAKEUP in s.cfms + s.reqs)
    && (s.calls.enabling == s.calls.disabling == 0 ==> !Waits(EndsUp(s)))
  }

  lemma StepStaysAttended(s: System, e: Event)
    requires Shaped(s) && Attended(s) && Possible(s, e) && AtOnce(s, e)
    ensures Attended(Apply(s, e))
  {
    if Delivers(e) {
      DeliveryKeeps(s, e);
    } else {
      assert forall r: Request :: s.cfms + (s.reqs + [r]) == (s.cfms + s.reqs) + [r];
    }
  }

  lemma {:induction false} AtOnceStaysAttended(s: System, es: seq<Event>)
    requires Shaped(s) && Attended(s) && IsRun(s, es) && AllAtOnce(s, es)
    ensures Attended(Run(s, es))
    decreases es
  {
    if es != [] {
      StepStaysAttended(s, es[0]);
      AtOnceStaysAttended(Apply(s, es[0]), es[1..]);
    }
  }

  /** If everything begun is finished first, the host never waits at rest, whatever calls overlap and
    * whatever sends fail; and if no step strays, it is in PS_ENABLED when the last request was sleep
    * and in PS_NONE when it was wake-up. */
  lemma AtOnceRest(es: seq<Event>)
    requires IsRun(INIT, es) && AllAtOnce(INIT, es) && Quiescent(Run(INIT, es))
    ensures var t := Run(INIT, es);
            && t.host in {PS_NONE, PS_ENABLED}
            && (Straight(INIT, es) ==> t.host == if t.last == SLEEP then PS_ENABLED else PS_NONE)
  {
    AtOnceStaysAttended(INIT, es);
    if Straight(INIT, es) {
      StraightStaysOnTrack(INIT, es);
    }
  }

  /** A call that sets its state at once after its send does not stray, whatever other calls are in
    * progress, as long as it does not fall into the handling of a confirm. */
  lemma AtomicCallsFit(s: System)
    requires s.decided == None
    ensures var t := Apply(s, EnableSend(true)); Possible(t, EnableSet) && !Strays(t, EnableSet)
    ensures var t := Apply(s, DisableSend(true)); Possible(t, DisableSet) && !Strays(t, DisableSet)
  {
    assert s.cfms + (s.reqs + [SLEEP]) == (s.cfms + s.reqs) + [SLEEP];
  }

  // ---------------------------------------------------------------- runs that stray

  /** `states` are the states of the run `es`. */
  predicate Follows(states: seq<System>, es: seq<Event>) {
    && |states| == |es| + 1
    && forall i :: 0 <= i < |es| ==> Possible(states[i], es[i]) && Apply(states[i], es[i]) == states[i + 1]
  }

  lemma {:induction false} FollowedRun(states: seq<System>, es: seq<Event>)
    requires Follows(states, es) && forall i :: 0 <= i < |es| ==> !Strays(states[i], es[i])
    ensures IsRun(states[0], es) && Run(states[0], es) == states[|es|] && Straight(states[0], es)
    decreases es
  {
    if es != [] {
      FollowedRun(states[1..], es[1..]);
    }
  }

  predicate StraysAfter(es: seq<Event>, e: Event) {
    IsRun(INIT, es) && Straight(INIT, es) && Possible(Run(INIT, es), e) && Strays(Run(INIT, es), e)
  }

  /** The confirm is handled before the state is set. */
  lemma ConfirmOvertakes()
    ensures exists es :: StraysAfter(es, EnableSet)
  {
    var es := [EnableSend(true), DeviceStep, ConfirmRead];
    var one := Calls(1, 0, 0, 0);
    var states := [
      INIT,
      System(PS_NONE, one, None, [SLEEP], [], WAKEUP),
      System(PS_NONE, one, None, [], [SLEEP], SLEEP),
      System(PS_NONE, one, None, [], [], SLEEP)];
    FollowedRun(states, es);
    assert StraysAfter(es, EnableSet);
  }

  const LATE_RUN: seq<Event> := [DisableSend(true), DeviceStep, ConfirmRead, DisableSet]
  const LATE := System(PS_DISABLE_REQ_SENT, NO_CALLS, None, [], [], WAKEUP)

  lemma ReachesLate()
    ensures IsRun(INIT, LATE_RUN) && Straight(INIT, LATE_RUN) && Run(INIT, LATE_RUN) == LATE
  {
    var one := Calls(0, 1, 0, 0);
    var states := [
      INIT,
      System(PS_NONE, one, None, [WAKEUP], [], WAKEUP),
      System(PS_NONE, one, None, [], [WAKEUP], WAKEUP),
      System(PS_NONE, one, None, [], [], WAKEUP),
      LATE];
    FollowedRun(states, LATE_RUN);
  }

  /** A disabling call whose confirm has passed before it sets its state: it does not stray, for the
    * device is awake, but the host waits for ever. */
  lemma WaitsForEver()
    ensures exists es :: IsRun(INIT, es) && Straight(INIT, es) && Quiescent(Run(INIT, es))
                         && Run(INIT, es).host == PS_DISABLE_REQ_SENT
  {
    ReachesLate();
  }

  /** Two calls set their states in the other order than they sent their requests. */
  lemma CallsCross()
    ensures exists es :: StraysAfter(es, DisableSet)
  {
    var es := [DisableSend(true), EnableSend(true), EnableSet];
    var states := [
      INIT,
      System(PS_NONE, Calls(0, 1, 0, 0), None, [WAKEUP], [], WAKEUP),
      System(PS_NONE, Calls(1, 1, 0, 0), None, [WAKEUP, SLEEP], [], WAKEUP),
      System(PS_ENABLE_REQ_SENT, Calls(0, 1, 0, 0), None, [WAKEUP, SLEEP], [], WAKEUP)];
    FollowedRun(states, es);
    assert StraysAfter(es, DisableSet);
  }

  lemma {:induction false} RunAppend(s: System, es: seq<Event>, more: seq<Event>)
    requires IsRun(s, es) && Straight(s, es) && IsRun(Run(s, es), more) && Straight(Run(s, es), more)
    ensures IsRun(s, es + more) && Straight(s, es + more) && Run(s, es + more) == Run(Run(s, es), more)
    decreases es
  {
    if es == [] {
      assert es + more == more;
    } else {
      assert (es + more)[0] == es[0] && (es + more)[1..] == es[1..] + more;
      RunAppend(Apply(s, es[0]), es[1..], more);
    }
  }

  /** Power save is enabled up to the decision on the confirm. */
  const ENABLING_RUN: seq<Event> := [EnableSend(true), EnableSet, DeviceStep, ConfirmRead]
  const ENABLING := System(PS_ENABLE_REQ_SENT, NO_CALLS, Some(PS_ENABLED), [], [], SLEEP)

  lemma ReachesEnabling()
    ensures IsRun(INIT, ENABLING_RUN) && Straight(INIT, ENABLING_RUN) && Run(INIT, ENABLING_RUN) == ENABLING
  {
    var states := [
      INIT,
      System(PS_NONE, Calls(1, 0, 0, 0), None, [SLEEP], [], WAKEUP),
      System(PS_ENABLE_REQ_SENT, NO_CALLS, None, [SLEEP], [], WAKEUP),
      System(PS_ENABLE_REQ_SENT, NO_CALLS, None, [], [SLEEP], SLEEP),
      ENABLING];
    FollowedRun(states, ENABLING_RUN);
  }

  /** A disabling call runs between the decision on a confirm and its state change. */
  lemma ConfirmIsTorn()
    ensures exists es :: StraysAfter(es, DisableSet) && Run(INIT, es).decided == Some(PS_ENABLED)
  {
    var torn := System(PS_ENABLE_REQ_SENT, Calls(0, 1, 0, 0), Some(PS_ENABLED), [WAKEUP], [], SLEEP);
    ReachesEnabling();
    FollowedRun([ENABLING, torn], [DisableSend(true)]);
    RunAppend(INIT, ENABLING_RUN, [DisableSend(true)]);
    assert StraysAfter(ENABLING_RUN + [DisableSend(true)], DisableSet);
  }

  /** A reconfiguration after its first request. */
  const HALFWAY_RUN: seq<Event> := ENABLING_RUN + [ConfirmSet, UapsdEnter, UapsdFirst(true)]
  const HALFWAY := System(PS_ENABLED, Calls(0, 0, 0, 1), None, [WAKEUP], [], SLEEP)

  lemma ReachesHalfway()
    ensures IsRun(INIT, HALFWAY_RUN) && Straight(INIT, HALFWAY_RUN) && Run(INIT, HALFWAY_RUN) == HALFWAY
  {
    var states := [
      ENABLING,
      System(PS_ENABLED, NO_CALLS, None, [], [], SLEEP),
      System(PS_ENABLED, Calls(0, 0, 1, 0), None, [], [], SLEEP),
      HALFWAY];
    ReachesEnabling();
    FollowedRun(states, [ConfirmSet, UapsdEnter, UapsdFirst(true)]);
    RunAppend(INIT, ENABLING_RUN, [ConfirmSet, UapsdEnter, UapsdFirst(true)]);
  }

  /** Only the wake-up half of the reconfiguration goes out. */
  lemma HalfReconfigured()
    ensures exists es :: StraysAfter(es, UapsdSecond(false))
  {
    ReachesHalfway();
    assert StraysAfter(HALFWAY_RUN, UapsdSecond(false));
  }

  const DISABLED := System(PS_DISABLE_REQ_SENT, Calls(0, 0, 0, 1), None, [WAKEUP, WAKEUP], [], SLEEP)

  lemma DisablesHalfway()
    ensures var es := [DisableSend(true), DisableSet];
            IsRun(HALFWAY, es) && Straight(HALFWAY, es) && Run(HALFWAY, es) == DISABLED
  {
    var between := System(PS_ENABLED, Calls(0, 1, 0, 1), None, [WAKEUP, WAKEUP], [], SLEEP);
    FollowedRun([HALFWAY, between, DISABLED], [DisableSend(true), DisableSet]);
  }

  /** Power save is disabled between the two requests, with every send and state change at once and
    * every send successful: the device is put to sleep behind the back of the host. */
  lemma DisabledBetween()
    ensures exists es :: StraysAfter(es, UapsdSecond(true))
  {
    ReachesHalfway();
    DisablesHalfway();
    RunAppend(INIT, HALFWAY_RUN, [DisableSend(true), DisableSet]);
    assert StraysAfter(HALFWAY_RUN + [DisableSend(true), DisableSet], UapsdSecond(true));
  }

  // ---------------------------------------------------------------- the driver's code

  class Adapter {
    var psState: PsState
    var reqs: seq<Request>
    ghost var calls: Calls         // the other calls in progress
    ghost var cfms: seq<Request>   // in flight towards the host
    ghost var last: Request

    ghost function Abs(): System
      reads this
    {
      System(psState, calls, None, reqs, cfms, last)
    }

    /** rsi_send_ps_request */
    method SendPsRequest(enable: bool) returns (ok: bool)
      modifies this`reqs
      ensures reqs == if ok then old(reqs) + [if enable then SLEEP else WAKEUP] else old(reqs)
    {
      ok := *;
      if ok {
        reqs := reqs + [if enable then SLEEP else WAKEUP];
      }
    }

    /** rsi_enable_ps is the two steps of the protocol in one. */
    method EnablePs() returns (ok: bool)
      modifies this`reqs, this`psState
      ensures var s := Apply(old(Abs()), EnableSend(ok));
              Abs() == if ok then Apply(s, EnableSet) else s
    {
      ok := SendPsRequest(true);
      if !ok {
        return;
      }
      psState := PS_ENABLE_REQ_SENT;
    }

    /** rsi_disable_ps */
    method DisablePs() returns (ok: bool)
      modifies this`reqs, this`psState
      ensures var s := Apply(old(Abs()), DisableSend(ok));
              Abs() == if ok then Apply(s, DisableSet) else s
    {
      ok := SendPsRequest(false);
      if !ok {
        return;
      }
      psState := PS_DISABLE_REQ_SENT;
    }

    /** rsi_conf_uapsd; `first` and `second` are the outcomes of its sends. */
    method ConfUapsd() returns (first: bool, second: bool)
      modifies this`reqs
      ensures old(psState) != PS_ENABLED ==> Abs() == old(Abs())
      ensures old(psState) == PS_ENABLED ==>
                var s := Apply(Apply(old(Abs()), UapsdEnter), UapsdFirst(first));
                Abs() == if first then Apply(s, UapsdSecond(second)) else s
    {
      first, second := false, false;
      if psState != PS_ENABLED {
        return;
      }
      first := SendPsRequest(false);
      if !first {
        return;
      }
      second := SendPsRequest(true);
    }

    /** rsi_handle_ps_confirm for the confirm at the head of the channel; None is a type that is
      * neither sleep nor wake-up, and is reported as an error. */
    method HandlePsConfirm(cfmType: Option<Request>) returns (r: int)
      modifies this`psState, this`cfms
      ensures cfmType == None ==> r == -1 && Abs() == old(Abs())
      ensures cfmType.Some? ==> r == 0
      ensures cfmType.Some? && old(cfms) != [] && old(cfms[0]) == cfmType.value ==>
                var s := Apply(old(Abs()), ConfirmRead);
                Abs() == if s.decided.Some? then Apply(s, ConfirmSet) else s
      ensures cfmType == Some(SLEEP) && old(psState) == PS_ENABLE_REQ_SENT ==> psState == PS_ENABLED
      ensures cfmType == Some(WAKEUP) && old(psState) == PS_DISABLE_REQ_SENT ==> psState == PS_NONE
    {
      match cfmType {
        case Some(SLEEP) =>
          if psState == PS_ENABLE_REQ_SENT {
            psState := PS_ENABLED;
          }
        case Some(WAKEUP) =>
          if psState == PS_DISABLE_REQ_SENT {
            psState := PS_NONE;
          }
        case None =>
          return -1;
      }
      if cfms != [] {
        cfms := cfms[1..];
      }
      return 0;
    }
  }
}
