/** The transmit-access handshake of rsi/rsi_91x_ps.c: set_clr_tx_intention, protocol_tx_access and
  * sleep_exit_recvd, with the sleep-entry handler of rsi/rsi_91x_mgmt.c, as interleaved steps of
  * one owner thread per protocol id and the receive thread. A step under tx_access_lock is atomic. */
module TxAccess {
  import opened Wrappers

  const MAX_IDS := 3

  datatype Error = EPERM | ETIME

  /** Where an owner thread stands in set_clr_tx_intention. */
  datatype Pc =
    | Out                   // has no intention set
    | Announced             // intention set, about to read the access flag
    | Arming                // read it as false, about to raise its wait flag
    | Waiting               // in wait_event_timeout
    | Woken                 // about to read the access flag again
    | Granted               // the call returned 0
    | Failed(error: Error)  // the call returned an error, the intention stays set

  /** `scan` is the next id sleep_exit_recvd looks at, MAX_IDS when it is not running. */
  datatype State = State(intent: seq<bool>, wait: seq<bool>, pc: seq<Pc>,
                         access: bool, sleepEntry: bool, ackSent: bool, scan: nat)

  datatype Event =
    | SetIntention(p: nat)
    | ReadAccess(p: nat)
    | ArmWait(p: nat)
    | Wake(p: nat)
    | Timeout(p: nat)
    | Recheck(p: nat)
    | ClearIntention(p: nat, allocOk: bool)
    | SleepEntry(allocOk: bool)
    | SleepExit
    | Scan
    | Revoke                // another writer of false, under the lock and the same guard
    | Grant                 // another writer of true

  predicate Shaped(s: State) {
    |s.intent| == |s.wait| == |s.pc| == MAX_IDS && s.scan <= MAX_IDS
  }

  /** protocol_tx_access */
  predicate Intended(intent: seq<bool>) {
    exists i :: 0 <= i < |intent| && intent[i]
  }

  const INIT := State([false, false, false], [false, false, false], [Out, Out, Out], true, false, false, MAX_IDS)

  predicate Possible(s: State, e: Event)
    requires Shaped(s)
  {
    match e
    case SetIntention(p) => p < MAX_IDS && (s.pc[p] == Out || s.pc[p].Failed?)
    case ReadAccess(p) => p < MAX_IDS && s.pc[p] == Announced
    case ArmWait(p) => p < MAX_IDS && s.pc[p] == Arming
    case Wake(p) => p < MAX_IDS && s.pc[p] == Waiting && !s.wait[p]
    case Timeout(p) => p < MAX_IDS && s.pc[p] == Waiting && s.wait[p]
    case Recheck(p) => p < MAX_IDS && s.pc[p] == Woken
    case ClearIntention(p, _) => p < MAX_IDS && (s.pc[p] == Granted || s.pc[p].Failed?)
    case SleepEntry(_) => s.scan == MAX_IDS
    case SleepExit => s.scan == MAX_IDS
    case Scan => s.scan < MAX_IDS
    case Revoke => !Intended(s.intent)
    case Grant => true
  }

  /** A clear that finds an unacknowledged sleep request and no other intention acknowledges it. */
  predicate ClearAcks(s: State, p: nat)
    requires Shaped(s) && p < MAX_IDS
  {
    s.sleepEntry && !s.ackSent && !Intended(s.intent[p := false])
  }

  function Apply(s: State, e: Event): (t: State)
    requires Shaped(s) && Possible(s, e)
    ensures Shaped(t)
  {
    match e
    case SetIntention(p) => s.(intent := s.intent[p := true], pc := s.pc[p := Announced])
    case ReadAccess(p) => s.(pc := s.pc[p := if s.access then Granted else Arming])
    case ArmWait(p) => s.(wait := s.wait[p := true], pc := s.pc[p := Waiting])
    case Wake(p) => s.(pc := s.pc[p := Woken])
    case Timeout(p) => s.(pc := s.pc[p := Failed(ETIME)])
    case Recheck(p) => s.(pc := s.pc[p := if s.access then Granted else Failed(EPERM)])
    case ClearIntention(p, allocOk) =>
      var t := s.(intent := s.intent[p := false], pc := s.pc[p := Out]);
      if ClearAcks(s, p) then t.(access := false, ackSent := allocOk) else t
    case SleepEntry(allocOk) =>
      if !Intended(s.intent) then s.(sleepEntry := true, access := false, ackSent := s.ackSent || allocOk)
      else s.(sleepEntry := true, access := true, ackSent := false, wait := [false, false, false])
    case SleepExit => s.(access := true, scan := 0)
    case Scan => s.(wait := s.wait[s.scan := false], scan := s.scan + 1)
    case Revoke => s.(access := false)
    case Grant => s.(access := true)
  }

  predicate IsRun(s: State, es: seq<Event>)
    requires Shaped(s)
    decreases es
  {
    es != [] ==> Possible(s, es[0]) && IsRun(Apply(s, es[0]), es[1..])
  }

  function Run(s: State, es: seq<Event>): (t: State)
    requires Shaped(s) && IsRun(s, es)
    ensures Shaped(t)
    decreases es
  {
    if es == [] then s else Run(Apply(s, es[0]), es[1..])
  }

  // ---------------------------------------------------------------- safety, in every interleaving

  predicate Safe(s: State)
    requires Shaped(s)
  {
    forall p :: 0 <= p < MAX_IDS ==>
      && (s.intent[p] <==> s.pc[p] != Out)
      && (s.pc[p] == Granted ==> s.access)
  }

  lemma StepKeepsSafe(s: State, e: Event)
    requires Shaped(s) && Safe(s) && Possible(s, e)
    ensures Safe(Apply(s, e))
  {
    var t := Apply(s, e);
    if !t.access {
      NobodyIntends(s, e);
    }
    forall p | 0 <= p < MAX_IDS
      ensures (t.intent[p] <==> t.pc[p] != Out) && (t.pc[p] == Granted ==> t.access)
    {}
  }

  /** A step that leaves access withdrawn found it withdrawn or leaves no intention. */
  lemma NobodyIntends(s: State, e: Event)
    requires Shaped(s) && Possible(s, e) && !Apply(s, e).access
    ensures !s.access || forall p :: 0 <= p < MAX_IDS ==> !Apply(s, e).intent[p]
  {
    var t := Apply(s, e);
    if s.access {
      assert !Intended(t.intent);
    }
  }

  /** A thread whose call returned 0 sees the access flag true in every later state of every run,
    * until its own clear. */
  lemma {:induction false} GrantedHasAccess(s: State, es: seq<Event>, p: nat)
    requires Shaped(s) && Safe(s) && IsRun(s, es) && p < MAX_IDS
    ensures Safe(Run(s, es))
    ensures Run(s, es).pc[p] == Granted ==> Run(s, es).access
    decreases es
  {
    if es != [] {
      StepKeepsSafe(s, es[0]);
      GrantedHasAccess(Apply(s, es[0]), es[1..], p);
    }
  }

  predicate SendsAck(s: State, e: Event)
    requires Shaped(s) && Possible(s, e)
  {
    (e.ClearIntention? && ClearAcks(s, e.p)) || (e.SleepEntry? && !Intended(s.intent))
  }

  /** An acknowledgement of sleep leaves no intention set, no call granted, and access withdrawn;
    * and access is withdrawn by no step while an intention remains. */
  lemma AckOnlyWhenIdle(s: State, e: Event)
    requires Shaped(s) && Safe(s) && Possible(s, e)
    ensures SendsAck(s, e) ==>
              var t := Apply(s, e);
              !Intended(t.intent) && !t.access && forall p :: 0 <= p < MAX_IDS ==> t.pc[p] == Out
    ensures s.access && !Apply(s, e).access ==> !Intended(Apply(s, e).intent)
  {
    var t := Apply(s, e);
    if SendsAck(s, e) {
      StepKeepsSafe(s, e);
      forall p | 0 <= p < MAX_IDS
        ensures t.pc[p] == Out
      {
        assert !t.intent[p];
      }
    }
  }

  // ---------------------------------------------------------------- rousing, and the deferred acknowledgement

  predicate AllRoused(s: State)
    requires Shaped(s)
  {
    forall p :: 0 <= p < MAX_IDS ==> !s.wait[p]
  }

  /** A sleep entry that finds an intention gives access and leaves no waiter unroused, and owes the
    * acknowledgement; one that finds none withdraws access, and owes it only if it could not be sent. */
  lemma SleepEntryOutcome(s: State, allocOk: bool)
    requires Shaped(s) && Possible(s, SleepEntry(allocOk))
    ensures var t := Apply(s, SleepEntry(allocOk));
            && t.intent == s.intent && t.pc == s.pc && t.sleepEntry
            && (Intended(s.intent) ==> t.access && AllRoused(t) && !t.ackSent)
            && (!Intended(s.intent) ==> !t.access && (allocOk ==> t.ackSent))
  {}

  /** The acknowledgement of a sleep request is still owed. */
  predicate Owed(s: State) {
    s.sleepEntry && !s.ackSent
  }

  /** Nothing but an acknowledgement takes the debt away; and the clear that leaves no intention pays
    * it: access is withdrawn, and the acknowledgement sent if it can be allocated. */
  lemma OwedUntilPaid(s: State, e: Event)
    requires Shaped(s) && Owed(s) && Possible(s, e)
    ensures !SendsAck(s, e) ==> Owed(Apply(s, e))
    ensures e.ClearIntention? && !Intended(Apply(s, e).intent) ==>
              SendsAck(s, e) && !Apply(s, e).access && Apply(s, e).ackSent == e.allocOk
  {}

  /** Steps of the scan after a sleep exit, with nothing between them. */
  function ScanFrom(s: State): (t: State)
    requires Shaped(s) && s.scan < MAX_IDS
    ensures Shaped(t)
    decreases MAX_IDS - s.scan
  {
    var t := Apply(s, Scan);
    if t.scan < MAX_IDS then ScanFrom(t) else t
  }

  /** A sleep exit gives access, and its scan rouses every waiter. */
  lemma SleepExitRouses(s: State)
    requires Shaped(s) && Possible(s, SleepExit)
    ensures Apply(s, SleepExit).access && Apply(s, SleepExit).scan == 0
    ensures var t := ScanFrom(Apply(s, SleepExit));
            t.access && AllRoused(t) && t.scan == MAX_IDS && t.pc == s.pc && t.intent == s.intent
  {
    var s0 := Apply(s, SleepExit);
    var s1 := Apply(s0, Scan);
    var s2 := Apply(s1, Scan);
    assert ScanFrom(s0) == ScanFrom(s1) == ScanFrom(s2) == Apply(s2, Scan);
  }

  /** A thread that finds access is granted at once; one that does not comes to wait with its flag
    * up; and a roused one is granted exactly when it finds access. */
  lemma WayToGrant(s: State, p: nat)
    requires Shaped(s) && p < MAX_IDS
    ensures s.pc[p] == Announced ==> (Apply(s, ReadAccess(p)).pc[p] == Granted <==> s.access)
    ensures s.pc[p] == Arming ==> var t := Apply(s, ArmWait(p)); t.pc[p] == Waiting && t.wait[p]
    ensures s.pc[p] == Waiting && !s.wait[p] ==> Possible(s, Wake(p)) && Apply(s, Wake(p)).pc[p] == Woken
    ensures s.pc[p] == Woken ==> (Apply(s, Recheck(p)).pc[p] == Granted <==> s.access)
  {}

  // ---------------------------------------------------------------- the error branch after waking up

  /** A waiter whose flag was lowered, or that already left the wait. */
  predicate Roused(s: State, p: int)
    requires Shaped(s)
  {
    0 <= p < MAX_IDS && (s.pc[p] == Woken || (s.pc[p] == Waiting && !s.wait[p]))
  }

  /** A call returns -EPERM: the guard of its last branch finds no access. */
  predicate Refuses(s: State, e: Event)
    requires Shaped(s)
  {
    e.Recheck? && Possible(s, e) && !s.access
  }

  /** A step takes access away between the unlock of sleep_exit_recvd and the end of its scan. */
  predicate WithdrawsInScan(s: State, e: Event)
    requires Shaped(s) && Possible(s, e)
  {
    s.scan < MAX_IDS && s.access && !Apply(s, e).access
  }

  /** No step of the run withdraws access during a scan. */
  predicate Undisturbed(s: State, es: seq<Event>)
    requires Shaped(s) && IsRun(s, es)
    decreases es
  {
    es != [] ==> !WithdrawsInScan(s, es[0]) && Undisturbed(Apply(s, es[0]), es[1..])
  }

  predicate NoEperm(s: State)
    requires Shaped(s)
  {
    forall p :: 0 <= p < MAX_IDS ==> s.pc[p] != Failed(EPERM)
  }

  /** While a scan is under way, or a waiter is roused, there is access; and no call has failed for
    * lack of it. */
  predicate Awake(s: State)
    requires Shaped(s)
  {
    && Safe(s) && NoEperm(s)
    && (s.scan < MAX_IDS ==> s.access)
    && forall p :: 0 <= p < MAX_IDS ==> (Roused(s, p) ==> s.access)
  }

  /** A step rouses a waiter only from a scan, or with access. */
  lemma RousedBefore(s: State, e: Event, p: nat)
    requires Shaped(s) && Possible(s, e) && p < MAX_IDS && Roused(Apply(s, e), p)
    ensures Roused(s, p) || s.scan < MAX_IDS || Apply(s, e).access
  {}

  /** Outside a scan, a step that leaves a roused waiter behind leaves access as it was, or grants it. */
  lemma RousedKeepsAccess(s: State, e: Event, p: nat)
    requires Shaped(s) && Safe(s) && Possible(s, e) && p < MAX_IDS && Roused(Apply(s, e), p) && s.access
    ensures Apply(s, e).access
  {
    StepKeepsSafe(s, e);
    if !Apply(s, e).access {
      NobodyIntends(s, e);
    }
  }

  lemma StepKeepsAwake(s: State, e: Event)
    requires Shaped(s) && Awake(s) && Possible(s, e) && !WithdrawsInScan(s, e)
    ensures Awake(Apply(s, e))
  {
    var t := Apply(s, e);
    StepKeepsSafe(s, e);
    ScanKeepsAccess(s, e);
    AwakeRefusesNone(s, e);
    EpermOnlyRefused(s, e);
    forall p | 0 <= p < MAX_IDS && Roused(t, p)
      ensures t.access
    {
      RousedBefore(s, e, p);
      if s.access {
        RousedKeepsAccess(s, e, p);
      }
    }
  }

  lemma EpermOnlyRefused(s: State, e: Event)
    requires Shaped(s) && Possible(s, e) && NoEperm(s) && !Refuses(s, e)
    ensures NoEperm(Apply(s, e))
  {}

  lemma AwakeRefusesNone(s: State, e: Event)
    requires Shaped(s) && Awake(s)
    ensures !Refuses(s, e)
  {
    if Refuses(s, e) {
      assert Roused(s, e.p);
    }
  }

  lemma ScanKeepsAccess(s: State, e: Event)
    requires Shaped(s) && Possible(s, e) && !WithdrawsInScan(s, e) && (s.scan < MAX_IDS ==> s.access)
    ensures Apply(s, e).scan < MAX_IDS ==> Apply(s, e).access
  {}

  lemma {:induction false} UndisturbedIsAwake(s: State, es: seq<Event>)
    requires Shaped(s) && Awake(s) && IsRun(s, es) && Undisturbed(s, es)
    ensures Awake(Run(s, es))
    decreases es
  {
    if es != [] {
      StepKeepsAwake(s, es[0]);
      UndisturbedIsAwake(Apply(s, es[0]), es[1..]);
    }
  }

  /** No step of the continuation changes the access flag, and its last one refuses. */
  predicate LeadsToRefusal(s: State, es: seq<Event>)
    requires Shaped(s) && IsRun(s, es)
    decreases es
  {
    && es != []
    && if |es| == 1 then Refuses(s, es[0])
       else Apply(s, es[0]).access == s.access && LeadsToRefusal(Apply(s, es[0]), es[1..])
  }

  predicate CanRefuse(s: State, es: seq<Event>)
    requires Shaped(s)
  {
    IsRun(s, es) && LeadsToRefusal(s, es)
  }

  /** Without access, and with a scan under way or a waiter roused. */
  predicate Exposed(s: State)
    requires Shaped(s)
  {
    !s.access && (s.scan < MAX_IDS || exists p :: 0 <= p < MAX_IDS && Roused(s, p))
  }

  lemma {:induction false} RefusalWasExposed(s: State, es: seq<Event>)
    requires Shaped(s) && CanRefuse(s, es)
    ensures Exposed(s)
    decreases es
  {
    if |es| == 1 {
      assert Roused(s, es[0].p);
    } else {
      var t := Apply(s, es[0]);
      RefusalWasExposed(t, es[1..]);
      if s.scan == MAX_IDS && t.scan == MAX_IDS {
        var p :| 0 <= p < MAX_IDS && Roused(t, p);
        RousedBefore(s, es[0], p);
        assert Roused(s, p);
      }
    }
  }

  /** A step that keeps access withdrawn, put in front of a continuation. */
  lemma Prepend(s: State, e: Event, es: seq<Event>)
    requires Shaped(s) && Possible(s, e) && Apply(s, e).access == s.access && CanRefuse(Apply(s, e), es)
    ensures CanRefuse(s, [e] + es)
  {
    assert ([e] + es)[1..] == es;
  }

  lemma RousedIsRefused(s: State, p: nat) returns (es: seq<Event>)
    requires Shaped(s) && !s.access && Roused(s, p)
    ensures CanRefuse(s, es)
  {
    es := [Recheck(p)];
    if s.pc[p] == Waiting {
      assert CanRefuse(Apply(s, Wake(p)), es);
      Prepend(s, Wake(p), es);
      es := [Wake(p)] + es;
    }
  }

  /** Where a thread stands on its way to the wait. */
  function ToWait(pc: Pc): nat {
    match pc
    case Out => 3
    case Failed(_) => 3
    case Announced => 2
    case Arming => 1
    case _ => 0
  }

  /** The scan ends at the last protocol id: its thread can still come to wait, and be roused. */
  lemma {:induction false} ScanRouses(s: State) returns (es: seq<Event>)
    requires Shaped(s) && Safe(s) && !s.access && s.scan < MAX_IDS
    ensures CanRefuse(s, es)
    decreases ToWait(s.pc[2]), MAX_IDS - s.scan
  {
    if Roused(s, 2) {
      es := RousedIsRefused(s, 2);
    } else {
      var e := NextStep(s);
      var t := Apply(s, e);
      StepKeepsSafe(s, e);
      if t.scan < MAX_IDS {
        es := ScanRouses(t);
      } else {
        es := RousedIsRefused(t, 2);
      }
      Prepend(s, e, es);
      es := [e] + es;
    }
  }

  function NextStep(s: State): (e: Event)
    requires Shaped(s) && Safe(s) && !s.access && s.scan < MAX_IDS && !Roused(s, 2)
    ensures Possible(s, e) && !Apply(s, e).access
    ensures var t := Apply(s, e);
            || (t.scan == s.scan && ToWait(t.pc[2]) < ToWait(s.pc[2]))
            || (t.scan == s.scan + 1 && t.pc == s.pc && s.pc[2] == Waiting && (s.scan == 2 ==> !t.wait[2]))
  {
    match s.pc[2]
    case Out => SetIntention(2)
    case Failed(_) => SetIntention(2)
    case Announced => ReadAccess(2)
    case Arming => ArmWait(2)
    case _ => Scan
  }

  /** From any safe state some continuation that leaves the access flag alone ends in -EPERM
    * exactly when access is withdrawn while a scan is under way or a waiter is roused. */
  lemma RefusalIff(s: State)
    requires Shaped(s) && Safe(s)
    ensures (exists es :: CanRefuse(s, es)) <==> Exposed(s)
  {
    if es :| CanRefuse(s, es) {
      RefusalWasExposed(s, es);
    }
    if Exposed(s) {
      var es;
      if s.scan < MAX_IDS {
        es := ScanRouses(s);
      } else {
        var p :| 0 <= p < MAX_IDS && Roused(s, p);
        es := RousedIsRefused(s, p);
      }
    }
  }

  /** No call of an undisturbed run returns -EPERM; and the first withdrawal during a scan, and no
    * other step, opens the way to one. */
  lemma EpermIff(es: seq<Event>, e: Event)
    requires IsRun(INIT, es) && Undisturbed(INIT, es) && Possible(Run(INIT, es), e)
    ensures NoEperm(Run(INIT, es)) && !Refuses(Run(INIT, es), e)
    ensures WithdrawsInScan(Run(INIT, es), e) <==> exists more :: CanRefuse(Apply(Run(INIT, es), e), more)
  {
    var s := Run(INIT, es);
    UndisturbedIsAwake(INIT, es);
    var t := Apply(s, e);
    StepKeepsSafe(s, e);
    AwakeRefusesNone(s, e);
    RefusalIff(t);
    if !WithdrawsInScan(s, e) {
      StepKeepsAwake(s, e);
    }
  }

  predicate Locked(e: Event) {
    e.SetIntention? || e.ClearIntention? || e.SleepEntry? || e.Revoke?
  }

  /** Every withdrawal during a scan is a step under the lock, by a clear or by another writer: a
    * scan that kept the lock would exclude it. */
  lemma WithdrawalIsLocked(s: State, e: Event)
    requires Shaped(s) && Safe(s) && Possible(s, e) && WithdrawsInScan(s, e)
    ensures Locked(e) && (e.Revoke? || (e.ClearIntention? && ClearAcks(s, e.p)))
  {}

  /** No locked step falls into a scan, as if sleep_exit_recvd kept the lock until its scan is over. */
  predicate ScanExcludesLocked(s: State, es: seq<Event>)
    requires Shaped(s) && IsRun(s, es)
    decreases es
  {
    es != [] ==> (Locked(es[0]) ==> s.scan == MAX_IDS) && ScanExcludesLocked(Apply(s, es[0]), es[1..])
  }

  lemma {:induction false} LockedScanIsUndisturbed(s: State, es: seq<Event>)
    requires Shaped(s) && Safe(s) && IsRun(s, es) && ScanExcludesLocked(s, es)
    ensures Undisturbed(s, es)
    decreases es
  {
    if es != [] {
      if WithdrawsInScan(s, es[0]) {
        WithdrawalIsLocked(s, es[0]);
      }
      StepKeepsSafe(s, es[0]);
      LockedScanIsUndisturbed(Apply(s, es[0]), es[1..]);
    }
  }

  /** WLAN is granted, sleep is requested and ended. */
  const OVERTAKEN: seq<Event> := [SetIntention(0), ReadAccess(0), SleepEntry(true), SleepExit]
  const SCANNING := State([true, false, false], [false, false, false], [Granted, Out, Out], true, true, false, 0)

  lemma OvertakenRuns()
    ensures IsRun(INIT, OVERTAKEN) && Undisturbed(INIT, OVERTAKEN) && Run(INIT, OVERTAKEN) == SCANNING
  {
    var s1 := State([true, false, false], [false, false, false], [Announced, Out, Out], true, false, false, 3);
    var s2 := s1.(pc := [Granted, Out, Out]);
    var s3 := s2.(sleepEntry := true);
    assert INIT.intent[0 := true] == s1.intent && INIT.pc[0 := Announced] == s1.pc;
    assert Apply(INIT, SetIntention(0)) == s1;
    assert s1.pc[0 := Granted] == s2.pc;
    assert Apply(s1, ReadAccess(0)) == s2;
    assert s2.intent[0];
    assert Apply(s2, SleepEntry(true)) == s3;
    StartsWith(s3, SleepExit, []);
    StartsWith(s2, SleepEntry(true), [SleepExit]);
    StartsWith(s1, ReadAccess(0), [SleepEntry(true), SleepExit]);
    StartsWith(INIT, SetIntention(0), [ReadAccess(0), SleepEntry(true), SleepExit]);
  }

  lemma ClearOvertakes()
    ensures Possible(SCANNING, ClearIntention(0, true)) && WithdrawsInScan(SCANNING, ClearIntention(0, true))
  {
    assert SCANNING.intent[0 := false] == [false, false, false];
  }

  /** A withdrawal during a scan does happen, so the driver can return -EPERM: WLAN's clear
    * acknowledges the old sleep request before the scan looks for waiters. */
  lemma EpermReachable()
    ensures exists es, e, more ::
              && IsRun(INIT, es) && Undisturbed(INIT, es) && Possible(Run(INIT, es), e)
              && WithdrawsInScan(Run(INIT, es), e) && CanRefuse(Apply(Run(INIT, es), e), more)
  {
    OvertakenRuns();
    ClearOvertakes();
    EpermIff(OVERTAKEN, ClearIntention(0, true));
  }

  lemma StartsWith(s: State, e: Event, es: seq<Event>)
    requires Shaped(s) && Possible(s, e) && !WithdrawsInScan(s, e)
    requires IsRun(Apply(s, e), es) && Undisturbed(Apply(s, e), es)
    ensures IsRun(s, [e] + es) && Undisturbed(s, [e] + es) && Run(s, [e] + es) == Run(Apply(s, e), es)
  {
    assert ([e] + es)[1..] == es;
  }

  // ---------------------------------------------------------------- the driver's code

  class Common {
    const intention: array<bool>
    const waitForTxAccess: array<bool>
    var commonHalTxAccess: bool
    var sleepEntryReceived: bool
    var ulpSleepAckSent: bool
    ghost var pc: seq<Pc>     // where the owner threads stand
    ghost var scan: nat

    ghost predicate Valid()
      reads this, intention, waitForTxAccess
    {
      && intention.Length == waitForTxAccess.Length == MAX_IDS && intention != waitForTxAccess
      && Shaped(Abs())
    }

    ghost function Abs(): State
      reads this, intention, waitForTxAccess
    {
      State(intention[..], waitForTxAccess[..], pc, commonHalTxAccess, sleepEntryReceived, ulpSleepAckSent, scan)
    }

    method ProtocolTxAccess() returns (r: bool)
      ensures r <==> Intended(intention[..])
    {
      for ii := 0 to intention.Length
        invariant forall j :: 0 <= j < ii ==> !intention[j]
      {
        if intention[ii] {
          return true;
        }
      }
      return false;
    }

    /** rsi_send_ack_for_ulp_entry; `allocOk` is the outcome of the allocation. */
    method SendAckForUlpEntry(allocOk: bool)
      modifies this`ulpSleepAckSent
      ensures ulpSleepAckSent == (old(ulpSleepAckSent) || allocOk)
    {
      if allocOk {
        ulpSleepAckSent := true;
      }
    }

    /** set_clr_tx_intention with set, up to the release of the lock. */
    method SetIntention(p: nat)
      requires Valid() && Possible(Abs(), Event.SetIntention(p))
      modifies this`pc, intention
      ensures Valid() && Abs() == Apply(old(Abs()), Event.SetIntention(p))
    {
      intention[p] := true;
      pc := pc[p := Announced];
    }

    /** The unlocked read behind it: access may be there at once, else the wait flag goes up. */
    method ReadAccess(p: nat) returns (granted: bool)
      requires Valid() && Possible(Abs(), Event.ReadAccess(p))
      modifies this`pc
      ensures Valid() && Abs() == Apply(old(Abs()), Event.ReadAccess(p))
      ensures granted == commonHalTxAccess && (granted <==> pc[p] == Granted)
    {
      granted := commonHalTxAccess;
      pc := pc[p := if granted then Granted else Arming];
    }

    method ArmWait(p: nat)
      requires Valid() && Possible(Abs(), Event.ArmWait(p))
      modifies this`pc, waitForTxAccess
      ensures Valid() && Abs() == Apply(old(Abs()), Event.ArmWait(p))
    {
      ghost var s := Abs();
      waitForTxAccess[p] := true;
      pc := pc[p := Waiting];
      assert waitForTxAccess[..] == s.wait[p := true];
    }

    /** The end of the wait: the flag was lowered, or the time ran out. */
    method EndWait(p: nat) returns (woken: bool)
      requires Valid() && p < MAX_IDS && pc[p] == Waiting
      modifies this`pc
      ensures Valid() && woken == !waitForTxAccess[p]
      ensures Abs() == Apply(old(Abs()), if woken then Event.Wake(p) else Event.Timeout(p))
    {
      woken := !waitForTxAccess[p];
      pc := pc[p := if woken then Woken else Failed(ETIME)];
    }

    /** The second read, and the value the call returns. */
    method Recheck(p: nat) returns (status: Option<Error>)
      requires Valid() && Possible(Abs(), Event.Recheck(p))
      modifies this`pc
      ensures Valid() && Abs() == Apply(old(Abs()), Event.Recheck(p))
      ensures status == if commonHalTxAccess then None else Some(EPERM)
      ensures pc[p] == if commonHalTxAccess then Granted else Failed(EPERM)
    {
      if !commonHalTxAccess {
        pc := pc[p := Failed(EPERM)];
        return Some(EPERM);
      }
      pc := pc[p := Granted];
      return None;
    }

    /** set_clr_tx_intention without set. */
    method ClearIntention(p: nat, allocOk: bool)
      requires Valid() && Possible(Abs(), Event.ClearIntention(p, allocOk))
      modifies this, intention
      ensures Valid() && Abs() == Apply(old(Abs()), Event.ClearIntention(p, allocOk))
    {
      ghost var s := Abs();
      intention[p] := false;
      assert intention[..] == s.intent[p := false];
      pc := pc[p := Out];
      if sleepEntryReceived && !ulpSleepAckSent {
        var busy := ProtocolTxAccess();
        if !busy {
          commonHalTxAccess := false;
          SendAckForUlpEntry(allocOk);
        }
      }
    }

    /** The sleep-entry half of rsi_process_ulp_sleep_notify. */
    method ProcessSleepEntry(allocOk: bool)
      requires Valid() && Possible(Abs(), Event.SleepEntry(allocOk))
      modifies this, waitForTxAccess
      ensures Valid() && Abs() == Apply(old(Abs()), Event.SleepEntry(allocOk))
      ensures commonHalTxAccess == Intended(intention[..])
      ensures commonHalTxAccess ==> !ulpSleepAckSent && forall p :: 0 <= p < MAX_IDS ==> !waitForTxAccess[p]
    {
      sleepEntryReceived := true;
      var busy := ProtocolTxAccess();
      if !busy {
        commonHalTxAccess := false;
        SendAckForUlpEntry(allocOk);
      } else {
        commonHalTxAccess := true;
        ulpSleepAckSent := false;
        for protoId := 0 to MAX_IDS
          invariant forall j :: 0 <= j < protoId ==> !waitForTxAccess[j]
          modifies waitForTxAccess
        {
          if waitForTxAccess[protoId] {
            waitForTxAccess[protoId] := false;
          }
        }
        assert waitForTxAccess[..] == [false, false, false];
      }
    }

    /** sleep_exit_recvd up to the release of the lock. */
    method SleepExitGrant()
      requires Valid() && Possible(Abs(), SleepExit)
      modifies this`commonHalTxAccess, this`scan
      ensures Valid() && Abs() == Apply(old(Abs()), SleepExit)
      ensures commonHalTxAccess
    {
      commonHalTxAccess := true;
      scan := 0;
    }

    /** One iteration of the unlocked loop of sleep_exit_recvd. */
    method SleepExitScan(protoId: nat)
      requires Valid() && Possible(Abs(), Scan) && protoId == scan
      modifies this`scan, waitForTxAccess
      ensures Valid() && Abs() == Apply(old(Abs()), Scan)
      ensures !waitForTxAccess[protoId]
    {
      ghost var s := Abs();
      if waitForTxAccess[protoId] {
        waitForTxAccess[protoId] := false;
      }
      scan := scan + 1;
      assert waitForTxAccess[..] == s.wait[protoId := false];
    }
  }
}
