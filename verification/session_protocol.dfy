/**
 * The session among its concurrent callers and the server: every interleaving of
 * calls, acquisition replies and settle replies.
 */
module SessionProtocol {
  import opened Values
  import opened Sessions

  /** A request to open a server transaction, tagged with the transaction it was made for. */
  datatype Acquisition = Pending(epoch: nat) | Answered

  /** A server transaction: how often it was settled, and which transaction adopted it. */
  datatype Handle = Handle(settles: nat, adoptedBy: Option<nat>)

  datatype SettleKind = CommitKind | AbortKind

  /** A commit or cancel sent to the server, and whether `endSession` waits for it. */
  datatype Settle = Settle(kind: SettleKind, handle: nat, thenEnd: bool)

  /** A statement, tagged with the transaction it was issued in. */
  datatype Statement =
    | Waiting(acquisition: nat, epoch: nat)
    | Holding(handle: nat, epoch: nat)
    | Ran(handle: nat, epoch: nat)
    | Rejected(epoch: nat)

  /** `epoch` counts the transactions started; `ends` the `endSession` calls about to finish. */
  datatype System = System(
    core: Core,
    epoch: nat,
    acquisitions: seq<Acquisition>,
    handles: seq<Handle>,
    settles: seq<Settle>,
    ends: nat,
    statements: seq<Statement>)

  datatype Step =
    | Start
    | CommitCall
    | AbortCall
    | EndSession
    | EndContinue
    | Issue
    | Opened(acquisition: nat)
    | NotOpened(acquisition: nat)
    | SettleReply(index: nat, ok: bool)
    | Run(statement: nat)

  function Initial(): System {
    System(Core(false, NoTransaction, None, None, false, false), 0, [], [], [], 0, [])
  }

  function Sent(s: System, core: Core, kind: SettleKind, handle: nat, thenEnd: bool): System
    requires handle < |s.handles|
  {
    s.(core := core,
       handles := s.handles[handle := s.handles[handle].(settles := s.handles[handle].settles + 1)],
       settles := s.settles + [Settle(kind, handle, thenEnd)])
  }

  /** Statements waiting for `acquisition` get `handle`, or fail when there is none. */
  function Resolve(statements: seq<Statement>, acquisition: nat, handle: Option<nat>): seq<Statement> {
    seq(|statements|, i requires 0 <= i < |statements| =>
      if statements[i].Waiting? && statements[i].acquisition == acquisition
      then if handle.Some? then Holding(handle.value, statements[i].epoch) else Rejected(statements[i].epoch)
      else statements[i])
  }

  function Opening(s: System, a: nat): System
    requires a < |s.acquisitions|
  {
    var handle := |s.handles|;
    var (core, adopted) := Acquired(s.core, handle);
    s.(core := core,
       acquisitions := s.acquisitions[a := Answered],
       handles := s.handles + [if adopted then Handle(0, Some(s.epoch)) else Handle(1, None)],
       statements := Resolve(s.statements, a, Some(handle)))
  }

  function Issuing(s: System): System {
    var (core, route) := Routed(s.core, |s.acquisitions|);
    match route
    case Unusable => s
    case Fallback => s
    case Use(h) => s.(statements := s.statements + [Holding(h, s.epoch)])
    case Wait(a) =>
      if a < |s.acquisitions| && s.acquisitions[a].Pending?
      then s.(statements := s.statements + [Waiting(a, s.epoch)])
      else s.(statements := s.statements + [Rejected(s.epoch)])
    case Begin(a) =>
      s.(core := core, acquisitions := s.acquisitions + [Pending(s.epoch)], statements := s.statements + [Waiting(a, s.epoch)])
  }

  function Settling(s: System, result: (Core, SettleCall), kind: SettleKind): System {
    if result.1.Send? && result.1.handle < |s.handles| then Sent(s, result.0, kind, result.1.handle, false)
    else s.(core := result.0)
  }

  function Ending(s: System): System {
    var (core, call) := EndCalled(s.core);
    match call
    case Ended => s.(core := core)
    case EndsNext => s.(core := core, ends := s.ends + 1)
    case EndsAfter(h) => if h < |s.handles| then Sent(s, core, AbortKind, h, true) else s
  }

  function Settled(s: System, i: nat, ok: bool): System
    requires i < |s.settles|
  {
    var settle := s.settles[i];
    s.(core := if settle.kind.CommitKind? then CommitAnswered(s.core, ok) else AbortAnswered(s.core),
       settles := s.settles[..i] + s.settles[i + 1..],
       ends := if settle.thenEnd then s.ends + 1 else s.ends)
  }

  /** A statement reaches the handle it was given: it runs there unless the handle is spent. */
  function Running(s: System, k: nat): System
    requires k < |s.statements| && s.statements[k].Holding?
  {
    var Holding(h, epoch) := s.statements[k];
    s.(statements := s.statements[k := if h < |s.handles| && s.handles[h].settles == 0 then Ran(h, epoch) else Rejected(epoch)])
  }

  /** One step of the system; a step that cannot happen changes nothing. */
  function Do(s: System, step: Step): System {
    match step
    case Start =>
      var (core, misuse) := Started(s.core);
      if misuse.None? then s.(core := core, epoch := s.epoch + 1) else s
    case CommitCall => Settling(s, CommitCalled(s.core), CommitKind)
    case AbortCall => Settling(s, AbortCalled(s.core), AbortKind)
    case EndSession => Ending(s)
    case EndContinue => if s.ends > 0 then s.(core := EndContinued(s.core), ends := s.ends - 1) else s
    case Issue => Issuing(s)
    case Opened(a) => if a < |s.acquisitions| && s.acquisitions[a].Pending? then Opening(s, a) else s
    case NotOpened(a) =>
      if a < |s.acquisitions| && s.acquisitions[a].Pending? then
        s.(core := AcquisitionFailed(s.core), acquisitions := s.acquisitions[a := Answered], statements := Resolve(s.statements, a, None))
      else s
    case SettleReply(i, ok) => if i < |s.settles| then Settled(s, i, ok) else s
    case Run(k) => if k < |s.statements| && s.statements[k].Holding? then Running(s, k) else s
  }

  function DoAll(s: System, steps: seq<Step>): System {
    if steps == [] then s else Do(DoAll(s, steps[..|steps| - 1]), steps[|steps| - 1])
  }

  // What every run keeps.

  /** Every server transaction was settled at most once, and only the session's own is open. */
  predicate HandlesOk(s: System) {
    forall h :: 0 <= h < |s.handles| ==>
      && s.handles[h].settles <= 1
      && (s.handles[h].settles == 0 <==> s.core.scope == Some(h))
  }

  predicate SettlesOk(s: System) {
    && |s.settles| == (if s.core.state.InProgress? && s.core.scope.None? then 1 else 0)
    && forall i :: 0 <= i < |s.settles| ==> s.settles[i].handle < |s.handles|
  }

  predicate Safe(s: System) {
    && !s.core.broken
    && (s.core.scope.Some? ==> s.core.state.InProgress? && s.core.scope.value < |s.handles|)
    && HandlesOk(s)
    && SettlesOk(s)
  }

  lemma OpeningKeepsSafe(s: System, a: nat)
    requires Safe(s) && a < |s.acquisitions|
    ensures Safe(Opening(s, a))
  {
  }

  lemma SettlingKeepsSafe(s: System)
    requires Safe(s)
    ensures Safe(Settling(s, CommitCalled(s.core), CommitKind)) && Safe(Settling(s, AbortCalled(s.core), AbortKind))
  {
  }

  lemma EndingKeepsSafe(s: System)
    requires Safe(s)
    ensures Safe(Ending(s))
  {
  }

  lemma SettledKeepsSafe(s: System, i: nat, ok: bool)
    requires Safe(s) && i < |s.settles|
    ensures Safe(Settled(s, i, ok))
  {
  }

  lemma StepKeepsSafe(s: System, step: Step)
    requires Safe(s)
    ensures Safe(Do(s, step))
  {
    match step
    case CommitCall => SettlingKeepsSafe(s);
    case AbortCall => SettlingKeepsSafe(s);
    case EndSession => EndingKeepsSafe(s);
    case Opened(a) =>
      if a < |s.acquisitions| && s.acquisitions[a].Pending? {
        OpeningKeepsSafe(s, a);
      }
    case SettleReply(i, ok) =>
      if i < |s.settles| {
        SettledKeepsSafe(s, i, ok);
      }
    case _ =>
  }

  /**
   * Over every run: no transition is ever illegal, a handle is held only while in
   * progress, in progress without one means exactly one settle is in flight, and
   * every server transaction is settled at most once.
   */
  lemma {:induction false} SessionIsSafe(steps: seq<Step>)
    ensures Safe(DoAll(Initial(), steps))
  {
    if steps != [] {
      SessionIsSafe(steps[..|steps| - 1]);
      StepKeepsSafe(DoAll(Initial(), steps[..|steps| - 1]), steps[|steps| - 1]);
    }
  }

  predicate Final(s: System) {
    s.core.state in {Committed, CommittedEmpty, Aborted}
  }

  predicate NoStart(steps: seq<Step>) {
    forall i :: 0 <= i < |steps| ==> !steps[i].Start?
  }

  /**
   * Once a transaction is committed or aborted it stays what it is until the next
   * start: no call, reply or late handle changes it or settles anything for it.
   */
  lemma {:induction false} FinalStaysFinal(s: System, steps: seq<Step>)
    requires Safe(s) && Final(s) && NoStart(steps)
    ensures var t := DoAll(s, steps);
            Safe(t) && t.core.state == s.core.state && t.settles == []
            && |t.handles| >= |s.handles| && forall h :: 0 <= h < |t.handles| ==> t.handles[h].settles == 1
  {
    if steps != [] {
      var front := steps[..|steps| - 1];
      FinalStaysFinal(s, front);
      StepKeepsSafe(DoAll(s, front), steps[|steps| - 1]);
      StepStaysFinal(DoAll(s, front), steps[|steps| - 1]);
    }
  }

  lemma StepStaysFinal(s: System, step: Step)
    requires Safe(s) && Final(s) && !step.Start?
    ensures Do(s, step).core.state == s.core.state && Do(s, step).settles == [] && |Do(s, step).handles| >= |s.handles|
  {
  }

  // Ending.

  /** An `endSession` call has been made and has not finished. */
  predicate EndPending(s: System) {
    s.ends > 0 || exists i :: 0 <= i < |s.settles| && s.settles[i].thenEnd
  }

  /** No transaction is started while an `endSession` is pending. */
  predicate NoStartWhileEnding(steps: seq<Step>) {
    forall i :: 0 <= i < |steps| && steps[i].Start? ==> !EndPending(DoAll(Initial(), steps[..i]))
  }

  predicate EndsCleanly(s: System) {
    s.core.hasEnded || EndPending(s) ==> s.core.scope.None? && !s.core.state.Starting?
  }

  lemma StepEndsCleanly(s: System, step: Step)
    requires Safe(s) && EndsCleanly(s) && (step.Start? ==> !EndPending(s))
    ensures EndsCleanly(Do(s, step))
  {
    if step.SettleReply? && step.index < |s.settles| {
      assert |s.settles| == 1;
    }
  }

  lemma PrefixOf(steps: seq<Step>)
    requires steps != [] && NoStartWhileEnding(steps)
    ensures NoStartWhileEnding(steps[..|steps| - 1])
    ensures steps[|steps| - 1].Start? ==> !EndPending(DoAll(Initial(), steps[..|steps| - 1]))
  {
    var front := steps[..|steps| - 1];
    forall i | 0 <= i < |front| && front[i].Start?
      ensures !EndPending(DoAll(Initial(), front[..i]))
    {
      assert front[..i] == steps[..i];
    }
  }

  lemma {:induction false} RunEndsCleanly(steps: seq<Step>)
    requires NoStartWhileEnding(steps)
    ensures EndsCleanly(DoAll(Initial(), steps))
  {
    if steps != [] {
      PrefixOf(steps);
      RunEndsCleanly(steps[..|steps| - 1]);
      SessionIsSafe(steps[..|steps| - 1]);
      StepEndsCleanly(DoAll(Initial(), steps[..|steps| - 1]), steps[|steps| - 1]);
    }
  }

  /** After `endSession`, every server transaction ever opened has been settled, exactly once. */
  lemma EndedLeavesNothingOpen(steps: seq<Step>)
    requires NoStartWhileEnding(steps) && DoAll(Initial(), steps).core.hasEnded
    ensures forall h :: 0 <= h < |DoAll(Initial(), steps).handles| ==> DoAll(Initial(), steps).handles[h].settles == 1
  {
    SessionIsSafe(steps);
    RunEndsCleanly(steps);
  }

  /** A start between an `endSession` call and its end, with an acquisition pending. */
  const OVERLAPPING_END: seq<Step> := [Start, Issue, EndSession, Start, EndContinue, Opened(0)]

  /** That run ends the session and leaves a server transaction open... */
  lemma OverlappingEndLeaks()
    ensures !NoStartWhileEnding(OVERLAPPING_END)
    ensures var s := DoAll(Initial(), OVERLAPPING_END);
            s.core.hasEnded && s.core.scope == Some(0) && |s.handles| == 1 && s.handles[0].settles == 0
  {
    var c0 := Initial().core;
    var s1 := Do(Initial(), Start);
    var s2 := Do(s1, Issue);
    var s3 := Do(s2, EndSession);
    var s4 := Do(s3, Start);
    var s5 := Do(s4, EndContinue);
    var s6 := Do(s5, Opened(0));
    assert s3.ends == 1;
    Unroll(OVERLAPPING_END, [Initial(), s1, s2, s3, s4, s5, s6]);
    assert DoAll(Initial(), OVERLAPPING_END[..3]) == s3 by {
      Unroll(OVERLAPPING_END[..3], [Initial(), s1, s2, s3]);
    }
    assert OVERLAPPING_END[3].Start? && EndPending(s3);
  }

  lemma {:induction false} Unroll(steps: seq<Step>, states: seq<System>)
    requires |states| == |steps| + 1 && states[0] == Initial()
    requires forall i :: 0 <= i < |steps| ==> states[i + 1] == Do(states[i], steps[i])
    ensures DoAll(Initial(), steps) == states[|steps|]
  {
    if steps != [] {
      Unroll(steps[..|steps| - 1], states[..|steps|]);
    }
  }

  /** ...and nothing the caller or the server does afterwards can settle it. */
  lemma {:induction false} LeakIsPermanent(s: System, steps: seq<Step>)
    requires Safe(s) && s.core.hasEnded && s.core.scope.Some?
    ensures Safe(DoAll(s, steps)) && DoAll(s, steps).core.hasEnded && DoAll(s, steps).core.scope == s.core.scope
  {
    if steps != [] {
      LeakIsPermanent(s, steps[..|steps| - 1]);
      StepKeepsSafe(DoAll(s, steps[..|steps| - 1]), steps[|steps| - 1]);
    }
  }

  /** No server transaction is open. */
  predicate NoneOpen(s: System) {
    forall h :: 0 <= h < |s.handles| ==> s.handles[h].settles > 0
  }

  /** An acquisition in flight that the session would adopt. */
  predicate MayAdopt(s: System) {
    s.core.state.Starting? && exists a :: 0 <= a < |s.acquisitions| && s.acquisitions[a].Pending?
  }

  lemma {:induction false} EndedStaysClean(s: System, steps: seq<Step>)
    requires Safe(s) && s.core.hasEnded && s.core.scope.None? && !MayAdopt(s)
    ensures var t := DoAll(s, steps); Safe(t) && t.core.hasEnded && t.core.scope.None? && !MayAdopt(t) && NoneOpen(t)
  {
    if steps != [] {
      var front := steps[..|steps| - 1];
      EndedStaysClean(s, front);
      StepKeepsSafe(DoAll(s, front), steps[|steps| - 1]);
    }
  }

  lemma OneStep(s: System, step: Step)
    ensures DoAll(s, [step]) == Do(s, step)
  {
    assert [step][..0] == [];
  }

  lemma TwoSteps(s: System, first: Step, second: Step)
    ensures DoAll(s, [first, second]) == Do(Do(s, first), second)
  {
    OneStep(s, first);
    assert [first, second][..1] == [first];
  }

  /**
   * Where the condition lies: finishing `endSession` leaves nothing open, now and
   * whatever happens later, exactly when no transaction holds a handle and none is
   * starting with an acquisition in flight.
   */
  lemma EndIsCleanExactly(s: System)
    requires Safe(s) && s.ends > 0
    ensures (forall steps :: NoneOpen(DoAll(Do(s, EndContinue), steps))) <==> s.core.scope.None? && !MayAdopt(s)
  {
    var t := Do(s, EndContinue);
    StepKeepsSafe(s, EndContinue);
    if s.core.scope.None? && !MayAdopt(s) {
      forall steps
        ensures NoneOpen(DoAll(t, steps))
      {
        EndedStaysClean(t, steps);
      }
    } else if s.core.scope.Some? {
      assert !NoneOpen(DoAll(t, []));
    } else {
      var a :| 0 <= a < |s.acquisitions| && s.acquisitions[a].Pending?;
      OneStep(t, Opened(a));
      assert Do(t, Opened(a)).handles[|t.handles|].settles == 0;
      assert !NoneOpen(DoAll(t, [Opened(a)]));
    }
  }

  // Statements.

  /** No statement waits for an acquisition in flight. */
  predicate NoneWaiting(s: System) {
    forall k :: 0 <= k < |s.statements| && s.statements[k].Waiting? ==>
      s.statements[k].acquisition < |s.acquisitions| && s.acquisitions[s.statements[k].acquisition].Answered?
  }

  /** No transaction is started while a statement waits for an earlier one to open. */
  predicate NoStartWhileWaiting(steps: seq<Step>) {
    forall i :: 0 <= i < |steps| && steps[i].Start? ==> NoneWaiting(DoAll(Initial(), steps[..i]))
  }

  /** Each statement keeps to the transaction it was issued in. */
  predicate StatementOk(s: System, st: Statement) {
    match st
    case Waiting(a, epoch) => a < |s.acquisitions| && (s.acquisitions[a].Pending? ==> epoch == s.epoch)
    case Holding(h, epoch) => h < |s.handles| && (s.handles[h].adoptedBy.Some? ==> s.handles[h].adoptedBy == Some(epoch))
    case Ran(h, epoch) => h < |s.handles| && s.handles[h].adoptedBy == Some(epoch)
    case Rejected(_) => true
  }

  predicate Faithful(s: System) {
    && (forall k :: 0 <= k < |s.statements| ==> StatementOk(s, s.statements[k]))
    && (s.core.scope.Some? ==> s.core.scope.value < |s.handles| && s.handles[s.core.scope.value].adoptedBy == Some(s.epoch))
    && (forall h :: 0 <= h < |s.handles| && s.handles[h].settles == 0 ==> s.handles[h].adoptedBy.Some?)
  }

  lemma StepKeepsFaithful(s: System, step: Step)
    requires Safe(s) && Faithful(s) && (step.Start? ==> NoneWaiting(s))
    ensures Faithful(Do(s, step))
  {
    match step
    case Start =>
      assert Started(s.core).1.None? ==> s.core.scope.None?;
    case Opened(a) =>
      if a < |s.acquisitions| && s.acquisitions[a].Pending? {
        OpeningKeepsFaithful(s, a);
      }
    case Issue => IssuingKeepsFaithful(s);
    case _ =>
  }

  lemma OpeningKeepsFaithful(s: System, a: nat)
    requires Safe(s) && Faithful(s) && a < |s.acquisitions| && s.acquisitions[a].Pending?
    ensures Faithful(Opening(s, a))
  {
    var t := Opening(s, a);
    forall k | 0 <= k < |t.statements|
      ensures StatementOk(t, t.statements[k])
    {
      assert StatementOk(s, s.statements[k]);
    }
  }

  lemma IssuingKeepsFaithful(s: System)
    requires Safe(s) && Faithful(s)
    ensures Faithful(Issuing(s))
  {
    var t := Issuing(s);
    forall k | 0 <= k < |t.statements|
      ensures StatementOk(t, t.statements[k])
    {
      if k < |s.statements| {
        assert StatementOk(s, s.statements[k]);
      }
    }
  }

  lemma {:induction false} RunIsFaithful(steps: seq<Step>)
    requires NoStartWhileWaiting(steps)
    ensures Faithful(DoAll(Initial(), steps))
  {
    if steps != [] {
      var front := steps[..|steps| - 1];
      forall i | 0 <= i < |front| && front[i].Start?
        ensures NoneWaiting(DoAll(Initial(), front[..i]))
      {
        assert front[..i] == steps[..i];
      }
      RunIsFaithful(front);
      SessionIsSafe(front);
      StepKeepsFaithful(DoAll(Initial(), front), steps[|steps| - 1]);
    }
  }

  /**
   * A statement runs only inside the server transaction of the very transaction
   * it was issued in; one settled while opening never runs its statements.
   */
  lemma StatementsStayInTheirTransaction(steps: seq<Step>, k: nat)
    requires NoStartWhileWaiting(steps)
    requires k < |DoAll(Initial(), steps).statements| && DoAll(Initial(), steps).statements[k].Ran?
    ensures var s := DoAll(Initial(), steps);
            var Ran(h, epoch) := s.statements[k];
            h < |s.handles| && s.handles[h].adoptedBy == Some(epoch)
  {
    RunIsFaithful(steps);
    assert StatementOk(DoAll(Initial(), steps), DoAll(Initial(), steps).statements[k]);
  }

  /** A restart while the aborted transaction's acquisition is still pending. */
  const RESTART: seq<Step> := [Start, Issue, AbortCall, Start, Opened(0), Run(0)]

  /** The restart adopts the old acquisition, and the aborted transaction's statement runs in it. */
  lemma RestartRunsAbortedStatement()
    ensures !NoStartWhileWaiting(RESTART)
    ensures var s := DoAll(Initial(), RESTART);
            && s.statements == [Ran(0, 1)] && |s.handles| == 1 && s.handles[0].adoptedBy == Some(2)
  {
    var s1 := Do(Initial(), Start);
    var s2 := Do(s1, Issue);
    var s3 := Do(s2, AbortCall);
    var s4 := Do(s3, Start);
    var s5 := Do(s4, Opened(0));
    var s6 := Do(s5, Run(0));
    Unroll(RESTART, [Initial(), s1, s2, s3, s4, s5, s6]);
    assert DoAll(Initial(), RESTART[..3]) == s3 by {
      Unroll(RESTART[..3], [Initial(), s1, s2, s3]);
    }
    assert s3.statements[0] == Waiting(0, 1) && s3.acquisitions[0].Pending?;
    assert RESTART[3].Start? && !NoneWaiting(s3);
  }

  /** Every statement that ran did so in the server transaction of its own. */
  predicate AllOwn(s: System) {
    forall k :: 0 <= k < |s.statements| && s.statements[k].Ran? ==> StatementOk(s, s.statements[k])
  }

  lemma {:induction false} StaysFaithful(s: System, steps: seq<Step>)
    requires Safe(s) && Faithful(s) && NoStart(steps)
    ensures Safe(DoAll(s, steps)) && Faithful(DoAll(s, steps))
  {
    if steps != [] {
      StaysFaithful(s, steps[..|steps| - 1]);
      StepKeepsSafe(DoAll(s, steps[..|steps| - 1]), steps[|steps| - 1]);
      StepKeepsFaithful(DoAll(s, steps[..|steps| - 1]), steps[|steps| - 1]);
    }
  }

  /**
   * Where the condition lies: starting a transaction keeps every later run within
   * its own transactions exactly when no statement is waiting for one to open.
   */
  lemma StartIsFaithfulExactly(s: System)
    requires Safe(s) && Faithful(s) && Started(s.core).1.None?
    ensures (forall steps :: NoStart(steps) ==> AllOwn(DoAll(Do(s, Start), steps))) <==> NoneWaiting(s)
  {
    var t := Do(s, Start);
    StepKeepsSafe(s, Start);
    if NoneWaiting(s) {
      StepKeepsFaithful(s, Start);
      forall steps | NoStart(steps)
        ensures AllOwn(DoAll(t, steps))
      {
        StaysFaithful(t, steps);
      }
    } else {
      var k :| 0 <= k < |s.statements| && s.statements[k].Waiting? &&
               (s.statements[k].acquisition < |s.acquisitions| ==> s.acquisitions[s.statements[k].acquisition].Pending?);
      assert StatementOk(s, s.statements[k]);
      StrayRuns(t, k);
    }
  }

  /** A statement of an earlier transaction that the next one's opening carries along. */
  lemma StrayRuns(t: System, k: nat)
    requires Safe(t) && t.core.state.Starting? && k < |t.statements| && t.statements[k].Waiting?
    requires t.statements[k].epoch < t.epoch
    requires t.statements[k].acquisition < |t.acquisitions| && t.acquisitions[t.statements[k].acquisition].Pending?
    ensures exists steps :: NoStart(steps) && !AllOwn(DoAll(t, steps))
  {
    var a, h, epoch := t.statements[k].acquisition, |t.handles|, t.statements[k].epoch;
    var u := Do(t, Opened(a));
    assert u == Opening(t, a) && u.statements[k] == Holding(h, epoch) && u.handles[h] == Handle(0, Some(t.epoch));
    RunStray(u, k, h, epoch);
    TwoSteps(t, Opened(a), Run(k));
    assert NoStart([Opened(a), Run(k)]) && !AllOwn(DoAll(t, [Opened(a), Run(k)]));
  }

  lemma RunStray(u: System, k: nat, h: nat, epoch: nat)
    requires k < |u.statements| && u.statements[k] == Holding(h, epoch)
    requires h < |u.handles| && u.handles[h].settles == 0 && u.handles[h].adoptedBy != Some(epoch)
    ensures !AllOwn(Do(u, Run(k)))
  {
    var v := Do(u, Run(k));
    assert v.statements[k] == Ran(h, epoch);
  }
}
