/**
 * What a session answers, told from the calls made and the replies that arrived: the
 * fields it keeps are not consulted.
 */
module SessionHistory {
  import opened Values
  import opened Sessions
  import opened SessionProtocol

  /**
   * Of the current transaction: the first call that asked for it to be settled, and the
   * server's reply to that if one has come. `ended` is whether an `endSession` finished.
   */
  datatype History = History(settledBy: Option<SettleKind>, reply: Option<bool>, ended: bool) {
    predicate CommitFirst() {
      settledBy.Some? && settledBy.value.CommitKind?
    }

    predicate AbortFirst() {
      settledBy.Some? && settledBy.value.AbortKind?
    }

    predicate RepliedWith(ok: bool) {
      reply.Some? && reply.value == ok
    }
  }

  /** A server transaction was opened for the current transaction. */
  predicate OpenedOne(s: System) {
    exists h :: 0 <= h < |s.handles| && s.handles[h].adoptedBy == Some(s.epoch)
  }

  /** The current transaction is over: settled with nothing opened, or its settle answered. */
  predicate Over(s: System, h: History) {
    h.settledBy.Some? && (OpenedOne(s) ==> h.reply.Some?)
  }

  predicate NoneActive(s: System, h: History) {
    s.epoch == 0 || Over(s, h)
  }

  function Asked(s: System, h: History, kind: SettleKind): History {
    if h.ended || s.epoch == 0 || h.settledBy.Some? then h else h.(settledBy := Some(kind))
  }

  /** The history after `step` is taken in `s`. */
  function Extended(s: System, h: History, step: Step): History {
    match step
    case Start => if !h.ended && NoneActive(s, h) then h.(settledBy := None, reply := None) else h
    case CommitCall => Asked(s, h, CommitKind)
    case AbortCall => Asked(s, h, AbortKind)
    case EndSession => if NoneActive(s, h) then h.(ended := true) else Asked(s, h, AbortKind)
    case EndContinue => if s.ends > 0 then h.(ended := true) else h
    case SettleReply(i, ok) => if i < |s.settles| then h.(reply := Some(ok)) else h
    case _ => h
  }

  function HistoryOf(steps: seq<Step>): History {
    if steps == [] then History(None, None, false)
    else Extended(DoAll(Initial(), steps[..|steps| - 1]), HistoryOf(steps[..|steps| - 1]), steps[|steps| - 1])
  }

  // The fields agree with the history.

  function ToldState(s: System, h: History): TxState {
    if s.epoch == 0 then NoTransaction
    else if !OpenedOne(s) then
      if h.settledBy.None? then Starting else if h.CommitFirst() then CommittedEmpty else Aborted
    else if h.reply.None? then InProgress
    else if h.CommitFirst() then Committed
    else Aborted
  }

  /** Server transactions are adopted by transactions that have started. */
  predicate AdoptedByStarted(s: System) {
    forall h :: 0 <= h < |s.handles| && s.handles[h].adoptedBy.Some? ==> 0 < s.handles[h].adoptedBy.value <= s.epoch
  }

  predicate Told(s: System, h: History) {
    && AdoptedByStarted(s)
    && s.core.hasEnded == h.ended
    && s.core.state == ToldState(s, h)
    && (s.epoch == 0 ==> h.settledBy.None?)
    && (h.reply.Some? ==> h.settledBy.Some? && OpenedOne(s))
    && (s.core.scope.Some? <==> OpenedOne(s) && h.settledBy.None?)
    && (s.core.scope.Some? ==> s.core.scope.value < |s.handles| && s.handles[s.core.scope.value].adoptedBy == Some(s.epoch))
    && (forall i :: 0 <= i < |s.settles| ==> Some(s.settles[i].kind) == h.settledBy)
    && (s.core.commitFailed <==> h.CommitFirst() && h.RepliedWith(false))
  }

  lemma SameHandles(s: System, t: System)
    requires t.epoch == s.epoch && |t.handles| == |s.handles|
    requires forall h :: 0 <= h < |s.handles| ==> t.handles[h].adoptedBy == s.handles[h].adoptedBy
    ensures OpenedOne(t) <==> OpenedOne(s)
    ensures AdoptedByStarted(s) ==> AdoptedByStarted(t)
  {
  }

  lemma StartIsTold(s: System, h: History)
    requires Safe(s) && Told(s, h)
    ensures Told(Do(s, Start), Extended(s, h, Start))
  {
    var t := Do(s, Start);
    if t.epoch > s.epoch {
      assert !OpenedOne(t);
    }
  }

  lemma SettleCallIsTold(s: System, h: History, step: Step)
    requires Safe(s) && Told(s, h) && (step.CommitCall? || step.AbortCall? || step.EndSession?)
    ensures Told(Do(s, step), Extended(s, h, step))
  {
    SameHandles(s, Do(s, step));
  }

  lemma OpeningIsTold(s: System, h: History, a: nat)
    requires Safe(s) && Told(s, h) && a < |s.acquisitions|
    ensures Told(Opening(s, a), h)
  {
    var t := Opening(s, a);
    if s.core.state.Starting? {
      assert t.handles[|s.handles|].adoptedBy == Some(t.epoch);
    } else {
      assert OpenedOne(t) <==> OpenedOne(s) by {
        if OpenedOne(s) {
          var k :| 0 <= k < |s.handles| && s.handles[k].adoptedBy == Some(s.epoch);
          assert t.handles[k] == s.handles[k];
        }
      }
    }
  }

  lemma ReplyIsTold(s: System, h: History, i: nat, ok: bool)
    requires Safe(s) && Told(s, h) && i < |s.settles|
    ensures Told(Settled(s, i, ok), h.(reply := Some(ok)))
  {
    SameHandles(s, Settled(s, i, ok));
  }

  /** Statements, failed acquisitions and the end of an `endSession` settle nothing. */
  lemma QuietIsTold(s: System, h: History, step: Step)
    requires Safe(s) && Told(s, h) && (step.Issue? || step.NotOpened? || step.Run? || step.EndContinue?)
    ensures Told(Do(s, step), Extended(s, h, step))
  {
    SameHandles(s, Do(s, step));
  }

  lemma StepIsTold(s: System, h: History, step: Step)
    requires Safe(s) && Told(s, h)
    ensures Told(Do(s, step), Extended(s, h, step))
  {
    match step
    case Start => StartIsTold(s, h);
    case CommitCall => SettleCallIsTold(s, h, step);
    case AbortCall => SettleCallIsTold(s, h, step);
    case EndSession => SettleCallIsTold(s, h, step);
    case Opened(a) =>
      if a < |s.acquisitions| && s.acquisitions[a].Pending? {
        OpeningIsTold(s, h, a);
      }
    case SettleReply(i, ok) =>
      if i < |s.settles| {
        ReplyIsTold(s, h, i, ok);
      }
    case _ => QuietIsTold(s, h, step);
  }

  /** Over every run the session's fields are what the calls and replies say. */
  lemma {:induction false} RunIsTold(steps: seq<Step>)
    ensures Told(DoAll(Initial(), steps), HistoryOf(steps))
  {
    if steps != [] {
      var front := steps[..|steps| - 1];
      RunIsTold(front);
      SessionIsSafe(front);
      StepIsTold(DoAll(Initial(), front), HistoryOf(front), steps[|steps| - 1]);
    }
  }

  // What the calls answer.

  predicate NamesOpenHandle(s: System, handle: nat) {
    handle < |s.handles| && s.handles[handle].adoptedBy == Some(s.epoch) && s.handles[handle].settles == 0
  }

  /**
   * A commit succeeds at once exactly when nothing was opened and no abort came first, or
   * the commit's own reply arrived and was a success; it is sent exactly when a server
   * transaction is open that nobody asked to settle; and every other one is refused.
   */
  predicate CommitOwed(s: System, h: History, answer: SettleCall) {
    var done := if OpenedOne(s) then h.CommitFirst() && h.RepliedWith(true) else !h.AbortFirst();
    match answer
    case Done => !h.ended && s.epoch > 0 && done
    case Send(handle) => !h.ended && s.epoch > 0 && OpenedOne(s) && h.settledBy.None? && NamesOpenHandle(s, handle)
    case Refused(misuse) =>
      if h.ended then misuse == Expired
      else if s.epoch == 0 then misuse == NotStarted
      else !done && (OpenedOne(s) ==> h.settledBy.Some?) &&
           if !Over(s, h) then misuse == SettleInFlight
           else misuse == if h.AbortFirst() then CommitAfterAbort else CommitSpent
  }

  /** An abort likewise; after any settle it is refused, saying which came first. */
  predicate AbortOwed(s: System, h: History, answer: SettleCall) {
    match answer
    case Done => !h.ended && s.epoch > 0 && !OpenedOne(s) && h.settledBy.None?
    case Send(handle) => !h.ended && s.epoch > 0 && OpenedOne(s) && h.settledBy.None? && NamesOpenHandle(s, handle)
    case Refused(misuse) =>
      if h.ended then misuse == Expired
      else if s.epoch == 0 then misuse == NotStarted
      else h.settledBy.Some? &&
           if !Over(s, h) then misuse == SettleInFlight
           else misuse == if h.AbortFirst() then AbortTwice else AbortAfterCommit
  }

  lemma ToldAnswers(s: System, h: History)
    requires Safe(s) && Told(s, h)
    ensures CommitOwed(s, h, CommitCalled(s.core).1) && AbortOwed(s, h, AbortCalled(s.core).1)
  {
  }

  /** Over every run a commit is answered as the calls and replies before it say. */
  lemma CommitAnswers(steps: seq<Step>)
    ensures CommitOwed(DoAll(Initial(), steps), HistoryOf(steps), CommitCalled(DoAll(Initial(), steps).core).1)
  {
    RunIsTold(steps);
    SessionIsSafe(steps);
    ToldAnswers(DoAll(Initial(), steps), HistoryOf(steps));
  }

  lemma AbortAnswers(steps: seq<Step>)
    ensures AbortOwed(DoAll(Initial(), steps), HistoryOf(steps), AbortCalled(DoAll(Initial(), steps).core).1)
  {
    RunIsTold(steps);
    SessionIsSafe(steps);
    ToldAnswers(DoAll(Initial(), steps), HistoryOf(steps));
  }

  /** No two answers are owed at once. */
  lemma OwedIsOne(s: System, h: History, a: SettleCall, b: SettleCall)
    requires (CommitOwed(s, h, a) && CommitOwed(s, h, b)) || (AbortOwed(s, h, a) && AbortOwed(s, h, b))
    requires a.Send? && b.Send? ==> a.handle == b.handle
    ensures a == b
  {
  }

  /** A start is refused exactly by an ended session or while the transaction before is not over. */
  lemma StartAnswers(steps: seq<Step>)
    ensures var s, h := DoAll(Initial(), steps), HistoryOf(steps);
            Started(s.core).1 ==
              if h.ended then Some(Expired) else if !NoneActive(s, h) then Some(AlreadyInProgress) else None
  {
    RunIsTold(steps);
  }

  /**
   * A statement runs outside a transaction exactly where none is active, in the open
   * server transaction where nobody asked to settle it, and in none after the end.
   */
  lemma RouteAnswers(steps: seq<Step>, next: nat)
    ensures var s, h := DoAll(Initial(), steps), HistoryOf(steps);
            match Routed(s.core, next).1
            case Unusable => h.ended
            case Fallback => !h.ended && NoneActive(s, h)
            case Use(handle) => !h.ended && OpenedOne(s) && h.settledBy.None? && NamesOpenHandle(s, handle)
            case _ => !h.ended && !NoneActive(s, h) && (OpenedOne(s) ==> h.settledBy.Some?)
  {
    RunIsTold(steps);
    SessionIsSafe(steps);
    ToldRoutes(DoAll(Initial(), steps), HistoryOf(steps), next);
  }

  lemma ToldRoutes(s: System, h: History, next: nat)
    requires Safe(s) && Told(s, h)
    ensures match Routed(s.core, next).1
            case Unusable => h.ended
            case Fallback => !h.ended && NoneActive(s, h)
            case Use(handle) => !h.ended && OpenedOne(s) && h.settledBy.None? && NamesOpenHandle(s, handle)
            case _ => !h.ended && !NoneActive(s, h) && (OpenedOne(s) ==> h.settledBy.Some?)
  {
  }

  /** Ending is done at once where no transaction is active, waits for the abort it sends, or for the next turn. */
  lemma EndAnswers(steps: seq<Step>)
    ensures var s, h := DoAll(Initial(), steps), HistoryOf(steps);
            match EndCalled(s.core).1
            case Ended => h.ended || NoneActive(s, h)
            case EndsAfter(handle) => !h.ended && !NoneActive(s, h) && h.settledBy.None? && NamesOpenHandle(s, handle)
            case EndsNext => !h.ended && !NoneActive(s, h) && (OpenedOne(s) ==> h.settledBy.Some?)
  {
    RunIsTold(steps);
    SessionIsSafe(steps);
    ToldEnds(DoAll(Initial(), steps), HistoryOf(steps));
  }

  lemma ToldEnds(s: System, h: History)
    requires Safe(s) && Told(s, h)
    ensures match EndCalled(s.core).1
            case Ended => h.ended || NoneActive(s, h)
            case EndsAfter(handle) => !h.ended && !NoneActive(s, h) && h.settledBy.None? && NamesOpenHandle(s, handle)
            case EndsNext => !h.ended && !NoneActive(s, h) && (OpenedOne(s) ==> h.settledBy.Some?)
  {
  }

  /** An `endSession` call has ended the session or is going to. */
  lemma EndIsPromised(steps: seq<Step>)
    ensures var s := Do(DoAll(Initial(), steps), EndSession);
            s.core.hasEnded || EndPending(s)
  {
    var before := DoAll(Initial(), steps);
    var s := Do(before, EndSession);
    SessionIsSafe(steps);
    if s.settles != before.settles {
      assert s.settles[|before.settles|].thenEnd;
    }
  }

  /** The `endSession` calls made: those answered at once, those that had to wait, and of these the finished. */
  datatype EndTally = EndTally(answered: nat, waited: nat, finished: nat)

  function Tallied(t: EndTally, s: System, step: Step): EndTally {
    match step
    case EndSession => if EndCalled(s.core).1.Ended? then t.(answered := t.answered + 1) else t.(waited := t.waited + 1)
    case EndContinue => if s.ends > 0 then t.(finished := t.finished + 1) else t
    case _ => t
  }

  function Tally(steps: seq<Step>): EndTally {
    if steps == [] then EndTally(0, 0, 0) else
    Tallied(Tally(steps[..|steps| - 1]), DoAll(Initial(), steps[..|steps| - 1]), steps[|steps| - 1])
  }

  predicate Accounted(s: System, t: EndTally) {
    && s.ends + (if exists i :: 0 <= i < |s.settles| && s.settles[i].thenEnd then 1 else 0) + t.finished == t.waited
    && (s.core.hasEnded <==> t.answered + t.finished > 0)
  }

  lemma SettleReplyAccounts(s: System, t: EndTally, i: nat, ok: bool)
    requires Safe(s) && Accounted(s, t) && i < |s.settles|
    ensures Accounted(Settled(s, i, ok), t)
  {
    assert |s.settles| == 1;
  }

  lemma SentAccounts(s: System, t: EndTally, core: Core, kind: SettleKind, handle: nat, thenEnd: bool)
    requires Safe(s) && Accounted(s, t) && handle < |s.handles| && s.settles == [] && core.hasEnded == s.core.hasEnded
    ensures Accounted(Sent(s, core, kind, handle, thenEnd), if thenEnd then t.(waited := t.waited + 1) else t)
  {
    var after := Sent(s, core, kind, handle, thenEnd);
    assert after.settles[0].thenEnd == thenEnd;
  }

  lemma CallAccounts(s: System, t: EndTally, step: Step)
    requires Safe(s) && Accounted(s, t) && (step.CommitCall? || step.AbortCall? || step.EndSession?)
    ensures Accounted(Do(s, step), Tallied(t, s, step))
  {
    match step
    case CommitCall =>
      if CommitCalled(s.core).1.Send? {
        SentAccounts(s, t, CommitCalled(s.core).0, CommitKind, CommitCalled(s.core).1.handle, false);
      }
    case AbortCall =>
      if AbortCalled(s.core).1.Send? {
        SentAccounts(s, t, AbortCalled(s.core).0, AbortKind, AbortCalled(s.core).1.handle, false);
      }
    case EndSession =>
      if EndCalled(s.core).1.EndsAfter? {
        SentAccounts(s, t, EndCalled(s.core).0, AbortKind, EndCalled(s.core).1.handle, true);
      }
  }

  lemma StepAccounts(s: System, t: EndTally, step: Step)
    requires Safe(s) && Accounted(s, t)
    ensures Accounted(Do(s, step), Tallied(t, s, step))
  {
    match step
    case CommitCall => CallAccounts(s, t, step);
    case AbortCall => CallAccounts(s, t, step);
    case EndSession => CallAccounts(s, t, step);
    case SettleReply(i, ok) =>
      if i < |s.settles| {
        SettleReplyAccounts(s, t, i, ok);
      }
    case _ =>
  }

  /**
   * Nothing ends the session but `endSession`: over every run a session has ended exactly
   * when some call of it was answered, and one is pending exactly when one still has to wait.
   */
  lemma {:induction false} OnlyEndSessionEnds(steps: seq<Step>)
    ensures Accounted(DoAll(Initial(), steps), Tally(steps))
    ensures EndPending(DoAll(Initial(), steps)) <==> Tally(steps).finished < Tally(steps).waited
  {
    if steps != [] {
      var before := steps[..|steps| - 1];
      OnlyEndSessionEnds(before);
      SessionIsSafe(before);
      StepAccounts(DoAll(Initial(), before), Tally(before), steps[|steps| - 1]);
    }
  }
}
