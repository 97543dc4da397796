/**
 * A client session: the transaction state machine and the fields around it.
 *
 * An `async` method runs without interruption up to each `await`, so each method
 * below is one such segment: the call, and the continuation that runs when the
 * server's answer arrives. `Core` is the abstract value of the fields and the
 * functions on it are the methods' specifications.
 */
module Sessions {
  import opened Values

  datatype TxState = NoTransaction | Starting | InProgress | Committed | CommittedEmpty | Aborted

  /** Legal successors of each state. */
  function Successors(s: TxState): set<TxState> {
    match s
    case NoTransaction => {Starting}
    case Starting => {InProgress, CommittedEmpty, Aborted}
    case InProgress => {Committed, Aborted}
    case Committed => {}
    case CommittedEmpty => {CommittedEmpty}
    case Aborted => {}
  }

  predicate IsActive(s: TxState) {
    s.Starting? || s.InProgress?
  }

  /** One transaction's state, moved along the table of legal successors. */
  class Transaction {
    var state: TxState

    constructor ()
      ensures state == NoTransaction
    {
      state := NoTransaction;
    }

    method Transition(next: TxState) returns (legal: bool)
      modifies this
      ensures legal <==> next in Successors(old(state))
      ensures state == if legal then next else old(state)
    {
      legal := next in Successors(state);
      if legal {
        state := next;
      }
    }
  }

  /**
   * The session's fields. `scope` is the handle of the live server transaction,
   * `acquiring` the shared acquisition, `broken` records an illegal transition.
   */
  datatype Core = Core(
    hasEnded: bool,
    state: TxState,
    scope: Option<nat>,
    acquiring: Option<nat>,
    commitFailed: bool,
    broken: bool)

  datatype Misuse = Expired | AlreadyInProgress | NotStarted | CommitAfterAbort | AbortTwice | AbortAfterCommit | CommitSpent | SettleInFlight

  /** What a commit or abort call does before its first `await`. */
  datatype SettleCall = Done | Send(handle: nat) | Refused(misuse: Misuse)

  /** What `endSession` does: finished, waiting a turn, or waiting for the cancel it sent. */
  datatype EndCall = Ended | EndsNext | EndsAfter(handle: nat)

  /** Where a statement issued with the session goes. */
  datatype Route = Fallback | Use(handle: nat) | Wait(acquisition: nat) | Begin(acquisition: nat) | Unusable

  function Moved(c: Core, next: TxState): Core {
    if next in Successors(c.state) then c.(state := next) else c.(broken := true)
  }

  /** A transition is carried out or recorded as illegal, never both and never neither. */
  lemma MovedOrBroken(c: Core, next: TxState)
    ensures Moved(c, next).broken <==> c.broken || next !in Successors(c.state)
    ensures Moved(c, next).state == if next in Successors(c.state) then next else c.state
  {
  }

  function Started(c: Core): (Core, Option<Misuse>) {
    if c.hasEnded then (c, Some(Expired))
    else if IsActive(c.state) then (c, Some(AlreadyInProgress))
    else (Moved(c.(state := NoTransaction), Starting).(scope := None, acquiring := None, commitFailed := false), None)
  }

  function TakeScope(c: Core): (Core, SettleCall) {
    if c.scope.None? then (c, Refused(SettleInFlight))
    else (c.(scope := None, acquiring := None), Send(c.scope.value))
  }

  function CommitCalled(c: Core): (Core, SettleCall) {
    if c.hasEnded then (c, Refused(Expired)) else
    match c.state
    case NoTransaction => (c, Refused(NotStarted))
    case Starting => (Moved(c, CommittedEmpty), Done)
    case CommittedEmpty => (Moved(c, CommittedEmpty), Done)
    case Aborted => (c, Refused(CommitAfterAbort))
    case Committed => (c, if c.commitFailed then Refused(CommitSpent) else Done)
    case InProgress => TakeScope(c)
  }

  function CommitAnswered(c: Core, ok: bool): Core {
    Moved(c.(commitFailed := c.commitFailed || !ok), Committed)
  }

  function AbortCalled(c: Core): (Core, SettleCall) {
    if c.hasEnded then (c, Refused(Expired)) else
    match c.state
    case NoTransaction => (c, Refused(NotStarted))
    case Starting => (Moved(c, Aborted), Done)
    case Aborted => (c, Refused(AbortTwice))
    case Committed => (c, Refused(AbortAfterCommit))
    case CommittedEmpty => (c, Refused(AbortAfterCommit))
    case InProgress => TakeScope(c)
  }

  function AbortAnswered(c: Core): Core {
    Moved(c, Aborted)
  }

  function EndCalled(c: Core): (Core, EndCall) {
    if c.hasEnded then (c, Ended)
    else if !IsActive(c.state) then (c.(hasEnded := true), Ended)
    else
      var (after, call) := AbortCalled(c);
      (after, if call.Send? then EndsAfter(call.handle) else EndsNext)
  }

  function EndContinued(c: Core): Core {
    c.(hasEnded := true)
  }

  /** `next` is the acquisition a new request to begin a transaction would be. */
  function Routed(c: Core, next: nat): (Core, Route) {
    if c.hasEnded then (c, Unusable)
    else if !IsActive(c.state) then (c, Fallback)
    else if c.scope.Some? then (c, Use(c.scope.value))
    else if c.acquiring.Some? then (c, Wait(c.acquiring.value))
    else (c.(acquiring := Some(next)), Begin(next))
  }

  /** A server transaction has opened: adopt it, or say it must be cancelled. */
  function Acquired(c: Core, handle: nat): (Core, bool) {
    if c.state.Starting? then (Moved(c.(scope := Some(handle)), InProgress), true) else (c, false)
  }

  function AcquisitionFailed(c: Core): Core {
    c.(acquiring := None)
  }

  class ClientSession {
    var hasEnded: bool
    var transaction: Transaction
    var scope: Option<nat>
    var acquiring: Option<nat>
    var commitFailed: bool
    var broken: bool

    ghost function View(): Core
      reads this, transaction
    {
      Core(hasEnded, transaction.state, scope, acquiring, commitFailed, broken)
    }

    constructor ()
      ensures View() == Core(false, NoTransaction, None, None, false, false)
      ensures fresh(transaction)
    {
      transaction := new Transaction();
      hasEnded, scope, acquiring, commitFailed, broken := false, None, None, false, false;
    }

    method Move(next: TxState)
      modifies this`broken, transaction
      ensures View() == Moved(old(View()), next)
    {
      var legal := transaction.Transition(next);
      if !legal {
        broken := true;
      }
    }

    method StartTransaction() returns (misuse: Option<Misuse>)
      modifies this
      ensures (View(), misuse) == Started(old(View()))
      ensures misuse.None? ==> fresh(transaction)
      ensures misuse.Some? ==> transaction == old(transaction)
    {
      if hasEnded {
        return Some(Expired);
      }
      if IsActive(transaction.state) {
        return Some(AlreadyInProgress);
      }
      transaction := new Transaction();
      Move(Starting);
      scope, acquiring, commitFailed := None, None, false;
      misuse := None;
    }

    method TakeScopeOut() returns (call: SettleCall)
      modifies this`scope, this`acquiring
      ensures (View(), call) == TakeScope(old(View()))
    {
      if scope.None? {
        return Refused(SettleInFlight);
      }
      call := Send(scope.value);
      scope, acquiring := None, None;
    }

    method CommitTransaction() returns (call: SettleCall)
      modifies this, transaction
      ensures (View(), call) == CommitCalled(old(View())) && transaction == old(transaction)
    {
      if hasEnded {
        return Refused(Expired);
      }
      match transaction.state
      case NoTransaction => call := Refused(NotStarted);
      case Starting =>
        Move(CommittedEmpty);
        call := Done;
      case CommittedEmpty =>
        Move(CommittedEmpty);
        call := Done;
      case Aborted => call := Refused(CommitAfterAbort);
      case Committed => call := if commitFailed then Refused(CommitSpent) else Done;
      case InProgress => call := TakeScopeOut();
    }

    method CommitReply(ok: bool)
      modifies this, transaction
      ensures View() == CommitAnswered(old(View()), ok) && transaction == old(transaction)
    {
      if !ok {
        commitFailed := true;
      }
      Move(Committed);
    }

    method AbortTransaction() returns (call: SettleCall)
      modifies this, transaction
      ensures (View(), call) == AbortCalled(old(View())) && transaction == old(transaction)
    {
      if hasEnded {
        return Refused(Expired);
      }
      match transaction.state
      case NoTransaction => call := Refused(NotStarted);
      case Starting =>
        Move(Aborted);
        call := Done;
      case Aborted => call := Refused(AbortTwice);
      case Committed => call := Refused(AbortAfterCommit);
      case CommittedEmpty => call := Refused(AbortAfterCommit);
      case InProgress => call := TakeScopeOut();
    }

    method AbortReply()
      modifies this, transaction
      ensures View() == AbortAnswered(old(View())) && transaction == old(transaction)
    {
      Move(Aborted);
    }

    method EndSession() returns (call: EndCall)
      modifies this, transaction
      ensures (View(), call) == EndCalled(old(View())) && transaction == old(transaction)
    {
      if hasEnded {
        return Ended;
      }
      if !IsActive(transaction.state) {
        hasEnded := true;
        return Ended;
      }
      var abort := AbortTransaction();
      call := if abort.Send? then EndsAfter(abort.handle) else EndsNext;
    }

    method EndSessionContinue()
      modifies this`hasEnded
      ensures View() == EndContinued(old(View()))
    {
      hasEnded := true;
    }

    method Executor(freshAcquisition: nat) returns (route: Route)
      modifies this`acquiring
      ensures (View(), route) == Routed(old(View()), freshAcquisition)
    {
      if hasEnded {
        return Unusable;
      }
      if !IsActive(transaction.state) {
        return Fallback;
      }
      if scope.Some? {
        return Use(scope.value);
      }
      if acquiring.Some? {
        return Wait(acquiring.value);
      }
      acquiring := Some(freshAcquisition);
      route := Begin(freshAcquisition);
    }

    method AcquisitionReply(handle: nat) returns (adopted: bool)
      modifies this, transaction
      ensures (View(), adopted) == Acquired(old(View()), handle) && transaction == old(transaction)
    {
      adopted := transaction.state.Starting?;
      if adopted {
        scope := Some(handle);
        Move(InProgress);
      }
    }

    method AcquisitionError()
      modifies this`acquiring
      ensures View() == AcquisitionFailed(old(View()))
    {
      acquiring := None;
    }
  }
}
