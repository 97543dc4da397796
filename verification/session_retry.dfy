/**
 * `withTransaction`: how often the callback's work is applied.
 *
 * Time and the callback are outside: a `Script` says, for one attempt, for each of
 * the callback's statements whether opening a server transaction would succeed at it,
 * whether the callback settles the transaction itself, how it ends, what the server
 * answers to a commit, and whether the deadline has passed at the two places it is
 * read. What takes effect is read off the server, which records the commits it applied.
 */
module SessionRetry {
  import opened Values
  import opened Sessions

  /** `Unknown` is a commit whose reply never came: it may have been applied or not. */
  datatype CommitAnswer = Applied | RejectedTransient | RejectedForGood | Unknown(landed: bool) {
    predicate TakesEffect() {
      Applied? || (Unknown? && landed)
    }
  }

  datatype CallbackEnd = Returned | Threw(transient: bool)

  /** What the callback itself does with the transaction, after its statements. */
  datatype OwnSettle = Leaves | Commits(answer: CommitAnswer) | Aborts

  datatype Script = Script(
    statements: seq<bool>,
    own: OwnSettle,
    end: CallbackEnd,
    answer: CommitAnswer,
    lateAfterAttempt: bool,
    lateBeforeRetry: bool)

  datatype Outcome = Returns | Throws | Misused(misuse: Misuse) | OutOfScripts

  /** The server: how many transactions it has begun, and those whose commit it applied. */
  class Server {
    var begun: nat
    var applied: seq<nat>

    constructor ()
      ensures begun == 0 && applied == []
    {
      begun, applied := 0, [];
    }

    method Open() returns (handle: nat)
      modifies this`begun
      ensures handle == old(begun) && begun == old(begun) + 1
    {
      handle := begun;
      begun := begun + 1;
    }

    method Commit(handle: nat, answer: CommitAnswer) returns (confirmed: bool)
      modifies this`applied
      ensures applied == old(applied) + (if answer.TakesEffect() then [handle] else [])
      ensures confirmed <==> answer.Applied?
    {
      if answer.TakesEffect() {
        applied := applied + [handle];
      }
      confirmed := answer.Applied?;
    }
  }

  /** Some statement of the attempt opened a server transaction. */
  predicate Opens(a: Script) {
    true in a.statements
  }

  /** The callback's own commit takes effect. */
  predicate LandsItself(a: Script) {
    Opens(a) && a.own.Commits? && a.own.answer.TakesEffect()
  }

  /** The attempt's work takes effect, by the callback's own commit or by the one after it. */
  predicate Lands(a: Script) {
    LandsItself(a) || (Opens(a) && a.own.Leaves? && a.end.Returned? && a.answer.TakesEffect())
  }

  /** The attempt counts as committed: the callback returned and nothing is left that failed to commit. */
  predicate CommittedAttempt(a: Script) {
    a.end.Returned? && (!a.own.Leaves? || !Opens(a) || a.answer.Applied?)
  }

  /** Worth repeating: the callback failed transiently, or the commit was rejected so. */
  predicate Retryable(a: Script) {
    match a.end
    case Threw(transient) => transient
    case Returned => Opens(a) && a.own.Leaves? && a.answer.RejectedTransient?
  }

  /** Does the loop go round again after attempt `a`? */
  predicate Repeats(a: Script) {
    !CommittedAttempt(a) && Retryable(a) && !a.lateAfterAttempt && !a.lateBeforeRetry
  }

  /** How many attempts' work took effect. */
  function Landings(attempts: seq<Script>): nat {
    if attempts == [] then 0
    else Landings(attempts[..|attempts| - 1]) + if Lands(attempts[|attempts| - 1]) then 1 else 0
  }

  /** The session as a transaction's start leaves it. */
  ghost predicate JustStarted(session: ClientSession)
    reads session, session.transaction
  {
    session.View() == Core(false, Starting, None, None, false, false)
  }

  /** The callback's statements: the first that opens a server transaction gives it to all after it. */
  method RunStatements(session: ClientSession, server: Server, statements: seq<bool>)
    requires JustStarted(session)
    modifies session, session.transaction, server
    ensures session.transaction == old(session.transaction) && server.applied == old(server.applied)
    ensures if true in statements
            then session.View().(acquiring := None) == Core(false, InProgress, Some(old(server.begun)), None, false, false)
            else JustStarted(session)
    ensures server.begun == old(server.begun) + if true in statements then 1 else 0
  {
    var i := 0;
    while i < |statements|
      invariant 0 <= i <= |statements|
      invariant session.transaction == old(session.transaction) && server.applied == old(server.applied)
      invariant if true in statements[..i]
                then session.View().(acquiring := None) == Core(false, InProgress, Some(old(server.begun)), None, false, false)
                else JustStarted(session)
      invariant server.begun == old(server.begun) + if true in statements[..i] then 1 else 0
    {
      var route := session.Executor(server.begun);
      if route.Begin? {
        if statements[i] {
          var handle := server.Open();
          var adopted := session.AcquisitionReply(handle);
        } else {
          session.AcquisitionError();
        }
      }
      assert statements[..i + 1] == statements[..i] + [statements[i]];
      i := i + 1;
    }
    assert statements[..i] == statements;
  }

  /** A commit, and its reply when one was sent. */
  method Commit(session: ClientSession, server: Server, answer: CommitAnswer) returns (confirmed: bool)
    requires !session.hasEnded && IsActive(session.View().state) && !session.broken && !session.commitFailed
    requires session.View().state.InProgress? <==> session.scope.Some?
    modifies session, session.transaction, server
    ensures session.transaction == old(session.transaction)
    ensures !session.hasEnded && !IsActive(session.View().state) && !session.broken
    ensures server.begun == old(server.begun)
    ensures server.applied == old(server.applied)
                             + if old(session.scope).Some? && answer.TakesEffect() then [old(session.scope).value] else []
    ensures confirmed <==> old(session.scope).None? || answer.Applied?
  {
    var commit := session.CommitTransaction();
    confirmed := true;
    if commit.Send? {
      confirmed := server.Commit(commit.handle, answer);
      session.CommitReply(confirmed);
    }
  }

  method Abort(session: ClientSession)
    requires !session.hasEnded && IsActive(session.View().state) && !session.broken
    requires session.View().state.InProgress? <==> session.scope.Some?
    modifies session, session.transaction
    ensures session.transaction == old(session.transaction)
    ensures !session.hasEnded && !IsActive(session.View().state) && !session.broken
  {
    var abort := session.AbortTransaction();
    if abort.Send? {
      session.AbortReply();
    }
  }

  /** A single attempt: the callback, then the abort or commit it calls for. */
  method AttemptTransaction(session: ClientSession, server: Server, a: Script) returns (committed: bool)
    requires JustStarted(session)
    modifies session, session.transaction, server
    ensures committed <==> CommittedAttempt(a)
    ensures server.applied == old(server.applied) + if Lands(a) then [old(server.begun)] else []
    ensures server.begun == old(server.begun) + if Opens(a) then 1 else 0
    ensures !IsActive(session.View().state) && !session.hasEnded && !session.broken
    ensures session.transaction == old(session.transaction)
  {
    RunStatements(session, server, a.statements);
    if a.own.Commits? {
      var _ := Commit(session, server, a.own.answer);
    } else if a.own.Aborts? {
      Abort(session);
    }
    if a.end.Threw? {
      if IsActive(session.transaction.state) {
        Abort(session);
      }
      return false;
    }
    if !IsActive(session.transaction.state) {
      return true;
    }
    committed := Commit(session, server, a.answer);
  }

  /**
   * The retry loop. What the server applied is counted by the attempts that ran; every
   * one of them but the last failed transiently in time; a normal return means the last
   * attempt committed, and every loop-back finds the session startable.
   */
  method WithTransaction(session: ClientSession, server: Server, scripts: seq<Script>) returns (outcome: Outcome, attempts: nat)
    requires !session.broken
    modifies session, session.transaction, server
    ensures attempts <= |scripts|
    ensures old(server.applied) <= server.applied && |server.applied| == |old(server.applied)| + Landings(scripts[..attempts])
    ensures forall i :: |old(server.applied)| <= i < |server.applied| ==> old(server.begun) <= server.applied[i] < server.begun
    ensures forall i :: 0 <= i < attempts - 1 ==> Repeats(scripts[i])
    ensures outcome.Returns? ==> attempts > 0 && CommittedAttempt(scripts[attempts - 1])
    ensures outcome.Throws? ==> attempts > 0 && !CommittedAttempt(scripts[attempts - 1]) && !Repeats(scripts[attempts - 1])
    ensures outcome.Throws? ==> var a := scripts[attempts - 1];
                                ErrorOf(a) == Some(false) || (ErrorOf(a) == Some(true) && (a.lateAfterAttempt || a.lateBeforeRetry))
    ensures forall i :: 0 <= i < attempts - 1 ==> ErrorOf(scripts[i]) == Some(true)
    ensures outcome.Misused? ==> attempts == 0 && (old(session.hasEnded) || IsActive(old(session.View().state)))
    ensures outcome.OutOfScripts? ==> attempts == |scripts| && forall i :: 0 <= i < attempts ==> Repeats(scripts[i])
    ensures !session.broken
  {
    attempts := 0;
    while attempts < |scripts|
      invariant attempts <= |scripts|
      invariant forall i :: 0 <= i < attempts ==> Repeats(scripts[i]) && ErrorOf(scripts[i]) == Some(true)
      invariant !session.broken && old(server.begun) <= server.begun
      invariant old(server.applied) <= server.applied && |server.applied| == |old(server.applied)| + Landings(scripts[..attempts])
      invariant forall i :: |old(server.applied)| <= i < |server.applied| ==> old(server.begun) <= server.applied[i] < server.begun
      invariant attempts == 0 ==> session.View() == old(session.View()) && session.transaction == old(session.transaction)
      invariant attempts > 0 ==> !session.hasEnded && !IsActive(session.View().state) && fresh(session.transaction)
    {
      var misuse := session.StartTransaction();
      if misuse.Some? {
        return Misused(misuse.value), attempts;
      }
      var a := scripts[attempts];
      var committed := AttemptTransaction(session, server, a);
      assert scripts[..attempts + 1][..attempts] == scripts[..attempts];
      ErrorDecides(a);
      attempts := attempts + 1;
      if committed {
        return Returns, attempts;
      }
      if !Retryable(a) || a.lateAfterAttempt {
        return Throws, attempts;
      }
      if a.lateBeforeRetry {
        return Throws, attempts;
      }
    }
    outcome := OutOfScripts;
  }

  /** The error an attempt ends in, by whether it is labelled transient; none where it committed. */
  function ErrorOf(a: Script): Option<bool> {
    match a.end
    case Threw(transient) => Some(transient)
    case Returned =>
      if !Opens(a) || !a.own.Leaves? then None
      else
        match a.answer
        case Applied => None
        case RejectedTransient => Some(true)
        case RejectedForGood => Some(false)
        case Unknown(_) => Some(false)
  }

  /**
   * A transient error in time is repeated and any other is thrown: of commits the server
   * rejects, those labelled transient, and none whose outcome is unknown.
   */
  lemma ErrorDecides(a: Script)
    ensures CommittedAttempt(a) <==> ErrorOf(a).None?
    ensures Repeats(a) <==> ErrorOf(a) == Some(true) && !a.lateAfterAttempt && !a.lateBeforeRetry
  {
  }

  /**
   * The work of attempts the loop repeats took effect exactly where the callback had
   * committed for itself; otherwise work lands at most once, and in the last attempt.
   */
  lemma {:induction false} RepeatedWorkLandsExactly(attempts: seq<Script>)
    requires forall i :: 0 <= i < |attempts| ==> Repeats(attempts[i])
    ensures Landings(attempts) == 0 <==> forall i :: 0 <= i < |attempts| ==> !LandsItself(attempts[i])
  {
    if attempts != [] {
      var front := attempts[..|attempts| - 1];
      RepeatedWorkLandsExactly(front);
      assert forall i :: 0 <= i < |front| ==> attempts[i] == front[i];
    }
  }

  /** A run of the loop lands at most once when no callback it repeats commits for itself. */
  lemma LandsAtMostOnce(attempts: seq<Script>)
    requires attempts != [] && forall i :: 0 <= i < |attempts| - 1 ==> Repeats(attempts[i]) && !LandsItself(attempts[i])
    ensures Landings(attempts) == if Lands(attempts[|attempts| - 1]) then 1 else 0
  {
    RepeatedWorkLandsExactly(attempts[..|attempts| - 1]);
  }

  /** A normal return whose callbacks leave settling to the loop: applied once if anything was opened at all. */
  lemma ReturnMeansAppliedOnce(attempts: seq<Script>)
    requires attempts != [] && forall i :: 0 <= i < |attempts| ==> attempts[i].own.Leaves?
    requires forall i :: 0 <= i < |attempts| - 1 ==> Repeats(attempts[i])
    requires CommittedAttempt(attempts[|attempts| - 1])
    ensures Landings(attempts) == if Opens(attempts[|attempts| - 1]) then 1 else 0
  {
    LandsAtMostOnce(attempts);
  }

  /** A callback that commits for itself and then fails transiently is run again: its work lands twice. */
  lemma OwnCommitLandsTwice()
    ensures var first := Script([true], Commits(Applied), Threw(true), Applied, false, false);
            var second := Script([true], Leaves, Returned, Applied, false, false);
            Repeats(first) && CommittedAttempt(second) && Landings([first, second]) == 2
  {
    var first := Script([true], Commits(Applied), Threw(true), Applied, false, false);
    var second := Script([true], Leaves, Returned, Applied, false, false);
    assert [first, second][..1] == [first] && [first][..0] == [];
    assert Landings([]) == 0;
    assert Landings([first]) == 1;
  }
}
