/**
 * The executor of one server transaction: a FIFO of operations over a single-use
 * handle, and the database prefix that shifts a statement's result frames.
 *
 * The promise chain is modelled by its two kinds of turn: the next queued work
 * starts when nothing is running, and the running work finishes when the handle
 * answers.
 */
module TransactionQueue {
  import opened Values

  /** How a caller reads the reply: its first frame, its last one, or every one. */
  datatype Mode = First | LastFrame | Each

  /** Statements for a database view (none for the connected one), or a settle. */
  datatype Work =
    | Query(database: Option<string>, statements: seq<string>, mode: Mode)
    | Commit
    | Cancel

  datatype Frame = Frame(ok: bool, value: string)

  /** What the handle is told. */
  datatype Call = Send(statements: seq<string>) | SendCommit | SendCancel

  /** What the handle answers: it fails as a whole, or with one frame per statement. */
  datatype Reply = Failed | Frames(frames: seq<Frame>)

  /** What the caller gets. */
  datatype Result =
    | Spent
    | Error
    | Value(value: string)
    | Outcomes(frames: seq<Frame>)
    | Settled

  // Database prefixes.

  /** A leading `USE DB`, and the index at which the caller's own statements answer. */
  function Scoped(database: Option<string>, statements: seq<string>): (seq<string>, nat) {
    if database.None? then (statements, 0) else (["USE DB " + database.value] + statements, 1)
  }

  predicate Settles(w: Work) {
    w.Commit? || w.Cancel?
  }

  function CallOf(w: Work): Call {
    match w
    case Query(database, statements, _) => Send(Scoped(database, statements).0)
    case Commit => SendCommit
    case Cancel => SendCancel
  }

  predicate AllOk(frames: seq<Frame>) {
    forall i :: 0 <= i < |frames| ==> frames[i].ok
  }

  /** How the executor reads a reply. A `First` read throws on any failed frame. */
  function ReadReply(w: Work, reply: Reply): Result {
    if reply.Failed? then Error else
    match w
    case Commit => Settled
    case Cancel => Settled
    case Query(database, statements, mode) =>
      var frame := Scoped(database, statements).1;
      match mode
      case First => if AllOk(reply.frames) && frame < |reply.frames| then Value(reply.frames[frame].value) else Error
      case LastFrame =>
        if |reply.frames| > 0 && reply.frames[|reply.frames| - 1].ok then Value(reply.frames[|reply.frames| - 1].value) else Error
      case Each => Outcomes(if frame <= |reply.frames| then reply.frames[frame..] else [])
  }

  /** What the caller is owed, given the frames of its own statements alone. */
  function Owed(mode: Mode, own: seq<Frame>, prefixOk: bool): Result {
    match mode
    case First => if prefixOk && AllOk(own) && |own| > 0 then Value(own[0].value) else Error
    case LastFrame => if |own| > 0 && own[|own| - 1].ok then Value(own[|own| - 1].value) else Error
    case Each => Outcomes(own)
  }

  /**
   * Whatever database a view addresses, each caller is answered from the frames
   * of its own statements; the prefix's frame is never handed to it.
   */
  lemma OwnFrames(database: Option<string>, statements: seq<string>, mode: Mode, prefix: Frame, own: seq<Frame>)
    requires statements != [] && |own| == |statements|
    ensures |Scoped(database, statements).0| == |if database.None? then own else [prefix] + own|
    ensures ReadReply(Query(database, statements, mode), Frames(if database.None? then own else [prefix] + own))
         == Owed(mode, own, database.None? || prefix.ok)
  {
    if database.Some? {
      var frames := [prefix] + own;
      assert frames[1..] == own;
      assert AllOk(frames) <==> prefix.ok && AllOk(own) by {
        if AllOk(frames) {
          forall i | 0 <= i < |own|
            ensures own[i].ok
          {
            assert frames[i + 1].ok;
          }
          assert frames[0].ok;
        }
      }
    }
  }

  // The queue.

  /**
   * `done` are the finished works with their results, `calls` what the handle was
   * told, in order, and `replies` what it answered.
   */
  datatype State = State(
    isLive: bool,
    running: Option<Work>,
    waiting: seq<Work>,
    done: seq<(Work, Result)>,
    calls: seq<Call>,
    replies: seq<Reply>)

  function Initial(): State {
    State(true, None, [], [], [], [])
  }

  function Enqueued(s: State, w: Work): State {
    s.(waiting := s.waiting + [w])
  }

  /** The next work's turn: refused if the handle is spent, else the handle is told. */
  function Advanced(s: State): State {
    if s.running.Some? || s.waiting == [] then s else
    var w := s.waiting[0];
    if !s.isLive then s.(waiting := s.waiting[1..], done := s.done + [(w, Spent)])
    else s.(isLive := !Settles(w), running := Some(w), waiting := s.waiting[1..], calls := s.calls + [CallOf(w)])
  }

  /** The handle answers the running work. */
  function Answered(s: State, reply: Reply): State {
    if s.running.None? then s
    else s.(running := None, done := s.done + [(s.running.value, ReadReply(s.running.value, reply))], replies := s.replies + [reply])
  }

  datatype Step = Submit(work: Work) | Turn | Answer(reply: Reply)

  function Do(s: State, step: Step): State {
    match step
    case Submit(w) => Enqueued(s, w)
    case Turn => Advanced(s)
    case Answer(reply) => Answered(s, reply)
  }

  function DoAll(s: State, steps: seq<Step>): State {
    if steps == [] then s else Do(DoAll(s, steps[..|steps| - 1]), steps[|steps| - 1])
  }

  /** The works submitted, in call order. */
  function Submitted(steps: seq<Step>): seq<Work> {
    if steps == [] then [] else
    var front := Submitted(steps[..|steps| - 1]);
    if steps[|steps| - 1].Submit? then front + [steps[|steps| - 1].work] else front
  }

  // The specification, as if the works ran one at a time.

  function WorksOf(done: seq<(Work, Result)>): seq<Work> {
    seq(|done|, i requires 0 <= i < |done| => done[i].0)
  }

  /** The works up to and including the first settle. */
  function Reaching(works: seq<Work>): seq<Work> {
    if works == [] then []
    else if Settles(works[0]) then [works[0]]
    else [works[0]] + Reaching(works[1..])
  }

  function Calls(works: seq<Work>): seq<Call> {
    seq(|works|, i requires 0 <= i < |works| => CallOf(works[i]))
  }

  predicate AnySettles(works: seq<Work>) {
    exists i :: 0 <= i < |works| && Settles(works[i])
  }

  /** The works started so far: finished ones, then the running one. */
  function Begun(s: State): seq<Work> {
    WorksOf(s.done) + (if s.running.Some? then [s.running.value] else [])
  }

  lemma {:induction false} ReachingAppend(works: seq<Work>, w: Work)
    ensures Reaching(works + [w]) == if AnySettles(works) then Reaching(works) else Reaching(works) + [w]
    ensures !AnySettles(works) ==> Reaching(works) == works
  {
    if works == [] {
      assert works + [w] == [w] && [w][1..] == [];
    } else {
      assert (works + [w])[1..] == works[1..] + [w];
      ReachingAppend(works[1..], w);
      if Settles(works[0]) {
        assert AnySettles(works);
      } else {
        assert AnySettles(works) <==> AnySettles(works[1..]) by {
          if i :| 0 <= i < |works| && Settles(works[i]) {
            assert Settles(works[1..][i - 1]);
          }
          if i :| 0 <= i < |works[1..]| && Settles(works[1..][i]) {
            assert Settles(works[i + 1]);
          }
        }
      }
    }
  }

  lemma AnySettlesAppend(works: seq<Work>, w: Work)
    ensures AnySettles(works + [w]) <==> AnySettles(works) || Settles(w)
  {
    var more := works + [w];
    if AnySettles(works) {
      var i :| 0 <= i < |works| && Settles(works[i]);
      assert Settles(more[i]);
    }
    if Settles(w) {
      assert Settles(more[|works|]);
    }
  }

  /** A finished work was refused exactly when some work before it settled the transaction. */
  predicate RefusedRightly(s: State) {
    forall i :: 0 <= i < |s.done| ==> (s.done[i].1.Spent? <==> AnySettles(WorksOf(s.done[..i])))
  }

  predicate Orderly(s: State, submitted: seq<Work>) {
    && Begun(s) + s.waiting == submitted
    && (s.isLive <==> !AnySettles(Begun(s)))
    && s.calls == Calls(Reaching(Begun(s)))
    && RefusedRightly(s)
    && (s.running.Some? ==> !AnySettles(WorksOf(s.done)))
  }

  lemma TurnKeepsOrder(s: State, submitted: seq<Work>)
    requires Orderly(s, submitted)
    ensures Orderly(Advanced(s), submitted)
  {
    if s.running.None? && s.waiting != [] {
      if s.isLive {
        StartKeepsOrder(s, submitted);
      } else {
        RefusalKeepsOrder(s, submitted);
      }
    }
  }

  lemma StartKeepsOrder(s: State, submitted: seq<Work>)
    requires Orderly(s, submitted) && s.running.None? && s.waiting != [] && s.isLive
    ensures Orderly(Advanced(s), submitted)
  {
    var t, w := Advanced(s), s.waiting[0];
    StartBegins(s);
    AnySettlesAppend(Begun(s), w);
    StartCalls(Begun(s), w);
    DoneGrows(s, t);
  }

  lemma StartBegins(s: State)
    requires s.running.None? && s.waiting != [] && s.isLive
    ensures Begun(Advanced(s)) == Begun(s) + [s.waiting[0]] && Begun(s) == WorksOf(s.done)
    ensures Begun(Advanced(s)) + Advanced(s).waiting == Begun(s) + s.waiting
  {
    assert WorksOf(s.done) + [] == WorksOf(s.done);
    assert s.waiting == [s.waiting[0]] + s.waiting[1..];
  }

  lemma StartCalls(begun: seq<Work>, w: Work)
    requires !AnySettles(begun)
    ensures Calls(Reaching(begun + [w])) == Calls(Reaching(begun)) + [CallOf(w)]
  {
    ReachingAppend(begun, w);
  }

  lemma RefusalKeepsOrder(s: State, submitted: seq<Work>)
    requires Orderly(s, submitted) && s.running.None? && s.waiting != [] && !s.isLive
    ensures Orderly(Advanced(s), submitted)
  {
    var t, w := Advanced(s), s.waiting[0];
    RefusalBegins(s);
    ReachingAppend(Begun(s), w);
    AnySettlesAppend(Begun(s), w);
    DoneGrows(s, t);
  }

  lemma RefusalBegins(s: State)
    requires s.running.None? && s.waiting != [] && !s.isLive
    ensures Begun(Advanced(s)) == Begun(s) + [s.waiting[0]] && Begun(s) == WorksOf(s.done)
    ensures Begun(Advanced(s)) + Advanced(s).waiting == Begun(s) + s.waiting
  {
    assert WorksOf(s.done) + [] == WorksOf(s.done);
    assert s.waiting == [s.waiting[0]] + s.waiting[1..];
  }

  lemma DoneGrows(s: State, t: State)
    requires RefusedRightly(s)
    requires t.done == s.done || (|t.done| == |s.done| + 1 && t.done[..|s.done|] == s.done
                               && (t.done[|s.done|].1.Spent? <==> AnySettles(WorksOf(s.done))))
    ensures RefusedRightly(t)
  {
    forall i | 0 <= i < |t.done|
      ensures t.done[i].1.Spent? <==> AnySettles(WorksOf(t.done[..i]))
    {
      if i < |s.done| {
        assert t.done[..i] == s.done[..i];
        assert t.done[i] == s.done[i];
      } else {
        assert t.done[..i] == s.done;
      }
    }
  }

  lemma AnswerKeepsOrder(s: State, submitted: seq<Work>, reply: Reply)
    requires Orderly(s, submitted)
    ensures Orderly(Answered(s, reply), submitted)
  {
    if s.running.Some? {
      var t := Answered(s, reply);
      assert Begun(t) == Begun(s);
      assert !ReadReply(s.running.value, reply).Spent?;
      DoneGrows(s, t);
    }
  }

  lemma {:induction false} RunIsOrderly(steps: seq<Step>)
    ensures Orderly(DoAll(Initial(), steps), Submitted(steps))
  {
    if steps == [] {
      assert WorksOf([]) == [];
    } else {
      var front, last := steps[..|steps| - 1], steps[|steps| - 1];
      RunIsOrderly(front);
      var s := DoAll(Initial(), front);
      match last
      case Submit(w) =>
        assert Begun(Enqueued(s, w)) == Begun(s);
        assert Begun(s) + (s.waiting + [w]) == (Begun(s) + s.waiting) + [w];
      case Turn => TurnKeepsOrder(s, Submitted(front));
      case Answer(reply) => AnswerKeepsOrder(s, Submitted(front), reply);
    }
  }

  lemma {:induction false} ReachingPrefix(a: seq<Work>, b: seq<Work>)
    ensures Reaching(a) <= Reaching(a + b) <= a + b
  {
    if a == [] {
      ReachingIsPrefix(b);
      assert a + b == b;
    } else {
      assert (a + b)[1..] == a[1..] + b;
      ReachingPrefix(a[1..], b);
    }
  }

  lemma {:induction false} ReachingIsPrefix(works: seq<Work>)
    ensures Reaching(works) <= works
    ensures forall i :: 0 <= i < |Reaching(works)| - 1 ==> !Settles(Reaching(works)[i])
  {
    if works != [] {
      ReachingIsPrefix(works[1..]);
      assert works == [works[0]] + works[1..];
    }
  }

  /**
   * Over every interleaving: the handle is told operations in call order, none
   * after the first settle, and a work is refused exactly when one submitted
   * before it settles.
   */
  lemma HandleSeesCallOrder(steps: seq<Step>)
    ensures var s := DoAll(Initial(), steps);
            && s.calls <= Calls(Reaching(Submitted(steps)))
            && (forall i :: 0 <= i < |s.calls| - 1 ==> s.calls[i].Send?)
            && (forall i :: 0 <= i < |s.done| ==>
                  i < |Submitted(steps)| && s.done[i].0 == Submitted(steps)[i]
                  && (s.done[i].1.Spent? <==> AnySettles(Submitted(steps)[..i])))
  {
    RunIsOrderly(steps);
    var s := DoAll(Initial(), steps);
    var works := Submitted(steps);
    ReachingPrefix(Begun(s), s.waiting);
    ReachingIsPrefix(works);
    ReachingIsPrefix(Begun(s));
    forall i | 0 <= i < |s.done|
      ensures i < |works| && s.done[i].0 == works[i]
      ensures s.done[i].1.Spent? <==> AnySettles(works[..i])
    {
      assert works[i] == Begun(s)[i] == WorksOf(s.done)[i];
      assert WorksOf(s.done[..i]) == works[..i];
    }
  }

  // What becomes of the transaction.

  /** The server's side: open, applied, discarded, or its commit failed. */
  datatype Fate = Open | Applied | Discarded | Lost

  /** What a call does to an open transaction, given the answer to it if there is one yet. */
  function Received(fate: Fate, call: Call, reply: Option<Reply>): Fate {
    if !fate.Open? then fate else
    match call
    case Send(_) => Open
    case SendCancel => Discarded
    case SendCommit => if reply.None? then Open else if reply.value.Failed? then Lost else Applied
  }

  function FateOf(calls: seq<Call>, replies: seq<Reply>): Fate {
    if calls == [] then Open else
    var last := |calls| - 1;
    Received(FateOf(calls[..last], replies), calls[last], if last < |replies| then Some(replies[last]) else None)
  }

  /** The handle has answered all it was told but the running work, and each result is read off its answer. */
  predicate Answering(s: State) {
    && |s.replies| + (if s.running.Some? then 1 else 0) == |s.calls|
    && |s.replies| <= |s.done| && (s.running.Some? || s.isLive ==> |s.done| == |s.replies|)
    && forall i :: 0 <= i < |s.replies| ==> s.done[i].1 == ReadReply(s.done[i].0, s.replies[i])
  }

  lemma {:induction false} RunIsAnswering(steps: seq<Step>)
    ensures Answering(DoAll(Initial(), steps))
  {
    if steps != [] {
      var front, last := steps[..|steps| - 1], steps[|steps| - 1];
      RunIsAnswering(front);
    }
  }

  predicate FirstSettle(works: seq<Work>, k: nat) {
    k < |works| && Settles(works[k]) && forall i :: 0 <= i < k ==> !Settles(works[i])
  }

  lemma {:induction false} ReachingFirst(works: seq<Work>, k: nat)
    requires FirstSettle(works, k)
    ensures Reaching(works) == works[..k + 1]
  {
    if k > 0 {
      ReachingFirst(works[1..], k - 1);
      assert works[..k + 1] == [works[0]] + works[1..][..k];
    } else {
      assert works[..1] == [works[0]];
    }
  }

  lemma {:induction false} QueriesLeaveOpen(calls: seq<Call>, replies: seq<Reply>)
    requires forall i :: 0 <= i < |calls| ==> calls[i].Send?
    ensures FateOf(calls, replies) == Open
  {
    if calls != [] {
      QueriesLeaveOpen(calls[..|calls| - 1], replies);
    }
  }

  /** Until a settle is begun the transaction is open. */
  lemma OpenUntilSettled(steps: seq<Step>)
    requires !AnySettles(Begun(DoAll(Initial(), steps)))
    ensures FateOf(DoAll(Initial(), steps).calls, DoAll(Initial(), steps).replies) == Open
  {
    RunIsOrderly(steps);
    var s := DoAll(Initial(), steps);
    ReachingAppend(Begun(s), Commit);
    QueriesLeaveOpen(s.calls, s.replies);
  }

  /**
   * Over every interleaving the first settle begun decides: a commit applies the
   * transaction exactly when the handle answers it without failing, and its caller is
   * told so; a cancel discards it. Nothing after it reaches the handle.
   */
  lemma FirstSettleDecides(steps: seq<Step>, k: nat)
    requires FirstSettle(Begun(DoAll(Initial(), steps)), k)
    ensures var s := DoAll(Initial(), steps);
            var answered, failed := k < |s.replies|, k < |s.replies| && s.replies[k].Failed?;
            && k < |Submitted(steps)| && |s.calls| == k + 1
            && (answered <==> k < |s.done|)
            && (answered ==> s.done[k].0 == Submitted(steps)[k] && s.done[k].1 == if failed then Error else Settled)
            && FateOf(s.calls, s.replies) ==
                 match Submitted(steps)[k]
                 case Commit => if !answered then Open else if failed then Lost else Applied
                 case Cancel => Discarded
                 case Query(_, _, _) => Open
  {
    RunIsOrderly(steps);
    RunIsAnswering(steps);
    var s := DoAll(Initial(), steps);
    var works := Begun(s);
    ReachingFirst(works, k);
    assert works[k] == Submitted(steps)[k];
    assert forall i :: 0 <= i < k ==> s.calls[..k][i].Send?;
    QueriesLeaveOpen(s.calls[..k], s.replies);
    if k < |s.done| {
      assert s.done[k].0 == works[k];
      NoneBefore(works, k);
      assert WorksOf(s.done[..k]) == works[..k];
    }
  }

  lemma NoneBefore(works: seq<Work>, k: nat)
    requires FirstSettle(works, k)
    ensures !AnySettles(works[..k])
  {
  }

  lemma HasFirst(works: seq<Work>) returns (k: nat)
    requires AnySettles(works)
    ensures FirstSettle(works, k)
  {
    k := 0;
    while !Settles(works[k])
      invariant k < |works| && forall i :: 0 <= i < k ==> !Settles(works[i])
      invariant exists i :: k <= i < |works| && Settles(works[i])
      decreases |works| - k
    {
      k := k + 1;
    }
  }

  /** The transaction is applied exactly when some caller was told its commit succeeded. */
  lemma AppliedExactlyWhenTold(steps: seq<Step>)
    ensures var s := DoAll(Initial(), steps);
            FateOf(s.calls, s.replies) == Applied <==> exists i :: 0 <= i < |s.done| && s.done[i] == (Commit, Settled)
  {
    RunIsOrderly(steps);
    var s := DoAll(Initial(), steps);
    if AnySettles(Begun(s)) {
      var k := HasFirst(Begun(s));
      FirstSettleDecides(steps, k);
      HandleSeesCallOrder(steps);
      if i :| 0 <= i < |s.done| && s.done[i] == (Commit, Settled) {
        assert Submitted(steps)[i] == Commit;
        OnlyFirst(Submitted(steps), k, i);
      }
    } else {
      OpenUntilSettled(steps);
      forall i | 0 <= i < |s.done|
        ensures !s.done[i].0.Commit?
      {
        assert Begun(s)[i] == s.done[i].0;
      }
    }
  }

  /** A settling work none before it settles is the first. */
  lemma OnlyFirst(works: seq<Work>, k: nat, i: nat)
    requires k < |works| && Settles(works[k]) && i < |works|
    ensures i > k ==> AnySettles(works[..i])
  {
    if i > k {
      assert Settles(works[..i][k]);
    }
  }

  /** Once everything queued is done, a transaction someone asked to settle - `close` does - is not open. */
  lemma DrainedIsSettled(steps: seq<Step>)
    requires Remaining(DoAll(Initial(), steps)) == 0 && AnySettles(Submitted(steps))
    ensures FateOf(DoAll(Initial(), steps).calls, DoAll(Initial(), steps).replies) != Open
  {
    RunIsOrderly(steps);
    RunIsAnswering(steps);
    var s := DoAll(Initial(), steps);
    assert Begun(s) == Submitted(steps);
    var k := HasFirst(Begun(s));
    FirstSettleDecides(steps, k);
  }

  /** A query reaches the handle as its caller's statements in order, after the `USE DB` of its database. */
  lemma QueriesArriveWhole(steps: seq<Step>, i: nat)
    requires i < |DoAll(Initial(), steps).calls|
    ensures i < |Submitted(steps)|
    ensures Submitted(steps)[i].Query? ==>
              var Query(database, statements, _) := Submitted(steps)[i];
              DoAll(Initial(), steps).calls[i] == Send((if database.Some? then ["USE DB " + database.value] else []) + statements)
  {
    RunIsOrderly(steps);
    var s := DoAll(Initial(), steps);
    ReachingIsPrefix(Begun(s));
    assert Reaching(Begun(s))[i] == Begun(s)[i] == Submitted(steps)[i];
  }

  /** Work left: waiting works count twice, the running one once. */
  function Remaining(s: State): nat {
    2 * |s.waiting| + if s.running.Some? then 1 else 0
  }

  /** Until everything is done some turn is always possible, whatever was answered before. */
  lemma NeverStalls(s: State, reply: Reply)
    requires Remaining(s) > 0
    ensures Remaining(if s.running.Some? then Do(s, Answer(reply)) else Do(s, Turn)) < Remaining(s)
  {
  }

  /** The executor's fields, and one method for each segment of its chain. */
  class TransactionExecutor {
    var isLive: bool
    var running: Option<Work>
    var tail: seq<Work>
    ghost var done: seq<(Work, Result)>
    ghost var calls: seq<Call>
    ghost var replies: seq<Reply>

    ghost function View(): State
      reads this
    {
      State(isLive, running, tail, done, calls, replies)
    }

    constructor ()
      ensures View() == Initial()
    {
      isLive, running, tail, done, calls, replies := true, None, [], [], [], [];
    }

    method Enqueue(work: Work)
      modifies this
      ensures View() == Enqueued(old(View()), work)
    {
      tail := tail + [work];
    }

    /** Starts the next work when nothing is running; a spent handle is never dialled. */
    method StartNext() returns (call: Option<Call>)
      modifies this
      ensures View() == Advanced(old(View()))
      ensures call.Some? <==> old(running).None? && old(tail) != [] && old(isLive)
      ensures call.Some? ==> calls == old(calls) + [call.value]
    {
      if running.Some? || tail == [] {
        return None;
      }
      var work := tail[0];
      tail := tail[1..];
      if !isLive {
        done := done + [(work, Spent)];
        return None;
      }
      if Settles(work) {
        isLive := false;
      }
      running := Some(work);
      call := Some(CallOf(work));
      calls := calls + [call.value];
    }

    method Finish(reply: Reply) returns (result: Option<Result>)
      modifies this
      ensures View() == Answered(old(View()), reply)
      ensures result.Some? <==> old(running).Some?
      ensures result.Some? ==> done == old(done) + [(old(running).value, result.value)]
    {
      if running.None? {
        return None;
      }
      var answer := ReadReply(running.value, reply);
      result := Some(answer);
      done := done + [(running.value, answer)];
      replies := replies + [reply];
      running := None;
    }

    /** `close`: discards the transaction unless it is already settled. */
    method Close()
      modifies this
      ensures View() == if old(isLive) then Enqueued(old(View()), Cancel) else old(View())
    {
      if isLive {
        Enqueue(Cancel);
      }
    }
  }
}
