/**
 * Row iterators, stacked to any depth, and the list each of them stands for.
 *
 * An iterator is the record of its closure's variables; `next` and `return` take
 * the record to its successor. `Meaning` is what is still to come: the rows a
 * reader would be given, and how the reading ends.
 */
module RowStreams {
  import opened Values

  type Error = string

  /** A frame of a streamed reply: a row of some statement, a failure, or neither. */
  datatype Frame = ValueFrame(query: nat, value: Value) | ErrorFrame(error: Error) | OtherFrame(query: nat)

  datatype Step = Done | Row(value: Value) | Fails(error: Error)

  datatype End = Finished | FailedWith(error: Error)

  /** How a stream the server turns away before running it is read instead. */
  datatype Fallback = Fallback(when: Error -> bool, rows: Iter)

  datatype Iter =
    | Stream(frames: seq<Frame>, statement: nat, fallback: Option<Fallback>, delivered: bool, finished: bool, fellBack: Option<Iter>)
    | Buffered(load: Result<seq<Value>, Error>, rows: Option<seq<Value>>, index: nat, finished: bool)
    | Deferred(open: Result<Iter, Error>, source: Option<Iter>, finished: bool)
    | Mapped(inner: Iter, transform: Value -> Value)
    | OrNone(inner: Iter, isEmpty: Error -> bool, finished: bool)

  datatype Rest = Rest(rows: seq<Value>, end: End)

  const NOTHING: Rest := Rest([], Finished)

  /** The rows of `statement` up to the first failure of any statement, and that failure. */
  function FrameRows(frames: seq<Frame>, statement: nat): Rest {
    if frames == [] then NOTHING
    else match frames[0]
      case ErrorFrame(e) => Rest([], FailedWith(e))
      case ValueFrame(query, value) =>
        var rest := FrameRows(frames[1..], statement);
        if query == statement then rest.(rows := [value] + rest.rows) else rest
      case OtherFrame(_) => FrameRows(frames[1..], statement)
  }

  function MapAll(f: Value -> Value, rows: seq<Value>): seq<Value> {
    seq(|rows|, i requires 0 <= i < |rows| => f(rows[i]))
  }

  /** What an iterator still has to give. */
  function Meaning(it: Iter): Rest
    decreases it
  {
    match it
    case Stream(frames, statement, fallback, delivered, finished, fellBack) =>
      if finished then NOTHING
      else if fellBack.Some? then Meaning(fellBack.value)
      else
        var rest := FrameRows(frames, statement);
        if !delivered && rest.rows == [] && rest.end.FailedWith? && fallback.Some? && fallback.value.when(rest.end.error)
        then Meaning(fallback.value.rows)
        else rest
    case Buffered(load, rows, index, finished) =>
      if finished then NOTHING
      else if rows.Some? then Rest(if index <= |rows.value| then rows.value[index..] else [], Finished)
      else (match load
            case Success(all) => Rest(if index <= |all| then all[index..] else [], Finished)
            case Failure(e) => Rest([], FailedWith(e)))
    case Deferred(open, source, finished) =>
      if finished then NOTHING
      else if source.Some? then Meaning(source.value)
      else (match open
            case Success(inner) => Meaning(inner)
            case Failure(e) => Rest([], FailedWith(e)))
    case Mapped(inner, transform) =>
      var rest := Meaning(inner);
      rest.(rows := MapAll(transform, rest.rows))
    case OrNone(inner, isEmpty, finished) =>
      if finished then NOTHING else
      var rest := Meaning(inner);
      if rest.end.FailedWith? && isEmpty(rest.end.error) then rest.(end := Finished) else rest
  }

  /** One read takes the first row, or reports the end. */
  predicate Reads(before: Rest, step: Step, after: Rest) {
    if before.rows != [] then step == Row(before.rows[0]) && after == Rest(before.rows[1..], before.end)
    else after == NOTHING && step == match before.end case Finished => Done case FailedWith(e) => Fails(e)
  }

  /** The next row of `statement`; a failure of any statement is reported. */
  method NextRow(frames: seq<Frame>, statement: nat) returns (step: Step, rest: seq<Frame>)
    ensures |rest| <= |frames|
    ensures Reads(FrameRows(frames, statement), step, if step.Row? then FrameRows(rest, statement) else NOTHING)
  {
    rest := frames;
    while rest != []
      invariant |rest| <= |frames|
      invariant FrameRows(rest, statement) == FrameRows(frames, statement)
    {
      var frame := rest[0];
      var tail := rest[1..];
      match frame
      case ErrorFrame(e) =>
        return Fails(e), tail;
      case ValueFrame(query, value) =>
        if query == statement {
          assert FrameRows(rest, statement).rows[1..] == FrameRows(tail, statement).rows;
          return Row(value), tail;
        }
        rest := tail;
      case OtherFrame(_) =>
        rest := tail;
    }
    step := Done;
  }

  /** `next` of any stack of iterators delivers exactly what the stack stands for. */
  method Next(it: Iter) returns (after: Iter, step: Step)
    ensures Reads(Meaning(it), step, Meaning(after))
    decreases it
  {
    match it
    case Stream(_, _, _, _, _, _) =>
      after, step := NextOfStream(it);
    case Buffered(load, rows, index, finished) =>
      if finished {
        return it, Done;
      }
      var all := rows;
      if all.None? {
        if load.Failure? {
          return Buffered(load, rows, index, true), Fails(load.error);
        }
        all := Some(load.value);
      }
      if index >= |all.value| {
        return Buffered(load, all, index, true), Done;
      }
      after, step := Buffered(load, all, index + 1, false), Row(all.value[index]);
    case Deferred(open, source, finished) =>
      if finished {
        return it, Done;
      }
      var current := source;
      if current.None? {
        if open.Failure? {
          return Deferred(open, source, true), Fails(open.error);
        }
        current := Some(open.value);
      }
      var inner;
      inner, step := Next(current.value);
      after := Deferred(open, Some(inner), !step.Row?);
    case Mapped(inner, transform) =>
      var next;
      next, step := Next(inner);
      after := Mapped(next, transform);
      if step.Row? {
        step := Row(transform(step.value));
      }
    case OrNone(inner, isEmpty, finished) =>
      if finished {
        return it, Done;
      }
      var next;
      next, step := Next(inner);
      after := OrNone(next, isEmpty, !step.Row?);
      if step.Fails? && isEmpty(step.error) {
        step := Done;
      }
  }

  /** The stream's first answer would be a failure its fallback stands in for. */
  predicate TurnedAway(frames: seq<Frame>, statement: nat, fallback: Option<Fallback>) {
    var rest := FrameRows(frames, statement);
    rest.rows == [] && rest.end.FailedWith? && fallback.Some? && fallback.value.when(rest.end.error)
  }

  method NextOfStream(it: Iter) returns (after: Iter, step: Step)
    requires it.Stream?
    ensures Reads(Meaning(it), step, Meaning(after))
    ensures after.Stream? && after.statement == it.statement && after.fallback == it.fallback
    ensures after.fellBack.Some? <==>
            it.fellBack.Some? || (!it.finished && !it.delivered && TurnedAway(it.frames, it.statement, it.fallback))
    ensures after.fellBack.None? ==> if step.Row? then after.delivered else after.finished
    decreases it, 0
  {
    match it
    case Stream(frames, statement, fallback, delivered, finished, fellBack) =>
      if finished {
        return it, Done;
      }
      if fellBack.Some? {
        var inner;
        inner, step := Next(fellBack.value);
        return Stream(frames, statement, fallback, delivered, false, Some(inner)), step;
      }
      var rest;
      step, rest := NextRow(frames, statement);
      match step
      case Done => after := Stream(rest, statement, fallback, delivered, true, None);
      case Row(_) => after := Stream(rest, statement, fallback, true, false, None);
      case Fails(e) =>
        if !delivered && fallback.Some? && fallback.value.when(e) {
          var inner;
          inner, step := Next(fallback.value.rows);
          after := Stream(rest, statement, fallback, false, false, Some(inner));
        } else {
          after := Stream(rest, statement, fallback, delivered, true, None);
        }
  }

  /** `return`: whatever was left is abandoned, at every level of the stack. */
  method Return(it: Iter) returns (after: Iter)
    ensures Meaning(after) == NOTHING
    decreases it
  {
    match it
    case Stream(frames, statement, fallback, delivered, _, fellBack) =>
      var inner := None;
      if fellBack.Some? {
        var left := Return(fellBack.value);
        inner := Some(left);
      }
      after := Stream(frames, statement, fallback, delivered, true, inner);
    case Buffered(load, rows, index, _) => after := Buffered(load, rows, index, true);
    case Deferred(open, source, _) =>
      var inner := None;
      if source.Some? {
        var left := Return(source.value);
        inner := Some(left);
      }
      after := Deferred(open, inner, true);
    case Mapped(inner, transform) =>
      var next := Return(inner);
      after := Mapped(next, transform);
    case OrNone(inner, isEmpty, _) =>
      var next := Return(inner);
      after := OrNone(next, isEmpty, true);
  }

  // Streamed and buffered reading compared.

  predicate NoErrors(frames: seq<Frame>) {
    forall i :: 0 <= i < |frames| ==> !frames[i].ErrorFrame?
  }

  /** The rows of one statement among the frames of all of them. */
  function RowsOf(frames: seq<Frame>, statement: nat): seq<Value> {
    if frames == [] then []
    else (if frames[0].ValueFrame? && frames[0].query == statement then [frames[0].value] else []) + RowsOf(frames[1..], statement)
  }

  lemma {:induction false} FrameRowsWithoutErrors(frames: seq<Frame>, statement: nat)
    requires NoErrors(frames)
    ensures FrameRows(frames, statement) == Rest(RowsOf(frames, statement), Finished)
  {
    if frames != [] {
      FrameRowsWithoutErrors(frames[1..], statement);
    }
  }

  lemma RowsOfOne(frame: Frame, statement: nat)
    ensures RowsOf([frame], statement) == if frame.ValueFrame? && frame.query == statement then [frame.value] else []
  {
    assert [frame][1..] == [];
  }

  /** Frames before others give their rows first. */
  lemma {:induction false} RowsOfAppend(a: seq<Frame>, b: seq<Frame>, statement: nat)
    ensures RowsOf(a + b, statement) == RowsOf(a, statement) + RowsOf(b, statement)
  {
    if a == [] {
      assert a + b == b;
    } else {
      assert (a + b)[1..] == a[1..] + b;
      RowsOfAppend(a[1..], b, statement);
    }
  }

  /** The frame at `k` is the first failure. */
  predicate FailsAt(frames: seq<Frame>, k: nat, e: Error) {
    k < |frames| && frames[k] == ErrorFrame(e) && NoErrors(frames[..k])
  }

  lemma NoErrorsAfter(frames: seq<Frame>)
    requires frames != [] && NoErrors(frames)
    ensures NoErrors(frames[1..])
  {
  }

  /** The first failure, whatever statement it belongs to, ends the rows; those before it are given. */
  lemma {:induction false} FirstErrorEnds(frames: seq<Frame>, statement: nat, k: nat, e: Error)
    requires FailsAt(frames, k, e)
    ensures FrameRows(frames, statement) == Rest(RowsOf(frames[..k], statement), FailedWith(e))
  {
    if k > 0 {
      assert frames[..k][0] == frames[0] && frames[..k][1..] == frames[1..][..k - 1];
      NoErrorsAfter(frames[..k]);
      FirstErrorEnds(frames[1..], statement, k - 1, e);
    }
  }

  lemma MapAllAt(f: Value -> Value, rows: seq<Value>)
    ensures |MapAll(f, rows)| == |rows| && forall i :: 0 <= i < |rows| ==> MapAll(f, rows)[i] == f(rows[i])
  {
  }

  /** The stack a streamed read builds: deferred, mapped, a missing table read as empty. */
  function StreamedStack(frames: seq<Frame>, statement: nat, fallback: Option<Fallback>, missing: Error -> bool, decode: Value -> Value): Iter {
    Deferred(Success(Mapped(OrNone(Stream(frames, statement, fallback, false, false, None), missing, false), decode)), None, false)
  }

  /** The stack a buffered read builds over the same rows. */
  function BufferedStack(rows: Result<seq<Value>, Error>, missing: Error -> bool, decode: Value -> Value): Iter {
    Deferred(Success(Mapped(OrNone(Buffered(rows, None, 0, false), missing, false), decode)), None, false)
  }

  /** Without failures a streamed read and a buffered one stand for the same list. */
  lemma StreamedEqualsBuffered(frames: seq<Frame>, statement: nat, fallback: Option<Fallback>, missing: Error -> bool, decode: Value -> Value)
    requires NoErrors(frames)
    ensures Meaning(StreamedStack(frames, statement, fallback, missing, decode))
         == Meaning(BufferedStack(Success(RowsOf(frames, statement)), missing, decode))
         == Rest(MapAll(decode, RowsOf(frames, statement)), Finished)
  {
    FrameRowsWithoutErrors(frames, statement);
    var rows := RowsOf(frames, statement);
    assert rows[0..] == rows;
    var stream := Stream(frames, statement, fallback, false, false, None);
    var buffered := Buffered(Success(rows), None, 0, false);
    assert Meaning(stream) == Rest(rows, Finished) == Meaning(buffered);
    assert Meaning(OrNone(stream, missing, false)) == Rest(rows, Finished);
    assert Meaning(OrNone(buffered, missing, false)) == Rest(rows, Finished);
    assert Meaning(Mapped(OrNone(stream, missing, false), decode)) == Rest(MapAll(decode, rows), Finished);
    assert Meaning(Mapped(OrNone(buffered, missing, false), decode)) == Rest(MapAll(decode, rows), Finished);
  }

  /**
   * Reading a stream that fails: the decoded rows before the failure, then the failure,
   * unless it only says the table is missing. One turned away before any row is read
   * through its fallback instead.
   */
  lemma StreamedFailure(frames: seq<Frame>, statement: nat, fallback: Option<Fallback>, missing: Error -> bool, decode: Value -> Value, k: nat, e: Error)
    requires FailsAt(frames, k, e)
    ensures var rows := RowsOf(frames[..k], statement);
            var source := if rows == [] && fallback.Some? && fallback.value.when(e) then Meaning(fallback.value.rows) else Rest(rows, FailedWith(e));
            Meaning(StreamedStack(frames, statement, fallback, missing, decode)) == Decoded(source, missing, decode)
  {
    FirstErrorEnds(frames, statement, k, e);
    var stream := Stream(frames, statement, fallback, false, false, None);
    assert Meaning(OrNone(stream, missing, false)).rows == Meaning(stream).rows;
    assert Meaning(Mapped(OrNone(stream, missing, false), decode)) == Decoded(Meaning(stream), missing, decode);
  }

  /** What a reader is given of `source`: each row decoded, and no failure where the table is missing. */
  function Decoded(source: Rest, missing: Error -> bool, decode: Value -> Value): Rest {
    Rest(MapAll(decode, source.rows),
         match source.end
         case Finished => Finished
         case FailedWith(e) => if missing(e) then Finished else FailedWith(e))
  }

  /** A buffered read that fails gives no row, and no failure where the table is missing. */
  lemma BufferedFailure(e: Error, missing: Error -> bool, decode: Value -> Value)
    ensures Meaning(BufferedStack(Failure(e), missing, decode)) == Rest([], if missing(e) then Finished else FailedWith(e))
  {
    var buffered := Buffered(Failure(e), None, 0, false);
    assert Meaning(OrNone(buffered, missing, false)).rows == [];
    assert MapAll(decode, []) == [];
  }

  /** The `i`-th answer of a reader that keeps asking. */
  function Answer(rest: Rest, i: nat): Step {
    if i < |rest.rows| then Row(rest.rows[i])
    else if i == |rest.rows| && rest.end.FailedWith? then Fails(rest.end.error)
    else Done
  }

  /** What is left after `i` answers. */
  function Left(rest: Rest, i: nat): Rest {
    if i <= |rest.rows| then Rest(rest.rows[i..], rest.end) else NOTHING
  }

  lemma LeftStep(rest: Rest, i: nat, step: Step, after: Rest)
    requires Reads(Left(rest, i), step, after)
    ensures step == Answer(rest, i) && after == Left(rest, i + 1)
  {
  }

  /**
   * However often a fresh stream is read, all the answers come from one source: the
   * fallback where the server turned the query away before any row, and otherwise the
   * stream alone. Once it has given a row, or ended, the fallback is never opened.
   */
  method ReadFromStart(frames: seq<Frame>, statement: nat, fallback: Option<Fallback>, count: nat) returns (steps: seq<Step>, it: Iter)
    ensures |steps| == count
    ensures var source := if TurnedAway(frames, statement, fallback) then Meaning(fallback.value.rows) else FrameRows(frames, statement);
            forall i :: 0 <= i < count ==> steps[i] == Answer(source, i)
    ensures it.Stream? && (it.fellBack.Some? <==> count > 0 && TurnedAway(frames, statement, fallback))
  {
    ghost var away := TurnedAway(frames, statement, fallback);
    ghost var source := if away then Meaning(fallback.value.rows) else FrameRows(frames, statement);
    it := Stream(frames, statement, fallback, false, false, None);
    steps := [];
    while |steps| < count
      invariant |steps| <= count
      invariant forall i :: 0 <= i < |steps| ==> steps[i] == Answer(source, i)
      invariant it.Stream? && it.statement == statement && it.fallback == fallback
      invariant Meaning(it) == Left(source, |steps|)
      invariant it.fellBack.Some? <==> |steps| > 0 && away
      invariant |steps| == 0 ==> it.frames == frames && !it.delivered && !it.finished
      invariant |steps| > 0 && !away ==> it.delivered || it.finished
    {
      var after, step := NextOfStream(it);
      LeftStep(source, |steps|, step, Meaning(after));
      it, steps := after, steps + [step];
    }
  }

  /** The end state of reading everything: no iterator gives a row after its end. */
  method Drain(it: Iter) returns (rows: seq<Value>, after: Iter, last: Step)
    ensures rows == Meaning(it).rows
    ensures last == match Meaning(it).end case Finished => Done case FailedWith(e) => Fails(e)
    ensures Meaning(after) == NOTHING
  {
    rows, after := [], it;
    after, last := Next(it);
    while last.Row?
      invariant last.Row? ==> rows + [last.value] + Meaning(after).rows == Meaning(it).rows && Meaning(after).end == Meaning(it).end
      invariant !last.Row? ==> rows == Meaning(it).rows && Meaning(after) == NOTHING
      invariant !last.Row? ==> last == match Meaning(it).end case Finished => Done case FailedWith(e) => Fails(e)
      decreases if last.Row? then 1 + |Meaning(after).rows| else 0
    {
      rows := rows + [last.value];
      after, last := Next(after);
    }
  }
}
