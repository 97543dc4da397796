/**
 * Where the documents of a cursor come from: a result read whole, or a stream of
 * rows with one row read ahead.
 */
module CursorRows {
  import opened Values
  import opened RowStreams

  function From(rows: seq<Value>, index: nat): seq<Value> {
    if index <= |rows| then rows[index..] else []
  }

  class CursorRows {
    const load: Result<seq<Value>, Error>
    const open: Option<Iter>
    var results: Option<seq<Value>>
    var index: nat
    var stream: Option<Iter>
    var peeked: Option<Step>

    ghost predicate Valid()
      reads this
    {
      && !(results.Some? && stream.Some?)
      && (peeked.Some? ==> stream.Some? && !peeked.value.Fails?)
      && (peeked == Some(Done) ==> Meaning(stream.value) == NOTHING)
    }

    /** The documents not handed out yet, and how reading them ends. */
    ghost function Unread(): Rest
      reads this
      requires Valid()
    {
      if results.Some? then Rest(From(results.value, index), Finished)
      else if stream.None? then NOTHING
      else if peeked.None? then Meaning(stream.value)
      else if peeked.value.Done? then NOTHING
      else Meaning(stream.value).(rows := [peeked.value.value] + Meaning(stream.value).rows)
    }

    predicate Started()
      reads this
    {
      results.Some? || stream.Some?
    }

    /** What a cursor just begun stands for. */
    ghost function Whole(): Rest {
      if open.Some? then Meaning(open.value)
      else match load
        case Success(rows) => Rest(rows, Finished)
        case Failure(e) => Rest([], FailedWith(e))
    }

    constructor (load: Result<seq<Value>, Error>, open: Option<Iter>)
      ensures Valid() && !Started() && this.load == load && this.open == open
    {
      this.load := load;
      this.open := open;
      results, index, stream, peeked := None, 0, None, None;
    }

    /** Opens a stream where one is to be had, and else takes the whole result. */
    method Begin() returns (failure: Option<Error>)
      requires Valid()
      modifies this
      ensures Valid() && index == old(index)
      ensures old(Started()) ==> failure.None? && Unread() == old(Unread())
      ensures !old(Started()) && failure.None? ==> Started() && (index == 0 || open.Some? ==> Unread() == Whole())
      ensures failure.Some? ==> !Started() && Whole() == Rest([], FailedWith(failure.value))
    {
      if results.Some? || stream.Some? {
        return None;
      }
      if open.Some? {
        stream := open;
        peeked := None;
        return None;
      }
      if load.Failure? {
        return Some(load.error);
      }
      results := Some(load.value);
      failure := None;
    }

    /** The next document, or the end. */
    method NextDocument() returns (step: Step)
      requires Valid()
      modifies this
      ensures Valid() && Reads(old(Unread()), step, Unread())
      ensures stream.Some? == old(stream).Some? && results == old(results)
    {
      if results.Some? {
        if index < |results.value| {
          step := Row(results.value[index]);
          index := index + 1;
        } else {
          step := Done;
        }
        return;
      }
      if peeked.Some? {
        step := peeked.value;
        peeked := None;
        if step.Row? {
          assert old(Unread()).rows[1..] == Meaning(stream.value).rows;
        }
        return;
      }
      if stream.None? {
        return Done;
      }
      var next;
      next, step := Next(stream.value);
      stream := Some(next);
    }

    /** Whether there is a next document: reads one ahead, and loses none. */
    method HasNext() returns (more: bool, failure: Option<Error>)
      requires Valid()
      modifies this
      ensures Valid() && stream.Some? == old(stream).Some? && results == old(results)
      ensures failure.Some? <==> old(Unread()).rows == [] && old(Unread()).end.FailedWith?
      ensures failure.None? ==> (more <==> old(Unread()).rows != []) && Unread() == old(Unread())
      ensures failure.Some? ==> old(Unread()) == Rest([], FailedWith(failure.value)) && Unread() == NOTHING
    {
      if results.Some? {
        return index < |results.value|, None;
      }
      if stream.None? {
        return false, None;
      }
      if peeked.None? {
        var next, step := Next(stream.value);
        stream := Some(next);
        if step.Fails? {
          return false, Some(step.error);
        }
        peeked := Some(step);
        if step.Row? {
          assert [step.value] + old(Unread()).rows[1..] == old(Unread()).rows;
        }
      }
      more, failure := peeked.value.Row?, None;
    }

    /**
     * Every document: of a cursor being streamed exactly the unread ones; of one
     * read whole the whole result, whatever part of it was handed out already.
     */
    method ToArray() returns (rows: seq<Value>, failure: Option<Error>)
      requires Valid()
      modifies this
      ensures Valid()
      ensures old(stream).Some? ==> rows == old(Unread()).rows && Unread() == NOTHING
      ensures old(stream).Some? ==> failure == match old(Unread()).end case Finished => None case FailedWith(e) => Some(e)
      ensures old(stream).None? && old(results).Some? ==> failure.None? && rows == old(results).value
      ensures old(stream).None? && old(results).Some? ==> (rows == old(Unread()).rows <==> old(index) == 0 || rows == [])
      ensures old(stream).None? && old(results).None? ==>
                match load
                case Success(all) => failure.None? && rows == all
                case Failure(e) => failure == Some(e)
    {
      if stream.Some? {
        rows := [];
        var step := NextDocument();
        while step.Row?
          invariant Valid() && stream.Some?
          invariant step.Row? ==> rows + [step.value] + Unread().rows == old(Unread()).rows && Unread().end == old(Unread()).end
          invariant !step.Row? ==> rows == old(Unread()).rows && Unread() == NOTHING
          invariant !step.Row? ==> step == match old(Unread()).end case Finished => Done case FailedWith(e) => Fails(e)
          decreases if step.Row? then 1 + |Unread().rows| else 0
        {
          rows := rows + [step.value];
          step := NextDocument();
        }
        failure := if step.Fails? then Some(step.error) else None;
        return;
      }
      if results.None? {
        if load.Failure? {
          return [], Some(load.error);
        }
        results := Some(load.value);
      }
      rows, failure := results.value, None;
      assert index <= |rows| ==> |From(rows, index)| == |rows| - index;
    }

    /** Stop reading, and forget everything read. */
    method Release()
      requires Valid()
      modifies this
      ensures Valid() && !Started() && Unread() == NOTHING && index == old(index)
    {
      var held := stream;
      stream, results, peeked := None, None, None;
      if held.Some? {
        var _ := Return(held.value);
      }
    }

    /** Forgets everything read, so that reading starts over. */
    method Reset()
      requires Valid()
      modifies this
      ensures Valid() && !Started() && index == 0
    {
      Release();
      index := 0;
    }

    /**
     * Any sequence of `next` and `hasNext` calls hands out the documents in order:
     * what came out, followed by what is left, is what there was.
     */
    method ReadBy(calls: seq<bool>) returns (rows: seq<Value>)
      requires Valid()
      modifies this
      ensures Valid()
      ensures rows <= old(Unread()).rows
      ensures rows + Unread().rows == old(Unread()).rows
      ensures Unread().end == old(Unread()).end || (Unread() == NOTHING && rows == old(Unread()).rows)
    {
      rows := [];
      for i := 0 to |calls|
        invariant Valid()
        invariant rows + Unread().rows == old(Unread()).rows
        invariant Unread().end == old(Unread()).end || Unread() == NOTHING
      {
        if calls[i] {
          ghost var unread := Unread().rows;
          var step := NextDocument();
          if step.Row? {
            assert unread == [step.value] + Unread().rows;
            assert rows + ([step.value] + Unread().rows) == (rows + [step.value]) + Unread().rows;
            rows := rows + [step.value];
          }
        } else {
          var _, _ := HasNext();
        }
      }
    }
  }

  /** Two cursors that stand for the same list hand out the same documents, streamed or not. */
  method SameDocuments(streamed: CursorRows, buffered: CursorRows, calls: seq<bool>) returns (a: seq<Value>, b: seq<Value>)
    requires streamed != buffered && streamed.Valid() && buffered.Valid()
    requires streamed.Unread() == buffered.Unread()
    modifies streamed, buffered
    ensures a == b
  {
    a, b := [], [];
    for i := 0 to |calls|
      invariant streamed.Valid() && buffered.Valid()
      invariant streamed.Unread() == buffered.Unread() && a == b
    {
      if calls[i] {
        var s := streamed.NextDocument();
        var t := buffered.NextDocument();
        if s.Row? {
          a := a + [s.value];
        }
        if t.Row? {
          b := b + [t.value];
        }
      } else {
        var _, _ := streamed.HasNext();
        var _, _ := buffered.HasNext();
      }
    }
  }
}
