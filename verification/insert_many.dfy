/**
 * `insertMany`: an atomic attempt at the whole batch, and a per-document re-issue
 * when that fails, against MongoDB's ordered and unordered semantics.
 */
module InsertMany {
  type Id = string

  datatype Doc = Doc(id: Id, body: string)

  type Table = map<Id, string>

  /** Why a collection may refuse a document besides a duplicate `_id`: any rule over the table. */
  type Rule = (Table, Doc) -> bool

  // MongoDB's semantics.

  predicate Refused(rule: Rule, table: Table, doc: Doc) {
    doc.id in table || rule(table, doc)
  }

  function Inserted(table: Table, doc: Doc): Table {
    table[doc.id := doc.body]
  }

  /** Can every document be inserted, one after another? */
  predicate Insertable(rule: Rule, table: Table, docs: seq<Doc>)
    decreases docs
  {
    docs == [] || (!Refused(rule, table, docs[0]) && Insertable(rule, Inserted(table, docs[0]), docs[1..]))
  }

  function InsertedAll(table: Table, docs: seq<Doc>): Table
    decreases docs
  {
    if docs == [] then table else InsertedAll(Inserted(table, docs[0]), docs[1..])
  }

  /** `ordered: true`: how many documents land before the first refusal. */
  function OrderedCount(rule: Rule, table: Table, docs: seq<Doc>): (k: nat)
    ensures k <= |docs|
    decreases docs
  {
    if docs == [] || Refused(rule, table, docs[0]) then 0
    else 1 + OrderedCount(rule, Inserted(table, docs[0]), docs[1..])
  }

  /** `ordered: false`: which documents land, each tried against what is there by then. */
  function GreedyFlags(rule: Rule, table: Table, docs: seq<Doc>): (flags: seq<bool>)
    ensures |flags| == |docs|
    decreases docs
  {
    if docs == [] then [] else
    var landed := !Refused(rule, table, docs[0]);
    [landed] + GreedyFlags(rule, if landed then Inserted(table, docs[0]) else table, docs[1..])
  }

  function GreedyTable(rule: Rule, table: Table, docs: seq<Doc>): Table
    decreases docs
  {
    if docs == [] then table
    else GreedyTable(rule, if Refused(rule, table, docs[0]) then table else Inserted(table, docs[0]), docs[1..])
  }

  /** The ordered count is the longest prefix that can be inserted. */
  lemma {:induction false} OrderedCountIsLongest(rule: Rule, table: Table, docs: seq<Doc>, n: nat)
    requires n <= |docs|
    ensures Insertable(rule, table, docs[..n]) <==> n <= OrderedCount(rule, table, docs)
    decreases docs
  {
    if n > 0 && !Refused(rule, table, docs[0]) {
      OrderedCountIsLongest(rule, Inserted(table, docs[0]), docs[1..], n - 1);
      assert docs[..n][1..] == docs[1..][..n - 1];
    }
  }

  /** A document landed exactly when the table as it stood at its turn did not refuse it. */
  lemma {:induction false} GreedyFlagAt(rule: Rule, table: Table, docs: seq<Doc>, i: nat)
    requires i < |docs|
    ensures GreedyFlags(rule, table, docs)[i] <==> !Refused(rule, GreedyTable(rule, table, docs[..i]), docs[i])
    decreases docs
  {
    var next := if Refused(rule, table, docs[0]) then table else Inserted(table, docs[0]);
    if i > 0 {
      GreedyFlagAt(rule, next, docs[1..], i - 1);
      assert docs[..i][1..] == docs[1..][..i - 1];
      assert docs[..i][0] == docs[0];
    }
  }

  lemma {:induction false} AppendInserted(table: Table, docs: seq<Doc>, doc: Doc)
    ensures InsertedAll(table, docs + [doc]) == Inserted(InsertedAll(table, docs), doc)
    decreases docs
  {
    if docs == [] {
      assert docs + [doc] == [doc] && [doc][1..] == [];
    } else {
      assert (docs + [doc])[1..] == docs[1..] + [doc];
      AppendInserted(Inserted(table, docs[0]), docs[1..], doc);
    }
  }

  lemma {:induction false} AppendInsertable(rule: Rule, table: Table, docs: seq<Doc>, doc: Doc)
    ensures Insertable(rule, table, docs + [doc])
       <==> Insertable(rule, table, docs) && !Refused(rule, InsertedAll(table, docs), doc)
    decreases docs
  {
    if docs == [] {
      assert docs + [doc] == [doc] && [doc][1..] == [];
    } else {
      assert (docs + [doc])[1..] == docs[1..] + [doc];
      AppendInsertable(rule, Inserted(table, docs[0]), docs[1..], doc);
    }
  }

  lemma {:induction false} AppendGreedy(rule: Rule, table: Table, docs: seq<Doc>, doc: Doc)
    ensures var before := GreedyTable(rule, table, docs);
            && GreedyTable(rule, table, docs + [doc]) == (if Refused(rule, before, doc) then before else Inserted(before, doc))
            && GreedyFlags(rule, table, docs + [doc]) == GreedyFlags(rule, table, docs) + [!Refused(rule, before, doc)]
    decreases docs
  {
    if docs == [] {
      assert docs + [doc] == [doc] && [doc][1..] == [];
    } else {
      assert (docs + [doc])[1..] == docs[1..] + [doc];
      AppendGreedy(rule, if Refused(rule, table, docs[0]) then table else Inserted(table, docs[0]), docs[1..], doc);
    }
  }

  lemma {:induction false} InsertablePrefix(rule: Rule, table: Table, docs: seq<Doc>, i: nat)
    requires i <= |docs| && Insertable(rule, table, docs)
    ensures Insertable(rule, table, docs[..i])
    decreases docs
  {
    if i > 0 {
      InsertablePrefix(rule, Inserted(table, docs[0]), docs[1..], i - 1);
      assert docs[..i][1..] == docs[1..][..i - 1];
    }
  }

  // The server.

  /** What becomes of a statement: answered, never applied, or applied without its answer arriving. */
  datatype Fate = Answered | NeverApplied | ReplyLost

  /** One collection on the server. */
  class Collection {
    var table: Table
    const rule: Rule

    constructor (table: Table, rule: Rule)
      ensures this.table == table && this.rule == rule
    {
      this.table := table;
      this.rule := rule;
    }

    /** `INSERT INTO t $docs`: one statement, so one refusal rolls all of it back. */
    method InsertBatch(docs: seq<Doc>, fate: Fate) returns (ok: bool)
      modifies this
      ensures ok <==> Insertable(rule, old(table), docs) && fate.Answered?
      ensures table == if Insertable(rule, old(table), docs) && !fate.NeverApplied? then InsertedAll(old(table), docs) else old(table)
    {
      var work := table;
      for i := 0 to |docs|
        invariant Insertable(rule, old(table), docs[..i])
        invariant work == InsertedAll(old(table), docs[..i])
        invariant table == old(table)
      {
        assert docs[..i + 1] == docs[..i] + [docs[i]];
        AppendInsertable(rule, old(table), docs[..i], docs[i]);
        AppendInserted(old(table), docs[..i], docs[i]);
        if docs[i].id in work || rule(work, docs[i]) {
          if Insertable(rule, old(table), docs) {
            InsertablePrefix(rule, old(table), docs, i + 1);
          }
          return false;
        }
        work := work[docs[i].id := docs[i].body];
      }
      assert docs[..|docs|] == docs;
      if fate.NeverApplied? {
        return false;
      }
      table := work;
      ok := fate.Answered?;
    }

    /** One document in a statement of its own. */
    method InsertOne(doc: Doc) returns (ok: bool)
      modifies this
      ensures ok <==> !Refused(rule, old(table), doc)
      ensures table == if ok then Inserted(old(table), doc) else old(table)
    {
      ok := !(doc.id in table || rule(table, doc));
      if ok {
        table := table[doc.id := doc.body];
      }
    }

    /** Several statements in one dispatch: each in its own transaction, none stops another. */
    method InsertEach(docs: seq<Doc>) returns (outcomes: seq<bool>)
      modifies this
      ensures outcomes == GreedyFlags(rule, old(table), docs)
      ensures table == GreedyTable(rule, old(table), docs)
    {
      outcomes := [];
      for i := 0 to |docs|
        invariant outcomes == GreedyFlags(rule, old(table), docs[..i])
        invariant table == GreedyTable(rule, old(table), docs[..i])
      {
        assert docs[..i + 1] == docs[..i] + [docs[i]];
        AppendGreedy(rule, old(table), docs[..i], docs[i]);
        var ok := InsertOne(docs[i]);
        outcomes := outcomes + [ok];
      }
      assert docs[..|docs|] == docs;
    }
  }

  // The driver.

  /** Whether the document at one position of the batch was written. */
  datatype Outcome = Outcome(index: nat, written: bool)

  datatype Report =
    | AllInserted(ids: seq<Id>)
    | BulkError(insertedIds: map<nat, Id>, insertedCount: nat, writeErrors: seq<nat>)
    | Rejected

  predicate OutcomesOf(outcomes: seq<Outcome>, flags: seq<bool>) {
    |outcomes| == |flags| && forall i :: 0 <= i < |flags| ==> outcomes[i] == Outcome(i, flags[i])
  }

  /** The indexes of the outcomes that were written, or of those that were not. */
  function Picked(outcomes: seq<Outcome>, written: bool): (indexes: seq<nat>)
    ensures forall n :: n in indexes ==> exists o :: o in outcomes && o.index == n
  {
    if outcomes == [] then [] else
    var front, last := outcomes[..|outcomes| - 1], outcomes[|outcomes| - 1];
    assert outcomes == front + [last];
    Picked(front, written) + (if last.written == written then [last.index] else [])
  }

  function ReportBatch(outcomes: seq<Outcome>, ids: seq<Id>): Report
    requires forall o :: o in outcomes ==> o.index < |ids|
  {
    var written, refused := Picked(outcomes, true), Picked(outcomes, false);
    assert forall i :: 0 <= i < |written| ==> written[i] in written;
    if refused == [] then AllInserted(seq(|written|, i requires 0 <= i < |written| => ids[written[i]]))
    else BulkError(map i | i in written :: ids[i], |written|, refused)
  }

  function Ids(docs: seq<Doc>): seq<Id> {
    seq(|docs|, i requires 0 <= i < |docs| => docs[i].id)
  }

  /** `ordered: true`: one dispatch per document, stopping at the first refusal. */
  method InsertOneByOne(c: Collection, docs: seq<Doc>) returns (outcomes: seq<Outcome>)
    modifies c
    ensures var k := OrderedCount(c.rule, old(c.table), docs);
            && c.table == InsertedAll(old(c.table), docs[..k])
            && OutcomesOf(outcomes, seq(if k < |docs| then k + 1 else k, i => i < k))
  {
    outcomes := [];
    var index := 0;
    while index < |docs|
      invariant 0 <= index <= |docs|
      invariant Insertable(c.rule, old(c.table), docs[..index])
      invariant c.table == InsertedAll(old(c.table), docs[..index])
      invariant |outcomes| == index && forall i :: 0 <= i < index ==> outcomes[i] == Outcome(i, true)
    {
      assert docs[..index + 1] == docs[..index] + [docs[index]];
      AppendInsertable(c.rule, old(c.table), docs[..index], docs[index]);
      AppendInserted(old(c.table), docs[..index], docs[index]);
      OrderedCountIsLongest(c.rule, old(c.table), docs, index);
      OrderedCountIsLongest(c.rule, old(c.table), docs, index + 1);
      var ok := c.InsertOne(docs[index]);
      outcomes := outcomes + [Outcome(index, ok)];
      if !ok {
        return;
      }
      index := index + 1;
    }
    assert docs[..|docs|] == docs;
    OrderedCountIsLongest(c.rule, old(c.table), docs, |docs|);
  }

  /** `ordered: false`: one dispatch, every document attempted. */
  method InsertIndependently(c: Collection, docs: seq<Doc>) returns (outcomes: seq<Outcome>)
    modifies c
    ensures c.table == GreedyTable(c.rule, old(c.table), docs)
    ensures OutcomesOf(outcomes, GreedyFlags(c.rule, old(c.table), docs))
  {
    var flags := c.InsertEach(docs);
    outcomes := seq(|docs|, i requires 0 <= i < |docs| => Outcome(i, i < |flags| && flags[i]));
  }

  /** Which documents land, by index, when the batch cannot go in whole. */
  function LandedFlags(rule: Rule, table: Table, docs: seq<Doc>, ordered: bool): (flags: seq<bool>)
    ensures |flags| <= |docs|
  {
    if ordered then
      var k := OrderedCount(rule, table, docs);
      seq(if k < |docs| then k + 1 else k, i => i < k)
    else GreedyFlags(rule, table, docs)
  }

  function LandedTable(rule: Rule, table: Table, docs: seq<Doc>, ordered: bool): Table {
    if ordered then InsertedAll(table, docs[..OrderedCount(rule, table, docs)]) else GreedyTable(rule, table, docs)
  }

  /** `indexes` are the places of `flags` holding `wanted`, in order. */
  ghost predicate IndexesOf(indexes: seq<nat>, flags: seq<bool>, wanted: bool) {
    && (forall i, j :: 0 <= i < j < |indexes| ==> indexes[i] < indexes[j])
    && (forall n: nat :: n in indexes <==> n < |flags| && flags[n] == wanted)
  }

  /** The report tells exactly which documents landed: ids by index, refusals by index. */
  ghost predicate Tells(report: Report, flags: seq<bool>, ids: seq<Id>)
    requires |flags| <= |ids|
  {
    match report
    case AllInserted(reported) => (forall i :: 0 <= i < |flags| ==> flags[i]) && reported == ids[..|flags|]
    case BulkError(insertedIds, count, writeErrors) =>
      && writeErrors != []
      && IndexesOf(writeErrors, flags, false)
      && (forall n: nat :: n in insertedIds <==> n < |flags| && flags[n])
      && (forall n: nat :: n in insertedIds ==> insertedIds[n] == ids[n])
      && count + |writeErrors| == |flags|
    case Rejected => forall i :: 0 <= i < |flags| ==> !flags[i]
  }

  lemma {:induction false} PickedAreIndexes(outcomes: seq<Outcome>, flags: seq<bool>, written: bool)
    requires OutcomesOf(outcomes, flags)
    ensures IndexesOf(Picked(outcomes, written), flags, written)
  {
    if outcomes != [] {
      var front, last := outcomes[..|outcomes| - 1], outcomes[|outcomes| - 1];
      var before := flags[..|flags| - 1];
      PickedAreIndexes(front, before, written);
      assert flags == before + [last.written];
      if last.written == written {
        IndexesGrow(Picked(front, written), before, written);
      } else {
        IndexesSkip(Picked(front, written), before, last.written);
      }
    }
  }

  lemma {:induction false} PickedPartition(outcomes: seq<Outcome>)
    ensures |Picked(outcomes, true)| + |Picked(outcomes, false)| == |outcomes|
  {
    if outcomes != [] {
      PickedPartition(outcomes[..|outcomes| - 1]);
    }
  }

  lemma {:induction false} AllPicked(outcomes: seq<Outcome>, flags: seq<bool>)
    requires OutcomesOf(outcomes, flags) && Picked(outcomes, false) == []
    ensures Picked(outcomes, true) == seq(|flags|, i => i)
    ensures forall i :: 0 <= i < |flags| ==> flags[i]
  {
    if outcomes != [] {
      var before := flags[..|flags| - 1];
      AllPicked(outcomes[..|outcomes| - 1], before);
      assert flags == before + [outcomes[|outcomes| - 1].written];
    }
  }

  lemma IndexesGrow(indexes: seq<nat>, flags: seq<bool>, flag: bool)
    requires IndexesOf(indexes, flags, flag)
    ensures IndexesOf(indexes + [|flags|], flags + [flag], flag)
  {
    var grown := indexes + [|flags|];
    forall i | 0 <= i < |indexes|
      ensures indexes[i] < |flags|
    {
      var n: nat := indexes[i];
      assert n in indexes;
    }
    assert forall n: nat :: n in grown <==> n in indexes || n == |flags|;
  }

  lemma IndexesSkip(indexes: seq<nat>, flags: seq<bool>, flag: bool)
    requires IndexesOf(indexes, flags, !flag)
    ensures IndexesOf(indexes, flags + [flag], !flag)
  {
  }

  lemma ReportTells(outcomes: seq<Outcome>, flags: seq<bool>, ids: seq<Id>)
    requires OutcomesOf(outcomes, flags) && |flags| <= |ids|
    ensures forall o :: o in outcomes ==> o.index < |ids|
    ensures Tells(ReportBatch(outcomes, ids), flags, ids)
  {
    PickedAreIndexes(outcomes, flags, true);
    PickedAreIndexes(outcomes, flags, false);
    PickedPartition(outcomes);
    if Picked(outcomes, false) == [] {
      AllPicked(outcomes, flags);
      assert ReportBatch(outcomes, ids).ids == ids[..|flags|];
    }
  }

  /** Which documents the collection holds in the end through this call, by index. */
  function KeptFlags(rule: Rule, table: Table, docs: seq<Doc>, ordered: bool, inTransaction: bool, fate: Fate): (flags: seq<bool>)
    ensures |flags| <= |docs|
  {
    if Insertable(rule, table, docs) && !fate.NeverApplied? then seq(|docs|, _ => true)
    else if inTransaction || |docs| < 2 then seq(|docs|, _ => false)
    else LandedFlags(rule, table, docs, ordered)
  }

  function KeptTable(rule: Rule, table: Table, docs: seq<Doc>, ordered: bool, inTransaction: bool, fate: Fate): Table {
    if Insertable(rule, table, docs) && !fate.NeverApplied? then InsertedAll(table, docs)
    else if inTransaction || |docs| < 2 then table
    else LandedTable(rule, table, docs, ordered)
  }

  lemma {:induction false} InsertedKeeps(table: Table, docs: seq<Doc>, id: Id)
    ensures id in InsertedAll(table, docs) <==> id in table || exists d :: d in docs && d.id == id
    decreases docs
  {
    if docs != [] {
      InsertedKeeps(Inserted(table, docs[0]), docs[1..], id);
      assert forall d :: d in docs <==> d == docs[0] || d in docs[1..];
    }
  }

  lemma {:induction false} AllRefused(rule: Rule, table: Table, docs: seq<Doc>)
    requires forall d :: d in docs ==> d.id in table
    ensures GreedyTable(rule, table, docs) == table
    ensures forall i :: 0 <= i < |docs| ==> !GreedyFlags(rule, table, docs)[i]
    ensures OrderedCount(rule, table, docs) == 0
    decreases docs
  {
    if docs != [] {
      assert docs[0] in docs && forall d :: d in docs[1..] ==> d in docs;
      AllRefused(rule, table, docs[1..]);
    }
  }

  /** Issued again over a batch that did land, every document is refused and nothing changes. */
  lemma ReissueRefusesAll(rule: Rule, table: Table, docs: seq<Doc>, ordered: bool)
    ensures LandedTable(rule, InsertedAll(table, docs), docs, ordered) == InsertedAll(table, docs)
    ensures var flags := LandedFlags(rule, InsertedAll(table, docs), docs, ordered);
            (docs != [] ==> flags != []) && forall i :: 0 <= i < |flags| ==> !flags[i]
  {
    var after := InsertedAll(table, docs);
    forall d | d in docs
      ensures d.id in after
    {
      InsertedKeeps(table, docs, d.id);
    }
    AllRefused(rule, after, docs);
    assert docs[..0] == [];
  }

  /** A report that some document was refused is not one of a batch that landed whole. */
  lemma RefusalIsNotWhole(report: Report, flags: seq<bool>, whole: seq<bool>, ids: seq<Id>)
    requires |flags| <= |ids| && |whole| <= |ids| && flags != [] && (forall i :: 0 <= i < |flags| ==> !flags[i])
    requires Tells(report, flags, ids) && (forall i :: 0 <= i < |whole| ==> whole[i]) && whole != []
    ensures !Tells(report, whole, ids)
  {
    assert !flags[0] && whole[0];
    if report.BulkError? {
      assert report.writeErrors[0] in report.writeErrors;
    }
  }

  // The report against the table.

  /** The document stands in the table, under its own id. */
  predicate Stands(table: Table, doc: Doc) {
    doc.id in table && table[doc.id] == doc.body
  }

  /** Every id reported is that of the document at its index, which stands in the table; refused ones are not reported. */
  predicate ReportsTable(report: Report, docs: seq<Doc>, table: Table) {
    match report
    case AllInserted(ids) => |ids| == |docs| && forall i :: 0 <= i < |docs| ==> ids[i] == docs[i].id && Stands(table, docs[i])
    case BulkError(insertedIds, _, writeErrors) =>
      && (forall n :: n in insertedIds ==> n < |docs| && insertedIds[n] == docs[n].id && Stands(table, docs[n]))
      && (forall n :: n in writeErrors ==> n < |docs| && n !in insertedIds)
    case Rejected => true
  }

  /** What was there stays, and what is new is a document that landed, under its id. */
  predicate OnlyAdds(before: Table, after: Table, docs: seq<Doc>, flags: seq<bool>)
    requires |flags| <= |docs|
  {
    && (forall id :: id in before ==> id in after && after[id] == before[id])
    && (forall id :: id in after && id !in before ==> exists i :: 0 <= i < |flags| && flags[i] && docs[i] == Doc(id, after[id]))
    && (forall i :: 0 <= i < |flags| && flags[i] ==> docs[i].id !in before && Stands(after, docs[i]))
  }

  lemma {:induction false} GreedyOnlyAdds(rule: Rule, table: Table, docs: seq<Doc>)
    ensures OnlyAdds(table, GreedyTable(rule, table, docs), docs, GreedyFlags(rule, table, docs))
    decreases docs
  {
    if docs != [] {
      var next := if Refused(rule, table, docs[0]) then table else Inserted(table, docs[0]);
      GreedyOnlyAdds(rule, next, docs[1..]);
      AddsOneMore(rule, table, docs, next);
    }
  }

  lemma AddsOneMore(rule: Rule, table: Table, docs: seq<Doc>, next: Table)
    requires docs != [] && next == if Refused(rule, table, docs[0]) then table else Inserted(table, docs[0])
    requires OnlyAdds(next, GreedyTable(rule, next, docs[1..]), docs[1..], GreedyFlags(rule, next, docs[1..]))
    ensures OnlyAdds(table, GreedyTable(rule, table, docs), docs, GreedyFlags(rule, table, docs))
  {
    var after, flags, rest := GreedyTable(rule, table, docs), GreedyFlags(rule, table, docs), GreedyFlags(rule, next, docs[1..]);
    assert after == GreedyTable(rule, next, docs[1..]) && flags == [!Refused(rule, table, docs[0])] + rest;
    forall id | id in after && id !in table
      ensures exists i :: 0 <= i < |flags| && flags[i] && docs[i] == Doc(id, after[id])
    {
      if id in next {
        assert flags[0] && docs[0] == Doc(id, after[id]);
      } else {
        var i :| 0 <= i < |rest| && rest[i] && docs[1..][i] == Doc(id, after[id]);
        assert flags[i + 1] && docs[i + 1] == Doc(id, after[id]);
      }
    }
    forall i | 0 <= i < |flags| && flags[i]
      ensures docs[i].id !in table && Stands(after, docs[i])
    {
      if i > 0 {
        assert rest[i - 1] && docs[1..][i - 1] == docs[i];
      }
    }
  }

  /** What the operation keeps adds to the table exactly the documents it keeps. */
  lemma KeptOnlyAdds(rule: Rule, table: Table, docs: seq<Doc>, ordered: bool, inTransaction: bool, fate: Fate)
    ensures OnlyAdds(table, KeptTable(rule, table, docs, ordered, inTransaction, fate), docs,
                     KeptFlags(rule, table, docs, ordered, inTransaction, fate))
  {
    if Insertable(rule, table, docs) && !fate.NeverApplied? {
      GreedyOnlyAdds(rule, table, docs);
      FastPathRefines(rule, table, docs);
    } else if !(inTransaction || |docs| < 2) {
      LandedOnlyAdds(rule, table, docs, ordered);
    }
  }

  lemma LandedOnlyAdds(rule: Rule, table: Table, docs: seq<Doc>, ordered: bool)
    ensures OnlyAdds(table, LandedTable(rule, table, docs, ordered), docs, LandedFlags(rule, table, docs, ordered))
  {
    if ordered {
      var front := docs[..OrderedCount(rule, table, docs)];
      OrderedCountIsLongest(rule, table, docs, |front|);
      GreedyOnlyAdds(rule, table, front);
      FastPathRefines(rule, table, front);
      assert forall i :: 0 <= i < |front| ==> front[i] == docs[i];
    } else {
      GreedyOnlyAdds(rule, table, docs);
    }
  }

  /** A report that tells which documents landed reports them as they stand in the table. */
  lemma TellingReportsTable(report: Report, docs: seq<Doc>, flags: seq<bool>, table: Table)
    requires |flags| <= |docs| && Tells(report, flags, Ids(docs))
    requires forall i :: 0 <= i < |flags| && flags[i] ==> Stands(table, docs[i])
    requires (forall i :: 0 <= i < |flags| ==> flags[i]) ==> |flags| == |docs|
    ensures ReportsTable(report, docs, table)
  {
  }

  /**
   * The whole operation. A batch that goes in whole is reported so; otherwise the
   * collection holds exactly what MongoDB would have kept - inside a transaction, or
   * for a single document, nothing. The report tells which documents landed, exactly
   * unless the batch was applied and the answer to it lost: then all of them landed
   * and the report says none did.
   */
  method InsertManyDocs(c: Collection, docs: seq<Doc>, ordered: bool, inTransaction: bool, fate: Fate) returns (report: Report)
    modifies c
    ensures c.table == KeptTable(c.rule, old(c.table), docs, ordered, inTransaction, fate)
    ensures Tells(report, KeptFlags(c.rule, old(c.table), docs, ordered, inTransaction, fate), Ids(docs))
       <==> !(fate.ReplyLost? && docs != [] && Insertable(c.rule, old(c.table), docs))
    ensures ReportsTable(report, docs, c.table)
    ensures OnlyAdds(old(c.table), c.table, docs, KeptFlags(c.rule, old(c.table), docs, ordered, inTransaction, fate))
    ensures Insertable(c.rule, old(c.table), docs) && fate.Answered? ==> report == AllInserted(Ids(docs))
    ensures !(Insertable(c.rule, old(c.table), docs) && fate.Answered?) && (inTransaction || |docs| < 2) ==> report == Rejected
  {
    KeptOnlyAdds(c.rule, c.table, docs, ordered, inTransaction, fate);
    var insertedIds: seq<Id> := [];
    for i := 0 to |docs|
      invariant insertedIds == Ids(docs[..i])
    {
      insertedIds := insertedIds + [docs[i].id];
    }
    assert docs[..|docs|] == docs;

    var ok := c.InsertBatch(docs, fate);
    if ok {
      return AllInserted(insertedIds);
    }
    if inTransaction || |docs| < 2 {
      ghost var flags := KeptFlags(c.rule, old(c.table), docs, ordered, inTransaction, fate);
      assert docs != [] ==> (flags[0] <==> Insertable(c.rule, old(c.table), docs) && fate.ReplyLost?);
      return Rejected;
    }
    report := Reissue(c, docs, ordered, insertedIds);
    if Insertable(c.rule, old(c.table), docs) && fate.ReplyLost? {
      ReissueRefusesAll(c.rule, old(c.table), docs, ordered);
      RefusalIsNotWhole(report, LandedFlags(c.rule, InsertedAll(old(c.table), docs), docs, ordered), seq(|docs|, _ => true), insertedIds);
    }
  }

  /** One document at a time, and the report of what became of each. */
  method Reissue(c: Collection, docs: seq<Doc>, ordered: bool, insertedIds: seq<Id>) returns (report: Report)
    requires insertedIds == Ids(docs)
    modifies c
    ensures c.table == LandedTable(c.rule, old(c.table), docs, ordered)
    ensures |LandedFlags(c.rule, old(c.table), docs, ordered)| <= |docs|
    ensures Tells(report, LandedFlags(c.rule, old(c.table), docs, ordered), insertedIds)
    ensures ReportsTable(report, docs, c.table)
  {
    ghost var flags := LandedFlags(c.rule, c.table, docs, ordered);
    var outcomes;
    if ordered {
      outcomes := InsertOneByOne(c, docs);
    } else {
      outcomes := InsertIndependently(c, docs);
    }
    ReportTells(outcomes, flags, insertedIds);
    report := ReportBatch(outcomes, insertedIds);
    LandedOnlyAdds(c.rule, old(c.table), docs, ordered);
    TellingReportsTable(report, docs, flags, c.table);
  }

  /** The fast path agrees with the re-issue: an insertable batch lands whole either way. */
  lemma {:induction false} FastPathRefines(rule: Rule, table: Table, docs: seq<Doc>)
    requires Insertable(rule, table, docs)
    ensures OrderedCount(rule, table, docs) == |docs|
    ensures GreedyTable(rule, table, docs) == InsertedAll(table, docs)
    ensures LandedTable(rule, table, docs, true) == InsertedAll(table, docs)
    ensures forall i :: 0 <= i < |docs| ==> GreedyFlags(rule, table, docs)[i]
    decreases docs
  {
    if docs != [] {
      FastPathRefines(rule, Inserted(table, docs[0]), docs[1..]);
    }
    assert docs[..|docs|] == docs;
  }
}
