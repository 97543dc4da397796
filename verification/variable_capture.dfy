/**
 * Which closure parameters a compiled expression uses, and whether a closure
 * captures a variable its body reads: both told from the expression alone.
 */
module VariableCapture {
  import opened Values
  import opened ExpressionSource
  import opened SurrealTerms
  import opened ExpressionCompiler

  /**
   * What is known of a variable: the closure parameters its term uses, and whether
   * the term still has the variable's value, no closure having taken one of them.
   */
  datatype Tracked = Tracked(uses: set<nat>, live: bool)

  type Track = map<string, Tracked>

  /** After parameter `k` is bound anew, a term that uses it no longer has its value. */
  function Overwritten(track: Track, k: nat): Track {
    map n | n in track :: Tracked(track[n].uses, track[n].live && k !in track[n].uses)
  }

  /** Inside a closure that binds parameter `k` to `alias`. */
  function Entered(track: Track, alias: string, k: nat): (inner: Track)
    ensures inner.Keys == track.Keys + {alias}
  {
    Overwritten(track, k)[alias := Tracked({k}, true)]
  }

  /** Inside a closure that binds two parameters at once. */
  function EnteredTwo(track: Track, a: string, b: string, k: nat): Track {
    Entered(Entered(track, a, k), b, k + 1)
  }

  // The parameters an expression's term uses.

  function Uses(e: Expr, track: Track): set<nat>
    decreases e, 1
  {
    match e
    case Field(_) => {}
    case Variable(name) => if name in track then track[name].uses else {}
    case Literal(_) => {}
    case Strict(_, args) => UsesAll(args, track)
    case Cond(test, yes, no) => Uses(test, track) + Uses(yes, track) + Uses(no, track)
    case IfNull(args) => UsesAll(args, track)
    case Switch(branches, otherwise) =>
      UsesBranches(branches, track) + (if otherwise.Some? then Uses(otherwise.value, track) else {})
    case MapOver(input, alias, body) => Uses(input, track) + UsesUnder(body, alias, track)
    case FilterOver(input, alias, body, limit) =>
      Uses(input, track) + UsesUnder(body, alias, track) + (if limit.Some? then Uses(limit.value, track) else {})
    case Reduce(input, initial, body) => Uses(input, track) + Uses(initial, track) + UsesUnderTwo(body, "value", "this", track)
    case Let(vars, body) => Uses(body, EnteredLet(vars, track))
    case Document(fields) => UsesOf(TrackBindings(fields, track))
  }

  /** Those of a closure's body, its own parameter aside. */
  function UsesUnder(body: Expr, alias: string, track: Track): set<nat>
    decreases body, 2
  {
    Uses(body, Entered(track, alias, |track|)) - {|track|}
  }

  function UsesUnderTwo(body: Expr, a: string, b: string, track: Track): set<nat>
    decreases body, 2
  {
    Uses(body, EnteredTwo(track, a, b, |track|)) - {|track|, |track| + 1}
  }

  /** Inside a `$let`, whose names stand for the terms of their bindings. */
  function EnteredLet(vars: seq<Binding>, track: Track): Track
    decreases vars, 1
  {
    BindAll(Names(vars), TrackBindings(vars, track), track)
  }

  function UsesAll(es: seq<Expr>, track: Track): set<nat>
    decreases es, 0
  {
    if es == [] then {} else Uses(es[0], track) + UsesAll(es[1..], track)
  }

  function TrackBindings(bs: seq<Binding>, track: Track): (r: seq<Tracked>)
    ensures |r| == |bs|
    decreases bs, 0
  {
    if bs == [] then [] else [Tracked(Uses(bs[0].value, track), Faithful(bs[0].value, track))] + TrackBindings(bs[1..], track)
  }

  function UsesOf(ts: seq<Tracked>): set<nat> {
    if ts == [] then {} else ts[0].uses + UsesOf(ts[1..])
  }

  function UsesBranches(bs: seq<Branch>, track: Track): set<nat>
    decreases bs, 0
  {
    if bs == [] then {} else UsesBranch(bs[0], track) + UsesBranches(bs[1..], track)
  }

  function UsesBranch(b: Branch, track: Track): set<nat>
    decreases b, 0
  {
    Uses(b.test, track) + Uses(b.outcome, track)
  }

  // Capture.

  /**
   * No variable is read inside a closure that binds a parameter its term uses, other
   * than the one that closure binds anew. A `$let` binding nobody reads is not looked at.
   */
  predicate Faithful(e: Expr, track: Track)
    decreases e, 1
  {
    match e
    case Field(_) => true
    case Variable(name) => name in track ==> track[name].live
    case Literal(_) => true
    case Strict(_, args) => FaithfulAll(args, track)
    case Cond(test, yes, no) => Faithful(test, track) && Faithful(yes, track) && Faithful(no, track)
    case IfNull(args) => FaithfulAll(args, track)
    case Switch(branches, otherwise) =>
      FaithfulBranches(branches, track) && (otherwise.Some? ==> Faithful(otherwise.value, track))
    case MapOver(input, alias, body) => Faithful(input, track) && FaithfulUnder(body, alias, track)
    case FilterOver(input, alias, body, limit) =>
      Faithful(input, track) && FaithfulUnder(body, alias, track)
      && (limit.Some? ==> Faithful(limit.value, track))
    case Reduce(input, initial, body) =>
      Faithful(input, track) && Faithful(initial, track)
      && FaithfulUnderTwo(body, "value", "this", track)
    case Let(vars, body) => Faithful(body, EnteredLet(vars, track))
    case Document(fields) => FaithfulBindings(fields, track)
  }

  predicate FaithfulUnder(body: Expr, alias: string, track: Track)
    decreases body, 2
  {
    Faithful(body, Entered(track, alias, |track|))
  }

  predicate FaithfulUnderTwo(body: Expr, a: string, b: string, track: Track)
    decreases body, 2
  {
    Faithful(body, EnteredTwo(track, a, b, |track|))
  }

  predicate FaithfulAll(es: seq<Expr>, track: Track)
    decreases es, 0
  {
    es == [] || (Faithful(es[0], track) && FaithfulAll(es[1..], track))
  }

  predicate FaithfulBindings(bs: seq<Binding>, track: Track)
    decreases bs, 0
  {
    bs == [] || (Faithful(bs[0].value, track) && FaithfulBindings(bs[1..], track))
  }

  predicate FaithfulBranches(bs: seq<Branch>, track: Track)
    decreases bs, 0
  {
    bs == [] || (FaithfulBranch(bs[0], track) && FaithfulBranches(bs[1..], track))
  }

  predicate FaithfulBranch(b: Branch, track: Track)
    decreases b, 0
  {
    Faithful(b.test, track) && Faithful(b.outcome, track)
  }

  // The identity of rows not yet reshaped.

  /** No path in the expression names or leads through that identity. */
  predicate KeepsPaths(e: Expr, plain: bool)
    decreases e, 0
  {
    match e
    case Field(path) => KeepsIdentity(path, plain)
    case Variable(_) => true
    case Literal(_) => true
    case Strict(_, args) => KeepsPathsAll(args, plain)
    case Cond(test, yes, no) => KeepsPaths(test, plain) && KeepsPaths(yes, plain) && KeepsPaths(no, plain)
    case IfNull(args) => KeepsPathsAll(args, plain)
    case Switch(branches, otherwise) =>
      KeepsPathsBranches(branches, plain) && (otherwise.Some? ==> KeepsPaths(otherwise.value, plain))
    case MapOver(input, _, body) => KeepsPaths(input, plain) && KeepsPaths(body, plain)
    case FilterOver(input, _, body, limit) =>
      KeepsPaths(input, plain) && KeepsPaths(body, plain) && (limit.Some? ==> KeepsPaths(limit.value, plain))
    case Reduce(input, initial, body) => KeepsPaths(input, plain) && KeepsPaths(initial, plain) && KeepsPaths(body, plain)
    case Let(vars, body) => KeepsPathsBindings(vars, plain) && KeepsPaths(body, plain)
    case Document(fields) => KeepsPathsBindings(fields, plain)
  }

  predicate KeepsPathsAll(es: seq<Expr>, plain: bool)
    decreases es, 0
  {
    es == [] || (KeepsPaths(es[0], plain) && KeepsPathsAll(es[1..], plain))
  }

  predicate KeepsPathsBindings(bs: seq<Binding>, plain: bool)
    decreases bs, 0
  {
    bs == [] || (KeepsPaths(bs[0].value, plain) && KeepsPathsBindings(bs[1..], plain))
  }

  predicate KeepsPathsBranches(bs: seq<Branch>, plain: bool)
    decreases bs, 0
  {
    bs == [] || (KeepsPathsBranch(bs[0], plain) && KeepsPathsBranches(bs[1..], plain))
  }

  predicate KeepsPathsBranch(b: Branch, plain: bool)
    decreases b, 0
  {
    KeepsPaths(b.test, plain) && KeepsPaths(b.outcome, plain)
  }

  // Both together.

  predicate Uncaptured(e: Expr, plain: bool, track: Track) {
    Faithful(e, track) && KeepsPaths(e, plain)
  }

  predicate UncapturedUnder(body: Expr, alias: string, plain: bool, track: Track) {
    FaithfulUnder(body, alias, track) && KeepsPaths(body, plain)
  }

  predicate UncapturedUnderTwo(body: Expr, a: string, b: string, plain: bool, track: Track) {
    FaithfulUnderTwo(body, a, b, track) && KeepsPaths(body, plain)
  }

  predicate UncapturedAll(es: seq<Expr>, plain: bool, track: Track) {
    FaithfulAll(es, track) && KeepsPathsAll(es, plain)
  }

  predicate UncapturedBindings(bs: seq<Binding>, plain: bool, track: Track) {
    FaithfulBindings(bs, track) && KeepsPathsBindings(bs, plain)
  }

  predicate UncapturedBranches(bs: seq<Branch>, plain: bool, track: Track) {
    FaithfulBranches(bs, track) && KeepsPathsBranches(bs, plain)
  }

  predicate UncapturedBranch(b: Branch, plain: bool, track: Track) {
    FaithfulBranch(b, track) && KeepsPathsBranch(b, plain)
  }

  // What `Uses` predicts is what the compiler emits.

  predicate TrackedAt(track: Track, vars: Scope, n: string)
    requires n in track && n in vars
  {
    Free(vars[n]) == track[n].uses
  }

  /** The track knows every parameter the scope's terms use. */
  predicate Tracks(track: Track, vars: Scope) {
    && track.Keys == vars.Keys
    && forall n {:trigger TrackedAt(track, vars, n)} :: n in vars ==> TrackedAt(track, vars, n)
  }

  lemma SameSize(track: Track, vars: Scope)
    requires Tracks(track, vars)
    ensures |track| == |vars|
  {
    assert |track| == |track.Keys| && |vars| == |vars.Keys|;
  }

  lemma EnteredTracks(track: Track, vars: Scope, alias: string, k: nat)
    requires Tracks(track, vars)
    ensures Tracks(Entered(track, alias, k), vars[alias := Param(k)])
  {
    var inner, scope := Entered(track, alias, k), vars[alias := Param(k)];
    forall n | n in scope
      ensures TrackedAt(inner, scope, n)
    {
      if n != alias {
        assert TrackedAt(track, vars, n);
      }
    }
  }

  lemma EnteredTwoTracks(track: Track, vars: Scope, a: string, b: string, k: nat)
    requires Tracks(track, vars)
    ensures Tracks(EnteredTwo(track, a, b, k), vars[a := Param(k)][b := Param(k + 1)])
  {
    EnteredTracks(track, vars, a, k);
    EnteredTracks(Entered(track, a, k), vars[a := Param(k)], b, k + 1);
  }

  lemma {:induction false} BindAllTracks(names: seq<string>, tracked: seq<Tracked>, terms: seq<Term>, track: Track, vars: Scope)
    requires |names| == |tracked| == |terms| && Tracks(track, vars)
    requires forall i :: 0 <= i < |terms| ==> Free(terms[i]) == tracked[i].uses
    ensures Tracks(BindAll(names, tracked, track), BindAll(names, terms, vars))
  {
    if names != [] {
      var inner, scope := track[names[0] := tracked[0]], vars[names[0] := terms[0]];
      forall n | n in scope
        ensures TrackedAt(inner, scope, n)
      {
        if n != names[0] {
          assert TrackedAt(track, vars, n);
        }
      }
      BindAllTracks(names[1..], tracked[1..], terms[1..], inner, scope);
    }
  }

  lemma {:induction false} CompiledUses(e: Expr, reg: Registry, plain: bool, vars: Scope, track: Track)
    requires Tracks(track, vars) && Compile(e, reg, plain, vars).Success?
    ensures Free(Compile(e, reg, plain, vars).value) == Uses(e, track)
    decreases e, 1, 0
  {
    match e
    case Field(_) =>
    case Variable(name) =>
      if name in vars {
        assert TrackedAt(track, vars, name);
      }
    case Literal(_) =>
    case Strict(_, _) =>
      CompiledUsesStrict(e, reg, plain, vars, track);
    case Cond(_, _, _) =>
      CompiledUsesCond(e, reg, plain, vars, track);
    case IfNull(_) =>
      CompiledUsesFirst(e, reg, plain, vars, track);
    case Switch(_, _) =>
      CompiledUsesCases(e, reg, plain, vars, track);
    case MapOver(_, _, _) =>
      CompiledUsesMap(e, reg, plain, vars, track);
    case FilterOver(_, _, _, _) =>
      CompiledUsesFilter(e, reg, plain, vars, track);
    case Reduce(_, _, _) =>
      CompiledUsesReduce(e, reg, plain, vars, track);
    case Let(_, _) =>
      CompiledUsesLet(e, reg, plain, vars, track);
    case Document(_) =>
      CompiledUsesDocument(e, reg, plain, vars, track);
  }

  lemma {:induction false} CompiledUsesCond(e: Expr, reg: Registry, plain: bool, vars: Scope, track: Track)
    requires e.Cond? && Tracks(track, vars) && Compile(e, reg, plain, vars).Success?
    ensures Free(Compile(e, reg, plain, vars).value) == Uses(e, track)
    decreases e, 0
  {
    CompiledUses(e.test, reg, plain, vars, track);
    CompiledUses(e.yes, reg, plain, vars, track);
    CompiledUses(e.no, reg, plain, vars, track);
  }

  lemma {:induction false} CompiledUsesFirst(e: Expr, reg: Registry, plain: bool, vars: Scope, track: Track)
    requires e.IfNull? && Tracks(track, vars) && Compile(e, reg, plain, vars).Success?
    ensures Free(Compile(e, reg, plain, vars).value) == Uses(e, track)
    decreases e, 0
  {
    CompiledUsesAll(e.args, reg, plain, vars, track);
    FreeOfCoalesce(CompileAll(e.args, reg, plain, vars).value);
  }

  lemma {:induction false} CompiledUsesStrict(e: Expr, reg: Registry, plain: bool, vars: Scope, track: Track)
    requires e.Strict? && Tracks(track, vars) && Compile(e, reg, plain, vars).Success?
    ensures Free(Compile(e, reg, plain, vars).value) == Uses(e, track)
    decreases e, 0
  {
    CompiledUsesAll(e.args, reg, plain, vars, track);
    FreeOfBuild(reg, e.op, CompileAll(e.args, reg, plain, vars).value);
  }

  lemma {:induction false} CompiledUsesDocument(e: Expr, reg: Registry, plain: bool, vars: Scope, track: Track)
    requires e.Document? && Tracks(track, vars) && Compile(e, reg, plain, vars).Success?
    ensures Free(Compile(e, reg, plain, vars).value) == Uses(e, track)
    decreases e, 0
  {
    CompiledUsesBindings(e.fields, reg, plain, vars, track);
    FreeTracked(CompileBindings(e.fields, reg, plain, vars).value, TrackBindings(e.fields, track));
  }

  lemma {:induction false} CompiledUsesCases(e: Expr, reg: Registry, plain: bool, vars: Scope, track: Track)
    requires e.Switch? && Tracks(track, vars) && Compile(e, reg, plain, vars).Success?
    ensures Free(Compile(e, reg, plain, vars).value) == Uses(e, track)
    decreases e, 0
  {
    if e.otherwise.Some? {
      CompiledUses(e.otherwise.value, reg, plain, vars, track);
      CompiledUsesSwitch(e.branches, Compile(e.otherwise.value, reg, plain, vars).value, reg, plain, vars, track);
    } else {
      CompiledUsesSwitch(e.branches, Bound(Absent), reg, plain, vars, track);
    }
  }

  lemma {:induction false} CompiledUsesMap(e: Expr, reg: Registry, plain: bool, vars: Scope, track: Track)
    requires e.MapOver? && Tracks(track, vars) && Compile(e, reg, plain, vars).Success?
    ensures Free(Compile(e, reg, plain, vars).value) == Uses(e, track)
    decreases e, 0
  {
    var source, closure := MapParts(e, reg, plain, vars);
    CompiledUses(e.input, reg, plain, vars, track);
    CompiledUsesUnder(e.body, e.alias, reg, plain, vars, track);
    UsesMap(e, track);
    FreeOfMap(source, closure, |vars|);
  }

  lemma UsesMap(e: Expr, track: Track)
    requires e.MapOver?
    ensures Uses(e, track) == Uses(e.input, track) + UsesUnder(e.body, e.alias, track)
  {
  }

  lemma FreeOfMap(source: Term, closure: Term, n: nat)
    ensures Free(ArrayMap(source, n, closure)) == Free(source) + (Free(closure) - {n})
    ensures Free(ArrayFilter(source, n, closure)) == Free(source) + (Free(closure) - {n})
  {
  }

  lemma {:induction false} CompiledUsesUnder(body: Expr, alias: string, reg: Registry, plain: bool, vars: Scope, track: Track)
    requires Tracks(track, vars) && Compile(body, reg, plain, vars[alias := Param(|vars|)]).Success?
    ensures Free(Compile(body, reg, plain, vars[alias := Param(|vars|)]).value) - {|vars|} == UsesUnder(body, alias, track)
    decreases body, 2
  {
    SameSize(track, vars);
    EnteredTracks(track, vars, alias, |vars|);
    CompiledUses(body, reg, plain, vars[alias := Param(|vars|)], Entered(track, alias, |vars|));
  }

  lemma {:induction false} CompiledUsesUnderTwo(body: Expr, a: string, b: string, reg: Registry, plain: bool, vars: Scope, track: Track)
    requires Tracks(track, vars) && Compile(body, reg, plain, vars[a := Param(|vars|)][b := Param(|vars| + 1)]).Success?
    ensures Free(Compile(body, reg, plain, vars[a := Param(|vars|)][b := Param(|vars| + 1)]).value) - {|vars|, |vars| + 1}
         == UsesUnderTwo(body, a, b, track)
    decreases body, 2
  {
    var scope, inner := BothTrack(vars, track, a, b);
    CompiledUsesInside(body, reg, plain, scope, inner, |vars|);
  }

  lemma BothTrack(vars: Scope, track: Track, a: string, b: string) returns (scope: Scope, inner: Track)
    requires Tracks(track, vars)
    ensures |track| == |vars| && scope == vars[a := Param(|vars|)][b := Param(|vars| + 1)]
    ensures inner == EnteredTwo(track, a, b, |track|) && Tracks(inner, scope)
  {
    SameSize(track, vars);
    EnteredTwoTracks(track, vars, a, b, |vars|);
    scope, inner := vars[a := Param(|vars|)][b := Param(|vars| + 1)], EnteredTwo(track, a, b, |vars|);
  }

  lemma {:induction false} CompiledUsesInside(body: Expr, reg: Registry, plain: bool, scope: Scope, inner: Track, k: nat)
    requires Tracks(inner, scope) && Compile(body, reg, plain, scope).Success?
    ensures Free(Compile(body, reg, plain, scope).value) - {k, k + 1} == Uses(body, inner) - {k, k + 1}
    decreases body, 1, 1
  {
    CompiledUses(body, reg, plain, scope, inner);
  }

  lemma LetTracks(bindings: seq<Binding>, terms: seq<Term>, track: Track, vars: Scope)
    requires Tracks(track, vars) && |terms| == |bindings|
    requires forall i :: 0 <= i < |bindings| ==> Free(terms[i]) == TrackBindings(bindings, track)[i].uses
    ensures Tracks(EnteredLet(bindings, track), BindAll(Names(bindings), terms, vars))
  {
    BindAllTracks(Names(bindings), TrackBindings(bindings, track), terms, track, vars);
  }

  lemma {:induction false} CompiledUsesLet(e: Expr, reg: Registry, plain: bool, vars: Scope, track: Track)
    requires e.Let? && Tracks(track, vars) && Compile(e, reg, plain, vars).Success?
    ensures Free(Compile(e, reg, plain, vars).value) == Uses(e, track)
    decreases e, 0
  {
    CompiledUsesBindings(e.vars, reg, plain, vars, track);
    var terms := CompileBindings(e.vars, reg, plain, vars).value;
    LetTracks(e.vars, terms, track, vars);
    CompiledUses(e.body, reg, plain, BindAll(Names(e.vars), terms, vars), EnteredLet(e.vars, track));
  }

  lemma {:induction false} CompiledUsesFilter(e: Expr, reg: Registry, plain: bool, vars: Scope, track: Track)
    requires e.FilterOver? && Tracks(track, vars) && Compile(e, reg, plain, vars).Success?
    ensures Free(Compile(e, reg, plain, vars).value) == Uses(e, track)
    decreases e, 0, 1
  {
    var source, closure, limit := FilterUses(e, reg, plain, vars, track);
    UsesFilter(e, track);
    FreeOfMap(source, closure, |vars|);
    if e.limit.Some? {
      FreeOfSlice(ArrayFilter(source, |vars|, closure), limit);
    }
  }

  lemma UsesFilter(e: Expr, track: Track)
    requires e.FilterOver?
    ensures Uses(e, track)
         == Uses(e.input, track) + UsesUnder(e.body, e.alias, track) + (if e.limit.Some? then Uses(e.limit.value, track) else {})
  {
  }

  lemma {:induction false} FilterUses(e: Expr, reg: Registry, plain: bool, vars: Scope, track: Track)
    returns (source: Term, closure: Term, limit: Term)
    requires e.FilterOver? && Tracks(track, vars) && Compile(e, reg, plain, vars).Success?
    ensures Compile(e, reg, plain, vars) == Success(
                                              if e.limit.None? then ArrayFilter(source, |vars|, closure)
                                              else Apply(Slice, [ArrayFilter(source, |vars|, closure), Bound(Int(0)), limit]))
    ensures Free(source) == Uses(e.input, track) && Free(closure) - {|vars|} == UsesUnder(e.body, e.alias, track)
    ensures e.limit.Some? ==> Free(limit) == Uses(e.limit.value, track)
    decreases e, 0, 0
  {
    source, closure, limit := FilterParts(e, reg, plain, vars);
    CompiledUses(e.input, reg, plain, vars, track);
    CompiledUsesUnder(e.body, e.alias, reg, plain, vars, track);
    if e.limit.Some? {
      CompiledUses(e.limit.value, reg, plain, vars, track);
    }
  }

  lemma FreeOfSlice(filtered: Term, limit: Term)
    ensures Free(Apply(Slice, [filtered, Bound(Int(0)), limit])) == Free(filtered) + Free(limit)
  {
    FreeThree(filtered, Bound(Int(0)), limit);
  }

  lemma {:induction false} CompiledUsesReduce(e: Expr, reg: Registry, plain: bool, vars: Scope, track: Track)
    requires e.Reduce? && Tracks(track, vars) && Compile(e, reg, plain, vars).Success?
    ensures Free(Compile(e, reg, plain, vars).value) == Uses(e, track)
    decreases e, 0, 1
  {
    var input, initial, body := ReduceUses(e, reg, plain, vars, track);
    UsesReduce(e, track, input, initial, body);
  }

  lemma {:induction false} ReduceUses(e: Expr, reg: Registry, plain: bool, vars: Scope, track: Track)
    returns (input: set<nat>, initial: set<nat>, body: set<nat>)
    requires e.Reduce? && Tracks(track, vars) && Compile(e, reg, plain, vars).Success?
    ensures Free(Compile(e, reg, plain, vars).value) == input + initial + body
    ensures input == Uses(e.input, track) && initial == Uses(e.initial, track)
    ensures body == UsesUnderTwo(e.body, "value", "this", track)
    decreases e, 0, 0
  {
    var seed, source, closure := ReduceFree(e, reg, plain, vars);
    CompiledUses(e.initial, reg, plain, vars, track);
    CompiledUses(e.input, reg, plain, vars, track);
    CompiledUsesUnderTwo(e.body, "value", "this", reg, plain, vars, track);
    input, initial, body := Free(source), Free(seed), Free(closure) - {|vars|, |vars| + 1};
  }

  lemma UsesReduce(e: Expr, track: Track, input: set<nat>, initial: set<nat>, body: set<nat>)
    requires e.Reduce? && input == Uses(e.input, track) && initial == Uses(e.initial, track)
    requires body == UsesUnderTwo(e.body, "value", "this", track)
    ensures Uses(e, track) == input + initial + body
  {
  }

  lemma ReduceFree(e: Expr, reg: Registry, plain: bool, vars: Scope) returns (seed: Term, source: Term, closure: Term)
    requires e.Reduce? && Compile(e, reg, plain, vars).Success?
    ensures Compile(e.initial, reg, plain, vars) == Success(seed) && Compile(e.input, reg, plain, vars) == Success(source)
    ensures Compile(e.body, reg, plain, vars["value" := Param(|vars|)]["this" := Param(|vars| + 1)]) == Success(closure)
    ensures Free(Compile(e, reg, plain, vars).value) == Free(source) + Free(seed) + (Free(closure) - {|vars|, |vars| + 1})
  {
    seed, source, closure := ReduceParts(e, reg, plain, vars);
    FreeOfReduce(seed, source, closure, |vars|);
  }

  lemma FreeOfReduce(seed: Term, source: Term, closure: Term, n: nat)
    ensures Free(ArrayReduce(Apply(Concat, [Apply(ArrayLiteral, [seed]), source]), n, n + 1, closure))
         == Free(source) + Free(seed) + (Free(closure) - {n, n + 1})
  {
    FreeOne(seed);
    FreeTwo(Apply(ArrayLiteral, [seed]), source);
  }

  lemma {:induction false} CompiledUsesAll(es: seq<Expr>, reg: Registry, plain: bool, vars: Scope, track: Track)
    requires Tracks(track, vars) && CompileAll(es, reg, plain, vars).Success?
    ensures FreeIn(CompileAll(es, reg, plain, vars).value) == UsesAll(es, track)
    decreases es, 0
  {
    if es != [] {
      CompiledUses(es[0], reg, plain, vars, track);
      CompiledUsesAll(es[1..], reg, plain, vars, track);
      FreeCons(Compile(es[0], reg, plain, vars).value, CompileAll(es[1..], reg, plain, vars).value);
    }
  }

  lemma {:induction false} CompiledUsesBindings(bs: seq<Binding>, reg: Registry, plain: bool, vars: Scope, track: Track)
    requires Tracks(track, vars) && CompileBindings(bs, reg, plain, vars).Success?
    ensures forall i :: 0 <= i < |bs| ==> Free(CompileBindings(bs, reg, plain, vars).value[i]) == TrackBindings(bs, track)[i].uses
    decreases bs, 0
  {
    if bs != [] {
      CompiledUses(bs[0].value, reg, plain, vars, track);
      CompiledUsesBindings(bs[1..], reg, plain, vars, track);
    }
  }

  lemma {:induction false} FreeTracked(ts: seq<Term>, tracked: seq<Tracked>)
    requires |ts| == |tracked| && forall i :: 0 <= i < |ts| ==> Free(ts[i]) == tracked[i].uses
    ensures FreeIn(ts) == UsesOf(tracked)
  {
    if ts != [] {
      FreeTracked(ts[1..], tracked[1..]);
    }
  }

  lemma {:induction false} CompiledUsesSwitch(bs: seq<Branch>, fallback: Term, reg: Registry, plain: bool, vars: Scope, track: Track)
    requires Tracks(track, vars) && CompileSwitch(bs, fallback, reg, plain, vars).Success?
    ensures Free(CompileSwitch(bs, fallback, reg, plain, vars).value) == UsesBranches(bs, track) + Free(fallback)
    decreases bs, 0
  {
    if bs != [] {
      CompiledUsesSwitch(bs[1..], fallback, reg, plain, vars, track);
      CompiledUsesBranch(bs[0], CompileSwitch(bs[1..], fallback, reg, plain, vars).value, reg, plain, vars, track);
    }
  }

  lemma {:induction false} CompiledUsesBranch(b: Branch, fallback: Term, reg: Registry, plain: bool, vars: Scope, track: Track)
    requires Tracks(track, vars) && CompileBranch(b, fallback, reg, plain, vars).Success?
    ensures Free(CompileBranch(b, fallback, reg, plain, vars).value) == UsesBranch(b, track) + Free(fallback)
    decreases b, 0
  {
    CompiledUses(b.test, reg, plain, vars, track);
    CompiledUses(b.outcome, reg, plain, vars, track);
    FreeOfIf(Compile(b.test, reg, plain, vars).value, Compile(b.outcome, reg, plain, vars).value, fallback,
             Uses(b.test, track), Uses(b.outcome, track));
  }

  lemma FreeOfIf(test: Term, yes: Term, no: Term, a: set<nat>, b: set<nat>)
    requires Free(test) == a && Free(yes) == b
    ensures Free(If(test, yes, no)) == a + b + Free(no)
  {
  }

  lemma FreeCons(head: Term, tail: seq<Term>)
    ensures FreeIn([head] + tail) == Free(head) + FreeIn(tail)
  {
    assert ([head] + tail)[1..] == tail;
  }

  lemma FreeOne(a: Term)
    ensures FreeIn([a]) == Free(a)
  {
    assert [a][1..] == [];
  }

  lemma FreeTwo(a: Term, b: Term)
    ensures FreeIn([a, b]) == Free(a) + Free(b)
  {
    FreeOne(b);
    assert [a, b][1..] == [b];
  }

  lemma FreeThree(a: Term, b: Term, c: Term)
    ensures FreeIn([a, b, c]) == Free(a) + Free(b) + Free(c)
  {
    FreeTwo(b, c);
    assert [a, b, c][1..] == [b, c];
  }

  lemma {:induction false} FreeOfEach(ts: seq<Term>, i: nat)
    requires i < |ts|
    ensures Free(ts[i]) <= FreeIn(ts)
  {
    if i > 0 {
      FreeOfEach(ts[1..], i - 1);
    }
  }

  lemma {:induction false} FreeWithin(ts: seq<Term>, outer: set<nat>)
    requires forall i :: 0 <= i < |ts| ==> Free(ts[i]) <= outer
    ensures FreeIn(ts) <= outer
  {
    if ts != [] {
      FreeWithin(ts[1..], outer);
    }
  }

  lemma {:induction false} FreeAppend(ts: seq<Term>, last: Term)
    ensures FreeIn(ts + [last]) == FreeIn(ts) + Free(last)
  {
    if ts == [] {
      assert [] + [last] == [last];
      FreeOne(last);
    } else {
      assert (ts + [last])[1..] == ts[1..] + [last];
      FreeAppend(ts[1..], last);
    }
  }

  lemma {:induction false} FreeOfChain(fn: Fn, ts: seq<Term>)
    requires |ts| > 0
    ensures Free(Chain(fn, ts)) == FreeIn(ts)
  {
    if |ts| == 1 {
      FreeOne(ts[0]);
      assert ts == [ts[0]];
    } else {
      var front, last := ts[..|ts| - 1], ts[|ts| - 1];
      FreeOfChain(fn, front);
      FreeTwo(Chain(fn, front), last);
      FreeAppend(front, last);
      assert front + [last] == ts;
    }
  }

  lemma {:induction false} FreeOfCoalesce(ts: seq<Term>)
    requires |ts| > 0
    ensures Free(CoalesceAll(ts)) == FreeIn(ts)
  {
    if |ts| > 1 {
      FreeOfCoalesce(ts[1..]);
    }
  }

  lemma FreeOfCanonicalSet(ts: seq<Term>, i: nat)
    requires i < |ts|
    ensures Free(CanonicalSets(ts)[i]) == Free(ts[i])
  {
    FreeOne(ts[i]);
    FreeOne(Apply(DistinctOf, [ts[i]]));
  }

  lemma FreeOfPair(ts: seq<Term>, i: nat)
    requires i < |ts| - 1
    ensures Free(AdjacentPairs(CanonicalSets(ts))[i]) == Free(ts[i]) + Free(ts[i + 1])
  {
    FreeOfCanonicalSet(ts, i);
    FreeOfCanonicalSet(ts, i + 1);
    FreeTwo(CanonicalSets(ts)[i], CanonicalSets(ts)[i + 1]);
  }

  lemma FreeOfSetEquals(ts: seq<Term>)
    requires |ts| > 1
    ensures Free(Chain(And, AdjacentPairs(CanonicalSets(ts)))) == FreeIn(ts)
  {
    var pairs := AdjacentPairs(CanonicalSets(ts));
    FreeOfChain(And, pairs);
    forall i: nat | i < |pairs|
      ensures Free(pairs[i]) <= FreeIn(ts)
    {
      FreeOfPair(ts, i);
      FreeOfEach(ts, i);
      FreeOfEach(ts, i + 1);
    }
    FreeWithin(pairs, FreeIn(ts));
    forall i: nat | i < |ts|
      ensures Free(ts[i]) <= FreeIn(pairs)
    {
      var j := if i < |pairs| then i else i - 1;
      FreeOfPair(ts, j);
      FreeOfEach(pairs, j);
    }
    FreeWithin(ts, FreeIn(pairs));
  }

  /** A built term uses what its operands use, no more and no less. */
  lemma FreeOfBuild(reg: Registry, op: Operator, ts: seq<Term>)
    requires Accepts(reg, op, |ts|)
    ensures Free(Build(reg, op, ts)) == FreeIn(ts)
  {
    match op
    case Call(_) =>
    case Add => FreeOfChain(Plus, ts);
    case Multiply => FreeOfChain(Times, ts);
    case Divide => FreeOfDivide(ts);
    case SetUnion => FreeOfChain(Union, ts);
    case SetIntersection => FreeOfChain(Intersect, ts);
    case SetDifference => FreeOne(Apply(Complement, ts));
    case SetEquals => FreeOfSetEquals(ts);
    case SetIsSubset => FreeOfSwapped(ts);
    case MergeObjects => FreeOfChain(Extend, ts);
    case MakeArray =>
  }

  lemma FreeOfDivide(ts: seq<Term>)
    requires |ts| == 2
    ensures Free(Apply(Over, [Apply(CastFloat, [ts[0]]), ts[1]])) == FreeIn(ts)
  {
    FreeOne(ts[0]);
    FreeTwo(Apply(CastFloat, [ts[0]]), ts[1]);
    FreeTwo(ts[0], ts[1]);
    assert ts == [ts[0], ts[1]];
  }

  lemma FreeOfSwapped(ts: seq<Term>)
    requires |ts| == 2
    ensures Free(Apply(ContainsAll, [ts[1], ts[0]])) == FreeIn(ts)
  {
    FreeTwo(ts[1], ts[0]);
    FreeTwo(ts[0], ts[1]);
    assert ts == [ts[0], ts[1]];
  }

  // Uses stay within those of the variables in scope.

  predicate WithinAt(track: Track, n: string, outer: set<nat>)
    requires n in track
  {
    track[n].uses <= outer
  }

  /** The variables' terms use parameters from `outer` only. */
  predicate Within(track: Track, outer: set<nat>) {
    forall n {:trigger WithinAt(track, n, outer)} :: n in track ==> WithinAt(track, n, outer)
  }

  lemma EnteredWithin(track: Track, alias: string, k: nat, outer: set<nat>)
    requires Within(track, outer)
    ensures Within(Entered(track, alias, k), outer + {k})
  {
    var inner := Entered(track, alias, k);
    forall n | n in inner
      ensures WithinAt(inner, n, outer + {k})
    {
      if n != alias {
        assert WithinAt(track, n, outer);
      }
    }
  }

  lemma EnteredTwoWithin(track: Track, a: string, b: string, k: nat, outer: set<nat>)
    requires Within(track, outer)
    ensures Within(EnteredTwo(track, a, b, k), outer + {k, k + 1})
  {
    EnteredWithin(track, a, k, outer);
    EnteredWithin(Entered(track, a, k), b, k + 1, outer + {k});
    assert outer + {k} + {k + 1} == outer + {k, k + 1};
  }

  lemma {:induction false} BindAllWithin(names: seq<string>, tracked: seq<Tracked>, track: Track, outer: set<nat>)
    requires |names| == |tracked| && Within(track, outer)
    requires forall i :: 0 <= i < |tracked| ==> tracked[i].uses <= outer
    ensures Within(BindAll(names, tracked, track), outer)
  {
    if names != [] {
      var inner := track[names[0] := tracked[0]];
      forall n | n in inner
        ensures WithinAt(inner, n, outer)
      {
        if n != names[0] {
          assert WithinAt(track, n, outer);
        }
      }
      BindAllWithin(names[1..], tracked[1..], inner, outer);
    }
  }

  /** An expression brings in no parameter of its own that stays free. */
  lemma {:induction false} UsesWithin(e: Expr, track: Track, outer: set<nat>)
    requires Within(track, outer)
    ensures Uses(e, track) <= outer
    decreases e, 1
  {
    match e
    case Field(_) =>
    case Variable(name) =>
      if name in track {
        assert WithinAt(track, name, outer);
      }
    case Literal(_) =>
    case Strict(_, args) => UsesAllWithin(args, track, outer);
    case Cond(test, yes, no) =>
      UsesWithin(test, track, outer);
      UsesWithin(yes, track, outer);
      UsesWithin(no, track, outer);
    case IfNull(args) => UsesAllWithin(args, track, outer);
    case Switch(branches, otherwise) =>
      UsesBranchesWithin(branches, track, outer);
      if otherwise.Some? {
        UsesWithin(otherwise.value, track, outer);
      }
    case MapOver(input, alias, body) =>
      UsesWithin(input, track, outer);
      UsesUnderWithin(body, alias, track, outer);
    case FilterOver(input, alias, body, limit) =>
      UsesWithin(input, track, outer);
      UsesUnderWithin(body, alias, track, outer);
      if limit.Some? {
        UsesWithin(limit.value, track, outer);
      }
    case Reduce(input, initial, body) =>
      UsesWithin(input, track, outer);
      UsesWithin(initial, track, outer);
      UsesUnderTwoWithin(body, "value", "this", track, outer);
    case Let(vars, body) =>
      UsesBindingsWithin(vars, track, outer);
      BindAllWithin(Names(vars), TrackBindings(vars, track), track, outer);
      UsesWithin(body, EnteredLet(vars, track), outer);
    case Document(fields) =>
      UsesBindingsWithin(fields, track, outer);
      UsesOfWithin(TrackBindings(fields, track), outer);
  }

  lemma {:induction false} UsesUnderWithin(body: Expr, alias: string, track: Track, outer: set<nat>)
    requires Within(track, outer)
    ensures UsesUnder(body, alias, track) <= outer
    decreases body, 2
  {
    EnteredWithin(track, alias, |track|, outer);
    UsesWithin(body, Entered(track, alias, |track|), outer + {|track|});
  }

  lemma {:induction false} UsesUnderTwoWithin(body: Expr, a: string, b: string, track: Track, outer: set<nat>)
    requires Within(track, outer)
    ensures UsesUnderTwo(body, a, b, track) <= outer
    decreases body, 2
  {
    EnteredTwoWithin(track, a, b, |track|, outer);
    UsesWithin(body, EnteredTwo(track, a, b, |track|), outer + {|track|, |track| + 1});
  }

  lemma {:induction false} UsesAllWithin(es: seq<Expr>, track: Track, outer: set<nat>)
    requires Within(track, outer)
    ensures UsesAll(es, track) <= outer
    decreases es, 0
  {
    if es != [] {
      UsesWithin(es[0], track, outer);
      UsesAllWithin(es[1..], track, outer);
    }
  }

  lemma {:induction false} UsesBindingsWithin(bs: seq<Binding>, track: Track, outer: set<nat>)
    requires Within(track, outer)
    ensures forall i :: 0 <= i < |bs| ==> TrackBindings(bs, track)[i].uses <= outer
    decreases bs, 0
  {
    if bs != [] {
      UsesWithin(bs[0].value, track, outer);
      UsesBindingsWithin(bs[1..], track, outer);
    }
  }

  lemma {:induction false} UsesOfWithin(ts: seq<Tracked>, outer: set<nat>)
    requires forall i :: 0 <= i < |ts| ==> ts[i].uses <= outer
    ensures UsesOf(ts) <= outer
  {
    if ts != [] {
      UsesOfWithin(ts[1..], outer);
    }
  }

  lemma {:induction false} UsesBranchesWithin(bs: seq<Branch>, track: Track, outer: set<nat>)
    requires Within(track, outer)
    ensures UsesBranches(bs, track) <= outer
    decreases bs, 0
  {
    if bs != [] {
      UsesBranchWithin(bs[0], track, outer);
      UsesBranchesWithin(bs[1..], track, outer);
    }
  }

  lemma {:induction false} UsesBranchWithin(b: Branch, track: Track, outer: set<nat>)
    requires Within(track, outer)
    ensures UsesBranch(b, track) <= outer
    decreases b, 0
  {
    UsesWithin(b.test, track, outer);
    UsesWithin(b.outcome, track, outer);
  }

  // The parameters of compiled expressions.

  predicate UsesAt(vars: Scope, n: string, outer: set<nat>)
    requires n in vars
  {
    Free(vars[n]) <= outer
  }

  /** The variables' terms use parameters from `outer` only. */
  predicate UsesOnly(vars: Scope, outer: set<nat>) {
    forall n {:trigger UsesAt(vars, n, outer)} :: n in vars ==> UsesAt(vars, n, outer)
  }

  /** A compiled expression uses only parameters the terms of its scope use. */
  lemma CompiledIsClosed(e: Expr, reg: Registry, plain: bool, vars: Scope, outer: set<nat>)
    requires UsesOnly(vars, outer) && Compile(e, reg, plain, vars).Success?
    ensures Free(Compile(e, reg, plain, vars).value) <= outer
  {
    var track: Track := map n | n in vars :: Tracked(Free(vars[n]), true);
    forall n | n in vars
      ensures TrackedAt(track, vars, n) && WithinAt(track, n, outer)
    {
      assert UsesAt(vars, n, outer);
    }
    CompiledUses(e, reg, plain, vars, track);
    UsesWithin(e, track, outer);
  }

  function Indices(n: nat): (r: set<nat>)
    ensures forall k: nat :: k in r <==> k < n
  {
    if n == 0 then {} else Indices(n - 1) + {n - 1}
  }

  predicate BelowAt(vars: Scope, n: string)
    requires n in vars
  {
    forall k :: k in Free(vars[n]) ==> k < |vars|
  }

  /** Every parameter a variable's term uses was numbered below the scope's size. */
  predicate Below(vars: Scope) {
    forall n {:trigger BelowAt(vars, n)} :: n in vars ==> BelowAt(vars, n)
  }

  /** Every parameter free in a compiled expression is numbered below the scope's size. */
  lemma CompiledIsBelow(e: Expr, reg: Registry, plain: bool, vars: Scope)
    requires Below(vars) && Compile(e, reg, plain, vars).Success?
    ensures forall k :: k in Free(Compile(e, reg, plain, vars).value) ==> k < |vars|
  {
    var outer := Indices(|vars|);
    forall n | n in vars
      ensures UsesAt(vars, n, outer)
    {
      assert BelowAt(vars, n);
    }
    CompiledIsClosed(e, reg, plain, vars, outer);
  }

  // Where no closure rebinds a name, none captures one.

  predicate FreshAt(track: Track, n: string)
    requires n in track
  {
    track[n].live && forall k :: k in track[n].uses ==> k < |track|
  }

  /** Every variable is live and was numbered below the track's size. */
  predicate Fresh(track: Track) {
    forall n {:trigger FreshAt(track, n)} :: n in track ==> FreshAt(track, n)
  }

  lemma EnteredFresh(track: Track, alias: string)
    requires Fresh(track) && alias !in track
    ensures Fresh(Entered(track, alias, |track|)) && |Entered(track, alias, |track|)| == |track| + 1
  {
    var inner := Entered(track, alias, |track|);
    assert |track.Keys + {alias}| == |track.Keys| + 1;
    assert |inner| == |inner.Keys|;
    forall n | n in inner
      ensures FreshAt(inner, n)
    {
      if n != alias {
        assert FreshAt(track, n);
      }
    }
  }

  lemma SubsetIsSmaller(a: set<string>, b: set<string>)
    requires a <= b
    ensures |a| <= |b|
  {
    assert b == a + (b - a);
  }

  lemma {:induction false} FaithfulAreLive(bs: seq<Binding>, track: Track)
    requires FaithfulBindings(bs, track)
    ensures forall i :: 0 <= i < |bs| ==> TrackBindings(bs, track)[i].live
    decreases bs
  {
    if bs != [] {
      FaithfulAreLive(bs[1..], track);
    }
  }

  lemma LetFresh(bs: seq<Binding>, track: Track)
    requires Fresh(track) && FaithfulBindings(bs, track)
    ensures Fresh(EnteredLet(bs, track)) && EnteredLet(bs, track).Keys == track.Keys + Introduced(bs)
  {
    var outer, tracked := Indices(|track|), TrackBindings(bs, track);
    forall n | n in track
      ensures WithinAt(track, n, outer)
    {
      assert FreshAt(track, n);
    }
    UsesBindingsWithin(bs, track, outer);
    BindAllKeys(Names(bs), tracked, track);
    var inner := BindAll(Names(bs), tracked, track);
    SubsetIsSmaller(track.Keys, inner.Keys);
    assert |track| == |track.Keys| && |inner| == |inner.Keys|;
    BindAllWithin(Names(bs), tracked, track, outer);
    FaithfulAreLive(bs, track);
    BindAllLive(Names(bs), tracked, track);
    forall n | n in inner
      ensures FreshAt(inner, n)
    {
      assert WithinAt(inner, n, outer);
    }
  }

  lemma {:induction false} BindAllLive(names: seq<string>, tracked: seq<Tracked>, track: Track)
    requires |names| == |tracked| && Fresh(track) && forall i :: 0 <= i < |tracked| ==> tracked[i].live
    ensures forall n :: n in BindAll(names, tracked, track) ==> BindAll(names, tracked, track)[n].live
  {
    forall n | n in track
      ensures track[n].live
    {
      assert FreshAt(track, n);
    }
    LiveStays(names, tracked, track);
  }

  lemma {:induction false} LiveStays(names: seq<string>, tracked: seq<Tracked>, track: Track)
    requires |names| == |tracked| && forall i :: 0 <= i < |tracked| ==> tracked[i].live
    requires forall n :: n in track ==> track[n].live
    ensures forall n :: n in BindAll(names, tracked, track) ==> BindAll(names, tracked, track)[n].live
  {
    if names != [] {
      LiveStays(names[1..], tracked[1..], track[names[0] := tracked[0]]);
    }
  }

  /** The simpler discipline, no closure rebinding a name in scope, is enough. */
  lemma {:induction false} HygienicIsUncaptured(e: Expr, plain: bool, track: Track)
    requires Fresh(track) && Hygienic(e, plain, track.Keys)
    ensures Uncaptured(e, plain, track)
    decreases e, 1
  {
    match e
    case Field(_) =>
    case Variable(name) =>
      if name in track {
        assert FreshAt(track, name);
      }
    case Literal(_) =>
    case Strict(_, args) => HygienicAllUncaptured(args, plain, track);
    case Cond(test, yes, no) =>
      HygienicIsUncaptured(test, plain, track);
      HygienicIsUncaptured(yes, plain, track);
      HygienicIsUncaptured(no, plain, track);
    case IfNull(args) => HygienicAllUncaptured(args, plain, track);
    case Switch(branches, otherwise) =>
      HygienicBranchesUncaptured(branches, plain, track);
      if otherwise.Some? {
        HygienicIsUncaptured(otherwise.value, plain, track);
      }
    case MapOver(input, alias, body) =>
      HygienicIsUncaptured(input, plain, track);
      HygienicUnder(body, alias, plain, track);
    case FilterOver(input, alias, body, limit) =>
      HygienicIsUncaptured(input, plain, track);
      HygienicUnder(body, alias, plain, track);
      if limit.Some? {
        HygienicIsUncaptured(limit.value, plain, track);
      }
    case Reduce(input, initial, body) =>
      HygienicIsUncaptured(input, plain, track);
      HygienicIsUncaptured(initial, plain, track);
      HygienicUnderTwo(body, "value", "this", plain, track);
    case Let(vars, body) =>
      HygienicBindingsUncaptured(vars, plain, track);
      LetFresh(vars, track);
      HygienicIsUncaptured(body, plain, EnteredLet(vars, track));
    case Document(fields) => HygienicBindingsUncaptured(fields, plain, track);
  }

  lemma {:induction false} HygienicUnder(body: Expr, alias: string, plain: bool, track: Track)
    requires Fresh(track) && alias !in track && Hygienic(body, plain, track.Keys + {alias})
    ensures UncapturedUnder(body, alias, plain, track)
    decreases body, 2
  {
    EnteredFresh(track, alias);
    HygienicIsUncaptured(body, plain, Entered(track, alias, |track|));
  }

  lemma EnteredTwoKeys(track: Track, a: string, b: string, k: nat)
    ensures EnteredTwo(track, a, b, k).Keys == track.Keys + {a, b}
  {
    assert track.Keys + {a} + {b} == track.Keys + {a, b};
  }

  lemma EnteredTwoFresh(track: Track, a: string, b: string)
    requires Fresh(track) && a !in track && b !in track && a != b
    ensures Fresh(EnteredTwo(track, a, b, |track|))
  {
    EnteredFresh(track, a);
    EnteredFresh(Entered(track, a, |track|), b);
  }

  lemma {:induction false} HygienicUnderTwo(body: Expr, a: string, b: string, plain: bool, track: Track)
    requires Fresh(track) && a !in track && b !in track && a != b && Hygienic(body, plain, track.Keys + {a, b})
    ensures UncapturedUnderTwo(body, a, b, plain, track)
    decreases body, 2
  {
    EnteredTwoFresh(track, a, b);
    EnteredTwoKeys(track, a, b, |track|);
    HygienicIsUncaptured(body, plain, EnteredTwo(track, a, b, |track|));
  }

  lemma {:induction false} HygienicAllUncaptured(es: seq<Expr>, plain: bool, track: Track)
    requires Fresh(track) && HygienicAll(es, plain, track.Keys)
    ensures UncapturedAll(es, plain, track)
    decreases es, 0
  {
    if es != [] {
      HygienicIsUncaptured(es[0], plain, track);
      HygienicAllUncaptured(es[1..], plain, track);
    }
  }

  lemma {:induction false} HygienicBindingsUncaptured(bs: seq<Binding>, plain: bool, track: Track)
    requires Fresh(track) && HygienicBindings(bs, plain, track.Keys)
    ensures UncapturedBindings(bs, plain, track)
    decreases bs, 0
  {
    if bs != [] {
      HygienicIsUncaptured(bs[0].value, plain, track);
      HygienicBindingsUncaptured(bs[1..], plain, track);
    }
  }

  lemma {:induction false} HygienicBranchesUncaptured(bs: seq<Branch>, plain: bool, track: Track)
    requires Fresh(track) && HygienicBranches(bs, plain, track.Keys)
    ensures UncapturedBranches(bs, plain, track)
    decreases bs, 0
  {
    if bs != [] {
      HygienicBranchUncaptured(bs[0], plain, track);
      HygienicBranchesUncaptured(bs[1..], plain, track);
    }
  }

  lemma {:induction false} HygienicBranchUncaptured(b: Branch, plain: bool, track: Track)
    requires Fresh(track) && HygienicBranch(b, plain, track.Keys)
    ensures UncapturedBranch(b, plain, track)
    decreases b, 0
  {
    HygienicIsUncaptured(b.test, plain, track);
    HygienicIsUncaptured(b.outcome, plain, track);
  }
}
