/** Ownership of type-erased handlers: `any_completion_handler`. */
module CompletionHandlers {

  /** `fn_table_` and `impl_`, with 0 for null. A table stands for the type of handler it
      was made for, an impl for one handler object on the heap. */
  datatype Pointers = Pointers(table: nat, impl: nat)

  const EMPTY: Pointers := Pointers(0, 0)

  /** What the world sees: a handler object destroyed and its storage freed, or a
      handler function run. */
  datatype Happening = Freed(impl: nat) | Ran(impl: nat)

  /** All wrappers by identity, the type of every handler object ever made, and what
      happened. */
  datatype World = World(wrappers: map<nat, Pointers>, types: map<nat, nat>, trace: seq<Happening>)

  /** `~any_completion_handler`: the target goes with the wrapper. */
  function Destroyed(p: Pointers, trace: seq<Happening>): seq<Happening> {
    if p.impl != 0 then trace + [Freed(p.impl)] else trace
  }

  datatype Operation =
    | MakeEmpty(w: nat)
    | Make(w: nat, kind: nat, impl: nat)
    | MoveConstruct(w: nat, other: nat)
    | MoveAssign(w: nat, other: nat)
    | Reset(w: nat)
    | Swap(w: nat, other: nat)
    | Call(w: nat)
    | Destroy(w: nat)

  /** New wrappers have new identities; a new handler object is where none has been. */
  predicate Possible(s: World, op: Operation) {
    match op
    case MakeEmpty(w) => w !in s.wrappers
    case Make(w, kind, impl) => w !in s.wrappers && impl !in s.types && impl != 0 && kind != 0
    case MoveConstruct(w, other) => w !in s.wrappers && other in s.wrappers
    case MoveAssign(w, other) => w in s.wrappers && other in s.wrappers
    case Reset(w) => w in s.wrappers
    case Swap(w, other) => w in s.wrappers && other in s.wrappers
    case Call(w) => w in s.wrappers
    case Destroy(w) => w in s.wrappers
  }

  /** The operations. A move assignment moves `other` into a temporary, swaps that with
      the target, and destroys it; a call empties the wrapper's `impl_` only, frees
      the object, and then runs the function it moved out. */
  function Step(s: World, op: Operation): World
    requires Possible(s, op)
  {
    match op
    case MakeEmpty(w) => s.(wrappers := s.wrappers[w := EMPTY])
    case Make(w, kind, impl) =>
      s.(wrappers := s.wrappers[w := Pointers(kind, impl)], types := s.types[impl := kind])
    case MoveConstruct(w, other) => s.(wrappers := s.wrappers[w := s.wrappers[other]][other := EMPTY])
    case MoveAssign(w, other) =>
      var temporary := s.wrappers[other];
      var emptied := s.wrappers[other := EMPTY];
      s.(wrappers := emptied[w := temporary], trace := Destroyed(emptied[w], s.trace))
    case Reset(w) => s.(wrappers := s.wrappers[w := EMPTY], trace := Destroyed(s.wrappers[w], s.trace))
    case Swap(w, other) => s.(wrappers := s.wrappers[w := s.wrappers[other]][other := s.wrappers[w]])
    case Call(w) =>
      var p := s.wrappers[w];
      if p.impl == 0 then s
      else World(s.wrappers[w := Pointers(p.table, 0)], s.types, s.trace + [Freed(p.impl), Ran(p.impl)])
    case Destroy(w) => World(s.wrappers - {w}, s.types, Destroyed(s.wrappers[w], s.trace))
  }

  ghost predicate Owns(s: World, w: nat, impl: nat) {
    w in s.wrappers && impl != 0 && s.wrappers[w].impl == impl
  }

  ghost predicate IsOwned(s: World, impl: nat) {
    exists w :: Owns(s, w, impl)
  }

  ghost predicate IsFreed(s: World, impl: nat) {
    Freed(impl) in s.trace
  }

  /** Linear ownership. */
  ghost predicate Linear(s: World) {
    && 0 !in s.types
    && (forall v, w, impl :: Owns(s, v, impl) && Owns(s, w, impl) ==> v == w)
    && (forall w, impl :: Owns(s, w, impl) ==>
          impl in s.types && s.wrappers[w].table == s.types[impl] && !IsFreed(s, impl))
    && (forall impl :: impl in s.types ==> IsFreed(s, impl) || IsOwned(s, impl))
    && Orderly(s)
  }

  /** Everything happens at most once, and a function runs right after its object was freed. */
  ghost predicate Orderly(s: World) {
    && (forall i :: 0 <= i < |s.trace| ==> s.trace[i].impl in s.types)
    && (forall i, j :: 0 <= i < j < |s.trace| ==> s.trace[i] != s.trace[j])
    && (forall i :: 0 <= i < |s.trace| && s.trace[i].Ran? ==> i > 0 && s.trace[i - 1] == Freed(s.trace[i].impl))
  }

  /** Who owns what `w` owned before. */
  ghost function NewOwner(op: Operation, w: nat): nat {
    match op
    case MoveConstruct(v, other) => if w == other then v else w
    case MoveAssign(v, other) => if w == other then v else w
    case Swap(v, other) => if w == other then v else if w == v then other else w
    case _ => w
  }

  lemma TraceGrows(s: World, op: Operation)
    requires Possible(s, op)
    ensures s.trace <= Step(s, op).trace
    ensures forall impl :: IsFreed(s, impl) ==> IsFreed(Step(s, op), impl)
  {
    var t := Step(s, op);
    forall impl | IsFreed(s, impl) ensures IsFreed(t, impl) {
      var i :| 0 <= i < |s.trace| && s.trace[i] == Freed(impl);
      assert t.trace[i] == Freed(impl);
    }
  }

  /** Nothing loses its owner without being freed. */
  lemma OwnershipPasses(s: World, op: Operation, w: nat, impl: nat)
    requires Linear(s) && Possible(s, op) && Owns(s, w, impl)
    ensures Owns(Step(s, op), NewOwner(op, w), impl) || IsFreed(Step(s, op), impl)
  {
    var t := Step(s, op);
    if !Owns(t, NewOwner(op, w), impl) {
      assert t.trace[|s.trace|] == Freed(impl);
    }
  }

  /** Nothing gets a second owner, and nothing freed gets one. */
  lemma OwnershipComes(s: World, op: Operation, w: nat, impl: nat)
    requires Linear(s) && Possible(s, op) && Owns(Step(s, op), w, impl)
    ensures (exists v :: Owns(s, v, impl) && NewOwner(op, v) == w) || (op.Make? && op.w == w && op.impl == impl)
    ensures !IsFreed(Step(s, op), impl) && impl in Step(s, op).types
    ensures Step(s, op).wrappers[w].table == Step(s, op).types[impl]
  {
    var t := Step(s, op);
    if !(op.Make? && op.w == w) {
      var v := match op
        case MoveConstruct(x, other) => if w == x then other else w
        case MoveAssign(x, other) => if w == x then other else w
        case Swap(x, other) => if w == x then other else if w == other then x else w
        case _ => w;
      assert Owns(s, v, impl);
      assert NewOwner(op, v) == w;
      if t.trace != s.trace {
        assert Owns(s, op.w, t.trace[|s.trace|].impl);
        assert t.trace[..|s.trace|] == s.trace;
      }
    }
  }

  lemma OrderlyStep(s: World, op: Operation)
    requires Linear(s) && Possible(s, op)
    ensures Orderly(Step(s, op))
  {
    var t := Step(s, op);
    if t.trace != s.trace {
      var impl := t.trace[|s.trace|].impl;
      assert IsOwnedBefore(s, impl) by {
        match op
        case MoveAssign(w, _) => assert Owns(s, w, impl);
        case Reset(w) => assert Owns(s, w, impl);
        case Call(w) => assert Owns(s, w, impl);
        case Destroy(w) => assert Owns(s, w, impl);
        case _ =>
      }
      forall i | 0 <= i < |s.trace| ensures s.trace[i].impl != impl {
        if s.trace[i].Ran? {
          assert s.trace[i - 1] == Freed(s.trace[i].impl);
        }
      }
    }
  }

  ghost predicate IsOwnedBefore(s: World, impl: nat) {
    IsOwned(s, impl) && impl in s.types && !IsFreed(s, impl)
  }

  lemma StepLinear(s: World, op: Operation)
    requires Linear(s) && Possible(s, op)
    ensures Linear(Step(s, op))
  {
    var t := Step(s, op);
    TraceGrows(s, op);
    OrderlyStep(s, op);
    forall v, w, impl | Owns(t, v, impl) && Owns(t, w, impl) ensures v == w {
      OwnershipComes(s, op, v, impl);
      OwnershipComes(s, op, w, impl);
    }
    forall w, impl | Owns(t, w, impl)
      ensures impl in t.types && t.wrappers[w].table == t.types[impl] && !IsFreed(t, impl)
    {
      OwnershipComes(s, op, w, impl);
    }
    forall impl | impl in t.types ensures IsFreed(t, impl) || IsOwned(t, impl) {
      if op.Make? && op.impl == impl {
        assert Owns(t, op.w, impl);
      } else if !IsFreed(s, impl) {
        var w :| Owns(s, w, impl);
        OwnershipPasses(s, op, w, impl);
      }
    }
  }

  // ---- What each operation does ----

  /** The operations that let go of what their wrapper owns. */
  predicate Releases(op: Operation) {
    op.Reset? || op.Call? || op.Destroy? || (op.MoveAssign? && op.w != op.other)
  }

  predicate Constructs(op: Operation) {
    op.MakeEmpty? || op.Make? || op.MoveConstruct?
  }

  /** What happens: the object let go of is freed, and after a call it is also run. */
  ghost predicate Happens(s: World, op: Operation, trace: seq<Happening>) {
    && (forall impl :: Releases(op) && Owns(s, op.w, impl) ==>
          trace == s.trace + if op.Call? then [Freed(impl), Ran(impl)] else [Freed(impl)])
    && ((!Releases(op) || forall impl :: !Owns(s, op.w, impl)) ==> trace == s.trace)
  }

  /** Who owns what afterwards: a new object has its wrapper, and every other object passes
      to its new owner, unless its wrapper let go of it. */
  ghost predicate Passes(s: World, op: Operation, t: World) {
    forall v, impl :: Owns(t, v, impl) <==>
                        || (op.Make? && op.w == v && op.impl == impl)
                        || exists u :: Owns(s, u, impl) && NewOwner(op, u) == v && !(Releases(op) && u == op.w)
  }

  lemma HappensExactly(s: World, op: Operation)
    requires Possible(s, op)
    ensures Happens(s, op, Step(s, op).trace)
  {
    if Releases(op) && s.wrappers[op.w].impl != 0 {
      assert Owns(s, op.w, s.wrappers[op.w].impl);
    }
  }

  lemma PassesExactly(s: World, op: Operation)
    requires Possible(s, op)
    ensures Passes(s, op, Step(s, op))
    ensures Step(s, op).wrappers.Keys ==
            if Constructs(op) then s.wrappers.Keys + {op.w} else if op.Destroy? then s.wrappers.Keys - {op.w}
            else s.wrappers.Keys
  {
    var t := Step(s, op);
    forall v, impl | Owns(t, v, impl) && !(op.Make? && op.w == v && op.impl == impl)
      ensures exists u :: Owns(s, u, impl) && NewOwner(op, u) == v && !(Releases(op) && u == op.w)
    {
      var u := match op
        case MoveConstruct(x, other) => if v == x then other else v
        case MoveAssign(x, other) => if v == x then other else v
        case Swap(x, other) => if v == x then other else if v == other then x else v
        case _ => v;
      assert Owns(s, u, impl) && NewOwner(op, u) == v;
    }
  }

  /** In this sequence of operations a wrapper is called while it owns the object. */
  ghost predicate Called(s: World, ops: seq<Operation>, impl: nat)
    decreases |ops|
  {
    && ops != [] && Possible(s, ops[0])
    && ((ops[0].Call? && Owns(s, ops[0].w, impl)) || Called(Step(s, ops[0]), ops[1..], impl))
  }

  lemma RanByStep(s: World, op: Operation, impl: nat)
    requires Possible(s, op)
    ensures Ran(impl) in Step(s, op).trace <==> Ran(impl) in s.trace || (op.Call? && Owns(s, op.w, impl))
  {
    HappensExactly(s, op);
    var t := Step(s, op);
    hide Step, Possible;
    if Releases(op) && exists other :: Owns(s, op.w, other) {
      var other :| Owns(s, op.w, other);
      assert t.trace == s.trace + if op.Call? then [Freed(other), Ran(other)] else [Freed(other)];
      assert Owns(s, op.w, impl) <==> impl == other;
    }
  }

  /** Handlers run exactly when they are called: a function has been run if and only if
      some operation was a call of a wrapper that owned it then. */
  lemma {:induction false} RunsExactlyWhenCalled(s: World, ops: seq<Operation>, t: World, impl: nat)
    requires Leads(s, ops, t)
    ensures Ran(impl) in t.trace <==> Ran(impl) in s.trace || Called(s, ops, impl)
    decreases |ops|
  {
    hide Step, Possible;
    if ops != [] {
      RanByStep(s, ops[0], impl);
      RunsExactlyWhenCalled(Step(s, ops[0]), ops[1..], t, impl);
    }
  }

  ghost predicate Leads(s: World, ops: seq<Operation>, t: World)
    decreases |ops|
  {
    if ops == [] then t == s else Possible(s, ops[0]) && Leads(Step(s, ops[0]), ops[1..], t)
  }

  lemma {:induction false} LeadsLinear(s: World, ops: seq<Operation>, t: World)
    requires Linear(s) && Leads(s, ops, t)
    ensures Linear(t)
    decreases |ops|
  {
    hide Linear, Step;
    if ops != [] {
      StepLinear(s, ops[0]);
      LeadsLinear(Step(s, ops[0]), ops[1..], t);
    }
  }

  /** Over every sequence of constructions, moves, assignments, swaps, calls and
      destructions: no two wrappers own the same object; every object ever made is
      owned by one or was destroyed, not both; each is destroyed at most once and
      its function runs at most once, immediately after its storage was freed; and
      a wrapper always calls through the table of the object it owns. */
  lemma LinearOwnership(ops: seq<Operation>, t: World)
    requires Leads(World(map[], map[], []), ops, t)
    ensures forall v, w, impl :: Owns(t, v, impl) && Owns(t, w, impl) ==> v == w
    ensures forall impl :: impl in t.types ==> (IsOwned(t, impl) <==> !IsFreed(t, impl))
    ensures forall w, impl :: Owns(t, w, impl) ==> impl in t.types && t.wrappers[w].table == t.types[impl]
    ensures Orderly(t)
  {
    LeadsLinear(World(map[], map[], []), ops, t);
  }

  /** When every wrapper is gone, every handler object has been destroyed. */
  lemma NoLeaks(ops: seq<Operation>, t: World, impl: nat)
    requires Leads(World(map[], map[], []), ops, t) && t.wrappers == map[] && impl in t.types
    ensures IsFreed(t, impl)
  {
    LinearOwnership(ops, t);
    assert forall w :: !Owns(t, w, impl);
  }

  // ---- As the class does it ----

  class AnyCompletionHandler {
    var fnTable: nat
    var impl: nat

    ghost function Abs(): Pointers
      reads this
    {
      Pointers(fnTable, impl)
    }

    constructor ()
      ensures Abs() == EMPTY
    {
      fnTable, impl := 0, 0;
    }

    /** A wrapper for a new handler object. */
    constructor Of(kind: nat, target: nat)
      ensures Abs() == Pointers(kind, target)
    {
      fnTable, impl := kind, target;
    }

    constructor MoveFrom(other: AnyCompletionHandler)
      modifies other
      ensures Abs() == old(other.Abs()) && other.Abs() == EMPTY
    {
      fnTable, impl := other.fnTable, other.impl;
      new;
      other.fnTable, other.impl := 0, 0;
    }

    method Swap(other: AnyCompletionHandler)
      modifies this, other
      ensures Abs() == old(other.Abs()) && other.Abs() == old(Abs())
    {
      var table, target := fnTable, impl;
      fnTable, impl := other.fnTable, other.impl;
      other.fnTable, other.impl := table, target;
    }

    /** The object the destructor destroys, 0 if none. */
    method Destroy() returns (doomed: nat)
      ensures doomed == impl
    {
      doomed := impl;
    }

    /** Move assignment, also from itself. `doomed` goes with the temporary. */
    method Assign(other: AnyCompletionHandler) returns (doomed: nat)
      modifies this, other
      ensures Abs() == old(other.Abs())
      ensures other != this ==> other.Abs() == EMPTY && doomed == old(impl)
      ensures other == this ==> doomed == 0
    {
      var temporary := new AnyCompletionHandler.MoveFrom(other);
      temporary.Swap(this);
      doomed := temporary.Destroy();
    }

    /** `operator()`: the object that is called, 0 for `bad_function_call`. */
    method Call() returns (target: nat)
      modifies this`impl
      ensures target == old(impl) && Abs() == Pointers(old(fnTable), 0)
    {
      target := impl;
      if impl != 0 {
        impl := 0;
      }
    }
  }

  /** All wrappers of a program. Operations go through the objects above, and `Perform`
      shows that together they do what `Step` says, so that linear ownership is a
      property of the objects. */
  class Program {
    var objects: map<nat, AnyCompletionHandler>
    ghost var types: map<nat, nat>
    ghost var trace: seq<Happening>

    ghost predicate Valid()
      reads this
    {
      forall v, w :: v in objects && w in objects && v != w ==> objects[v] != objects[w]
    }

    ghost function Abs(): World
      reads this, objects.Values
    {
      World(map w | w in objects :: objects[w].Abs(), types, trace)
    }

    constructor ()
      ensures Valid() && Abs() == World(map[], map[], [])
    {
      objects, types, trace := map[], map[], [];
    }

    /** What a destructor that found `doomed` does to the handler object. */
    ghost method Note(doomed: nat)
      modifies this`trace
      ensures trace == if doomed != 0 then old(trace) + [Freed(doomed)] else old(trace)
    {
      if doomed != 0 {
        trace := trace + [Freed(doomed)];
      }
    }

    method Insert(w: nat, wrapper: AnyCompletionHandler)
      requires Valid() && w !in objects && wrapper !in objects.Values
      modifies this`objects
      ensures Valid() && objects == old(objects)[w := wrapper]
      ensures Abs() == old(Abs()).(wrappers := old(Abs()).wrappers[w := wrapper.Abs()])
    {
      forall v | v in objects ensures objects[v] != wrapper {
        assert objects[v] in objects.Values;
      }
      objects := objects[w := wrapper];
    }

    method PerformMakeEmpty(op: Operation)
      requires Valid() && Possible(Abs(), op) && op.MakeEmpty?
      modifies this, objects.Values
      ensures Valid() && Abs() == Step(old(Abs()), op)
    {
      var wrapper := new AnyCompletionHandler();
      Insert(op.w, wrapper);
    }

    method PerformMake(op: Operation)
      requires Valid() && Possible(Abs(), op) && op.Make?
      modifies this, objects.Values
      ensures Valid() && Abs() == Step(old(Abs()), op)
    {
      var wrapper := new AnyCompletionHandler.Of(op.kind, op.impl);
      Insert(op.w, wrapper);
      types := types[op.impl := op.kind];
    }

    method PerformMoveConstruct(op: Operation)
      requires Valid() && Possible(Abs(), op) && op.MoveConstruct?
      modifies this, objects.Values
      ensures Valid() && Abs() == Step(old(Abs()), op)
    {
      assert objects[op.other] in objects.Values;
      var wrapper := new AnyCompletionHandler.MoveFrom(objects[op.other]);
      Insert(op.w, wrapper);
    }

    method PerformMoveAssign(op: Operation)
      requires Valid() && Possible(Abs(), op) && op.MoveAssign?
      modifies this, objects.Values
      ensures Valid() && Abs() == Step(old(Abs()), op)
    {
      assert objects[op.w] in objects.Values && objects[op.other] in objects.Values;
      var doomed := objects[op.w].Assign(objects[op.other]);
      Note(doomed);
    }

    method PerformReset(op: Operation)
      requires Valid() && Possible(Abs(), op) && op.Reset?
      modifies this, objects.Values
      ensures Valid() && Abs() == Step(old(Abs()), op)
    {
      assert objects[op.w] in objects.Values;
      var empty := new AnyCompletionHandler();
      var doomed := objects[op.w].Assign(empty);
      Note(doomed);
    }

    method PerformSwap(op: Operation)
      requires Valid() && Possible(Abs(), op) && op.Swap?
      modifies this, objects.Values
      ensures Valid() && Abs() == Step(old(Abs()), op)
    {
      assert objects[op.w] in objects.Values && objects[op.other] in objects.Values;
      objects[op.w].Swap(objects[op.other]);
    }

    method PerformCall(op: Operation)
      requires Valid() && Possible(Abs(), op) && op.Call?
      modifies this, objects.Values
      ensures Valid() && Abs() == Step(old(Abs()), op)
      ensures forall impl :: old(Owns(Abs(), op.w, impl)) ==> trace == old(trace) + [Freed(impl), Ran(impl)]
    {
      assert objects[op.w] in objects.Values;
      var target := objects[op.w].Call();
      if target != 0 {
        trace := trace + [Freed(target), Ran(target)];
      }
    }

    method PerformDestroy(op: Operation)
      requires Valid() && Possible(Abs(), op) && op.Destroy?
      modifies this, objects.Values
      ensures Valid() && Abs() == Step(old(Abs()), op)
    {
      var doomed := objects[op.w].Destroy();
      Note(doomed);
      objects := objects - {op.w};
    }

    /** Any operation: objects are freed and run as they should be, ownership passes as it
        should, and stays linear. */
    method Perform(op: Operation)
      requires Valid() && Possible(Abs(), op) && Linear(Abs())
      modifies this, objects.Values
      ensures Valid() && Abs() == Step(old(Abs()), op) && Linear(Abs())
      ensures Happens(old(Abs()), op, trace) && Passes(old(Abs()), op, Abs())
    {
      StepLinear(Abs(), op);
      HappensExactly(Abs(), op);
      PassesExactly(Abs(), op);
      hide Step, Linear, Happens, Passes;
      match op
      case MakeEmpty(_) => PerformMakeEmpty(op);
      case Make(_, _, _) => PerformMake(op);
      case MoveConstruct(_, _) => PerformMoveConstruct(op);
      case MoveAssign(_, _) => PerformMoveAssign(op);
      case Reset(_) => PerformReset(op);
      case Swap(_, _) => PerformSwap(op);
      case Call(_) => PerformCall(op);
      case Destroy(_) => PerformDestroy(op);
    }
  }
}
