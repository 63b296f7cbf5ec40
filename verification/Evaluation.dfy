/**
 * Evaluation of AML expressions: the end-op callback of the dispatcher run in post-order over a
 * chunked result stack, against a recursive evaluator (dep/acpica/dispatcher/dswexec.c, dsutils.c,
 * dswstate.c).
 */
module Evaluation {
  import opened MachineWords
  import opened Wrappers

  // ----- Parse trees and their meaning

  datatype Value = Integer(n: uint64) | Object(id: int)

  /** Constants, and execute-class operators that return a result. */
  datatype ParseOp = Constant(value: Value) | Execute(opcode: int, args: seq<ParseOp>)

  /** The state that operators read and change: named objects, locals and arguments, by some numbering. */
  type Store = map<int, Value>

  /**
   * What the operator handlers do: operand resolution and the operation itself, with its effect on the store; None is a
   * failing status.
   */
  type Handlers = (int, seq<Value>, Store) -> Option<(Value, Store)>

  /** Results are cut to 32 bits when the table's integers are that wide. */
  function Truncate(narrow: bool, v: Value): Value {
    if narrow && v.Integer? && v.n >= TWO32 then Integer(v.n % TWO32) else v
  }

  /** The value of a tree and the store it leaves: arguments from left to right, then the operator. */
  function Eval(handlers: Handlers, narrow: bool, op: ParseOp, store: Store): Option<(Value, Store)>
    decreases op
  {
    match op
    case Constant(v) => Some((v, store))
    case Execute(opcode, args) =>
      match EvalAll(handlers, narrow, args, store)
      case None => None
      case Some((values, between)) =>
        match handlers(opcode, values, between)
        case None => None
        case Some((v, after)) => Some((Truncate(narrow, v), after))
  }

  function EvalAll(handlers: Handlers, narrow: bool, args: seq<ParseOp>,
                   store: Store): (out: Option<(seq<Value>, Store)>)
    ensures out.Some? ==> |out.value.0| == |args|
    decreases args
  {
    if args == [] then Some(([], store))
    else
      var n := |args| - 1;
      match EvalAll(handlers, narrow, args[..n], store)
      case None => None
      case Some((values, between)) =>
        match Eval(handlers, narrow, args[n], between)
        case None => None
        case Some((v, after)) => Some((values + [v], after))
  }

  /**
   * Result `r` stands for `v`: the same on a table of 64-bit integers and for an object; with 32-bit integers a number
   * of that width, congruent to `v`.
   */
  ghost predicate Represents(narrow: bool, r: Value, v: Value) {
    if narrow && v.Integer? then r.Integer? && r.n < TWO32 && exists q: nat :: v.n == r.n + q * TWO32
    else r == v
  }

  /** Every operator's value represents what its handler made of the values of its arguments. */
  ghost predicate IsResultOf(handlers: Handlers, narrow: bool, op: ParseOp, store: Store, r: Value)
    requires op.Execute?
  {
    var ran := EvalAll(handlers, narrow, op.args, store);
    && ran.Some?
    && var done := handlers(op.opcode, ran.value.0, ran.value.1);
       done.Some? && Represents(narrow, r, done.value.0)
  }

  lemma EvalRepresents(handlers: Handlers, narrow: bool, op: ParseOp, store: Store)
    requires op.Execute? && Eval(handlers, narrow, op, store).Some?
    ensures IsResultOf(handlers, narrow, op, store, Eval(handlers, narrow, op, store).value.0)
  {
    var ran := EvalAll(handlers, narrow, op.args, store).value;
    var v := handlers(op.opcode, ran.0, ran.1).value.0;
    if narrow && v.Integer? {
      assert v.n == v.n % TWO32 + (v.n / TWO32) * TWO32;
    }
  }

  const NUM_OPERANDS := 8
  const FRAME := 8
  const RESULTS_MAX := 255

  /** Whole frames only: the most results that ever fit. */
  const CAPACITY := RESULTS_MAX / FRAME * FRAME

  /** No operator has more arguments than the operand array holds. */
  predicate Narrow(op: ParseOp)
    decreases op
  {
    op.Execute? ==> |op.args| <= NUM_OPERANDS && forall arg :: arg in op.args ==> Narrow(arg)
  }

  /** How many results the arguments leave on the stack. */
  function Pending(args: seq<ParseOp>): nat {
    if args == [] then 0 else Pending(args[..|args| - 1]) + if args[|args| - 1].Execute? then 1 else 0
  }

  /** The most result slots in use at once while the tree is evaluated. */
  function Depth(op: ParseOp): nat
    decreases op
  {
    if op.Constant? then 0 else Max(DepthAll(op.args), 1)
  }

  function DepthAll(args: seq<ParseOp>): nat
    decreases args
  {
    if args == [] then 0
    else
      var n := |args| - 1;
      Max(DepthAll(args[..n]), Pending(args[..n]) + Depth(args[n]))
  }

  function Max(a: nat, b: nat): nat {
    if a < b then b else a
  }

  // ----- The stack machine

  /** Takes the operands off the result stack, last argument first; constants are made on the spot. */
  function Collect(args: seq<ParseOp>, stack: seq<Value>): (out: Option<(seq<Value>, seq<Value>)>)
    ensures out.Some? ==> |out.value.0| == |args|
  {
    if args == [] then Some(([], stack))
    else
      var n, top := |args| - 1, |stack| - 1;
      if args[n].Execute? && stack == [] then None
      else
        var rest := Collect(args[..n], if args[n].Execute? then stack[..top] else stack);
        if rest.None? then None
        else Some((rest.value.0 + [if args[n].Execute? then stack[top] else args[n].value], rest.value.1))
  }

  /** The result stack and the store. */
  datatype Machine = Machine(stack: seq<Value>, store: Store)

  /** The operator applied to the operands it takes off the stack: its result, before that is pushed. */
  function Operated(handlers: Handlers, op: ParseOp, m: Machine): Option<(Value, Machine)>
    requires op.Execute?
  {
    if |op.args| > NUM_OPERANDS then None
    else
      match Collect(op.args, m.stack)
      case None => None
      case Some((operands, rest)) =>
        match handlers(op.opcode, operands, m.store)
        case None => None
        case Some((v, after)) => Some((v, Machine(rest, after)))
  }

  /** One run of the end-op callback. */
  function EndOp(handlers: Handlers, narrow: bool, op: ParseOp, used: bool, m: Machine): Option<Machine> {
    if op.Constant? then Some(m)
    else
      match Operated(handlers, op, m)
      case None => None
      case Some((v, rest)) =>
        if |rest.stack| >= CAPACITY then None
        else if used then Some(rest.(stack := rest.stack + [Truncate(narrow, v)]))
        else Some(rest)
  }

  /** What is left of the stack when the operator has failed, or its operands could not be had. */
  function Drained(op: ParseOp, stack: seq<Value>): seq<Value>
    requires op.Execute?
  {
    if |op.args| > NUM_OPERANDS then stack
    else
      match Collect(op.args, stack)
      case None => []
      case Some((operands, rest)) => rest
  }

  /**
   * What a failing callback leaves on the stack. Operands already taken are gone; and when there is no room for a
   * result that nobody uses, an older one is removed in its place.
   */
  function StackAfterFailure(handlers: Handlers, op: ParseOp, used: bool, m: Machine): seq<Value>
    requires op.Execute?
  {
    match Operated(handlers, op, m)
    case None => Drained(op, m.stack)
    case Some((v, rest)) => if used || rest.stack == [] then rest.stack else rest.stack[..|rest.stack| - 1]
  }

  /** The callback in post-order; inner results are used by their parent operator. */
  function PostOrder(handlers: Handlers, narrow: bool, op: ParseOp, used: bool, m: Machine): Option<Machine>
    decreases op
  {
    if op.Constant? then EndOp(handlers, narrow, op, used, m)
    else
      match PostOrderAll(handlers, narrow, op.args, m)
      case None => None
      case Some(m') => EndOp(handlers, narrow, op, used, m')
  }

  function PostOrderAll(handlers: Handlers, narrow: bool, args: seq<ParseOp>, m: Machine): Option<Machine>
    decreases args
  {
    if args == [] then Some(m)
    else
      var n := |args| - 1;
      match PostOrderAll(handlers, narrow, args[..n], m)
      case None => None
      case Some(m') => PostOrder(handlers, narrow, args[n], true, m')
  }

  // ----- Evaluation preserves meaning

  /** The results the arguments leave: the values of those that are operators. */
  function Results(args: seq<ParseOp>, values: seq<Value>): (left: seq<Value>)
    requires |args| == |values|
    ensures |left| == Pending(args)
  {
    if args == [] then []
    else
      var n := |args| - 1;
      Results(args[..n], values[..n]) + if args[n].Execute? then [values[n]] else []
  }

  lemma {:induction false} CollectReturnsValues(handlers: Handlers, narrow: bool, args: seq<ParseOp>, m: Machine)
    requires EvalAll(handlers, narrow, args, m.store).Some?
    ensures var values := EvalAll(handlers, narrow, args, m.store).value.0;
            Collect(args, m.stack + Results(args, values)) == Some((values, m.stack))
  {
    var stack := m.stack;
    if args == [] {
      assert stack + [] == stack;
    } else {
      var n := |args| - 1;
      var values := EvalAll(handlers, narrow, args, m.store).value.0;
      var v := values[n];
      assert values[..n] == EvalAll(handlers, narrow, args[..n], m.store).value.0;
      assert args[n].Constant? ==> v == args[n].value;
      var before := stack + Results(args[..n], values[..n]);
      CollectReturnsValues(handlers, narrow, args[..n], m);
      if args[n].Execute? {
        assert stack + Results(args, values) == before + [v];
        assert (before + [v])[..|before|] == before;
      } else {
        assert stack + Results(args, values) == before;
      }
    }
  }

  /** The post-order run succeeds exactly when the evaluator does and the tree fits the stacks. */
  ghost predicate Fits(handlers: Handlers, narrow: bool, op: ParseOp, height: nat, store: Store) {
    Narrow(op) && Eval(handlers, narrow, op, store).Some? && height + Depth(op) <= CAPACITY
  }

  ghost predicate FitsAll(handlers: Handlers, narrow: bool, args: seq<ParseOp>, height: nat, store: Store) {
    && (forall arg :: arg in args ==> Narrow(arg))
    && EvalAll(handlers, narrow, args, store).Some? && height + DepthAll(args) <= CAPACITY
  }

  /**
   * For every tree, from every result stack and store: the run fails unless the tree fits; otherwise it leaves the
   * store that the recursive evaluator leaves, and the stack as it was, with the evaluator's value on top when the tree
   * is an operator whose result is used.
   */
  lemma {:induction false} PostOrderIsEval(handlers: Handlers, narrow: bool, op: ParseOp, used: bool, m: Machine)
    requires |m.stack| <= CAPACITY
    ensures PostOrder(handlers, narrow, op, used, m)
            == if !Fits(handlers, narrow, op, |m.stack|, m.store) then None
               else
                 var (v, after) := Eval(handlers, narrow, op, m.store).value;
                 Some(Machine(if op.Execute? && used then m.stack + [v] else m.stack, after))
    decreases op
  {
    if op.Execute? {
      PostOrderAllIsEval(handlers, narrow, op.args, m);
      if FitsAll(handlers, narrow, op.args, |m.stack|, m.store) {
        CollectReturnsValues(handlers, narrow, op.args, m);
      }
    }
  }

  lemma {:induction false} PostOrderAllIsEval(handlers: Handlers, narrow: bool, args: seq<ParseOp>, m: Machine)
    requires |m.stack| <= CAPACITY
    ensures PostOrderAll(handlers, narrow, args, m)
            == if !FitsAll(handlers, narrow, args, |m.stack|, m.store) then None
               else
                 var (values, after) := EvalAll(handlers, narrow, args, m.store).value;
                 Some(Machine(m.stack + Results(args, values), after))
    ensures FitsAll(handlers, narrow, args, |m.stack|, m.store) ==> |m.stack| + Pending(args) <= CAPACITY
    decreases args
  {
    var stack := m.stack;
    if args == [] {
      assert stack + [] == stack;
    } else {
      var n := |args| - 1;
      var init := args[..n];
      assert args == init + [args[n]];
      PostOrderAllIsEval(handlers, narrow, init, m);
      FitsAllSplits(handlers, narrow, args, |stack|, m.store);
      if FitsAll(handlers, narrow, init, |stack|, m.store) {
        var (values, between) := EvalAll(handlers, narrow, init, m.store).value;
        var before := stack + Results(init, values);
        assert |before| == |stack| + Pending(init);
        PostOrderIsEval(handlers, narrow, args[n], true, Machine(before, between));
        if FitsAll(handlers, narrow, args, |stack|, m.store) {
          var all := EvalAll(handlers, narrow, args, m.store).value.0;
          assert all[..n] == values;
          assert stack + Results(args, all) == if args[n].Execute? then before + [all[n]] else before;
        }
      }
    }
  }

  /**
   * When the arguments have been run from some stack, the operator finds that stack below its operands. So its result
   * lacks room exactly if the stack was full before, never if it was empty; only then, and only if nobody uses the
   * result, a failure removes anything older.
   */
  lemma OlderResultsStay(handlers: Handlers, narrow: bool, op: ParseOp, used: bool, m: Machine)
    requires op.Execute? && |m.stack| <= CAPACITY && PostOrderAll(handlers, narrow, op.args, m).Some?
    ensures var ran := PostOrderAll(handlers, narrow, op.args, m).value;
            var done, end := Operated(handlers, op, ran), EndOp(handlers, narrow, op, used, ran);
            && (done.Some? ==> done.value.1.stack == m.stack && (end == None <==> |m.stack| == CAPACITY))
            && (end == None ==>
                  (m.stack <= StackAfterFailure(handlers, op, used, ran)
                   <==> used || |m.stack| < CAPACITY || done == None))
  {
    PostOrderAllIsEval(handlers, narrow, op.args, m);
    CollectReturnsValues(handlers, narrow, op.args, m);
  }

  lemma FitsAllSplits(handlers: Handlers, narrow: bool, args: seq<ParseOp>, height: nat, store: Store)
    requires args != []
    ensures var n := |args| - 1;
            FitsAll(handlers, narrow, args, height, store)
            <==> FitsAll(handlers, narrow, args[..n], height, store)
                 && Fits(handlers, narrow, args[n], height + Pending(args[..n]),
                         EvalAll(handlers, narrow, args[..n], store).value.1)
  {
    var n := |args| - 1;
    assert forall arg :: arg in args <==> arg in args[..n] || arg == args[n];
  }

  /** The largest number of arguments of any operator in the tree. */
  function Widest(op: ParseOp): nat
    decreases op
  {
    if op.Constant? then 0 else Max(|op.args|, WidestOf(op.args))
  }

  function WidestOf(args: seq<ParseOp>): nat
    decreases args
  {
    if args == [] then 0 else Max(WidestOf(args[..|args| - 1]), Widest(args[|args| - 1]))
  }

  lemma {:induction false} NarrowIsWidest(op: ParseOp)
    ensures Narrow(op) <==> Widest(op) <= NUM_OPERANDS
    decreases op
  {
    if op.Execute? {
      NarrowAreWidest(op.args);
    }
  }

  lemma {:induction false} NarrowAreWidest(args: seq<ParseOp>)
    ensures (forall arg :: arg in args ==> Narrow(arg)) <==> WidestOf(args) <= NUM_OPERANDS
    decreases args
  {
    if args != [] {
      var n := |args| - 1;
      NarrowAreWidest(args[..n]);
      NarrowIsWidest(args[n]);
      assert args == args[..n] + [args[n]];
    }
  }

  // ----- The walk state of the source

  datatype Status = Ok | StackOverflow | NoOperand | NoReturnValue | Internal | BadData | OperatorFailed

  /** What AcpiDsIsResultUsed distinguishes about the parent of an operator. */
  datatype Parent =
    | NoParent
    | ScopeOp
    | UnknownClass
    | ReturnOp
    | OtherControlOp
    | CreateClass
    | ArgumentTakingNamedOp
    | OtherNamedOp
    | OtherClass

  function IsResultUsed(parent: Parent): bool {
    match parent
    case NoParent | ScopeOp => false
    case UnknownClass => false
    case ReturnOp => true
    case OtherControlOp => false
    case CreateClass => true
    case ArgumentTakingNamedOp => true
    case OtherNamedOp => false
    case OtherClass => true
  }

  type Frame = seq<Option<Value>>

  /** Result `k` counted from the bottom; the newest frame is the head of the list. */
  function Slot(frames: seq<Frame>, k: int): Option<Value>
    requires 0 <= k < FRAME * |frames| && forall f :: f in frames ==> |f| == FRAME
  {
    frames[|frames| - 1 - k / FRAME][k % FRAME]
  }

  /** The list with slot `index` of its head frame changed. */
  function WithSlot(frames: seq<Frame>, index: int, v: Option<Value>): (changed: seq<Frame>)
    requires frames != [] && 0 <= index < |frames[0]|
    ensures |changed| == |frames| && changed[1..] == frames[1..]
  {
    [frames[0][index := v]] + frames[1..]
  }

  /** As few frames as the results need, occupied from the bottom without gaps. */
  ghost predicate ChunksOf(frames: seq<Frame>, size: int, results: seq<Value>) {
    && (forall f :: f in frames ==> |f| == FRAME)
    && size == FRAME * |frames| <= RESULTS_MAX
    && |results| <= size < |results| + FRAME
    && (forall k :: 0 <= k < size ==> Slot(frames, k) == if k < |results| then Some(results[k]) else None)
  }

  /** A head frame with free slots, ready for another result. */
  ghost predicate RoomIn(frames: seq<Frame>, size: int, results: seq<Value>) {
    && frames != [] && (forall f :: f in frames ==> |f| == FRAME)
    && size == FRAME * |frames| <= RESULTS_MAX
    && |results| < size <= |results| + FRAME
    && (forall k :: 0 <= k < size ==> Slot(frames, k) == if k < |results| then Some(results[k]) else None)
  }

  /** Full frames have to be extended by a frame of empty slots. */
  lemma ChunksExtended(frames: seq<Frame>, size: int, results: seq<Value>, empty: Frame)
    requires ChunksOf(frames, size, results) && |results| == size && size + FRAME <= RESULTS_MAX
    requires empty == seq(FRAME, _ => None)
    ensures RoomIn([empty] + frames, size + FRAME, results)
  {
    forall k | 0 <= k < size + FRAME
      ensures Slot([empty] + frames, k) == if k < |results| then Some(results[k]) else None
    {
      if k < size {
        assert Slot([empty] + frames, k) == Slot(frames, k);
      }
    }
  }

  /** The next free slot, or the newest result, is in the head frame. */
  lemma SlotInHead(frames: seq<Frame>, k: int, v: Option<Value>)
    requires frames != [] && (forall f :: f in frames ==> |f| == FRAME)
    requires FRAME * (|frames| - 1) <= k < FRAME * |frames|
    ensures Slot(frames, k) == frames[0][k % FRAME]
    ensures var updated := WithSlot(frames, k % FRAME, v);
            && (forall f :: f in updated ==> |f| == FRAME)
            && forall i :: 0 <= i < FRAME * |frames| ==> Slot(updated, i) == if i == k then v else Slot(frames, i)
  {
    var updated := WithSlot(frames, k % FRAME, v);
    forall i | 0 <= i < FRAME * |frames|
      ensures Slot(updated, i) == if i == k then v else Slot(frames, i)
    {
      if i / FRAME == |frames| - 1 {
        assert i == k <==> i % FRAME == k % FRAME;
      }
    }
  }

  lemma ChunksPushed(frames: seq<Frame>, size: int, results: seq<Value>, v: Value)
    requires RoomIn(frames, size, results)
    ensures ChunksOf(WithSlot(frames, |results| % FRAME, Some(v)), size, results + [v])
  {
    SlotInHead(frames, |results|, Some(v));
  }

  lemma ChunksTop(frames: seq<Frame>, size: int, results: seq<Value>)
    requires ChunksOf(frames, size, results) && results != []
    ensures frames != [] && size >= FRAME && |frames[0]| == FRAME
    ensures frames[0][(|results| - 1) % FRAME] == Some(results[|results| - 1])
    ensures results == results[..|results| - 1] + [results[|results| - 1]]
  {
    SlotInHead(frames, |results| - 1, None);
  }

  lemma ChunksReplaced(frames: seq<Frame>, size: int, results: seq<Value>, v: Value)
    requires ChunksOf(frames, size, results) && results != []
    ensures |frames| > 0 && |frames[0]| == FRAME
    ensures ChunksOf(WithSlot(frames, (|results| - 1) % FRAME, Some(v)), size, results[..|results| - 1] + [v])
  {
    SlotInHead(frames, |results| - 1, Some(v));
  }

  /** Emptying the newest slot; when it was the first of its frame, the frame goes too. */
  lemma ChunksPopped(frames: seq<Frame>, size: int, results: seq<Value>)
    requires ChunksOf(frames, size, results) && results != []
    ensures |frames| > 0 && |frames[0]| == FRAME
    ensures var k := |results| - 1;
            var emptied := WithSlot(frames, k % FRAME, None);
            if k % FRAME == 0 then ChunksOf(emptied[1..], size - FRAME, results[..k])
            else ChunksOf(emptied, size, results[..k])
  {
    var k := |results| - 1;
    SlotInHead(frames, k, None);
    var emptied := WithSlot(frames, k % FRAME, None);
    if k % FRAME == 0 {
      forall i | 0 <= i < size - FRAME
        ensures Slot(emptied[1..], i) == Slot(emptied, i)
      {
      }
    }
  }

  /** The operands still to be taken, followed by those already filled, are the operands wanted. */
  ghost predicate Completes(wanted: Option<(seq<Value>, seq<Value>)>, part: Option<(seq<Value>, seq<Value>)>,
                            filled: seq<Value>) {
    match (wanted, part)
    case (None, None) => true
    case (Some(w), Some(p)) => w.0 == p.0 + filled && w.1 == p.1
    case _ => false
  }

  /** The operand taken for the last of the first `m` arguments, and the stack it leaves. */
  function Taken(arg: ParseOp, stack: seq<Value>): Option<(Value, seq<Value>)> {
    if arg.Constant? then Some((arg.value, stack))
    else if stack == [] then None
    else Some((stack[|stack| - 1], stack[..|stack| - 1]))
  }

  lemma CollectLast(args: seq<ParseOp>, m: int, stack: seq<Value>, wanted: Option<(seq<Value>, seq<Value>)>,
                    filled: seq<Value>)
    requires 0 < m <= |args| && Completes(wanted, Collect(args[..m], stack), filled)
    ensures match Taken(args[m - 1], stack)
            case None => wanted == None
            case Some((v, rest)) => Completes(wanted, Collect(args[..m - 1], rest), [v] + filled)
  {
    assert args[..m][..m - 1] == args[..m - 1];
    if Taken(args[m - 1], stack).Some? {
      var (v, rest) := Taken(args[m - 1], stack).value;
      var part := Collect(args[..m - 1], rest);
      if part.Some? {
        assert Collect(args[..m], stack) == Some((part.value.0 + [v], part.value.1));
        assert (part.value.0 + [v]) + filled == part.value.0 + ([v] + filled);
      }
    }
  }

  /** The slots hold exactly `values`, from slot `from` on. */
  ghost predicate OperandsAre(slots: seq<Option<Value>>, from: int, values: seq<Value>) {
    0 <= from && from + |values| <= |slots|
    && forall i :: 0 <= i < |slots| ==> slots[i] == if from <= i < from + |values| then Some(values[i - from]) else None
  }

  lemma OperandAdded(slots: seq<Option<Value>>, from: int, values: seq<Value>, v: Value)
    requires OperandsAre(slots, from, values) && from > 0
    ensures OperandsAre(slots[from - 1 := Some(v)], from - 1, [v] + values)
  {
  }

  lemma OperandsTaken(slots: seq<Option<Value>>, values: seq<Value>)
    requires OperandsAre(slots, 0, values)
    ensures (forall o :: o in slots[..|values|] ==> o.Some?) && Values(slots[..|values|]) == values
  {
  }

  class WalkState {
    const handlers: Handlers
    const narrow: bool
    var resultFrames: seq<Frame>
    var resultSize: uint8
    var resultCount: uint8
    var operands: array<Option<Value>>
    var numOperands: nat
    var operandIndex: nat
    var resultObj: Option<Value>
    var store: Store
    ghost var stack: seq<Value>  // the results, bottom first

    ghost predicate Valid()
      reads this
    {
      resultCount == |stack| && ChunksOf(resultFrames, resultSize, stack) && operands.Length == NUM_OPERANDS + 1
    }

    ghost function Now(): Machine
      reads this
    {
      Machine(stack, store)
    }

    constructor (handlers: Handlers, narrow: bool, store: Store)
      ensures Valid() && Now() == Machine([], store) && fresh(operands)
      ensures this.handlers == handlers && this.narrow == narrow
    {
      this.handlers, this.narrow, this.store := handlers, narrow, store;
      resultFrames, resultSize, resultCount, stack := [], 0, 0, [];
      operands := new Option<Value>[NUM_OPERANDS + 1](_ => None);
      numOperands, operandIndex, resultObj := 0, 0, None;
    }

    method ResultStackPush() returns (status: Status)
      requires Valid() && resultCount == resultSize
      modifies `resultFrames, `resultSize
      ensures status == (if old(resultSize) + FRAME > RESULTS_MAX then StackOverflow else Ok)
      ensures status != Ok ==> resultFrames == old(resultFrames) && resultSize == old(resultSize)
      ensures status == Ok ==> RoomIn(resultFrames, resultSize, stack)
    {
      if resultSize + FRAME > RESULTS_MAX {
        return StackOverflow;
      }
      var empty := seq(FRAME, _ => None);
      ChunksExtended(resultFrames, resultSize, stack, empty);
      resultFrames := [empty] + resultFrames;
      resultSize := resultSize + FRAME;
      return Ok;
    }

    method ResultPush(v: Value) returns (status: Status)
      requires Valid()
      modifies `resultFrames, `resultSize, `resultCount, `stack
      ensures Valid()
      ensures status == if |old(stack)| >= CAPACITY then StackOverflow else Ok
      ensures stack == if status == Ok then old(stack) + [v] else old(stack)
    {
      if resultCount == resultSize {
        status := ResultStackPush();
        if status != Ok {
          return;
        }
      }
      var index := resultCount % FRAME;
      ChunksPushed(resultFrames, resultSize, stack, v);
      resultFrames := WithSlot(resultFrames, index, Some(v));
      resultCount := resultCount + 1;
      stack := stack + [v];
      return Ok;
    }

    method ResultStackPop() returns (status: Status)
      requires resultFrames == [] || resultSize >= FRAME
      modifies `resultFrames, `resultSize
      ensures old(resultFrames) == [] ==> status == NoOperand && resultFrames == [] && resultSize == old(resultSize)
      ensures old(resultFrames) != [] ==>
              status == Ok && resultFrames == old(resultFrames)[1..] && resultSize == old(resultSize) - FRAME
    {
      if resultFrames == [] {
        return NoOperand;
      }
      resultFrames := resultFrames[1..];
      resultSize := resultSize - FRAME;
      return Ok;
    }

    method ResultPop() returns (v: Option<Value>, status: Status)
      requires Valid()
      modifies `resultFrames, `resultSize, `resultCount, `stack
      ensures Valid()
      ensures old(stack) == [] ==> status == NoReturnValue && v == None && stack == []
      ensures old(stack) != [] ==> status == Ok && v.Some? && old(stack) == stack + [v.value]
    {
      assert resultFrames == [] <==> stack == [];
      if resultFrames != [] && resultCount == 0 {
        return None, Internal;
      }
      if resultFrames == [] && resultCount != 0 {
        return None, Internal;
      }
      if resultFrames == [] {
        return None, NoReturnValue;
      }
      v, status := TakeTop();
    }

    method TakeTop() returns (v: Option<Value>, status: Status)
      requires Valid() && stack != []
      modifies `resultFrames, `resultSize, `resultCount, `stack
      ensures Valid() && status == Ok && v.Some? && old(stack) == stack + [v.value]
    {
      ghost var before, size, results := resultFrames, resultSize, stack;
      ChunksTop(before, size, results);
      resultCount := resultCount - 1;
      var index := resultCount % FRAME;
      v := resultFrames[0][index];
      if v == None {
        return v, NoReturnValue;
      }
      resultFrames := WithSlot(resultFrames, index, None);
      stack := results[..|results| - 1];
      status := Ok;
      if index == 0 {
        status := ResultStackPop();
      }
      ChunksPopped(before, size, results);
    }

    /** No operand is left behind. */
    ghost predicate Clear()
      reads this, operands
    {
      numOperands == 0 && forall i :: 0 <= i < operands.Length ==> operands[i] == None
    }

    method ObjStackPush(v: Value) returns (status: Status)
      requires numOperands < NUM_OPERANDS ==> operandIndex < operands.Length
      modifies `numOperands, `operandIndex, operands
      ensures old(numOperands) >= NUM_OPERANDS ==>
                status == StackOverflow && numOperands == old(numOperands) && operands[..] == old(operands[..])
      ensures old(numOperands) < NUM_OPERANDS ==>
                && status == Ok && numOperands == old(numOperands) + 1
                && operands[..] == old(operands[..])[old(operandIndex) := Some(v)]
    {
      if numOperands >= NUM_OPERANDS {
        return StackOverflow;
      }
      operands[operandIndex] := Some(v);
      numOperands := numOperands + 1;
      operandIndex := operandIndex + 1;
      return Ok;
    }

    /** Deletes the operands filled so far; they were filled from `popCount - 1` downwards. */
    method ObjStackPopAndDelete(popCount: nat, ghost filled: seq<Value>)
      requires popCount <= operands.Length && |filled| == numOperands
      requires OperandsAre(operands[..], popCount - numOperands, filled)
      modifies `numOperands, operands
      ensures Clear()
    {
      var i: int := popCount - 1;
      while i >= 0
        invariant -1 <= i < popCount && numOperands <= i + 1
        invariant forall k :: 0 <= k < operands.Length && (k < i + 1 - numOperands || i < k) ==> operands[k] == None
      {
        if numOperands == 0 {
          return;
        }
        numOperands := numOperands - 1;
        operands[i] := None;
        i := i - 1;
      }
    }

    method ClearOperands()
      requires numOperands <= operands.Length
      requires forall i :: numOperands <= i < operands.Length ==> operands[i] == None
      modifies `numOperands, operands
      ensures Clear()
    {
      for i := 0 to numOperands
        invariant numOperands == old(numOperands)
        invariant forall k :: 0 <= k < i || numOperands <= k < operands.Length ==> operands[k] == None
      {
        operands[i] := None;
      }
      numOperands := 0;
    }

    method CreateOperand(arg: ParseOp) returns (status: Status)
      requires Valid() && numOperands < NUM_OPERANDS && operandIndex < NUM_OPERANDS
      modifies `resultFrames, `resultSize, `resultCount, `stack, `numOperands, `operandIndex, operands
      ensures Valid() && operands == old(operands)
      ensures status == Ok <==> Taken(arg, old(stack)).Some?
      ensures status == Ok ==>
                && numOperands == old(numOperands) + 1
                && operands[..] == old(operands[..])[old(operandIndex) := Some(Taken(arg, old(stack)).value.0)]
                && stack == Taken(arg, old(stack)).value.1
      ensures status != Ok ==> numOperands == old(numOperands) && operands[..] == old(operands[..]) && stack == []
    {
      var obj: Option<Value>;
      if arg.Execute? {
        obj, status := ResultPop();
        if status != Ok {
          return;
        }
      } else {
        obj := Some(arg.value);
      }
      status := ObjStackPush(obj.value);
    }

    /** The operand for argument `index - 1`, put before those already filled. */
    method CreateNext(args: seq<ParseOp>, index: nat, ghost collected: Option<(seq<Value>, seq<Value>)>,
                      ghost filled: seq<Value>)
      returns (status: Status, ghost filled': seq<Value>)
      requires Valid() && 0 < index <= |args| <= NUM_OPERANDS && numOperands == |args| - index == |filled|
      requires Completes(collected, Collect(args[..index], stack), filled) && OperandsAre(operands[..], index, filled)
      modifies `resultFrames, `resultSize, `resultCount, `stack, `numOperands, `operandIndex, operands
      ensures Valid() && operands == old(operands)
      ensures status == Ok ==>
                && numOperands == |args| - index + 1 == |filled'|
                && Completes(collected, Collect(args[..index - 1], stack), filled')
                && OperandsAre(operands[..], index - 1, filled')
      ensures status != Ok ==>
                && collected.None? && filled' == filled && numOperands == old(numOperands)
                && OperandsAre(operands[..], index, filled) && stack == []
    {
      ghost var before, slots := stack, operands[..];
      CollectLast(args, index, before, collected, filled);
      operandIndex := index - 1;
      status := CreateOperand(args[index - 1]);
      filled' := filled;
      if status == Ok {
        ghost var v := Taken(args[index - 1], before).value.0;
        OperandAdded(slots, index, filled, v);
        filled' := [v] + filled;
      }
    }

    /** Fills the operand array in reverse; after a failure it is empty again. */
    method CreateOperands(args: seq<ParseOp>) returns (status: Status)
      requires Valid() && Clear()
      modifies `resultFrames, `resultSize, `resultCount, `stack, `numOperands, `operandIndex, operands
      ensures Valid() && operands == old(operands)
      ensures status == Ok <==> |args| <= NUM_OPERANDS && Collect(args, old(stack)).Some?
      ensures status == Ok ==>
                && numOperands == |args| && stack == Collect(args, old(stack)).value.1
                && OperandsAre(operands[..], 0, Collect(args, old(stack)).value.0)
      ensures status != Ok ==> Clear() && stack == if |args| > NUM_OPERANDS then old(stack) else []
    {
      if |args| > NUM_OPERANDS {
        return BadData;
      }
      ghost var collected := Collect(args, stack);
      var index := |args|;
      ghost var filled := [];
      assert args[..index] == args;
      while index > 0
        invariant 0 <= index <= |args| && numOperands == |args| - index == |filled|
        invariant Valid() && operands == old(operands)
        invariant Completes(collected, Collect(args[..index], stack), filled)
        invariant OperandsAre(operands[..], index, filled)
      {
        status, filled := CreateNext(args, index, collected, filled);
        if status != Ok {
          ObjStackPopAndDelete(|args|, filled);
          return;
        }
        index := index - 1;
      }
      assert args[..0] == [] && [] + filled == filled;
      return Ok;
    }

    /** A change to the object on top of the stack. */
    method UpdateTop(v: Value)
      requires Valid() && stack != []
      modifies `resultFrames, `stack
      ensures Valid() && stack == old(stack)[..|old(stack)| - 1] + [v]
    {
      ChunksReplaced(resultFrames, resultSize, stack, v);
      resultFrames := WithSlot(resultFrames, (resultCount - 1) % FRAME, Some(v));
      stack := stack[..|stack| - 1] + [v];
    }

    /** Cuts the result object; on the stack it is the same object. */
    method TruncateFor32bitTable(pushed: bool)
      requires Valid() && resultObj.Some? && (pushed ==> stack != [])
      modifies `resultFrames, `stack, `resultObj
      ensures Valid()
      ensures resultObj == Some(Truncate(narrow, old(resultObj).value))
      ensures stack == if pushed then old(stack)[..|old(stack)| - 1] + [resultObj.value] else old(stack)
    {
      resultObj := Some(Truncate(narrow, resultObj.value));
      if pushed {
        UpdateTop(resultObj.value);
      }
    }

    method DeleteResultIfNotUsed(parent: Parent)
      requires Valid()
      modifies `resultFrames, `resultSize, `resultCount, `stack
      ensures Valid()
      ensures resultObj == None || IsResultUsed(parent) || old(stack) == [] ==> stack == old(stack)
      ensures resultObj != None && !IsResultUsed(parent) && old(stack) != [] ==> stack == old(stack)[..|old(stack)| - 1]
    {
      if resultObj == None {
        return;
      }
      if !IsResultUsed(parent) {
        var _, _ := ResultPop();
      }
    }

    /** Pushes the result object and then cuts it, so that the cut value is what lies on the stack. */
    method PushResult() returns (status: Status)
      requires Valid() && resultObj.Some?
      modifies `resultFrames, `resultSize, `resultCount, `stack, `resultObj
      ensures Valid() && resultObj.Some?
      ensures status == if |old(stack)| >= CAPACITY then StackOverflow else Ok
      ensures stack == if status == Ok then old(stack) + [Truncate(narrow, old(resultObj).value)] else old(stack)
    {
      status := ResultPush(resultObj.value);
      assert status == Ok ==> stack[..|stack| - 1] == old(stack);
      TruncateFor32bitTable(status == Ok);
    }

    /** Runs the operator on its operands; with Ok, its result is on the stack. */
    method DispatchOperator(op: ParseOp) returns (status: Status)
      requires Valid() && Clear() && op.Execute?
      modifies this, operands
      ensures Valid() && Clear() && operands == old(operands)
      ensures match Operated(handlers, op, old(Now()))
              case None => status != Ok && resultObj == None && Now() == Machine(Drained(op, old(stack)), old(store))
              case Some((v, rest)) =>
                && resultObj.Some? && store == rest.store
                && status == (if |rest.stack| >= CAPACITY then StackOverflow else Ok)
                && stack == if status == Ok then rest.stack + [Truncate(narrow, v)] else rest.stack
    {
      ghost var collected := Collect(op.args, stack);
      resultObj := None;
      status := CreateOperands(op.args);
      if status != Ok {
        return;
      }
      status := OperateAndPush(op.opcode, collected.value.0);
    }

    method OperateAndPush(opcode: int, ghost values: seq<Value>) returns (status: Status)
      requires Valid() && numOperands == |values| && OperandsAre(operands[..], 0, values)
      modifies `resultObj, `store, `numOperands, `resultFrames, `resultSize, `resultCount, `stack, operands
      ensures Valid() && Clear()
      ensures match handlers(opcode, values, old(store))
              case None => status != Ok && resultObj == old(resultObj) && Now() == old(Now())
              case Some((v, after)) =>
                && resultObj.Some? && store == after
                && status == (if |old(stack)| >= CAPACITY then StackOverflow else Ok)
                && stack == if status == Ok then old(stack) + [Truncate(narrow, v)] else old(stack)
    {
      status := RunOperator(opcode, values);
      if status == Ok {
        status := PushResult();
      }
    }

    /** Calls the operator's handler on the operand array, and empties that. */
    method RunOperator(opcode: int, ghost values: seq<Value>) returns (status: Status)
      requires operands.Length == NUM_OPERANDS + 1 && numOperands == |values| && OperandsAre(operands[..], 0, values)
      modifies `resultObj, `store, `numOperands, operands
      ensures Clear()
      ensures match handlers(opcode, values, old(store))
              case None => status == OperatorFailed && resultObj == old(resultObj) && store == old(store)
              case Some((v, after)) => status == Ok && resultObj == Some(v) && store == after
    {
      OperandsTaken(operands[..], values);
      var done := handlers(opcode, Values(operands[..numOperands]), store);
      ClearOperands();
      if done == None {
        return OperatorFailed;
      }
      resultObj, store := Some(done.value.0), done.value.1;
      return Ok;
    }

    /** The operator, and then its result is removed if nobody uses it. */
    method ExecOperator(op: ParseOp, parent: Parent) returns (status: Status)
      requires Valid() && Clear() && op.Execute?
      modifies this, operands
      ensures Valid() && Clear() && operands == old(operands)
      ensures match Operated(handlers, op, old(Now()))
              case None => status != Ok && stack == Drained(op, old(stack))
              case Some((v, rest)) =>
                && status == (if |rest.stack| >= CAPACITY then StackOverflow else Ok) && store == rest.store
                && stack == if IsResultUsed(parent) && status == Ok then rest.stack + [Truncate(narrow, v)]
                            else if IsResultUsed(parent) then rest.stack
                            else if status == Ok || rest.stack == [] then rest.stack
                            else rest.stack[..|rest.stack| - 1]
    {
      ghost var ran := Operated(handlers, op, Now());
      status := DispatchOperator(op);
      assert status == Ok ==> stack[..|stack| - 1] == ran.value.1.stack;
      DeleteResultIfNotUsed(parent);
    }

    /** The callback; constants need nothing. */
    method ExecEndOp(op: ParseOp, parent: Parent) returns (status: Status)
      requires Valid() && Clear()
      modifies this, operands
      ensures Valid() && Clear() && operands == old(operands)
      ensures status == Ok <==> EndOp(handlers, narrow, op, IsResultUsed(parent), old(Now())).Some?
      ensures status == Ok ==> Some(Now()) == EndOp(handlers, narrow, op, IsResultUsed(parent), old(Now()))
      ensures status != Ok ==> op.Execute? && stack == StackAfterFailure(handlers, op, IsResultUsed(parent), old(Now()))
    {
      operandIndex := 0;
      resultObj := None;
      status := Ok;
      if op.Execute? {
        status := ExecOperator(op, parent);
      }
    }
  }

  function Values(operands: seq<Option<Value>>): (values: seq<Value>)
    requires forall o :: o in operands ==> o.Some?
    ensures |values| == |operands| && forall i :: 0 <= i < |values| ==> values[i] == operands[i].value
  {
    seq(|operands|, i requires 0 <= i < |operands| => operands[i].value)
  }

  /** The parser's walk: arguments first, then the operator itself. */
  method Execute(walk: WalkState, op: ParseOp, parent: Parent) returns (status: Status)
    requires walk.Valid() && walk.Clear()
    modifies walk, walk.operands
    ensures walk.Valid() && walk.Clear() && walk.operands == old(walk.operands)
    ensures var end := PostOrder(walk.handlers, walk.narrow, op, IsResultUsed(parent), old(walk.Now()));
            (status == Ok <==> end.Some?) && (status == Ok ==> end == Some(walk.Now()))
    decreases op
  {
    if op.Execute? {
      for i := 0 to |op.args|
        invariant walk.Valid() && walk.Clear() && walk.operands == old(walk.operands)
        invariant PostOrderAll(walk.handlers, walk.narrow, op.args[..i], old(walk.Now())) == Some(walk.Now())
      {
        PostOrderAllNext(walk.handlers, walk.narrow, op.args, i, old(walk.Now()));
        status := Execute(walk, op.args[i], OtherClass);
        if status != Ok {
          PostOrderAllStops(walk.handlers, walk.narrow, op.args, i, old(walk.Now()));
          return;
        }
      }
      assert op.args[..|op.args|] == op.args;
    }
    status := walk.ExecEndOp(op, parent);
  }

  lemma PostOrderAllNext(handlers: Handlers, narrow: bool, args: seq<ParseOp>, i: nat, m: Machine)
    requires i < |args| && PostOrderAll(handlers, narrow, args[..i], m).Some?
    ensures PostOrderAll(handlers, narrow, args[..i + 1], m)
            == PostOrder(handlers, narrow, args[i], true, PostOrderAll(handlers, narrow, args[..i], m).value)
  {
    assert args[..i + 1][..i] == args[..i];
  }

  /** When an argument fails the whole walk fails. */
  lemma {:induction false} PostOrderAllStops(handlers: Handlers, narrow: bool, args: seq<ParseOp>, i: nat, m: Machine)
    requires i < |args|
    ensures PostOrderAll(handlers, narrow, args[..i + 1], m).None? ==> PostOrderAll(handlers, narrow, args, m).None?
    decreases |args| - i
  {
    if i + 1 == |args| {
      assert args[..i + 1] == args;
    } else {
      PostOrderAllStops(handlers, narrow, args, i + 1, m);
      assert args[..i + 2][..i + 1] == args[..i + 1];
    }
  }

  /**
   * Evaluating a tree with the source's callbacks: the evaluator's effects, and its value or nothing added to the
   * stack.
   */
  method Evaluate(walk: WalkState, op: ParseOp, parent: Parent) returns (status: Status)
    requires walk.Valid() && walk.Clear()
    modifies walk, walk.operands
    ensures walk.Valid() && walk.Clear()
    ensures status == Ok <==>
              && Eval(walk.handlers, walk.narrow, op, old(walk.store)).Some?
              && Widest(op) <= 8 && |old(walk.stack)| + Depth(op) <= 248
    ensures status == Ok ==>
              var (v, after) := Eval(walk.handlers, walk.narrow, op, old(walk.store)).value;
              && walk.store == after
              && walk.stack == if op.Execute? && IsResultUsed(parent) then old(walk.stack) + [v] else old(walk.stack)
    ensures status == Ok && op.Execute? && parent in {ReturnOp, CreateClass, ArgumentTakingNamedOp, OtherClass} ==>
              && |walk.stack| == |old(walk.stack)| + 1
              && IsResultOf(walk.handlers, walk.narrow, op, old(walk.store), walk.stack[|old(walk.stack)|])
    ensures status == Ok && parent in {NoParent, ScopeOp, UnknownClass, OtherControlOp, OtherNamedOp} ==>
              walk.stack == old(walk.stack)
  {
    PostOrderIsEval(walk.handlers, walk.narrow, op, IsResultUsed(parent), walk.Now());
    NarrowIsWidest(op);
    if op.Execute? && Eval(walk.handlers, walk.narrow, op, walk.store).Some? {
      EvalRepresents(walk.handlers, walk.narrow, op, walk.store);
    }
    status := Execute(walk, op, parent);
  }
}
