/** Evaluate and evaluateInstructions: the bounded stack machine (csf/compiler.go). */
module CsfEvaluator {
  import opened Sequences
  import opened Wrappers
  import opened GoIntegers
  import opened CsfController
  import opened CsfCompiler

  datatype EvaluationError =
    | UnsupportedProgram
    | FeatureCountWrong
    | FeatureOutsideProfile
    | ProgramLengthOutsideBudget
    | BadInstruction(cause: InstructionError)
    | StackUnderflow
    | DepthExceeded
    | NotExactlyOneValue

  datatype Action = Action(steering: int, acceleration: int, epoch: uint64, sequence: uint64,
                           fallback: bool, reason: string)

  /** A stack slot: the value and the height of the expression that produced it. */
  datatype Slot = Slot(value: int, depth: nat)

  function Values(slots: seq<Slot>): (vs: seq<int>)
    ensures |vs| == |slots|
  {
    seq(|slots|, i requires 0 <= i < |slots| => slots[i].value)
  }

  function Deepest(slots: seq<Slot>): nat {
    if slots == [] then 0 else Max(Deepest(slots[..|slots| - 1]), slots[|slots| - 1].depth)
  }

  function ExecuteOne(instruction: Instruction, stack: seq<Slot>, features: seq<int64>)
    : Result<seq<Slot>, EvaluationError>
    requires |features| == FEATURE_COUNT
  {
    match InstructionArity(instruction)
    case Failure(cause) => Failure(BadInstruction(cause))
    case Success(arity) =>
      if |stack| < arity then
        Failure(StackUnderflow)
      else
        var popped := stack[|stack| - arity..];
        if 1 + Deepest(popped) > MAX_DEPTH then
          Failure(DepthExceeded)
        else
          var value := ClampTo(Operate(instruction, Values(popped), features), -VALUE_LIMIT, VALUE_LIMIT);
          Success(stack[..|stack| - arity] + [Slot(value, 1 + Deepest(popped))])
  }

  /** The stack after running `instructions` from an empty stack. */
  function Execute(instructions: seq<Instruction>, features: seq<int64>): Result<seq<Slot>, EvaluationError>
    requires |features| == FEATURE_COUNT
  {
    if instructions == [] then
      Success([])
    else
      var stack :- Execute(instructions[..|instructions| - 1], features);
      ExecuteOne(instructions[|instructions| - 1], stack, features)
  }

  function Outcome(instructions: seq<Instruction>, features: seq<int64>): Result<int, EvaluationError>
    requires |features| == FEATURE_COUNT
  {
    if |instructions| == 0 || |instructions| > MAX_INSTRUCTIONS then
      Failure(ProgramLengthOutsideBudget)
    else
      var stack :- Execute(instructions, features);
      if |stack| != 1 then Failure(NotExactlyOneValue) else Success(stack[0].value)
  }

  function EvaluateSpec(program: Program, features: seq<int64>): Result<Action, EvaluationError>
  {
    if program.NilProgram? || program.schemaVersion != SCHEMA_VERSION || program.unknown then
      Failure(UnsupportedProgram)
    else if |features| != FEATURE_COUNT then
      Failure(FeatureCountWrong)
    else if !InRangeFeatures(features) then
      Failure(FeatureOutsideProfile)
    else
      var steering :- Outcome(program.steering, features);
      var acceleration :- Outcome(program.acceleration, features);
      Success(Action(ClampTo(steering, -SCALE, SCALE), ClampTo(acceleration, -SCALE, SCALE), 0, 0, false, ""))
  }

  // ---- The stack machine runs a compiled tree to its meaning. ----

  function SlotOf(e: Expression, features: seq<int64>): Slot
    requires WellFormed(e) && |features| == FEATURE_COUNT
  {
    Slot(Meaning(e, features), Height(e))
  }

  function SlotsOf(es: seq<Expression>, features: seq<int64>): (slots: seq<Slot>)
    requires AllWellFormed(es) && |features| == FEATURE_COUNT
    ensures |slots| == |es|
  {
    seq(|es|, i requires 0 <= i < |es| => SlotOf(es[i], features))
  }

  lemma {:induction false} SlotsOfArguments(es: seq<Expression>, features: seq<int64>)
    requires AllWellFormed(es) && |features| == FEATURE_COUNT
    ensures Values(SlotsOf(es, features)) == MeaningAll(es, features)
    ensures Deepest(SlotsOf(es, features)) == HeightAll(es)
  {
    if es != [] {
      var init := es[..|es| - 1];
      SlotsOfArguments(init, features);
      assert SlotsOf(es, features)[..|es| - 1] == SlotsOf(init, features);
      assert Values(SlotsOf(es, features)) == Values(SlotsOf(init, features)) + [Meaning(es[|es| - 1], features)];
    }
  }

  lemma ExecuteAppend(before: seq<Instruction>, instruction: Instruction, features: seq<int64>)
    requires |features| == FEATURE_COUNT && Execute(before, features).Success?
    ensures Execute(before + [instruction], features)
         == ExecuteOne(instruction, Execute(before, features).value, features)
  {
    assert (before + [instruction])[..|before|] == before;
  }

  // An operator finds its arguments' slots on top of the stack and replaces them by its own.
  lemma ExecuteOneOnTree(base: seq<Slot>, e: Expression, features: seq<int64>)
    requires WellFormed(e) && Height(e) <= MAX_DEPTH && |features| == FEATURE_COUNT
    ensures ExecuteOne(InstructionOf(e), base + SlotsOf(e.arguments, features), features)
         == Success(base + [SlotOf(e, features)])
  {
    hide InstructionArity, Operate, ClampTo;
    var stack := base + SlotsOf(e.arguments, features);
    SlotsOfArguments(e.arguments, features);
    assert stack[|base|..] == SlotsOf(e.arguments, features);
    assert stack[..|base|] == base;
  }

  lemma SlotsOfUnfolds(base: seq<Slot>, es: seq<Expression>, features: seq<int64>)
    requires es != [] && AllWellFormed(es) && |features| == FEATURE_COUNT
    requires AllWellFormed(es[..|es| - 1]) && WellFormed(es[|es| - 1])
    ensures base + SlotsOf(es, features)
         == (base + SlotsOf(es[..|es| - 1], features)) + [SlotOf(es[|es| - 1], features)]
  {
    hide WellFormed, SlotOf;
    assert SlotsOf(es, features) == SlotsOf(es[..|es| - 1], features) + [SlotOf(es[|es| - 1], features)];
    Associative(base, SlotsOf(es[..|es| - 1], features), [SlotOf(es[|es| - 1], features)]);
  }

  lemma {:induction false} ExecutePostfix(before: seq<Instruction>, e: Expression, features: seq<int64>)
    requires WellFormed(e) && Height(e) <= MAX_DEPTH && |features| == FEATURE_COUNT
    requires Execute(before, features).Success?
    ensures Execute(before + Postfix(e), features)
         == Success(Execute(before, features).value + [SlotOf(e, features)])
    decreases e, 1
  {
    hide Execute, ExecuteOne, Postfix, PostfixAll, SlotOf, SlotsOf;
    ExecutePostfixAll(before, e.arguments, features);
    ExecuteAppend(before + PostfixAll(e.arguments), InstructionOf(e), features);
    ExecuteOneOnTree(Execute(before, features).value, e, features);
    PostfixUnfolds(before, e);
  }

  lemma {:induction false} ExecutePostfixAll(before: seq<Instruction>, es: seq<Expression>, features: seq<int64>)
    requires AllWellFormed(es) && HeightAll(es) <= MAX_DEPTH && |features| == FEATURE_COUNT
    requires Execute(before, features).Success?
    ensures Execute(before + PostfixAll(es), features)
         == Success(Execute(before, features).value + SlotsOf(es, features))
    decreases es, 0
  {
    if es == [] {
      hide Execute;
      assert before + PostfixAll(es) == before;
      assert Execute(before, features).value + SlotsOf(es, features) == Execute(before, features).value;
    } else {
      hide *;
      var init, last := es[..|es| - 1], es[|es| - 1];
      PostfixAllUnfolds(before, es);
      ExecutePostfixAll(before, init, features);
      ExecutePostfix(before + PostfixAll(init), last, features);
      SlotsOfUnfolds(Execute(before, features).value, es, features);
    }
  }

  // ---- Any program the machine accepts is the postfix form of one tree. ----

  /** The tree an operator builds from the trees of its arguments. */
  function TreeOf(i: Instruction, arguments: seq<Expression>): Expression
    requires i.Instruction?
  {
    Expression(i.opcode, i.value, i.inputIndex, i.lower, i.upper, false, arguments)
  }

  function DecompileOne(i: Instruction, trees: seq<Expression>): Option<seq<Expression>>
  {
    match InstructionArity(i)
    case Failure(_) => None
    case Success(arity) =>
      if |trees| < arity then None
      else Some(trees[..|trees| - arity] + [TreeOf(i, trees[|trees| - arity..])])
  }

  /** Runs a program symbolically, rebuilding the trees whose values the stack would hold. */
  function Decompile(instructions: seq<Instruction>): Option<seq<Expression>>
  {
    if instructions == [] then
      Some([])
    else
      match Decompile(instructions[..|instructions| - 1])
      case None => None
      case Some(trees) => DecompileOne(instructions[|instructions| - 1], trees)
  }

  lemma DecompileAppend(before: seq<Instruction>, instruction: Instruction)
    requires Decompile(before).Some?
    ensures Decompile(before + [instruction]) == DecompileOne(instruction, Decompile(before).value)
  {
    assert (before + [instruction])[..|before|] == before;
  }

  lemma DecompileOneOnTree(base: seq<Expression>, e: Expression)
    requires WellFormed(e)
    ensures DecompileOne(InstructionOf(e), base + e.arguments) == Some(base + [e])
  {
    var trees := base + e.arguments;
    assert trees[|base|..] == e.arguments && trees[..|base|] == base;
    assert TreeOf(InstructionOf(e), e.arguments) == e;
  }

  lemma {:induction false} DecompilePostfix(before: seq<Instruction>, e: Expression)
    requires WellFormed(e) && Decompile(before).Some?
    ensures Decompile(before + Postfix(e)) == Some(Decompile(before).value + [e])
    decreases e, 1
  {
    hide Decompile, DecompileOne, Postfix, PostfixAll;
    DecompilePostfixAll(before, e.arguments);
    DecompileAppend(before + PostfixAll(e.arguments), InstructionOf(e));
    DecompileOneOnTree(Decompile(before).value, e);
    PostfixUnfolds(before, e);
  }

  lemma {:induction false} DecompilePostfixAll(before: seq<Instruction>, es: seq<Expression>)
    requires AllWellFormed(es) && Decompile(before).Some?
    ensures Decompile(before + PostfixAll(es)) == Some(Decompile(before).value + es)
    decreases es, 0
  {
    if es == [] {
      hide Decompile;
      assert before + PostfixAll(es) == before && Decompile(before).value + es == Decompile(before).value;
    } else {
      hide *;
      var init, last := es[..|es| - 1], es[|es| - 1];
      PostfixAllUnfolds(before, es);
      DecompilePostfixAll(before, init);
      DecompilePostfix(before + PostfixAll(init), last);
      assert es == init + [last];
      Associative(Decompile(before).value, init, [last]);
    }
  }

  lemma {:induction false} PostfixAllAppend(left: seq<Expression>, right: seq<Expression>)
    ensures PostfixAll(left + right) == PostfixAll(left) + PostfixAll(right)
  {
    if right == [] {
      assert left + right == left;
    } else {
      hide *;
      var init, last := right[..|right| - 1], right[|right| - 1];
      PostfixAllAppend(left, init);
      var both := left + right;
      assert both[..|both| - 1] == left + init && both[|both| - 1] == last;
      PostfixAllUnfolds([], both);
      PostfixAllUnfolds(PostfixAll(left), right);
      assert [] + PostfixAll(both) == PostfixAll(both);
      assert [] + PostfixAll(left + init) == PostfixAll(left + init);
    }
  }

  lemma PostfixOfOne(e: Expression)
    ensures PostfixAll([e]) == Postfix(e)
  {
    hide Postfix;
    assert [e][..0] == [] && PostfixAll([]) == [];
    assert [] + Postfix(e) == Postfix(e);
  }

  lemma DecompileOneSound(i: Instruction, trees: seq<Expression>)
    requires AllWellFormed(trees) && DecompileOne(i, trees).Some?
    ensures AllWellFormed(DecompileOne(i, trees).value)
    ensures PostfixAll(DecompileOne(i, trees).value) == PostfixAll(trees) + [i]
  {
    hide InstructionArity, PostfixAll;
    var arity := InstructionArity(i).value;
    var kept, arguments := trees[..|trees| - arity], trees[|trees| - arity..];
    var e := TreeOf(i, arguments);
    assert InstructionOf(e) == i;
    assert trees == kept + arguments;
    PostfixAllAppend(kept, arguments);
    PostfixAllAppend(kept, [e]);
    PostfixOfOne(e);
    PostfixUnfolds(PostfixAll(kept), e);
    Associative(PostfixAll(kept), PostfixAll(arguments), [i]);
  }

  lemma {:induction false} DecompileSound(instructions: seq<Instruction>)
    requires Decompile(instructions).Some?
    ensures AllWellFormed(Decompile(instructions).value)
    ensures PostfixAll(Decompile(instructions).value) == instructions
  {
    hide DecompileOne;
    if instructions != [] {
      var before, i := instructions[..|instructions| - 1], instructions[|instructions| - 1];
      DecompileSound(before);
      DecompileOneSound(i, Decompile(before).value);
      assert instructions == before + [i];
    }
  }

  predicate Within(trees: seq<Expression>, height: nat) {
    forall e | e in trees :: Height(e) <= height
  }

  lemma ExecuteOneAgrees(i: Instruction, trees: seq<Expression>, features: seq<int64>)
    requires |features| == FEATURE_COUNT && AllWellFormed(trees) && Within(trees, MAX_DEPTH)
    requires ExecuteOne(i, SlotsOf(trees, features), features).Success?
    ensures DecompileOne(i, trees).Some?
    ensures var result := DecompileOne(i, trees).value;
            && AllWellFormed(result) && Within(result, MAX_DEPTH)
            && ExecuteOne(i, SlotsOf(trees, features), features).value == SlotsOf(result, features)
  {
    hide InstructionArity, Operate, SlotOf;
    var arity := InstructionArity(i).value;
    var kept, arguments := trees[..|trees| - arity], trees[|trees| - arity..];
    var e := TreeOf(i, arguments);
    assert InstructionOf(e) == i;
    assert trees == kept + arguments;
    assert SlotsOf(trees, features) == SlotsOf(kept, features) + SlotsOf(arguments, features);
    SlotsOfArguments(arguments, features);
    assert SlotsOf(trees, features)[|trees| - arity..] == SlotsOf(arguments, features);
    assert Height(e) <= MAX_DEPTH;
    ExecuteOneOnTree(SlotsOf(kept, features), e, features);
    assert SlotsOf(kept + [e], features) == SlotsOf(kept, features) + [SlotOf(e, features)];
  }

  // Whatever Execute accepts, Decompile accepts too, and the stack holds the trees' meanings.
  lemma {:induction false} ExecuteAgreesWithDecompile(instructions: seq<Instruction>, features: seq<int64>)
    requires |features| == FEATURE_COUNT
    requires Execute(instructions, features).Success?
    ensures Decompile(instructions).Some?
    ensures var trees := Decompile(instructions).value;
            && AllWellFormed(trees) && Within(trees, MAX_DEPTH)
            && Execute(instructions, features).value == SlotsOf(trees, features)
  {
    if instructions != [] {
      hide ExecuteOne, DecompileOne, SlotsOf;
      var before, i := instructions[..|instructions| - 1], instructions[|instructions| - 1];
      ExecuteAgreesWithDecompile(before, features);
      ExecuteOneAgrees(i, Decompile(before).value, features);
      assert instructions == before + [i];
      ExecuteAppend(before, i, features);
      DecompileAppend(before, i);
    }
  }

  // ---- Main results ----

  // A program is accepted exactly when it is the postfix form of a tree within both budgets,
  // and its value is then that tree's meaning.
  lemma EvaluatorAcceptsExactlyCompiledTrees(instructions: seq<Instruction>, features: seq<int64>)
    requires |features| == FEATURE_COUNT
    ensures Outcome(instructions, features).Success? <==>
            exists e :: Admissible(e) && Postfix(e) == instructions
    ensures forall e | Admissible(e) && Postfix(e) == instructions ::
              Outcome(instructions, features) == Success(Meaning(e, features))
  {
    forall e | Admissible(e) && Postfix(e) == instructions
      ensures Outcome(instructions, features) == Success(Meaning(e, features))
    {
      ExecutePostfix([], e, features);
      PostfixLength(e);
      assert [] + Postfix(e) == Postfix(e);
    }
    if Outcome(instructions, features).Success? {
      ExecuteAgreesWithDecompile(instructions, features);
      DecompileSound(instructions);
      var trees := Decompile(instructions).value;
      var e := trees[0];
      assert trees == [e] && e in trees;
      PostfixOfOne(e);
      PostfixLength(e);
      assert Admissible(e);
    }
  }

  // The tree of an accepted program is unique: compilation is injective and Decompile inverts it.
  lemma PostfixIsInjective(e: Expression, other: Expression)
    requires WellFormed(e) && WellFormed(other)
    ensures Decompile(Postfix(e)) == Some([e])
    ensures Postfix(e) == Postfix(other) ==> e == other
  {
    DecompilePostfix([], e);
    DecompilePostfix([], other);
    assert [] + Postfix(e) == Postfix(e) && [] + Postfix(other) == Postfix(other);
    assert [] + [e] == [e] && [] + [other] == [other];
    assert [e][0] == e && [other][0] == other;
  }

  // End to end: a compiled controller never fails on in-range features and computes the
  // two trees' meanings, clamped to the actuator range.
  lemma CompiledControllerComputesItsMeaning(controller: Controller, features: seq<int64>)
    requires Compile(controller).Success?
    ensures EvaluateSpec(Compile(controller).value, features).Success? <==> InRangeFeatures(features)
    ensures WellFormed(controller.steering) && WellFormed(controller.acceleration)
    ensures InRangeFeatures(features) ==>
              var action := EvaluateSpec(Compile(controller).value, features).value;
              && Nearest(action.steering, Meaning(controller.steering, features), -1000, 1000)
              && Nearest(action.acceleration, Meaning(controller.acceleration, features), -1000, 1000)
  {
    CompileSucceedsExactly(controller);
    if InRangeFeatures(features) {
      EvaluatorAcceptsExactlyCompiledTrees(Postfix(controller.steering), features);
      EvaluatorAcceptsExactlyCompiledTrees(Postfix(controller.acceleration), features);
    }
  }

  // Evaluate answers any program, compiled here or not: it succeeds exactly on four features in range and two programs
  // that are postfix forms of trees within both budgets, and gives the trees' values, clamped to the actuator range.
  lemma EvaluationExactly(program: Program, features: seq<int64>, steering: Expression, acceleration: Expression)
    ensures EvaluateSpec(program, features).Success? <==>
            && program.Program? && program.schemaVersion == 1 && !program.unknown && InRangeFeatures(features)
            && (exists e :: Admissible(e) && Postfix(e) == program.steering)
            && (exists e :: Admissible(e) && Postfix(e) == program.acceleration)
    ensures EvaluateSpec(program, features).Success?
            && Admissible(steering) && Postfix(steering) == program.steering
            && Admissible(acceleration) && Postfix(acceleration) == program.acceleration ==>
              var action := EvaluateSpec(program, features).value;
              && InRangeFeatures(features)
              && Nearest(action.steering, Meaning(steering, features), -1000, 1000)
              && Nearest(action.acceleration, Meaning(acceleration, features), -1000, 1000)
  {
    if program.Program? && InRangeFeatures(features) {
      EvaluatorAcceptsExactlyCompiledTrees(program.steering, features);
      EvaluatorAcceptsExactlyCompiledTrees(program.acceleration, features);
    }
    hide Outcome, Admissible, Postfix, Meaning;
  }

  // ---- The machine as the source runs it: fixed int64 arrays and a stack counter. ----

  method Clamp64(value: int64, lower: int64, upper: int64) returns (r: int64)
    ensures r as int == ClampTo(value as int, lower as int, upper as int)
  {
    r := if value < lower then lower else value;
    if upper < r {
      r := upper;
    }
  }

  method Quotient64(a: int64, b: int64) returns (q: int64)
    requires b > 0 && a > -0x8000_0000_0000_0000
    ensures q as int == Quotient(a as int, b as int)
  {
    if a >= 0 {
      q := a / b;
    } else {
      q := -((-a) / b);
    }
  }

  lemma DeepestFrom(stack: seq<Slot>, from: nat, position: nat)
    requires from <= position < |stack|
    ensures Deepest(stack[from..position + 1]) == Max(Deepest(stack[from..position]), stack[position].depth)
  {
    var slots := stack[from..position + 1];
    assert slots[..|slots| - 1] == stack[from..position];
  }

  /** The operator switch, reading its arguments from the top of the value array. */
  method Operate64(instruction: Instruction, stack: array<int64>, count: nat, features: seq<int64>,
                   ghost arguments: seq<int>)
    returns (result: int64)
    requires InRangeFeatures(features) && |arguments| <= count <= stack.Length
    requires InstructionArity(instruction) == Success(|arguments|)
    requires forall j | 0 <= j < |arguments| ::
               stack[count - |arguments| + j] as int == arguments[j] && WithinValueLimit(arguments[j])
    ensures result as int == Operate(instruction, arguments, features)
  {
    result := 0;
    match instruction.opcode {
      case Constant => result := instruction.value;
      case Input => result := features[instruction.inputIndex];
      case Add =>
        assert arguments[0] == stack[count - 2] as int && arguments[1] == stack[count - 1] as int;
        result := stack[count - 2] + stack[count - 1];
      case Scale =>
        assert arguments[0] == stack[count - 1] as int;
        ProductFits(arguments[0], instruction.value as int);
        result := Quotient64(stack[count - 1] * instruction.value, SCALE as int64);
      case Clamp =>
        assert arguments[0] == stack[count - 1] as int;
        result := Clamp64(stack[count - 1], instruction.lower, instruction.upper);
      case _ =>
    }
  }

  /** The height of the expression an instruction completes, from its arguments' heights. */
  method CombinedDepth(depths: array<nat>, count: nat, arity: nat, ghost slots: seq<Slot>) returns (depth: nat)
    requires arity <= count == |slots| <= depths.Length
    requires forall j | 0 <= j < count :: slots[j].depth == depths[j]
    ensures depth == 1 + Deepest(slots[count - arity..])
  {
    depth := 1;
    for position := count - arity to count
      invariant depth == 1 + Deepest(slots[count - arity..position])
    {
      DeepestFrom(slots, count - arity, position);
      depth := Max(depth, depths[position] + 1);
    }
    assert slots[count - arity..count] == slots[count - arity..];
  }

  /** The two arrays hold exactly the slots, all of them saturated. */
  ghost predicate Mirrors(stack: array<int64>, depths: array<nat>, slots: seq<Slot>)
    reads stack, depths
  {
    && stack.Length == depths.Length == MAX_INSTRUCTIONS && |slots| <= MAX_INSTRUCTIONS
    && forall j | 0 <= j < |slots| :: slots[j] == Slot(stack[j] as int, depths[j]) && WithinValueLimit(slots[j].value)
  }

  method PushSlot(stack: array<int64>, depths: array<nat>, count: nat, value: int64, depth: nat, ghost slots: seq<Slot>)
    requires Mirrors(stack, depths, slots) && count <= |slots| && count < MAX_INSTRUCTIONS
    requires WithinValueLimit(value as int)
    modifies stack, depths
    ensures Mirrors(stack, depths, slots[..count] + [Slot(value as int, depth)])
  {
    stack[count] := value;
    depths[count] := depth;
  }

  /** The loop body of evaluateInstructions: one instruction against the two arrays. */
  method ExecuteInstruction(instruction: Instruction, stack: array<int64>, depths: array<nat>, count: nat,
                            features: seq<int64>, ghost slots: seq<Slot>)
    returns (r: Result<nat, EvaluationError>)
    requires InRangeFeatures(features) && Mirrors(stack, depths, slots) && count == |slots| < MAX_INSTRUCTIONS
    modifies stack, depths
    ensures r.Failure? ==> ExecuteOne(instruction, slots, features) == Failure(r.error)
    ensures r.Success? ==>
              var next := ExecuteOne(instruction, slots, features);
              next.Success? && r.value == |next.value| <= count + 1 && Mirrors(stack, depths, next.value)
  {
    hide InstructionArity, Operate, Deepest;
    var arityResult := InstructionArity(instruction);
    if arityResult.Failure? {
      return Failure(BadInstruction(arityResult.error));
    }
    var arity := arityResult.value;
    if count < arity {
      return Failure(StackUnderflow);
    }
    ghost var popped := slots[count - arity..];
    var depth := CombinedDepth(depths, count, arity, slots);
    if depth > MAX_DEPTH {
      return Failure(DepthExceeded);
    }
    var result := Operate64(instruction, stack, count, features, Values(popped));
    var saturated := Clamp64(result, -VALUE_LIMIT as int64, VALUE_LIMIT as int64);
    PushSlot(stack, depths, count - arity, saturated, depth, slots);
    return Success(count - arity + 1);
  }

  lemma OutcomeOfStack(instructions: seq<Instruction>, features: seq<int64>, stack: seq<Slot>)
    requires 0 < |instructions| <= MAX_INSTRUCTIONS && |features| == FEATURE_COUNT
    requires Execute(instructions, features) == Success(stack)
    ensures Outcome(instructions, features)
         == if |stack| == 1 then Success(stack[0].value) else Failure(NotExactlyOneValue)
  {
    hide Execute;
  }

  method EvaluateInstructions(instructions: seq<Instruction>, features: seq<int64>)
    returns (r: Result<int64, EvaluationError>)
    requires InRangeFeatures(features)
    ensures r.Success? <==> Outcome(instructions, features).Success?
    ensures r.Success? ==> r.value as int == Outcome(instructions, features).value
    ensures r.Failure? ==> r.error == Outcome(instructions, features).error
  {
    if |instructions| == 0 || |instructions| > MAX_INSTRUCTIONS {
      return Failure(ProgramLengthOutsideBudget);
    }
    assert Execute(instructions[..0], features) == Success([]);
    hide Execute, ExecuteOne, Outcome, InRangeFeatures;
    var stack := new int64[MAX_INSTRUCTIONS](_ => 0);
    var depths := new nat[MAX_INSTRUCTIONS](_ => 0);
    var count := 0;
    ghost var slots: seq<Slot> := [];
    for k := 0 to |instructions|
      invariant count == |slots| <= k
      invariant Execute(instructions[..k], features) == Success(slots)
      invariant Mirrors(stack, depths, slots)
    {
      StepFailure(instructions, features, k, slots);
      var step := ExecuteInstruction(instructions[k], stack, depths, count, features, slots);
      if step.Failure? {
        return Failure(step.error);
      }
      count := step.value;
      slots := ExecuteOne(instructions[k], slots, features).value;
    }
    assert instructions[..|instructions|] == instructions;
    OutcomeOfStack(instructions, features, slots);
    if count != 1 {
      return Failure(NotExactlyOneValue);
    }
    return Success(stack[0]);
  }

  lemma ScaledUp(a: int, b: int, c: int)
    requires a <= b && 0 <= c
    ensures a * c <= b * c
  {
  }

  lemma ProductFits(value: int, gain: int)
    requires WithinValueLimit(value) && -COEFFICIENT_LIMIT <= gain <= COEFFICIENT_LIMIT
    ensures -VALUE_LIMIT * COEFFICIENT_LIMIT <= value * gain <= VALUE_LIMIT * COEFFICIENT_LIMIT
  {
    var magnitude := if gain >= 0 then gain else -gain;
    ScaledUp(value, VALUE_LIMIT, magnitude);
    ScaledUp(-VALUE_LIMIT, value, magnitude);
    assert value * gain == value * magnitude || value * gain == -(value * magnitude);
  }

  // A failing step makes the whole program fail with that error.
  lemma {:induction false} StepFailure(instructions: seq<Instruction>, features: seq<int64>, k: nat, slots: seq<Slot>)
    requires k < |instructions| <= MAX_INSTRUCTIONS && |features| == FEATURE_COUNT
    requires Execute(instructions[..k], features) == Success(slots)
    ensures Execute(instructions[..k + 1], features) == ExecuteOne(instructions[k], slots, features)
    ensures ExecuteOne(instructions[k], slots, features).Failure? ==>
              Outcome(instructions, features) == Failure(ExecuteOne(instructions[k], slots, features).error)
  {
    assert instructions[..k + 1][..k] == instructions[..k];
    var failed := ExecuteOne(instructions[k], slots, features);
    if failed.Failure? {
      FailurePersists(instructions, features, k + 1);
      assert instructions[..|instructions|] == instructions;
    }
  }

  lemma {:induction false} FailurePersists(instructions: seq<Instruction>, features: seq<int64>, k: nat)
    requires k <= |instructions| && |features| == FEATURE_COUNT
    requires Execute(instructions[..k], features).Failure?
    ensures Execute(instructions, features).Failure?
    ensures Execute(instructions, features).error == Execute(instructions[..k], features).error
    decreases |instructions| - k
  {
    if k < |instructions| {
      assert instructions[..k + 1][..k] == instructions[..k];
      FailurePersists(instructions, features, k + 1);
    } else {
      assert instructions[..k] == instructions;
    }
  }

  method Evaluate(program: Program, features: seq<int64>) returns (r: Result<Action, EvaluationError>)
    ensures r == EvaluateSpec(program, features)
  {
    if program.NilProgram? || program.schemaVersion != SCHEMA_VERSION || program.unknown {
      return Failure(UnsupportedProgram);
    }
    if |features| != FEATURE_COUNT {
      return Failure(FeatureCountWrong);
    }
    for k := 0 to |features|
      invariant forall j | 0 <= j < k :: -FEATURE_LIMIT <= features[j] as int <= FEATURE_LIMIT
    {
      if features[k] as int < -FEATURE_LIMIT || features[k] as int > FEATURE_LIMIT {
        assert features[k] in features;
        return Failure(FeatureOutsideProfile);
      }
    }
    var steering := EvaluateInstructions(program.steering, features);
    if steering.Failure? {
      return Failure(steering.error);
    }
    var acceleration := EvaluateInstructions(program.acceleration, features);
    if acceleration.Failure? {
      return Failure(acceleration.error);
    }
    var s := Clamp64(steering.value, -SCALE as int64, SCALE as int64);
    var a := Clamp64(acceleration.value, -SCALE as int64, SCALE as int64);
    return Success(Action(s as int, a as int, 0, 0, false, ""));
  }
}
