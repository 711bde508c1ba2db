/** Compile and compileExpression: controller trees to bounded postfix programs (csf/compiler.go). */
module CsfCompiler {
  import opened Wrappers
  import opened GoIntegers
  import opened CsfController

  datatype CompileError =
    | ControllerMissing
    | ControllerInvalid
    | UnknownControllerFields
    | ExpressionBudgetExceeded
    | ExpressionFieldsInvalid
    | UnknownExpressionFields
    | NotAnInstruction(cause: InstructionError)
    | WrongArgumentCount
    | InstructionBudgetExceeded

  datatype Controller =
    | NilController
    | Controller(schemaVersion: uint32, name: string, steering: Expression, acceleration: Expression, unknown: bool)

  /** The SHA-256 of a controller's encoding, taken to be injective. */
  datatype ControllerHash = HashOf(controller: Controller) | HashText(text: string)

  datatype Program =
    | NilProgram
    | Program(schemaVersion: uint32, controllerHash: ControllerHash,
              steering: seq<Instruction>, acceleration: seq<Instruction>, unknown: bool)

  /** compileExpression: appends the postfix form of `e` to `instructions`. */
  function CompileExpression(e: Expression, instructions: seq<Instruction>, depth: nat)
    : (r: Result<seq<Instruction>, CompileError>)
    decreases e, 1
  {
    if e.NilExpression? || depth >= MAX_DEPTH || |instructions| >= MAX_INSTRUCTIONS then
      Failure(ExpressionBudgetExceeded)
    else if !ValidExpressionFields(e) then
      Failure(ExpressionFieldsInvalid)
    else if e.unknown then
      Failure(UnknownExpressionFields)
    else
      match InstructionArity(InstructionOf(e))
      case Failure(cause) => Failure(NotAnInstruction(cause))
      case Success(arity) =>
        if |e.arguments| != arity then
          Failure(WrongArgumentCount)
        else
          var compiled :- CompileArguments(e.arguments, instructions, depth + 1);
          if |compiled| >= MAX_INSTRUCTIONS then
            Failure(InstructionBudgetExceeded)
          else
            Success(compiled + [InstructionOf(e)])
  }

  function CompileArguments(es: seq<Expression>, instructions: seq<Instruction>, depth: nat)
    : (r: Result<seq<Instruction>, CompileError>)
    decreases es, 0
  {
    if es == [] then
      Success(instructions)
    else
      var compiled :- CompileArguments(es[..|es| - 1], instructions, depth);
      CompileExpression(es[|es| - 1], compiled, depth)
  }

  function Compile(controller: Controller): (r: Result<Program, CompileError>)
  {
    if controller.NilController? then
      Failure(ControllerMissing)
    else if controller.schemaVersion != SCHEMA_VERSION || !(0 < |controller.name| <= 128) then
      Failure(ControllerInvalid)
    else if controller.unknown then
      Failure(UnknownControllerFields)
    else
      var steering :- CompileExpression(controller.steering, [], 0);
      var acceleration :- CompileExpression(controller.acceleration, [], 0);
      Success(Program(SCHEMA_VERSION, HashOf(controller), steering, acceleration, false))
  }

  /** A tree that fits both budgets. */
  predicate Admissible(e: Expression) {
    WellFormed(e) && Size(e) <= MAX_INSTRUCTIONS && Height(e) <= MAX_DEPTH
  }

  // The validator's ranges are already implied by InstructionArity, so they do not appear below.
  lemma {:induction false} CompileExpressionExactly(e: Expression, instructions: seq<Instruction>, depth: nat)
    ensures var r := CompileExpression(e, instructions, depth);
            && (r.Success? <==> WellFormed(e) && depth + Height(e) <= MAX_DEPTH
                                && |instructions| + Size(e) <= MAX_INSTRUCTIONS)
            && (r.Success? ==> r.value == instructions + Postfix(e))
    decreases e, 1
  {
    if e.Expression? && depth < MAX_DEPTH && |instructions| < MAX_INSTRUCTIONS {
      CompileArgumentsExactly(e.arguments, instructions, depth + 1);
      if WellFormed(e) {
        PostfixAllLength(e.arguments);
      }
    }
  }

  lemma {:induction false} CompileArgumentsExactly(es: seq<Expression>, instructions: seq<Instruction>, depth: nat)
    requires depth <= MAX_DEPTH && |instructions| <= MAX_INSTRUCTIONS
    ensures var r := CompileArguments(es, instructions, depth);
            && (r.Success? <==> AllWellFormed(es) && depth + HeightAll(es) <= MAX_DEPTH
                                && |instructions| + SizeAll(es) <= MAX_INSTRUCTIONS)
            && (r.Success? ==> r.value == instructions + PostfixAll(es))
    decreases es, 0
  {
    if es != [] {
      var init, last := es[..|es| - 1], es[|es| - 1];
      CompileArgumentsExactly(init, instructions, depth);
      assert es == init + [last];
      assert AllWellFormed(es) <==> AllWellFormed(init) && WellFormed(last);
      var r := CompileArguments(init, instructions, depth);
      if r.Success? {
        PostfixAllLength(init);
        CompileExpressionExactly(last, r.value, depth);
        assert (instructions + PostfixAll(init)) + Postfix(last) == instructions + PostfixAll(es);
      }
    }
  }

  // Compile accepts exactly the well-formed trees within both budgets and emits their postfix forms.
  lemma CompileSucceedsExactly(controller: Controller)
    ensures Compile(controller).Success? <==>
            && controller.Controller? && controller.schemaVersion == 1 && 0 < |controller.name| <= 128
            && !controller.unknown
            && Admissible(controller.steering) && Admissible(controller.acceleration)
    ensures Compile(controller).Success? ==>
            var program := Compile(controller).value;
            && program.Program? && !program.unknown && program.schemaVersion == SCHEMA_VERSION
            && program.controllerHash == HashOf(controller)
            && program.steering == Postfix(controller.steering)
            && program.acceleration == Postfix(controller.acceleration)
  {
    if controller.Controller? {
      CompileExpressionExactly(controller.steering, [], 0);
      CompileExpressionExactly(controller.acceleration, [], 0);
      assert [] + Postfix(controller.steering) == Postfix(controller.steering);
      assert [] + Postfix(controller.acceleration) == Postfix(controller.acceleration);
    }
  }
}
