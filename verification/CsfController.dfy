/** Controller expressions, their instructions and their meaning (csf/compiler.go). */
module CsfController {
  import opened Sequences
  import opened Wrappers
  import opened GoIntegers

  const SCHEMA_VERSION := 1
  const SCALE: int := 1000
  const VALUE_LIMIT: int := 1_000_000_000
  const COEFFICIENT_LIMIT: int := 1_000_000
  const FEATURE_LIMIT: int := 10_000
  const FEATURE_COUNT: nat := 4
  const MAX_INSTRUCTIONS: nat := 128
  const MAX_DEPTH: nat := 16

  /** Protobuf enums are open: a number outside the declared ones is kept as Other. */
  datatype Opcode = Unspecified | Constant | Input | Add | Scale | Clamp | Other(code: int)

  /** A Go pointer to an instruction; `unknown` says it carries unknown wire fields. */
  datatype Instruction =
    | NilInstruction
    | Instruction(opcode: Opcode, value: int64, inputIndex: uint32, lower: int64, upper: int64, unknown: bool)

  /** A Go pointer to an expression node. */
  datatype Expression =
    | NilExpression
    | Expression(opcode: Opcode, value: int64, inputIndex: uint32, lower: int64, upper: int64, unknown: bool,
                 arguments: seq<Expression>)

  datatype InstructionError =
    | MissingOrUnknownFields
    | OperandOutsideProfile
    | UnexpectedInputIndex
    | UnexpectedValue
    | UnexpectedClampBounds
    | InputIndexOutsideProfile
    | CoefficientOutsideProfile
    | InvertedClampBounds
    | UnsupportedOpcode

  predicate WithinValueLimit(x: int) {
    -VALUE_LIMIT <= x <= VALUE_LIMIT
  }

  /** The number of arguments an admissible instruction takes. */
  function InstructionArity(instruction: Instruction): (r: Result<nat, InstructionError>)
    ensures r.Success? ==> r.value <= 2 && instruction.Instruction? && !instruction.unknown
    ensures r.Success? ==> WithinValueLimit(instruction.value as int) && instruction.inputIndex < FEATURE_COUNT
  {
    if instruction.NilInstruction? || instruction.unknown then
      Failure(MissingOrUnknownFields)
    else if !WithinValueLimit(instruction.value as int) || !WithinValueLimit(instruction.lower as int)
         || !WithinValueLimit(instruction.upper as int) then
      Failure(OperandOutsideProfile)
    else if instruction.opcode != Input && instruction.inputIndex != 0 then
      Failure(UnexpectedInputIndex)
    else if instruction.opcode != Constant && instruction.opcode != Scale && instruction.value != 0 then
      Failure(UnexpectedValue)
    else if instruction.opcode != Clamp && (instruction.lower != 0 || instruction.upper != 0) then
      Failure(UnexpectedClampBounds)
    else
      match instruction.opcode
      case Constant => Success(0)
      case Input => if instruction.inputIndex >= FEATURE_COUNT then Failure(InputIndexOutsideProfile) else Success(0)
      case Add => Success(2)
      case Scale =>
        if instruction.value as int < -COEFFICIENT_LIMIT || instruction.value as int > COEFFICIENT_LIMIT
        then Failure(CoefficientOutsideProfile) else Success(1)
      case Clamp => if instruction.lower > instruction.upper then Failure(InvertedClampBounds) else Success(1)
      case _ => Failure(UnsupportedOpcode)
  }

  /** The annotated field ranges of the generated validator; it does not recurse. */
  predicate ValidExpressionFields(e: Expression)
    requires e.Expression?
  {
    && WithinValueLimit(e.value as int)
    && e.inputIndex < 4
    && WithinValueLimit(e.lower as int)
    && WithinValueLimit(e.upper as int)
  }

  function InstructionOf(e: Expression): Instruction
    requires e.Expression?
  {
    Instruction(e.opcode, e.value, e.inputIndex, e.lower, e.upper, false)
  }

  /** Every node exists, has no unknown fields, and has as many arguments as its operator takes. */
  predicate WellFormed(e: Expression) {
    && e.Expression?
    && !e.unknown
    && InstructionArity(InstructionOf(e)) == Success(|e.arguments|)
    && forall a | a in e.arguments :: WellFormed(a)
  }

  predicate AllWellFormed(es: seq<Expression>) {
    forall e | e in es :: WellFormed(e)
  }

  function Size(e: Expression): nat
    decreases e, 1
  {
    if e.NilExpression? then 1 else 1 + SizeAll(e.arguments)
  }

  function SizeAll(es: seq<Expression>): nat
    decreases es, 0
  {
    if es == [] then 0 else SizeAll(es[..|es| - 1]) + Size(es[|es| - 1])
  }

  function Height(e: Expression): nat
    decreases e, 1
  {
    if e.NilExpression? then 1 else 1 + HeightAll(e.arguments)
  }

  function HeightAll(es: seq<Expression>): nat
    decreases es, 0
  {
    if es == [] then 0 else Max(HeightAll(es[..|es| - 1]), Height(es[|es| - 1]))
  }

  function Max(a: int, b: int): int {
    if a < b then b else a
  }

  /** Arguments left to right, then the operator. */
  function Postfix(e: Expression): seq<Instruction>
    decreases e, 1
  {
    if e.NilExpression? then [] else PostfixAll(e.arguments) + [InstructionOf(e)]
  }

  function PostfixAll(es: seq<Expression>): seq<Instruction>
    decreases es, 0
  {
    if es == [] then [] else PostfixAll(es[..|es| - 1]) + Postfix(es[|es| - 1])
  }

  /** Of the numbers from `lower` to `upper`, `r` is the one nearest to `value`. */
  predicate Nearest(r: int, value: int, lower: int, upper: int) {
    lower <= r <= upper && (value < r ==> r == lower) && (r < value ==> r == upper)
  }

  function ClampTo(value: int, lower: int, upper: int): (r: int)
    ensures lower <= upper ==> Nearest(r, value, lower, upper)
    ensures r == value || r == lower || r == upper
  {
    var atLeast := if value < lower then lower else value;
    if upper < atLeast then upper else atLeast
  }

  predicate InRangeFeatures(features: seq<int64>) {
    |features| == FEATURE_COUNT && forall f | f in features :: -FEATURE_LIMIT <= f as int <= FEATURE_LIMIT
  }

  /** One operator on its argument values, before saturation. */
  function Operate(instruction: Instruction, arguments: seq<int>, features: seq<int64>): int
    requires InstructionArity(instruction) == Success(|arguments|)
    requires |features| == FEATURE_COUNT
  {
    match instruction.opcode
    case Constant => instruction.value as int
    case Input => features[instruction.inputIndex] as int
    case Add => arguments[0] + arguments[1]
    case Scale => Quotient(arguments[0] * instruction.value as int, SCALE)
    case Clamp => ClampTo(arguments[0], instruction.lower as int, instruction.upper as int)
    case _ => 0
  }

  /** What an expression denotes: every node saturates at the numeric profile's limits. */
  function Meaning(e: Expression, features: seq<int64>): (v: int)
    requires WellFormed(e) && |features| == FEATURE_COUNT
    ensures WithinValueLimit(v)
    decreases e, 1
  {
    ClampTo(Operate(InstructionOf(e), MeaningAll(e.arguments, features), features), -VALUE_LIMIT, VALUE_LIMIT)
  }

  function MeaningAll(es: seq<Expression>, features: seq<int64>): (vs: seq<int>)
    requires AllWellFormed(es) && |features| == FEATURE_COUNT
    ensures |vs| == |es|
    decreases es, 0
  {
    if es == [] then [] else MeaningAll(es[..|es| - 1], features) + [Meaning(es[|es| - 1], features)]
  }

  /** `q` is a / b without its fraction. */
  predicate Truncates(q: int, a: int, b: int) {
    if a >= 0 then 0 <= a - q * b < b else -b < a - q * b <= 0
  }

  // A supported node takes the arguments of its operator and no operand that the operator does not use.
  lemma WellFormedExactly(e: Expression)
    ensures WellFormed(e) <==>
            && e.Expression? && !e.unknown && AllWellFormed(e.arguments)
            && -1_000_000_000 <= e.value as int <= 1_000_000_000
            && -1_000_000_000 <= e.lower as int <= 1_000_000_000 && -1_000_000_000 <= e.upper as int <= 1_000_000_000
            && (e.opcode == Input || e.inputIndex == 0)
            && (e.opcode == Constant || e.opcode == Scale || e.value == 0)
            && (e.opcode == Clamp || e.lower == e.upper == 0)
            && match e.opcode
               case Constant => |e.arguments| == 0
               case Input => |e.arguments| == 0 && e.inputIndex < 4
               case Add => |e.arguments| == 2
               case Scale => |e.arguments| == 1 && -1_000_000 <= e.value as int <= 1_000_000
               case Clamp => |e.arguments| == 1 && e.lower <= e.upper
               case _ => false
  {
  }

  // What each node computes from what its arguments compute.
  lemma MeaningNodeByNode(e: Expression, features: seq<int64>)
    requires WellFormed(e) && InRangeFeatures(features)
    ensures var v := Meaning(e, features);
            match e.opcode
            case Constant => v == e.value as int
            case Input => v == features[e.inputIndex] as int
            case Add =>
              && |e.arguments| == 2
              && Nearest(v, Meaning(e.arguments[0], features) + Meaning(e.arguments[1], features),
                         -1_000_000_000, 1_000_000_000)
            case Scale =>
              && |e.arguments| == 1
              && exists q :: Truncates(q, Meaning(e.arguments[0], features) * e.value as int, 1000)
                             && Nearest(v, q, -1_000_000_000, 1_000_000_000)
            case Clamp =>
              |e.arguments| == 1 && Nearest(v, Meaning(e.arguments[0], features), e.lower as int, e.upper as int)
            case _ => false
  {
    ArgumentMeanings(e.arguments, features);
    hide MeaningAll, Quotient, Truncates, ClampTo;
    if e.opcode == Input {
      assert features[e.inputIndex] in features;
    } else if e.opcode == Scale {
      var product := Meaning(e.arguments[0], features) * e.value as int;
      QuotientTruncates(product);
      assert Nearest(Meaning(e, features), Quotient(product, 1000), -1_000_000_000, 1_000_000_000);
    }
  }

  lemma QuotientTruncates(a: int)
    ensures Truncates(Quotient(a, 1000), a, 1000)
  {
  }

  lemma {:induction false} ArgumentMeanings(es: seq<Expression>, features: seq<int64>)
    requires AllWellFormed(es) && |features| == FEATURE_COUNT
    ensures forall i | 0 <= i < |es| :: MeaningAll(es, features)[i] == Meaning(es[i], features)
    decreases es
  {
    if es != [] {
      hide Meaning;
      ArgumentMeanings(es[..|es| - 1], features);
    }
  }

  lemma {:induction false} PostfixLength(e: Expression)
    requires WellFormed(e)
    ensures |Postfix(e)| == Size(e)
    decreases e, 1
  {
    PostfixAllLength(e.arguments);
  }

  lemma {:induction false} PostfixAllLength(es: seq<Expression>)
    requires AllWellFormed(es)
    ensures |PostfixAll(es)| == SizeAll(es)
    decreases es, 0
  {
    if es != [] {
      PostfixAllLength(es[..|es| - 1]);
      PostfixLength(es[|es| - 1]);
    }
  }

  lemma PostfixUnfolds(before: seq<Instruction>, e: Expression)
    requires e.Expression?
    ensures before + Postfix(e) == (before + PostfixAll(e.arguments)) + [InstructionOf(e)]
  {
    hide PostfixAll;
    Associative(before, PostfixAll(e.arguments), [InstructionOf(e)]);
  }

  // How the functions over argument lists unfold at the last argument.
  lemma PostfixAllUnfolds(before: seq<Instruction>, es: seq<Expression>)
    requires es != []
    ensures before + PostfixAll(es) == (before + PostfixAll(es[..|es| - 1])) + Postfix(es[|es| - 1])
    ensures AllWellFormed(es) ==> AllWellFormed(es[..|es| - 1]) && WellFormed(es[|es| - 1])
    ensures HeightAll(es[..|es| - 1]) <= HeightAll(es) && Height(es[|es| - 1]) <= HeightAll(es)
  {
    hide Postfix;
    Associative(before, PostfixAll(es[..|es| - 1]), Postfix(es[|es| - 1]));
  }
}
