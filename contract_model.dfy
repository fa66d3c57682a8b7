/** The contract descriptor model: constants, variable references, boolean conditions,
    effect declarations and the contract that owns them. Every node is an immutable value;
    the visitor's double dispatch becomes an exhaustive `match` in each consumer. */
module ContractModel {
  import opened Wrappers

  /** A Kotlin type, identified by its rendered text. */
  datatype KotlinType = KotlinType(name: string)

  const BooleanType: KotlinType := KotlinType("Boolean")
  const NullableAnyType: KotlinType := KotlinType("Any?")
  const NullableNothingType: KotlinType := KotlinType("Nothing?")

  /** A receiver parameter may be the contracts-DSL builder's own `this`. */
  datatype ParameterKind = ReceiverParameter(fromContractsDsl: bool) | ValueParameter

  datatype ParameterDescriptor = ParameterDescriptor(kind: ParameterKind, name: string, kotlinType: KotlinType)

  /** The owner function, as far as contracts see it: its extension receiver and its
      value parameters in declaration order. */
  datatype FunctionDescriptor = FunctionDescriptor(
    extensionReceiverParameter: Option<ParameterDescriptor>,
    valueParameters: seq<ParameterDescriptor>)

  /** Parameters are distinct objects in the compiler; here they are values, so a
      well-formed owner lists distinct value parameters, each of value-parameter kind,
      and an ordinary (non-DSL) extension receiver. */
  ghost predicate WellFormedOwner(f: FunctionDescriptor) {
    && (f.extensionReceiverParameter.Some? ==>
          f.extensionReceiverParameter.value.kind == ReceiverParameter(false))
    && (forall i :: 0 <= i < |f.valueParameters| ==> f.valueParameters[i].kind.ValueParameter?)
    && (forall i, j :: 0 <= i < j < |f.valueParameters| ==> f.valueParameters[i] != f.valueParameters[j])
  }

  /** `ConstantDescriptor`: the five singletons, plus any other instance of the open class. */
  datatype ConstantDescriptor =
    | Null | Wildcard | NotNull | True | False
    | Custom(customType: KotlinType, customName: string)
  {
    function Name(): string {
      match this
      case Null => "NULL"
      case Wildcard => "WILDCARD"
      case NotNull => "NOT_NULL"
      case True => "TRUE"
      case False => "FALSE"
      case Custom(_, n) => n
    }

    function Type(): KotlinType {
      match this
      case Null => NullableAnyType
      case Wildcard => NullableAnyType
      case NotNull => NullableNothingType
      case True => BooleanType
      case False => BooleanType
      case Custom(t, _) => t
    }

    /** `BooleanConstantDescriptor`: the constants that are also boolean expressions. */
    predicate IsBoolean() {
      True? || False?
    }
  }

  type BooleanConstantDescriptor = c: ConstantDescriptor | c.IsBoolean() witness True

  /** `VariableReference`; `BooleanReference` is the `BooleanVariableReference` subclass. */
  datatype VariableReference =
    | PlainReference(descriptor: ParameterDescriptor, referenceType: KotlinType)
    | BooleanReference(descriptor: ParameterDescriptor)
  {
    function Type(): KotlinType {
      if BooleanReference? then BooleanType else referenceType
    }
  }

  type BooleanVariableReference = v: VariableReference | v.BooleanReference?
    witness BooleanReference(ParameterDescriptor(ValueParameter, "p", BooleanType))

  /** The reference both the parser and the deserializer build for a parameter: a boolean
      reference exactly when the parameter's type is `Boolean`. */
  function ReferenceTo(d: ParameterDescriptor): (v: VariableReference)
    ensures v.descriptor == d && v.Type() == d.kotlinType
    ensures v.BooleanReference? <==> d.kotlinType == BooleanType
  {
    if d.kotlinType == BooleanType then BooleanReference(d) else PlainReference(d, d.kotlinType)
  }

  datatype BooleanExpression =
    | LogicalOr(left: BooleanExpression, right: BooleanExpression)
    | LogicalAnd(left: BooleanExpression, right: BooleanExpression)
    | LogicalNot(arg: BooleanExpression)
    | IsInstancePredicate(variable: VariableReference, instanceType: KotlinType, isNegated: bool)
    | IsNullPredicate(variable: VariableReference, isNegated: bool)
    | BooleanConstant(constant: BooleanConstantDescriptor)
    | BooleanVariable(reference: BooleanVariableReference)
  {
    /** Variables, constants and the two predicates are atoms; the combinators are not. */
    predicate IsAtom() {
      IsInstancePredicate? || IsNullPredicate? || BooleanConstant? || BooleanVariable?
    }
  }

  datatype InvocationKind = AtMostOnce | ExactlyOnce | AtLeastOnce | Unknown {
    function Name(): string {
      match this
      case AtMostOnce => "AT_MOST_ONCE"
      case ExactlyOnce => "EXACTLY_ONCE"
      case AtLeastOnce => "AT_LEAST_ONCE"
      case Unknown => "UNKNOWN"
    }
  }

  datatype EffectDeclaration =
    | ReturnsEffectDeclaration(value: ConstantDescriptor)
    | CallsEffectDeclaration(variableReference: VariableReference, kind: InvocationKind)
    | ConditionalEffectDeclaration(effect: EffectDeclaration, condition: BooleanExpression)

  datatype ContractDescriptor = ContractDescriptor(effects: seq<EffectDeclaration>, ownerFunction: FunctionDescriptor)

  /** The fatal internal errors of the subsystem (thrown exceptions and failed assertions). */
  datatype InternalError =
    | RecursiveContractEvaluation
    | ContractNotInitialized
    | NotNullNotDenotable
    | UnknownConstant(constant: ConstantDescriptor)

  /** A reference names a parameter of `f` and has the shape `ReferenceTo` gives it. */
  ghost predicate WellFormedReference(v: VariableReference, f: FunctionDescriptor) {
    && (f.extensionReceiverParameter == Some(v.descriptor) || v.descriptor in f.valueParameters)
    && v == ReferenceTo(v.descriptor)
  }

  ghost predicate WellFormedCondition(e: BooleanExpression, f: FunctionDescriptor) {
    match e
    case LogicalOr(l, r) => WellFormedCondition(l, f) && WellFormedCondition(r, f)
    case LogicalAnd(l, r) => WellFormedCondition(l, f) && WellFormedCondition(r, f)
    case LogicalNot(a) => WellFormedCondition(a, f)
    case IsInstancePredicate(v, _, _) => WellFormedReference(v, f)
    case IsNullPredicate(v, _) => WellFormedReference(v, f)
    case BooleanConstant(_) => true
    case BooleanVariable(v) => WellFormedReference(v, f)
  }

  /** The three non-boolean singletons are distinct, carry their names, and NOT_NULL alone
      has the type nullable Nothing; TRUE and FALSE are the boolean-typed constants. */
  lemma SingletonConstants()
    ensures Null.Name() == "NULL" && Wildcard.Name() == "WILDCARD" && NotNull.Name() == "NOT_NULL"
    ensures Null != Wildcard && Wildcard != NotNull && Null != NotNull
    ensures Null.Type() == NullableAnyType && Wildcard.Type() == NullableAnyType
    ensures NotNull.Type() == NullableNothingType && NullableNothingType != NullableAnyType
    ensures True.Type() == BooleanType && False.Type() == BooleanType
    ensures !Null.IsBoolean() && !Wildcard.IsBoolean() && !NotNull.IsBoolean()
  {
  }

  /** A boolean variable reference always has the boolean type. */
  lemma BooleanReferenceType(v: VariableReference)
    requires v.BooleanReference?
    ensures v.Type() == BooleanType
  {
  }
}
