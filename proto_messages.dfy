/** The contract part of the binary metadata format: messages whose optional fields are
    `Option`s and whose repeated fields are sequences. A type is written as itself; its
    id in the type table is a separate optional field. */
module ProtoMessages {
  import opened Wrappers
  import opened ContractModel

  /** The two bits of the expression `flags` field. */
  datatype ExpressionFlags = ExpressionFlags(isNegated: bool, isNullCheckPredicate: bool)

  datatype ConstantValue = TrueValue | FalseValue | NullValue

  datatype ExpressionMessage = ExpressionMessage(
    flags: Option<ExpressionFlags>,
    valueParameterReference: Option<int>,
    constantValue: Option<ConstantValue>,
    isInstanceType: Option<KotlinType>,
    isInstanceTypeId: Option<int>,
    andArguments: seq<ExpressionMessage>,
    orArguments: seq<ExpressionMessage>)
  {
    /** The flags as read from the message: an absent field reads as all bits clear. */
    function Flags(): ExpressionFlags {
      flags.GetOr(ExpressionFlags(false, false))
    }

    predicate HasType() {
      isInstanceType.Some? || isInstanceTypeId.Some?
    }
  }

  const EmptyExpression: ExpressionMessage := ExpressionMessage(None, None, None, None, None, [], [])

  datatype EffectType = ReturnsConstant | ReturnsNotNull | Calls

  datatype ProtoInvocationKind = ProtoAtMostOnce | ProtoExactlyOnce | ProtoAtLeastOnce

  datatype EffectMessage = EffectMessage(
    effectType: Option<EffectType>,
    effectConstructorArguments: seq<ExpressionMessage>,
    conclusionOfConditionalEffect: Option<ExpressionMessage>,
    kind: Option<ProtoInvocationKind>)

  const EmptyEffect: EffectMessage := EffectMessage(None, [], None, None)

  datatype ContractMessage = ContractMessage(effects: seq<EffectMessage>)
}
