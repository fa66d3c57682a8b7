/** How the stages fit together: what the parser produces is what the interpreter and the
    binary format accept. */
module ContractPipeline {
  import opened Wrappers
  import opened ContractModel
  import opened ProtoMessages
  import opened ContractSerialization
  import opened ContractDeserialization
  import opened EffectSystem
  import opened ContractInterpretation
  import opened ContractParsing

  /** Every simple effect the parser builds is accepted by exactly one simple interpreter. */
  lemma ParsedSimpleEffectsInterpret<C>(expression: KtExpression, settings: LanguageSettings)
    ensures TryParseReturns(expression, settings).value.Some? ==>
      InterpretEffect<C>(TryParseReturns(expression, settings).value.value).Some?
    ensures TryParseCalls(expression, settings).value.Some? ==>
      InterpretEffect<C>(TryParseCalls(expression, settings).value.value).Some?
  {
  }

  /** Every constant the parser accepts has a value in the binary format, and reads back
      as itself. */
  lemma ParsedConstantsRoundTrip(expression: Option<KtExpression>)
    requires ParseConstant(expression).Some?
    ensures var c := ParseConstant(expression).value;
      && ConstantValueProtobufEnum(c).Success?
      && ConstantValueProtobufEnum(c).value.Some?
      && DeserializeConstant(ConstantValueProtobufEnum(c).value.value) == c
  {
  }
}
