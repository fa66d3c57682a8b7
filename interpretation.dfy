/** Interpretation of contract declarations into semantic effects. Each simple effect goes
    through the interpreters for `returns` and for `callsInPlace`, exactly one of which must
    accept it; a conditional effect interprets its inner effect the same way and hands its
    condition to the condition interpreter, which is a parameter here. One effect that
    cannot be interpreted discards the whole contract. */
module ContractInterpretation {
  import opened Wrappers
  import opened ContractModel
  import opened EffectSystem
  import opened LazyContracts
  import opened ProtoMessages
  import opened ContractDeserialization

  /** The declaration-side constant that a semantic constant stands for. */
  function ConstantOf(k: ESConstant): ConstantDescriptor {
    match k
    case ESTrue => True
    case ESFalse => False
    case ESNull => Null
    case ESNotNull => NotNull
    case ESWildcard => Wildcard
  }

  /** Each of the five singletons has its semantic constant; any other constant has none. */
  function InterpretConstant(c: ConstantDescriptor): (r: Option<ESConstant>)
    ensures r.None? <==> c.Custom?
    ensures r.Some? ==> ConstantOf(r.value) == c
  {
    match c
    case True => Some(ESTrue)
    case False => Some(ESFalse)
    case Null => Some(ESNull)
    case NotNull => Some(ESNotNull)
    case Wildcard => Some(ESWildcard)
    case Custom(_, _) => None
  }

  /** `InterpretConstant` and `ConstantOf` are inverse on the singletons. */
  lemma ConstantInterpretationInverse(k: ESConstant)
    ensures InterpretConstant(ConstantOf(k)) == Some(k)
  {
  }

  /** A variable always interprets, as the semantic variable of its parameter. */
  function InterpretVariable(v: VariableReference): (r: Option<ESVariable>)
    ensures r.Some? && r.value.descriptor == v.descriptor
  {
    Some(ESVariable(v.descriptor))
  }

  function TryInterpretReturns<C>(effect: EffectDeclaration): (r: Option<ESEffect<C>>)
    ensures r.Some? <==> effect.ReturnsEffectDeclaration? && !effect.value.Custom?
    ensures r.Some? ==> r.value.Simple? && r.value.effect.ESReturns? && ConstantOf(r.value.effect.value) == effect.value
  {
    if !effect.ReturnsEffectDeclaration? then None
    else match InterpretConstant(effect.value)
      case None => None
      case Some(value) => Some(Simple(ESReturns(value)))
  }

  function TryInterpretCalls<C>(effect: EffectDeclaration): (r: Option<ESEffect<C>>)
    ensures r.Some? <==> effect.CallsEffectDeclaration?
    ensures r.Some? ==> r.value.Simple? && r.value.effect.ESCalls?
    ensures r.Some? ==> r.value.effect.callable.descriptor == effect.variableReference.descriptor
    ensures r.Some? ==> r.value.effect.kind == effect.kind
  {
    if !effect.CallsEffectDeclaration? then None
    else match InterpretVariable(effect.variableReference)
      case None => None
      case Some(variable) => Some(Simple(ESCalls(variable, effect.kind)))
  }

  /** The two simple interpreters never both accept a declaration. */
  lemma SimpleInterpretersExclusive<C>(effect: EffectDeclaration)
    ensures !(TryInterpretReturns<C>(effect).Some? && TryInterpretCalls<C>(effect).Some?)
  {
  }

  /** The unique successful simple interpretation, if there is exactly one. */
  function InterpretEffect<C>(effect: EffectDeclaration): (r: Option<ESEffect<C>>)
    ensures r.Some? <==> (effect.ReturnsEffectDeclaration? && !effect.value.Custom?) || effect.CallsEffectDeclaration?
    ensures r.Some? ==> r.value.Simple?
    ensures effect.ReturnsEffectDeclaration? ==> r == TryInterpretReturns(effect)
    ensures effect.CallsEffectDeclaration? ==> r == TryInterpretCalls(effect)
  {
    var viaReturns := TryInterpretReturns<C>(effect);
    var viaCalls := TryInterpretCalls<C>(effect);
    assert [viaReturns, viaCalls][..1] == [viaReturns] && [viaReturns][..0] == [];
    SingleOrNull(Present([viaReturns, viaCalls]))
  }

  /** A conditional declaration: the inner effect must interpret to a simple effect and the
      condition must interpret. */
  function InterpretConditional<C>(effect: EffectDeclaration, condition: BooleanExpression,
                                   interpretCondition: BooleanExpression -> Option<C>): (r: Option<ESEffect<C>>)
    ensures r.Some? <==> InterpretEffect<C>(effect).Some? && interpretCondition(condition).Some?
    ensures r.Some? ==> r.value.ConditionalEffect? && r.value.condition == interpretCondition(condition).value
    ensures r.Some? ==> Some(Simple(r.value.simpleEffect)) == InterpretEffect<C>(effect)
    ensures effect.ConditionalEffectDeclaration? ==> r.None?
  {
    match InterpretEffect<C>(effect)
    case Some(Simple(simpleEffect)) =>
      (match interpretCondition(condition)
       case None => None
       case Some(c) => Some(ConditionalEffect(c, simpleEffect)))
    case _ => None
  }

  function InterpretDeclaration<C>(effect: EffectDeclaration, interpretCondition: BooleanExpression -> Option<C>): Option<ESEffect<C>> {
    match effect
    case ConditionalEffectDeclaration(inner, condition) => InterpretConditional(inner, condition, interpretCondition)
    case _ => InterpretEffect(effect)
  }

  /** Which declarations interpret: a Returns of one of the five singletons, every Calls,
      and a conditional over one of those whose condition interprets. */
  lemma DeclarationInterprets<C>(effect: EffectDeclaration, interpretCondition: BooleanExpression -> Option<C>)
    ensures InterpretDeclaration(effect, interpretCondition).Some? <==>
      match effect
      case ReturnsEffectDeclaration(value) => !value.Custom?
      case CallsEffectDeclaration(_, _) => true
      case ConditionalEffectDeclaration(inner, condition) =>
        && (inner.CallsEffectDeclaration? || (inner.ReturnsEffectDeclaration? && !inner.value.Custom?))
        && interpretCondition(condition).Some?
  {
  }

  /** The functor built from a contract: its clauses and its owner function. */
  datatype Functor<C> = SubstitutingFunctor(clauses: seq<ESEffect<C>>, ownerFunction: FunctionDescriptor)

  /** All clauses or nothing; the clauses follow the effects one for one, in order. */
  function ConvertContractDescriptorToFunctor<C>(contract: ContractDescriptor, interpretCondition: BooleanExpression -> Option<C>)
    : (r: Option<Functor<C>>)
    ensures r.Some? <==> forall i :: 0 <= i < |contract.effects| ==> InterpretDeclaration(contract.effects[i], interpretCondition).Some?
    ensures r.Some? ==> r.value.ownerFunction == contract.ownerFunction && |r.value.clauses| == |contract.effects|
    ensures r.Some? ==> forall i :: 0 <= i < |contract.effects| ==>
      InterpretDeclaration(contract.effects[i], interpretCondition) == Some(r.value.clauses[i])
  {
    var interpreted := seq(|contract.effects|, i requires 0 <= i < |contract.effects| =>
      InterpretDeclaration(contract.effects[i], interpretCondition));
    assert forall i :: 0 <= i < |contract.effects| ==> interpreted[i] == InterpretDeclaration(contract.effects[i], interpretCondition);
    match AllPresent(interpreted)
    case None => None
    case Some(clauses) => Some(SubstitutingFunctor(clauses, contract.ownerFunction))
  }

  /** What a provider's stored contract gives: no contract, no functor. */
  function FunctorOf<C>(contract: Option<ContractDescriptor>, interpretCondition: BooleanExpression -> Option<C>): Option<Functor<C>> {
    match contract
    case None => None
    case Some(c) => ConvertContractDescriptorToFunctor(c, interpretCondition)
  }

  /** The functor of a function, read through its contract provider (`null` when the
      function has none); a provider error propagates. */
  method ResolveFunctor<C>(provider: LazyContractProvider?, interpretCondition: BooleanExpression -> Option<C>)
    returns (r: Result<Option<Functor<C>>, InternalError>)
    modifies if provider != null then {provider} else {}
    ensures provider == null ==> r == Success(None)
    ensures provider != null && provider.state != Processed ==> r.Failure?
    ensures provider != null && provider.state == Processed ==> r == Success(FunctorOf(provider.contractDescriptor, interpretCondition))
    ensures provider != null && old(provider.state) == Processed ==>
      provider.state == Processed && provider.contractDescriptor == old(provider.contractDescriptor)
    ensures provider != null && old(provider.state) == InProcess ==>
      provider.state == InProcess && provider.contractDescriptor == old(provider.contractDescriptor)
    ensures provider != null && old(provider.state) == NotProcessed ==>
      var first := FirstEvaluation(provider.computation, old(provider.contractDescriptor));
      provider.state == first.0 && provider.contractDescriptor == first.1
  {
    if provider == null {
      return Success(None);
    }
    var got := provider.GetContractDescriptor();
    if got.Failure? {
      return Failure(got.error);
    }
    r := Success(FunctorOf(got.value, interpretCondition));
  }

  /** Everything the deserializer produces as a simple effect is interpretable: its Returns
      constants are singletons and its conditionals are never nested. */
  lemma DecodedEffectInterprets<C>(m: EffectMessage, owner: FunctionDescriptor, typeTable: seq<KotlinType>,
                                   interpretCondition: BooleanExpression -> Option<C>)
    requires DecodePossiblyConditionalEffect(m, owner, typeTable).Some?
    ensures var effect := DecodePossiblyConditionalEffect(m, owner, typeTable).value;
      InterpretDeclaration(effect, interpretCondition).Some? <==>
        (effect.ConditionalEffectDeclaration? ==> interpretCondition(effect.condition).Some?)
  {
    var simple := DecodeSimpleEffect(m, owner, typeTable);
    assert simple.Some?;
    assert !simple.value.ConditionalEffectDeclaration?;
    assert simple.value.ReturnsEffectDeclaration? ==> !simple.value.value.Custom?;
  }

  /** A decoded contract interprets exactly when the condition interpreter accepts the
      conditions of its conditional effects. */
  lemma DecodedContractInterprets<C>(m: ContractMessage, owner: FunctionDescriptor, typeTable: seq<KotlinType>,
                                     interpretCondition: BooleanExpression -> Option<C>)
    requires DecodeContract(m, owner, typeTable).Some?
    ensures var contract := DecodeContract(m, owner, typeTable).value;
      ConvertContractDescriptorToFunctor(contract, interpretCondition).Some? <==>
        forall i :: 0 <= i < |contract.effects| && contract.effects[i].ConditionalEffectDeclaration? ==>
          interpretCondition(contract.effects[i].condition).Some?
  {
    var contract := DecodeContract(m, owner, typeTable).value;
    forall i | 0 <= i < |contract.effects|
      ensures InterpretDeclaration(contract.effects[i], interpretCondition).Some? <==>
        (contract.effects[i].ConditionalEffectDeclaration? ==> interpretCondition(contract.effects[i].condition).Some?)
    {
      DecodedEffectInterprets(m.effects[i], owner, typeTable, interpretCondition);
    }
  }
}
