/** Reading a contract back from binary metadata. Each expression message is classified
    by the fields it has; a primitive part (variable, constant, null check or instance
    check) becomes the first child of an `&&` or `||` list, which is folded to the left.
    Anything that cannot be read makes the whole result absent. */
module ContractDeserialization {
  import opened Wrappers
  import opened ContractModel
  import opened ProtoMessages

  datatype DeserializationConfiguration = DeserializationConfiguration(
    returnsEffectAllowed: bool,
    callsInPlaceEffectAllowed: bool)

  /** What the deserializer reads besides the message: the configuration, the type table
      of the enclosing file, and the function whose contract it is. */
  datatype DeserializationContext = DeserializationContext(
    configuration: DeserializationConfiguration,
    typeTable: seq<KotlinType>,
    ownerFunction: FunctionDescriptor)

  datatype PrimitiveExpressionType = ValueParameterReference | ReceiverReference | Constant | InstanceCheck | NullabilityCheck

  datatype ComplexExpressionType = AndSequence | OrSequence

  /** The shape of the primitive part of a message. A predicate shape (a parameter index
      with a type, or with the null-check bit) overrides a plain value; a plain value is a
      value parameter for a positive index, the receiver for index 0, and otherwise a
      constant if the message has one. */
  function PrimitiveTypeOf(m: ExpressionMessage): (r: Option<PrimitiveExpressionType>)
    ensures r == Some(InstanceCheck) <==> m.valueParameterReference.Some? && m.HasType()
    ensures r == Some(NullabilityCheck) <==>
      m.valueParameterReference.Some? && !m.HasType() && m.Flags().isNullCheckPredicate
    ensures r == Some(ValueParameterReference) <==>
      m.valueParameterReference.Some? && !m.HasType() && !m.Flags().isNullCheckPredicate && m.valueParameterReference.value > 0
    ensures r == Some(ReceiverReference) <==>
      m.valueParameterReference.Some? && !m.HasType() && !m.Flags().isNullCheckPredicate && m.valueParameterReference.value == 0
    ensures r == Some(Constant) <==>
      m.constantValue.Some? &&
      (m.valueParameterReference.None? ||
       (m.valueParameterReference.value < 0 && !m.HasType() && !m.Flags().isNullCheckPredicate))
    ensures r.None? <==> (m.constantValue.None? && (m.valueParameterReference.None? ||
      (m.valueParameterReference.value < 0 && !m.HasType() && !m.Flags().isNullCheckPredicate)))
  {
    var hasReference := m.valueParameterReference.Some?;
    if hasReference && m.HasType() then Some(InstanceCheck)
    else if hasReference && m.Flags().isNullCheckPredicate then Some(NullabilityCheck)
    else if hasReference && m.valueParameterReference.value > 0 then Some(ValueParameterReference)
    else if hasReference && m.valueParameterReference.value == 0 then Some(ReceiverReference)
    else if m.constantValue.Some? then Some(Constant)
    else None
  }

  /** `||` lists take precedence over `&&` lists when a message has both. */
  function ComplexTypeOf(m: ExpressionMessage): (r: Option<ComplexExpressionType>)
    ensures r.None? <==> m.orArguments == [] && m.andArguments == []
    ensures r == Some(AndSequence) <==> m.orArguments == [] && m.andArguments != []
  {
    if |m.orArguments| != 0 then Some(OrSequence)
    else if |m.andArguments| != 0 then Some(AndSequence)
    else None
  }

  /** The classification as the deserializer computes it: candidate shapes collected
      into a list of which exactly one must remain. */
  method GetPrimitiveType(m: ExpressionMessage) returns (r: Option<PrimitiveExpressionType>)
    ensures r == PrimitiveTypeOf(m)
  {
    var expressionTypes: seq<PrimitiveExpressionType> := [];
    var hasReference := m.valueParameterReference.Some?;
    if hasReference && m.HasType() {
      expressionTypes := expressionTypes + [InstanceCheck];
    } else if hasReference && m.flags.Some? && m.flags.value.isNullCheckPredicate {
      expressionTypes := expressionTypes + [NullabilityCheck];
    }
    if |expressionTypes| != 0 {
      return SingleOrNull(expressionTypes);
    }
    if hasReference && m.valueParameterReference.value > 0 {
      expressionTypes := expressionTypes + [ValueParameterReference];
    } else if hasReference && m.valueParameterReference.value == 0 {
      expressionTypes := expressionTypes + [ReceiverReference];
    } else if m.constantValue.Some? {
      expressionTypes := expressionTypes + [Constant];
    }
    r := SingleOrNull(expressionTypes);
  }

  method GetComplexType(m: ExpressionMessage) returns (r: Option<ComplexExpressionType>)
    ensures r == ComplexTypeOf(m)
  {
    var expressionTypes: seq<ComplexExpressionType> := [];
    if |m.orArguments| != 0 {
      expressionTypes := expressionTypes + [OrSequence];
    } else if |m.andArguments| != 0 {
      expressionTypes := expressionTypes + [AndSequence];
    }
    r := SingleOrNull(expressionTypes);
  }

  /** Index 0 is the extension receiver and index k the value parameter k - 1; the
      reference is a boolean one exactly when the parameter is `Boolean`. */
  function ExtractVariable(m: ExpressionMessage, owner: FunctionDescriptor): (r: Option<VariableReference>)
    ensures r.Some? <==> (m.valueParameterReference.Some? &&
      (if m.valueParameterReference.value == 0 then owner.extensionReceiverParameter.Some?
       else 1 <= m.valueParameterReference.value <= |owner.valueParameters|))
    ensures r.Some? ==> r.value == ReferenceTo(r.value.descriptor)
    ensures r.Some? ==> (r.value.descriptor ==
      if m.valueParameterReference.value == 0 then owner.extensionReceiverParameter.value
      else owner.valueParameters[m.valueParameterReference.value - 1])
  {
    match m.valueParameterReference
    case None => None
    case Some(index) =>
      if index == 0 then
        (match owner.extensionReceiverParameter
          case None => None
          case Some(receiver) => Some(ReferenceTo(receiver)))
      else if 1 <= index <= |owner.valueParameters| then Some(ReferenceTo(owner.valueParameters[index - 1]))
      else None
  }

  /** The type is written inline when present, otherwise looked up in the type table
      (an absent id reads as 0). */
  function ExtractType(m: ExpressionMessage, typeTable: seq<KotlinType>): (r: Option<KotlinType>)
    ensures m.isInstanceType.Some? ==> r == m.isInstanceType
    ensures m.isInstanceType.None? ==>
      (r.Some? <==> 0 <= m.isInstanceTypeId.GetOr(0) < |typeTable|)
    ensures m.isInstanceType.None? && m.isInstanceTypeId.Some? && 0 <= m.isInstanceTypeId.value < |typeTable| ==>
      r == Some(typeTable[m.isInstanceTypeId.value])
    ensures m.isInstanceType.None? && m.isInstanceTypeId.None? && |typeTable| > 0 ==> r == Some(typeTable[0])
  {
    if m.isInstanceType.Some? then m.isInstanceType
    else
      var id := m.isInstanceTypeId.GetOr(0);
      if 0 <= id < |typeTable| then Some(typeTable[id]) else None
  }

  /** Each enum value reads as the constant of the same name. */
  function DeserializeConstant(value: ConstantValue): (c: ConstantDescriptor)
    ensures c in {True, False, Null}
    ensures c == True <==> value == TrueValue
    ensures c == False <==> value == FalseValue
    ensures c == Null <==> value == NullValue
    ensures c.IsBoolean() <==> !value.NullValue?
  {
    match value
    case TrueValue => True
    case FalseValue => False
    case NullValue => Null
  }

  /** Each enum value reads as the kind of the same name; UNKNOWN is never read. */
  function ToDescriptorInvocationKind(kind: ProtoInvocationKind): (r: InvocationKind)
    ensures r != Unknown
    ensures r == AtMostOnce <==> kind == ProtoAtMostOnce
    ensures r == ExactlyOnce <==> kind == ProtoExactlyOnce
    ensures r == AtLeastOnce <==> kind == ProtoAtLeastOnce
  {
    match kind
    case ProtoAtMostOnce => AtMostOnce
    case ProtoExactlyOnce => ExactlyOnce
    case ProtoAtLeastOnce => AtLeastOnce
  }

  function InvertIfNecessary(e: BooleanExpression, shouldInvert: bool): BooleanExpression {
    if shouldInvert then LogicalNot(e) else e
  }

  /** The primitive part of a message. The negation bit is the predicate's own
      `isNegated` on a null or instance check, and a `!` around a variable or constant;
      only boolean variables and boolean constants can stand alone. */
  function ExtractPrimitiveExpression(m: ExpressionMessage, owner: FunctionDescriptor, typeTable: seq<KotlinType>)
    : (r: Option<BooleanExpression>)
    ensures r.Some? ==> PrimitiveTypeOf(m).Some?
    ensures r.Some? ==> IsAtomChainOfDepth(r.value, 1)
  {
    var inverted := m.flags.Some? && m.flags.value.isNegated;
    match PrimitiveTypeOf(m)
    case None => None
    case Some(shape) =>
      match shape
      case ValueParameterReference =>
        (match ExtractVariable(m, owner)
          case Some(v) => if v.BooleanReference? then Some(InvertIfNecessary(BooleanVariable(v), inverted)) else None
          case None => None)
      case ReceiverReference =>
        (match ExtractVariable(m, owner)
          case Some(v) => if v.BooleanReference? then Some(InvertIfNecessary(BooleanVariable(v), inverted)) else None
          case None => None)
      case Constant =>
        var c := DeserializeConstant(m.constantValue.value);
        if c.IsBoolean() then Some(InvertIfNecessary(BooleanConstant(c), inverted)) else None
      case InstanceCheck =>
        (match (ExtractVariable(m, owner), ExtractType(m, typeTable))
          case (Some(v), Some(t)) => Some(IsInstancePredicate(v, t, inverted))
          case _ => None)
      case NullabilityCheck =>
        (match ExtractVariable(m, owner)
          case Some(v) => Some(IsNullPredicate(v, inverted))
          case None => None)
  }

  /** An atom under at most `depth` negations. */
  predicate IsAtomChainOfDepth(e: BooleanExpression, depth: nat) {
    e.IsAtom() || (depth > 0 && e.LogicalNot? && IsAtomChainOfDepth(e.arg, depth - 1))
  }

  function Combine(op: ComplexExpressionType, acc: BooleanExpression, e: BooleanExpression): BooleanExpression {
    match op
    case AndSequence => LogicalAnd(acc, e)
    case OrSequence => LogicalOr(acc, e)
  }

  /** Kotlin's `reduce`: a left fold that starts from the first element. */
  function Reduce(op: ComplexExpressionType, s: seq<BooleanExpression>): BooleanExpression
    requires |s| >= 1
  {
    if |s| == 1 then s[0] else Combine(op, Reduce(op, s[..|s| - 1]), s[|s| - 1])
  }

  function Arguments(m: ExpressionMessage, op: ComplexExpressionType): seq<ExpressionMessage> {
    match op
    case AndSequence => m.andArguments
    case OrSequence => m.orArguments
  }

  function DecodeExpression(m: ExpressionMessage, owner: FunctionDescriptor, typeTable: seq<KotlinType>): Option<BooleanExpression>
    decreases m
  {
    var primitive := ExtractPrimitiveExpression(m, owner, typeTable);
    match ComplexTypeOf(m)
    case None => primitive
    case Some(op) =>
      var arguments := Arguments(m, op);
      var decoded := seq(|arguments|, i requires 0 <= i < |arguments| => DecodeExpression(arguments[i], owner, typeTable));
      match AllPresent(decoded)
      case None => None
      case Some(children) =>
        Some(Reduce(op, (if primitive.Some? then [primitive.value] else []) + children))
  }

  /** A simple effect, by its effect type. RETURNS_CONSTANT without an argument is
      `returns()` with WILDCARD, and its argument must read as a boolean constant, so a
      written NULL is never read back. CALLS needs a resolvable parameter as its first
      argument; without a kind field the kind is UNKNOWN. */
  function DecodeSimpleEffect(m: EffectMessage, owner: FunctionDescriptor, typeTable: seq<KotlinType>): (r: Option<EffectDeclaration>)
    ensures m.effectType.None? ==> r.None?
    ensures m.effectType == Some(ReturnsConstant) && |m.effectConstructorArguments| == 0 ==>
      r == Some(ReturnsEffectDeclaration(Wildcard))
    ensures m.effectType == Some(ReturnsConstant) && |m.effectConstructorArguments| > 0 ==>
      var argument := DecodeExpression(m.effectConstructorArguments[0], owner, typeTable);
      && (r.Some? <==> argument.Some? && argument.value.BooleanConstant?)
      && (r.Some? ==> r.value == ReturnsEffectDeclaration(argument.value.constant))
    ensures m.effectType == Some(ReturnsNotNull) ==> r == Some(ReturnsEffectDeclaration(NotNull))
    ensures m.effectType == Some(Calls) ==>
      (r.Some? <==> |m.effectConstructorArguments| > 0 && ExtractVariable(m.effectConstructorArguments[0], owner).Some?)
    ensures m.effectType == Some(Calls) && r.Some? ==>
      && r.value.CallsEffectDeclaration?
      && r.value.variableReference == ExtractVariable(m.effectConstructorArguments[0], owner).value
      && (m.kind.None? ==> r.value.kind == Unknown)
      && (m.kind.Some? ==> r.value.kind == ToDescriptorInvocationKind(m.kind.value))
    ensures r.Some? ==> !r.value.ConditionalEffectDeclaration?
    ensures r.Some? && r.value.ReturnsEffectDeclaration? ==> r.value.value != Null
  {
    match m.effectType
    case None => None
    case Some(ReturnsConstant) =>
      if |m.effectConstructorArguments| == 0 then Some(ReturnsEffectDeclaration(Wildcard))
      else (match DecodeExpression(m.effectConstructorArguments[0], owner, typeTable)
        case Some(BooleanConstant(c)) => Some(ReturnsEffectDeclaration(c))
        case _ => None)
    case Some(ReturnsNotNull) => Some(ReturnsEffectDeclaration(NotNull))
    case Some(Calls) =>
      if |m.effectConstructorArguments| == 0 then None
      else (match ExtractVariable(m.effectConstructorArguments[0], owner)
        case None => None
        case Some(callable) =>
          Some(CallsEffectDeclaration(callable, if m.kind.Some? then ToDescriptorInvocationKind(m.kind.value) else Unknown)))
  }

  /** A message with a conclusion is a conditional effect around the simple effect the
      same message holds; both must read. Conditionals therefore never nest. */
  function DecodePossiblyConditionalEffect(m: EffectMessage, owner: FunctionDescriptor, typeTable: seq<KotlinType>)
    : (r: Option<EffectDeclaration>)
    ensures m.conclusionOfConditionalEffect.None? ==> r == DecodeSimpleEffect(m, owner, typeTable)
    ensures m.conclusionOfConditionalEffect.Some? ==>
      var condition := DecodeExpression(m.conclusionOfConditionalEffect.value, owner, typeTable);
      var effect := DecodeSimpleEffect(m, owner, typeTable);
      && (r.Some? <==> condition.Some? && effect.Some?)
      && (r.Some? ==> r.value == ConditionalEffectDeclaration(effect.value, condition.value))
    ensures r.Some? && r.value.ConditionalEffectDeclaration? ==> !r.value.effect.ConditionalEffectDeclaration?
  {
    match m.conclusionOfConditionalEffect
    case None => DecodeSimpleEffect(m, owner, typeTable)
    case Some(conclusion) =>
      match (DecodeExpression(conclusion, owner, typeTable), DecodeSimpleEffect(m, owner, typeTable))
      case (Some(condition), Some(effect)) => Some(ConditionalEffectDeclaration(effect, condition))
      case _ => None
  }

  /** All effects or nothing: one effect that cannot be read discards the contract. */
  function DecodeContract(m: ContractMessage, owner: FunctionDescriptor, typeTable: seq<KotlinType>): (r: Option<ContractDescriptor>)
    ensures r.Some? <==> forall i :: 0 <= i < |m.effects| ==> DecodePossiblyConditionalEffect(m.effects[i], owner, typeTable).Some?
    ensures r.Some? ==> r.value.ownerFunction == owner && |r.value.effects| == |m.effects|
    ensures r.Some? ==> forall i :: 0 <= i < |m.effects| ==>
      DecodePossiblyConditionalEffect(m.effects[i], owner, typeTable) == Some(r.value.effects[i])
  {
    var decoded := seq(|m.effects|, i requires 0 <= i < |m.effects| => DecodePossiblyConditionalEffect(m.effects[i], owner, typeTable));
    assert forall i :: 0 <= i < |m.effects| ==> decoded[i] == DecodePossiblyConditionalEffect(m.effects[i], owner, typeTable);
    match AllPresent(decoded)
    case None => None
    case Some(effects) => Some(ContractDescriptor(effects, owner))
  }

  /** No contract field, or a configuration that allows neither effect kind, gives no
      contract. */
  function DeserializeContractFromFunction(contract: Option<ContractMessage>, context: DeserializationContext)
    : (r: Option<ContractDescriptor>)
    ensures contract.None? ==> r.None?
    ensures !context.configuration.returnsEffectAllowed && !context.configuration.callsInPlaceEffectAllowed ==> r.None?
    ensures contract.Some? && (context.configuration.returnsEffectAllowed || context.configuration.callsInPlaceEffectAllowed) ==>
      r == DecodeContract(contract.value, context.ownerFunction, context.typeTable)
  {
    if contract.None? then None
    else if !context.configuration.returnsEffectAllowed && !context.configuration.callsInPlaceEffectAllowed then None
    else DecodeContract(contract.value, context.ownerFunction, context.typeTable)
  }

  /** The decoded arguments of a message, one per argument message. */
  function DecodedArguments(arguments: seq<ExpressionMessage>, owner: FunctionDescriptor, typeTable: seq<KotlinType>)
    : (r: seq<Option<BooleanExpression>>)
    ensures |r| == |arguments|
    ensures forall i :: 0 <= i < |arguments| ==> r[i] == DecodeExpression(arguments[i], owner, typeTable)
  {
    seq(|arguments|, i requires 0 <= i < |arguments| => DecodeExpression(arguments[i], owner, typeTable))
  }

  lemma DecodeComplex(m: ExpressionMessage, op: ComplexExpressionType, owner: FunctionDescriptor, typeTable: seq<KotlinType>)
    requires ComplexTypeOf(m) == Some(op)
    ensures var primitive := ExtractPrimitiveExpression(m, owner, typeTable);
      DecodeExpression(m, owner, typeTable) ==
        match AllPresent(DecodedArguments(Arguments(m, op), owner, typeTable))
        case None => None
        case Some(children) => Some(Reduce(op, (if primitive.Some? then [primitive.value] else []) + children))
  {
    var arguments := Arguments(m, op);
    assert DecodedArguments(arguments, owner, typeTable)
        == seq(|arguments|, i requires 0 <= i < |arguments| => DecodeExpression(arguments[i], owner, typeTable));
  }

  /** A message with neither a primitive nor a list part reads as nothing. A list message
      reads exactly when every argument of its list reads, whatever its primitive part
      gives: a primitive part that cannot be read is dropped from the list. */
  lemma DecodeExpressionShape(m: ExpressionMessage, owner: FunctionDescriptor, typeTable: seq<KotlinType>)
    ensures PrimitiveTypeOf(m).None? && ComplexTypeOf(m).None? ==> DecodeExpression(m, owner, typeTable).None?
    ensures ComplexTypeOf(m).None? ==> DecodeExpression(m, owner, typeTable) == ExtractPrimitiveExpression(m, owner, typeTable)
    ensures ComplexTypeOf(m).Some? ==>
      var arguments := Arguments(m, ComplexTypeOf(m).value);
      (DecodeExpression(m, owner, typeTable).Some? <==>
        forall i :: 0 <= i < |arguments| ==> DecodeExpression(arguments[i], owner, typeTable).Some?)
  {
    if ComplexTypeOf(m).Some? {
      DecodeComplex(m, ComplexTypeOf(m).value, owner, typeTable);
    }
  }

  /** Every atom read from a message refers to a parameter of the owner function. */
  lemma PrimitiveWellFormed(m: ExpressionMessage, owner: FunctionDescriptor, typeTable: seq<KotlinType>)
    ensures ExtractPrimitiveExpression(m, owner, typeTable).Some? ==>
      WellFormedCondition(ExtractPrimitiveExpression(m, owner, typeTable).value, owner)
  {
  }

  lemma {:induction false} ReduceWellFormed(op: ComplexExpressionType, s: seq<BooleanExpression>, owner: FunctionDescriptor)
    requires |s| >= 1
    requires forall i :: 0 <= i < |s| ==> WellFormedCondition(s[i], owner)
    ensures WellFormedCondition(Reduce(op, s), owner)
    decreases |s|
  {
    if |s| > 1 {
      ReduceWellFormed(op, s[..|s| - 1], owner);
    }
  }

  /** Whatever message it reads, the deserializer only produces conditions over the
      owner function's own receiver and value parameters. */
  lemma {:induction false} DecodedConditionWellFormed(m: ExpressionMessage, owner: FunctionDescriptor, typeTable: seq<KotlinType>)
    ensures DecodeExpression(m, owner, typeTable).Some? ==>
      WellFormedCondition(DecodeExpression(m, owner, typeTable).value, owner)
    decreases m
  {
    var primitive := ExtractPrimitiveExpression(m, owner, typeTable);
    PrimitiveWellFormed(m, owner, typeTable);
    match ComplexTypeOf(m)
    case None =>
    case Some(op) =>
      var arguments := Arguments(m, op);
      DecodeComplex(m, op, owner, typeTable);
      var decoded := DecodedArguments(arguments, owner, typeTable);
      if AllPresent(decoded).Some? {
        var children := AllPresent(decoded).value;
        forall i | 0 <= i < |arguments| ensures WellFormedCondition(children[i], owner) {
          DecodedConditionWellFormed(arguments[i], owner, typeTable);
        }
        ReduceWellFormed(op, (if primitive.Some? then [primitive.value] else []) + children, owner);
      }
  }

  /** Kotlin's `reduce`, as the loop it is. */
  method ReduceChildren(op: ComplexExpressionType, childs: seq<BooleanExpression>) returns (acc: BooleanExpression)
    requires |childs| >= 1
    ensures acc == Reduce(op, childs)
  {
    acc := childs[0];
    for i := 1 to |childs|
      invariant acc == Reduce(op, childs[..i])
    {
      assert childs[..i + 1][..i] == childs[..i];
      acc := Combine(op, acc, childs[i]);
    }
    assert childs[..|childs|] == childs;
  }

  /** The deserializer's own procedure: the primitive part and the decoded arguments are
      collected into a list, then reduced from the left. */
  method DeserializeExpression(m: ExpressionMessage, owner: FunctionDescriptor, typeTable: seq<KotlinType>)
    returns (r: Option<BooleanExpression>)
    ensures r == DecodeExpression(m, owner, typeTable)
    decreases m, 1
  {
    var primitiveExpression := ExtractPrimitiveExpression(m, owner, typeTable);
    var complexType := GetComplexType(m);
    var childs: seq<BooleanExpression> := if primitiveExpression.Some? then [primitiveExpression.value] else [];
    if complexType.None? {
      return primitiveExpression;
    }
    var op := complexType.value;
    DecodeComplex(m, op, owner, typeTable);
    var arguments := DeserializeArguments(m, op, owner, typeTable);
    if arguments.None? {
      return None;
    }
    childs := childs + arguments.value;
    var reduced := ReduceChildren(op, childs);
    r := Some(reduced);
  }

  /** The arguments of the `op` list, each deserialized in turn; the first one that cannot
      be read abandons the expression. */
  method DeserializeArguments(m: ExpressionMessage, op: ComplexExpressionType, owner: FunctionDescriptor, typeTable: seq<KotlinType>)
    returns (children: Option<seq<BooleanExpression>>)
    ensures children == AllPresent(DecodedArguments(Arguments(m, op), owner, typeTable))
    decreases m, 0
  {
    var arguments := Arguments(m, op);
    ghost var decoded := DecodedArguments(arguments, owner, typeTable);
    var childs: seq<BooleanExpression> := [];
    for i := 0 to |arguments|
      invariant |childs| == i
      invariant forall j :: 0 <= j < i ==> decoded[j] == Some(childs[j])
    {
      var child := DeserializeExpression(arguments[i], owner, typeTable);
      if child.None? {
        assert decoded[i].None?;
        return None;
      }
      childs := childs + [child.value];
    }
    assert forall j :: 0 <= j < |decoded| ==> decoded[j].Some?;
    ghost var present := AllPresent(decoded).value;
    assert present == childs by {
      forall j | 0 <= j < |childs| ensures present[j] == childs[j] {
        assert decoded[j] == Some(present[j]);
      }
    }
    children := Some(childs);
  }
}
