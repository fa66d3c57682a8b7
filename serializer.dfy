/** Writing a contract into binary metadata. The pure functions say what message each
    declaration becomes; the builder classes and methods below them perform the same
    encoding the way the serializer does, by mutating protobuf builders in place. */
module ContractSerialization {
  import opened Wrappers
  import opened ContractModel
  import opened ProtoMessages
  import opened LazyContracts

  /** The position of the first parameter equal to `d`. */
  function IndexOf(parameters: seq<ParameterDescriptor>, d: ParameterDescriptor): (r: Option<nat>)
    ensures r.Some? ==> r.value < |parameters| && parameters[r.value] == d
    ensures r.Some? ==> forall j :: 0 <= j < r.value ==> parameters[j] != d
    ensures r.None? <==> d !in parameters
  {
    if parameters == [] then None
    else if parameters[0] == d then Some(0)
    else match IndexOf(parameters[1..], d)
      case None => None
      case Some(i) => Some(i + 1)
  }

  /** A variable becomes a message holding only a parameter index: 0 for a receiver,
      k + 1 for the owner's k-th value parameter, and no index at all for a value
      parameter the owner does not have. */
  function EncodeVariable(v: VariableReference, owner: FunctionDescriptor): (m: ExpressionMessage)
    ensures m == EmptyExpression.(valueParameterReference := m.valueParameterReference)
    ensures v.descriptor.kind.ReceiverParameter? ==> m.valueParameterReference == Some(0)
    ensures v.descriptor.kind.ValueParameter? ==>
      (m.valueParameterReference.None? <==> v.descriptor !in owner.valueParameters)
    ensures v.descriptor.kind.ValueParameter? && m.valueParameterReference.Some? ==>
      && 1 <= m.valueParameterReference.value <= |owner.valueParameters|
      && owner.valueParameters[m.valueParameterReference.value - 1] == v.descriptor
  {
    match v.descriptor.kind
    case ReceiverParameter(_) => EmptyExpression.(valueParameterReference := Some(0))
    case ValueParameter =>
      match IndexOf(owner.valueParameters, v.descriptor)
      case None => EmptyExpression
      case Some(i) => EmptyExpression.(valueParameterReference := Some(i + 1))
  }

  /** TRUE, FALSE and NULL have enum values and WILDCARD has none; NOT_NULL and any
      other constant cannot be written. */
  function ConstantValueProtobufEnum(c: ConstantDescriptor): (r: Result<Option<ConstantValue>, InternalError>)
    ensures r.Success? <==> c in {True, False, Null, Wildcard}
    ensures r == Success(Some(TrueValue)) <==> c == True
    ensures r == Success(Some(FalseValue)) <==> c == False
    ensures r == Success(Some(NullValue)) <==> c == Null
    ensures r == Success(None) <==> c == Wildcard
    ensures c == NotNull ==> r == Failure(NotNullNotDenotable)
    ensures c.Custom? ==> r == Failure(UnknownConstant(c))
  {
    match c
    case True => Success(Some(TrueValue))
    case False => Success(Some(FalseValue))
    case Null => Success(Some(NullValue))
    case NotNull => Failure(NotNullNotDenotable)
    case Wildcard => Success(None)
    case Custom(_, _) => Failure(UnknownConstant(c))
  }

  function ConstantMessage(c: ConstantDescriptor): Result<ExpressionMessage, InternalError> {
    match ConstantValueProtobufEnum(c)
    case Failure(err) => Failure(err)
    case Success(value) => Success(EmptyExpression.(constantValue := value))
  }

  /** Each kind is written as the enum value of the same name; UNKNOWN is not written. */
  function InvocationKindProtobufEnum(kind: InvocationKind): (r: Option<ProtoInvocationKind>)
    ensures r == Some(ProtoAtMostOnce) <==> kind == AtMostOnce
    ensures r == Some(ProtoExactlyOnce) <==> kind == ExactlyOnce
    ensures r == Some(ProtoAtLeastOnce) <==> kind == AtLeastOnce
    ensures r.None? <==> kind == Unknown
  {
    match kind
    case AtMostOnce => Some(ProtoAtMostOnce)
    case ExactlyOnce => Some(ProtoExactlyOnce)
    case AtLeastOnce => Some(ProtoAtLeastOnce)
    case Unknown => None
  }

  /** The message a condition becomes. `typeId` is the id the type table gives a type. */
  function EncodeExpression(e: BooleanExpression, owner: FunctionDescriptor, typeId: KotlinType -> int): ExpressionMessage {
    match e
    case LogicalOr(l, r) =>
      var left := EncodeExpression(l, owner, typeId);
      var right := EncodeExpression(r, owner, typeId);
      if |left.andArguments| != 0 then EmptyExpression.(orArguments := [left, right])
      else left.(orArguments := left.orArguments + [right])
    case LogicalAnd(l, r) =>
      var left := EncodeExpression(l, owner, typeId);
      var right := EncodeExpression(r, owner, typeId);
      if |left.orArguments| != 0 then EmptyExpression.(andArguments := [left, right])
      else left.(andArguments := left.andArguments + [right])
    case LogicalNot(a) =>
      var arg := EncodeExpression(a, owner, typeId);
      arg.(flags := Some(arg.Flags().(isNegated := !arg.Flags().isNegated)))
    case IsInstancePredicate(v, t, negated) =>
      EncodeVariable(v, owner).(isInstanceType := Some(t), isInstanceTypeId := Some(typeId(t)),
                                flags := Some(ExpressionFlags(negated, false)))
    case IsNullPredicate(v, negated) =>
      var variable := EncodeVariable(v, owner);
      variable.(flags := Some(ExpressionFlags(variable.Flags().isNegated || negated, true)))
    case BooleanConstant(c) => ConstantMessage(c).value
    case BooleanVariable(v) => EncodeVariable(v, owner)
  }

  /** Fills `m` with `effect`. A conditional effect stores its condition as the conclusion
      and then fills the same message with the inner effect. */
  function FillEffect(m: EffectMessage, effect: EffectDeclaration, owner: FunctionDescriptor, typeId: KotlinType -> int)
    : Result<EffectMessage, InternalError>
    decreases effect
  {
    match effect
    case ConditionalEffectDeclaration(inner, condition) =>
      FillEffect(m.(conclusionOfConditionalEffect := Some(EncodeExpression(condition, owner, typeId))), inner, owner, typeId)
    case ReturnsEffectDeclaration(value) =>
      if value == NotNull then Success(m.(effectType := Some(ReturnsNotNull)))
      else if value == Wildcard then Success(m.(effectType := Some(ReturnsConstant)))
      else (match ConstantMessage(value)
        case Failure(err) => Failure(err)
        case Success(argument) =>
          Success(m.(effectType := Some(ReturnsConstant),
                     effectConstructorArguments := m.effectConstructorArguments + [argument])))
    case CallsEffectDeclaration(v, kind) =>
      var protoKind := InvocationKindProtobufEnum(kind);
      Success(m.(effectType := Some(Calls),
                 effectConstructorArguments := m.effectConstructorArguments + [EncodeVariable(v, owner)],
                 kind := if protoKind.Some? then protoKind else m.kind))
  }

  function EncodeEffect(effect: EffectDeclaration, owner: FunctionDescriptor, typeId: KotlinType -> int)
    : Result<EffectMessage, InternalError>
  {
    FillEffect(EmptyEffect, effect, owner, typeId)
  }

  /** One message per effect, in declaration order; the first effect that cannot be
      written aborts the whole encoding with its error. */
  function EncodeEffects(effects: seq<EffectDeclaration>, owner: FunctionDescriptor, typeId: KotlinType -> int)
    : (r: Result<seq<EffectMessage>, InternalError>)
    ensures r.Success? ==> |r.value| == |effects|
    ensures r.Success? ==> forall i :: 0 <= i < |effects| ==>
      EncodeEffect(effects[i], owner, typeId) == Success(r.value[i])
    ensures r.Failure? ==> exists i :: (0 <= i < |effects|
      && EncodeEffect(effects[i], owner, typeId) == Failure(r.error)
      && forall j :: 0 <= j < i ==> EncodeEffect(effects[j], owner, typeId).Success?)
  {
    if effects == [] then Success([])
    else
      var init := EncodeEffects(effects[..|effects| - 1], owner, typeId);
      if init.Failure? then init
      else match EncodeEffect(effects[|effects| - 1], owner, typeId)
        case Failure(err) => Failure(err)
        case Success(last) => Success(init.value + [last])
  }

  function EncodeContract(contract: ContractDescriptor, typeId: KotlinType -> int): Result<ContractMessage, InternalError> {
    match EncodeEffects(contract.effects, contract.ownerFunction, typeId)
    case Failure(err) => Failure(err)
    case Success(effects) => Success(ContractMessage(effects))
  }

  /** What the function message's contract field receives from a contract provider's result. */
  function ContractField(contract: Option<ContractDescriptor>, typeId: KotlinType -> int)
    : Result<Option<ContractMessage>, InternalError>
  {
    match contract
    case None => Success(None)
    case Some(c) =>
      match EncodeContract(c, typeId)
      case Failure(err) => Failure(err)
      case Success(m) => Success(Some(m))
  }

  // Properties of the encoding.

  /** RETURNS_CONSTANT with the constant `value` as its one argument. */
  function ReturnsConstantOf(value: ConstantValue): EffectMessage {
    EmptyEffect.(effectType := Some(ReturnsConstant), effectConstructorArguments := [EmptyExpression.(constantValue := Some(value))])
  }

  /** Returns is written as follows: NOT_NULL as RETURNS_NOT_NULL without arguments,
      WILDCARD as RETURNS_CONSTANT without arguments, TRUE, FALSE and NULL as
      RETURNS_CONSTANT with the constant as its one argument; any other constant fails. */
  lemma ReturnsEncoding(value: ConstantDescriptor, owner: FunctionDescriptor, typeId: KotlinType -> int)
    ensures var r := EncodeEffect(ReturnsEffectDeclaration(value), owner, typeId);
      && (value == NotNull ==> r == Success(EmptyEffect.(effectType := Some(ReturnsNotNull))))
      && (value == Wildcard ==> r == Success(EmptyEffect.(effectType := Some(ReturnsConstant))))
      && (value == True ==> r == Success(ReturnsConstantOf(TrueValue)))
      && (value == False ==> r == Success(ReturnsConstantOf(FalseValue)))
      && (value == Null ==> r == Success(ReturnsConstantOf(NullValue)))
      && (value.Custom? ==> r == Failure(UnknownConstant(value)))
  {
    if value in {True, False, Null} {
      var argument := ConstantMessage(value).value;
      assert EmptyEffect.effectConstructorArguments + [argument] == [argument];
    }
  }

  /** Calls is written as CALLS with the variable as its one argument; the kind field is
      set for every kind except UNKNOWN. */
  lemma CallsEncoding(v: VariableReference, kind: InvocationKind, owner: FunctionDescriptor, typeId: KotlinType -> int)
    ensures var r := EncodeEffect(CallsEffectDeclaration(v, kind), owner, typeId);
      && r.Success? && r.value.effectType == Some(Calls)
      && r.value.effectConstructorArguments == [EncodeVariable(v, owner)]
      && (kind == AtMostOnce ==> r.value.kind == Some(ProtoAtMostOnce))
      && (kind == ExactlyOnce ==> r.value.kind == Some(ProtoExactlyOnce))
      && (kind == AtLeastOnce ==> r.value.kind == Some(ProtoAtLeastOnce))
      && (kind == Unknown ==> r.value.kind.None?)
      && r.value.conclusionOfConditionalEffect.None?
  {
  }

  /** A conditional effect has no tag of its own: it is the inner effect's message with
      the conclusion field set. */
  lemma ConditionalEncoding(inner: EffectDeclaration, condition: BooleanExpression, owner: FunctionDescriptor, typeId: KotlinType -> int)
    requires !inner.ConditionalEffectDeclaration?
    ensures var r := EncodeEffect(ConditionalEffectDeclaration(inner, condition), owner, typeId);
      var s := EncodeEffect(inner, owner, typeId);
      && (r.Success? <==> s.Success?)
      && (r.Success? ==> r.value == s.value.(conclusionOfConditionalEffect := Some(EncodeExpression(condition, owner, typeId))))
  {
    var withConclusion := EmptyEffect.(conclusionOfConditionalEffect := Some(EncodeExpression(condition, owner, typeId)));
    assert EncodeEffect(ConditionalEffectDeclaration(inner, condition), owner, typeId) == FillEffect(withConclusion, inner, owner, typeId);
  }

  /** The inner effect's conclusion overwrites the outer one, so a conditional nested in a
      conditional loses its outer condition. */
  lemma NestedConditionalEncoding(inner: EffectDeclaration, c1: BooleanExpression, c2: BooleanExpression,
                                  owner: FunctionDescriptor, typeId: KotlinType -> int)
    ensures EncodeEffect(ConditionalEffectDeclaration(ConditionalEffectDeclaration(inner, c1), c2), owner, typeId)
         == EncodeEffect(ConditionalEffectDeclaration(inner, c1), owner, typeId)
  {
    var m1 := EmptyEffect.(conclusionOfConditionalEffect := Some(EncodeExpression(c1, owner, typeId)));
    var m2 := EmptyEffect.(conclusionOfConditionalEffect := Some(EncodeExpression(c2, owner, typeId)));
    assert m2.(conclusionOfConditionalEffect := Some(EncodeExpression(c1, owner, typeId))) == m1;
    calc {
      EncodeEffect(ConditionalEffectDeclaration(ConditionalEffectDeclaration(inner, c1), c2), owner, typeId);
      FillEffect(m2, ConditionalEffectDeclaration(inner, c1), owner, typeId);
      FillEffect(m1, inner, owner, typeId);
      EncodeEffect(ConditionalEffectDeclaration(inner, c1), owner, typeId);
    }
  }

  /** A Returns of a constant other than the five singletons anywhere in a (possibly
      conditional) effect. */
  predicate ReturnsUnknownConstant(effect: EffectDeclaration) {
    match effect
    case ConditionalEffectDeclaration(inner, _) => ReturnsUnknownConstant(inner)
    case ReturnsEffectDeclaration(value) => value.Custom?
    case CallsEffectDeclaration(_, _) => false
  }

  /** Filling fails exactly on an unknown Returns constant, always with the
      unknown-constant error: NOT_NULL is handled before it could reach the constant
      writer, and conditions only hold boolean constants. */
  lemma {:induction false} FillEffectFailure(m: EffectMessage, effect: EffectDeclaration, owner: FunctionDescriptor, typeId: KotlinType -> int)
    ensures FillEffect(m, effect, owner, typeId).Failure? <==> ReturnsUnknownConstant(effect)
    ensures FillEffect(m, effect, owner, typeId).Failure? ==> FillEffect(m, effect, owner, typeId).error.UnknownConstant?
    decreases effect
  {
    match effect
    case ConditionalEffectDeclaration(inner, condition) =>
      FillEffectFailure(m.(conclusionOfConditionalEffect := Some(EncodeExpression(condition, owner, typeId))), inner, owner, typeId);
    case ReturnsEffectDeclaration(_) =>
    case CallsEffectDeclaration(_, _) =>
  }

  /** A contract can be written unless one of its effects returns an unknown constant;
      the NOT_NULL error is never raised. */
  lemma ContractEncodingFailure(contract: ContractDescriptor, typeId: KotlinType -> int)
    ensures EncodeContract(contract, typeId).Failure? <==>
      exists i :: 0 <= i < |contract.effects| && ReturnsUnknownConstant(contract.effects[i])
    ensures EncodeContract(contract, typeId).Failure? ==> EncodeContract(contract, typeId).error != NotNullNotDenotable
  {
    var effects := contract.effects;
    forall i | 0 <= i < |effects|
      ensures EncodeEffect(effects[i], contract.ownerFunction, typeId).Failure? <==> ReturnsUnknownConstant(effects[i])
      ensures EncodeEffect(effects[i], contract.ownerFunction, typeId).Failure? ==>
        EncodeEffect(effects[i], contract.ownerFunction, typeId).error.UnknownConstant?
    {
      FillEffectFailure(EmptyEffect, effects[i], contract.ownerFunction, typeId);
    }
  }

  /** `!` toggles the negation bit of its argument's own message and changes nothing else,
      so a double negation gives back the argument's message (with its flags field
      present). */
  lemma NegationEncoding(a: BooleanExpression, owner: FunctionDescriptor, typeId: KotlinType -> int)
    ensures var m := EncodeExpression(a, owner, typeId);
      var n := EncodeExpression(LogicalNot(a), owner, typeId);
      && n.Flags() == ExpressionFlags(!m.Flags().isNegated, m.Flags().isNullCheckPredicate)
      && n.(flags := None) == m.(flags := None)
    ensures var m := EncodeExpression(a, owner, typeId);
      EncodeExpression(LogicalNot(LogicalNot(a)), owner, typeId) == m.(flags := Some(m.Flags()))
  {
  }

  /** An atom's message has no argument lists. */
  lemma AtomEncoding(e: BooleanExpression, owner: FunctionDescriptor, typeId: KotlinType -> int)
    requires e.IsAtom()
    ensures EncodeExpression(e, owner, typeId).andArguments == []
    ensures EncodeExpression(e, owner, typeId).orArguments == []
  {
  }

  /** `&&` appends its right operand to the left operand's own list unless that message
      is an `||` list; so `a && b && c` over atoms is `a`'s message with `[b, c]` as its
      and-arguments, not a three-element list. `||` is symmetric. */
  lemma ChainEncoding(a: BooleanExpression, b: BooleanExpression, c: BooleanExpression, owner: FunctionDescriptor, typeId: KotlinType -> int)
    requires a.IsAtom() && b.IsAtom() && c.IsAtom()
    ensures EncodeExpression(LogicalAnd(LogicalAnd(a, b), c), owner, typeId)
      == EncodeExpression(a, owner, typeId).(andArguments := [EncodeExpression(b, owner, typeId), EncodeExpression(c, owner, typeId)])
    ensures EncodeExpression(LogicalOr(LogicalOr(a, b), c), owner, typeId)
      == EncodeExpression(a, owner, typeId).(orArguments := [EncodeExpression(b, owner, typeId), EncodeExpression(c, owner, typeId)])
  {
    AtomEncoding(a, owner, typeId);
  }

  // The serializer itself, over mutable builders.

  class ExpressionBuilder {
    var flags: Option<ExpressionFlags>
    var valueParameterReference: Option<int>
    var constantValue: Option<ConstantValue>
    var isInstanceType: Option<KotlinType>
    var isInstanceTypeId: Option<int>
    var andArguments: seq<ExpressionMessage>
    var orArguments: seq<ExpressionMessage>

    constructor ()
      ensures Build() == EmptyExpression
    {
      flags, valueParameterReference, constantValue := None, None, None;
      isInstanceType, isInstanceTypeId := None, None;
      andArguments, orArguments := [], [];
    }

    function Build(): ExpressionMessage
      reads this
    {
      ExpressionMessage(flags, valueParameterReference, constantValue, isInstanceType, isInstanceTypeId, andArguments, orArguments)
    }

    method AddAndArguments(argument: ExpressionBuilder)
      requires argument != this
      modifies this
      ensures Build() == old(Build()).(andArguments := old(andArguments) + [argument.Build()])
    {
      andArguments := andArguments + [argument.Build()];
    }

    method AddOrArguments(argument: ExpressionBuilder)
      requires argument != this
      modifies this
      ensures Build() == old(Build()).(orArguments := old(orArguments) + [argument.Build()])
    {
      orArguments := orArguments + [argument.Build()];
    }
  }

  class EffectBuilder {
    var effectType: Option<EffectType>
    var effectConstructorArguments: seq<ExpressionMessage>
    var conclusionOfConditionalEffect: Option<ExpressionMessage>
    var kind: Option<ProtoInvocationKind>

    constructor ()
      ensures Build() == EmptyEffect
    {
      effectType, effectConstructorArguments, conclusionOfConditionalEffect, kind := None, [], None, None;
    }

    function Build(): EffectMessage
      reads this
    {
      EffectMessage(effectType, effectConstructorArguments, conclusionOfConditionalEffect, kind)
    }
  }

  class ContractBuilder {
    var effects: seq<EffectMessage>

    constructor ()
      ensures effects == []
    {
      effects := [];
    }

    method AddEffect(effect: EffectMessage)
      modifies this
      ensures effects == old(effects) + [effect]
    {
      effects := effects + [effect];
    }
  }

  method VisitVariableReference(v: VariableReference, contract: ContractDescriptor) returns (b: ExpressionBuilder)
    ensures fresh(b) && b.Build() == EncodeVariable(v, contract.ownerFunction)
  {
    b := new ExpressionBuilder();
    match v.descriptor.kind
    case ReceiverParameter(_) =>
      b.valueParameterReference := Some(0);
    case ValueParameter =>
      var index := IndexOf(contract.ownerFunction.valueParameters, v.descriptor);
      if index.Some? {
        b.valueParameterReference := Some(index.value + 1);
      }
  }

  /** Writes a constant; on an error the builder is left empty. */
  method VisitConstantDescriptor(c: ConstantDescriptor) returns (b: ExpressionBuilder, error: Option<InternalError>)
    ensures fresh(b)
    ensures error.None? <==> ConstantMessage(c).Success?
    ensures error.None? ==> b.Build() == ConstantMessage(c).value
    ensures error.Some? ==> error.value == ConstantMessage(c).error
  {
    b := new ExpressionBuilder();
    error := None;
    match ConstantValueProtobufEnum(c)
    case Failure(err) =>
      error := Some(err);
    case Success(value) =>
      if value.Some? {
        b.constantValue := value;
      }
  }

  method ContractExpressionProto(e: BooleanExpression, contract: ContractDescriptor, typeId: KotlinType -> int)
    returns (b: ExpressionBuilder)
    ensures fresh(b) && b.Build() == EncodeExpression(e, contract.ownerFunction, typeId)
  {
    match e
    case LogicalOr(l, r) =>
      var left := ContractExpressionProto(l, contract, typeId);
      if |left.andArguments| != 0 {
        b := new ExpressionBuilder();
        b.AddOrArguments(left);
        var right := ContractExpressionProto(r, contract, typeId);
        b.AddOrArguments(right);
      } else {
        var right := ContractExpressionProto(r, contract, typeId);
        left.AddOrArguments(right);
        b := left;
      }
    case LogicalAnd(l, r) =>
      var left := ContractExpressionProto(l, contract, typeId);
      if |left.orArguments| != 0 {
        b := new ExpressionBuilder();
        b.AddAndArguments(left);
        var right := ContractExpressionProto(r, contract, typeId);
        b.AddAndArguments(right);
      } else {
        var right := ContractExpressionProto(r, contract, typeId);
        left.AddAndArguments(right);
        b := left;
      }
    case LogicalNot(a) =>
      b := ContractExpressionProto(a, contract, typeId);
      var current := b.flags.GetOr(ExpressionFlags(false, false));
      b.flags := Some(current.(isNegated := !current.isNegated));
    case IsInstancePredicate(v, t, negated) =>
      b := VisitVariableReference(v, contract);
      b.isInstanceType := Some(t);
      b.isInstanceTypeId := Some(typeId(t));
      b.flags := Some(ExpressionFlags(negated, false));
    case IsNullPredicate(v, negated) =>
      b := VisitVariableReference(v, contract);
      var current := b.flags.GetOr(ExpressionFlags(false, false));
      b.flags := Some(ExpressionFlags(current.isNegated || negated, true));
    case BooleanConstant(c) =>
      var error;
      b, error := VisitConstantDescriptor(c);
    case BooleanVariable(v) =>
      b := VisitVariableReference(v, contract);
  }

  method FillEffectProto(builder: EffectBuilder, effect: EffectDeclaration, contract: ContractDescriptor, typeId: KotlinType -> int)
    returns (error: Option<InternalError>)
    modifies builder
    ensures var expected := FillEffect(old(builder.Build()), effect, contract.ownerFunction, typeId);
      && (error.None? <==> expected.Success?)
      && (error.None? ==> builder.Build() == expected.value)
      && (error.Some? ==> error.value == expected.error)
  {
    match effect
    case ConditionalEffectDeclaration(inner, condition) =>
      var conclusion := ContractExpressionProto(condition, contract, typeId);
      builder.conclusionOfConditionalEffect := Some(conclusion.Build());
      error := FillEffectProto(builder, inner, contract, typeId);
    case ReturnsEffectDeclaration(value) =>
      error := None;
      if value == NotNull {
        builder.effectType := Some(ReturnsNotNull);
      } else if value == Wildcard {
        builder.effectType := Some(ReturnsConstant);
      } else {
        builder.effectType := Some(ReturnsConstant);
        var argument;
        argument, error := VisitConstantDescriptor(value);
        if error.None? {
          builder.effectConstructorArguments := builder.effectConstructorArguments + [argument.Build()];
        }
      }
    case CallsEffectDeclaration(v, kind) =>
      builder.effectType := Some(Calls);
      var argument := VisitVariableReference(v, contract);
      builder.effectConstructorArguments := builder.effectConstructorArguments + [argument.Build()];
      var protoKind := InvocationKindProtobufEnum(kind);
      if protoKind.Some? {
        builder.kind := protoKind;
      }
      error := None;
  }

  method EffectProto(effect: EffectDeclaration, contract: ContractDescriptor, typeId: KotlinType -> int)
    returns (r: Result<EffectMessage, InternalError>)
    ensures r == EncodeEffect(effect, contract.ownerFunction, typeId)
  {
    var builder := new EffectBuilder();
    var error := FillEffectProto(builder, effect, contract, typeId);
    if error.Some? {
      r := Failure(error.value);
    } else {
      r := Success(builder.Build());
    }
  }

  method ContractProto(contract: ContractDescriptor, typeId: KotlinType -> int)
    returns (r: Result<ContractMessage, InternalError>)
    ensures r == EncodeContract(contract, typeId)
  {
    var builder := new ContractBuilder();
    var effects := contract.effects;
    for i := 0 to |effects|
      invariant EncodeEffects(effects[..i], contract.ownerFunction, typeId) == Success(builder.effects)
    {
      assert effects[..i + 1][..i] == effects[..i];
      var effect := EffectProto(effects[i], contract, typeId);
      if effect.Failure? {
        ContractEncodingStops(effects, i + 1, contract.ownerFunction, typeId);
        return Failure(effect.error);
      }
      builder.AddEffect(effect.value);
    }
    assert effects[..|effects|] == effects;
    r := Success(ContractMessage(builder.effects));
  }

  /** Once a prefix of the effects fails to encode, the whole list fails with its error. */
  lemma {:induction false} ContractEncodingStops(effects: seq<EffectDeclaration>, k: nat, owner: FunctionDescriptor, typeId: KotlinType -> int)
    requires k <= |effects| && EncodeEffects(effects[..k], owner, typeId).Failure?
    ensures EncodeEffects(effects, owner, typeId) == EncodeEffects(effects[..k], owner, typeId)
    decreases |effects| - k
  {
    if k < |effects| {
      assert effects[..k + 1][..k] == effects[..k];
      ContractEncodingStops(effects, k + 1, owner, typeId);
    } else {
      assert effects[..k] == effects;
    }
  }

  /** The function serializer's contract hook: ask the function's contract provider, if it
      has one, and write the contract when there is one. */
  method SerializeFunctionContract(provider: LazyContractProvider?, typeId: KotlinType -> int)
    returns (r: Result<Option<ContractMessage>, InternalError>)
    modifies if provider != null then {provider} else {}
    ensures provider == null ==> r == Success(None)
    ensures provider != null && provider.state != Processed ==> r.Failure?
    ensures provider != null && provider.state == Processed ==> r == ContractField(provider.contractDescriptor, typeId)
    ensures provider != null && old(provider.state) == Processed ==>
      provider.state == Processed && provider.contractDescriptor == old(provider.contractDescriptor)
    ensures provider != null && old(provider.state) == InProcess ==>
      provider.state == InProcess && provider.contractDescriptor == old(provider.contractDescriptor)
    ensures provider != null && old(provider.state) == NotProcessed ==>
      var first := FirstEvaluation(provider.computation, old(provider.contractDescriptor));
      provider.state == first.0 && provider.contractDescriptor == first.1
  {
    if provider == null {
      return Success(None);
    }
    var got := provider.GetContractDescriptor();
    if got.Failure? {
      return Failure(got.error);
    }
    match got.value
    case None =>
      r := Success(None);
    case Some(contract) =>
      var serialized := ContractProto(contract, typeId);
      if serialized.Failure? {
        r := Failure(serialized.error);
      } else {
        r := Success(Some(serialized.value));
      }
  }
}
