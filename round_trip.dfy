/** What survives a trip through binary metadata. A condition whose negations sit on
    atoms comes back in its normal form (negated null and instance checks folded into
    their `isNegated` flag, double negations cancelled), and the normal form means the
    same; a negation over `&&` or `||`, a `Returns(NULL)` and a nested conditional do
    not survive. */
module ContractRoundTrip {
  import opened Wrappers
  import opened ContractModel
  import opened ConditionSemantics
  import opened ProtoMessages
  import opened ContractSerialization
  import opened ContractDeserialization

  /** `m` with its negation bit set to `negated` and its flags field present. */
  function WithNegation(m: ExpressionMessage, negated: bool): ExpressionMessage {
    m.(flags := Some(m.Flags().(isNegated := negated)))
  }

  /** The primitive part of a message reads only the scalar fields, and the flags only
      through their two bits. */
  lemma SamePrimitive(m1: ExpressionMessage, m2: ExpressionMessage, owner: FunctionDescriptor, typeTable: seq<KotlinType>)
    requires m1.Flags() == m2.Flags() && m1.valueParameterReference == m2.valueParameterReference
    requires m1.constantValue == m2.constantValue
    requires m1.isInstanceType == m2.isInstanceType && m1.isInstanceTypeId == m2.isInstanceTypeId
    ensures ExtractPrimitiveExpression(m1, owner, typeTable) == ExtractPrimitiveExpression(m2, owner, typeTable)
  {
    assert PrimitiveTypeOf(m1) == PrimitiveTypeOf(m2);
    assert ExtractVariable(m1, owner) == ExtractVariable(m2, owner);
    assert ExtractType(m1, typeTable) == ExtractType(m2, typeTable);
  }

  /** A well-formed reference is read back as itself. */
  lemma VariableRoundTrip(v: VariableReference, owner: FunctionDescriptor)
    requires WellFormedOwner(owner) && WellFormedReference(v, owner)
    ensures ExtractVariable(EncodeVariable(v, owner), owner) == Some(v)
    ensures EncodeVariable(v, owner).valueParameterReference.Some?
    ensures EncodeVariable(v, owner).valueParameterReference.value >= 0
  {
    var d := v.descriptor;
    if owner.extensionReceiverParameter == Some(d) {
      assert d.kind == ReceiverParameter(false);
    } else {
      var i :| 0 <= i < |owner.valueParameters| && owner.valueParameters[i] == d;
      assert d.kind.ValueParameter?;
    }
  }

  /** The negation-bit round trip for a single atom: the message has no argument lists,
      and with its bit flipped by `negate` it reads back as the atom negated by `negate`. */
  predicate AtomReadsBack(e: BooleanExpression, negate: bool, m: ExpressionMessage,
                          owner: FunctionDescriptor, typeTable: seq<KotlinType>, expected: BooleanExpression) {
    && m.andArguments == [] && m.orArguments == []
    && ExtractPrimitiveExpression(WithNegation(m, m.Flags().isNegated != negate), owner, typeTable) == Some(expected)
  }

  lemma InstanceCheckRoundTrip(v: VariableReference, t: KotlinType, n: bool, negate: bool, owner: FunctionDescriptor,
                               typeId: KotlinType -> int, typeTable: seq<KotlinType>)
    requires WellFormedOwner(owner) && WellFormedReference(v, owner)
    ensures AtomReadsBack(IsInstancePredicate(v, t, n), negate, EncodeExpression(IsInstancePredicate(v, t, n), owner, typeId),
                          owner, typeTable, IsInstancePredicate(v, t, n != negate))
  {
    VariableRoundTrip(v, owner);
  }

  lemma NullCheckRoundTrip(v: VariableReference, n: bool, negate: bool, owner: FunctionDescriptor,
                           typeId: KotlinType -> int, typeTable: seq<KotlinType>)
    requires WellFormedOwner(owner) && WellFormedReference(v, owner)
    ensures AtomReadsBack(IsNullPredicate(v, n), negate, EncodeExpression(IsNullPredicate(v, n), owner, typeId),
                          owner, typeTable, IsNullPredicate(v, n != negate))
  {
    VariableRoundTrip(v, owner);
  }

  lemma BooleanVariableRoundTrip(v: BooleanVariableReference, negate: bool, owner: FunctionDescriptor,
                                 typeId: KotlinType -> int, typeTable: seq<KotlinType>)
    requires WellFormedOwner(owner) && WellFormedReference(v, owner)
    ensures var e := BooleanVariable(v);
      AtomReadsBack(e, negate, EncodeExpression(e, owner, typeId), owner, typeTable, if negate then LogicalNot(e) else e)
  {
    VariableRoundTrip(v, owner);
  }

  /** An atom under negations is written as one message without argument lists, and
      that message, with its negation bit flipped or not, reads back as the atom with
      the negations pushed onto it. */
  lemma {:induction false} AtomChainRoundTrip(e: BooleanExpression, negate: bool, owner: FunctionDescriptor,
                                              typeId: KotlinType -> int, typeTable: seq<KotlinType>)
    requires IsAtomChain(e) && WellFormedOwner(owner) && WellFormedCondition(e, owner)
    ensures EncodeExpression(e, owner, typeId).andArguments == []
    ensures EncodeExpression(e, owner, typeId).orArguments == []
    ensures var m := EncodeExpression(e, owner, typeId);
      ExtractPrimitiveExpression(WithNegation(m, m.Flags().isNegated != negate), owner, typeTable)
        == Some(PushNegation(e, negate))
  {
    match e
    case LogicalNot(a) =>
      AtomChainRoundTrip(a, !negate, owner, typeId, typeTable);
      var m := EncodeExpression(e, owner, typeId);
      var ma := EncodeExpression(a, owner, typeId);
      assert WithNegation(m, m.Flags().isNegated != negate) == WithNegation(ma, ma.Flags().isNegated != !negate);
    case IsInstancePredicate(v, t, n) =>
      InstanceCheckRoundTrip(v, t, n, negate, owner, typeId, typeTable);
    case IsNullPredicate(v, n) =>
      NullCheckRoundTrip(v, n, negate, owner, typeId, typeTable);
    case BooleanConstant(c) =>
    case BooleanVariable(v) =>
      BooleanVariableRoundTrip(v, negate, owner, typeId, typeTable);
  }

  /** A message without argument lists reads back as its primitive part. */
  lemma AtomChainDecodes(e: BooleanExpression, owner: FunctionDescriptor, typeId: KotlinType -> int, typeTable: seq<KotlinType>)
    requires IsAtomChain(e) && WellFormedOwner(owner) && WellFormedCondition(e, owner)
    ensures DecodeExpression(EncodeExpression(e, owner, typeId), owner, typeTable) == Some(PushNegation(e, false))
  {
    var m := EncodeExpression(e, owner, typeId);
    AtomChainRoundTrip(e, false, owner, typeId, typeTable);
    SamePrimitive(m, WithNegation(m, m.Flags().isNegated != false), owner, typeTable);
  }

  /** The message `m` with `x` appended to its `op` list. */
  function AppendArgument(m: ExpressionMessage, op: ComplexExpressionType, x: ExpressionMessage): ExpressionMessage {
    match op
    case AndSequence => m.(andArguments := m.andArguments + [x])
    case OrSequence => m.(orArguments := m.orArguments + [x])
  }

  /** The other list of `m` is empty, so appending to the `op` list keeps `m` an `op` list. */
  predicate OnlyList(m: ExpressionMessage, op: ComplexExpressionType) {
    match op
    case AndSequence => m.orArguments == []
    case OrSequence => m.andArguments == []
  }

  lemma AllPresentAppend<T>(s: seq<Option<T>>, b: T)
    ensures AllPresent(s + [Some(b)]) == if AllPresent(s).Some? then Some(AllPresent(s).value + [b]) else None
  {
    assert (s + [Some(b)])[..|s|] == s;
  }

  lemma DecodedArgumentsAppend(args: seq<ExpressionMessage>, x: ExpressionMessage, owner: FunctionDescriptor, typeTable: seq<KotlinType>)
    ensures DecodedArguments(args + [x], owner, typeTable)
      == DecodedArguments(args, owner, typeTable) + [DecodeExpression(x, owner, typeTable)]
  {
  }

  /** What a message with an `op` list of arguments `args` reads back as, given that
      every argument reads back. */
  lemma DecodeList(m: ExpressionMessage, op: ComplexExpressionType, children: seq<BooleanExpression>,
                   owner: FunctionDescriptor, typeTable: seq<KotlinType>)
    requires ComplexTypeOf(m) == Some(op)
    requires AllPresent(DecodedArguments(Arguments(m, op), owner, typeTable)) == Some(children)
    ensures var primitive := ExtractPrimitiveExpression(m, owner, typeTable);
      DecodeExpression(m, owner, typeTable) ==
        Some(Reduce(op, (if primitive.Some? then [primitive.value] else []) + children))
  {
    DecodeComplex(m, op, owner, typeTable);
  }

  /** Appending an argument that reads back to an `op` list whose arguments all read back. */
  lemma AppendedArguments(m: ExpressionMessage, op: ComplexExpressionType, x: ExpressionMessage, b: BooleanExpression,
                          owner: FunctionDescriptor, typeTable: seq<KotlinType>)
    requires AllPresent(DecodedArguments(Arguments(m, op), owner, typeTable)).Some?
    requires DecodeExpression(x, owner, typeTable) == Some(b)
    ensures AllPresent(DecodedArguments(Arguments(AppendArgument(m, op, x), op), owner, typeTable))
      == Some(AllPresent(DecodedArguments(Arguments(m, op), owner, typeTable)).value + [b])
  {
    assert Arguments(AppendArgument(m, op, x), op) == Arguments(m, op) + [x];
    DecodedArgumentsAppend(Arguments(m, op), x, owner, typeTable);
    AllPresentAppend(DecodedArguments(Arguments(m, op), owner, typeTable), b);
  }

  lemma ReduceAppend(op: ComplexExpressionType, s: seq<BooleanExpression>, b: BooleanExpression)
    requires |s| >= 1
    ensures Reduce(op, s + [b]) == Combine(op, Reduce(op, s), b)
  {
    assert (s + [b])[..|s|] == s;
  }

  /** Appending an argument to a non-empty `op` list adds one more operand on the right. */
  lemma DecodeAppendToList(m: ExpressionMessage, op: ComplexExpressionType, x: ExpressionMessage,
                           a: BooleanExpression, b: BooleanExpression, owner: FunctionDescriptor, typeTable: seq<KotlinType>)
    requires ComplexTypeOf(m) == Some(op)
    requires DecodeExpression(m, owner, typeTable) == Some(a) && DecodeExpression(x, owner, typeTable) == Some(b)
    ensures DecodeExpression(AppendArgument(m, op, x), owner, typeTable) == Some(Combine(op, a, b))
  {
    var m' := AppendArgument(m, op, x);
    var primitive := ExtractPrimitiveExpression(m, owner, typeTable);
    var heads := if primitive.Some? then [primitive.value] else [];
    assert AllPresent(DecodedArguments(Arguments(m, op), owner, typeTable)).Some? by {
      DecodeComplex(m, op, owner, typeTable);
    }
    var children := AllPresent(DecodedArguments(Arguments(m, op), owner, typeTable)).value;
    assert Reduce(op, heads + children) == a by {
      DecodeComplex(m, op, owner, typeTable);
    }
    assert DecodeExpression(m', owner, typeTable) == Some(Reduce(op, heads + (children + [b]))) by {
      AppendedArguments(m, op, x, b, owner, typeTable);
      SamePrimitive(m, m', owner, typeTable);
      assert ComplexTypeOf(m') == Some(op);
      DecodeList(m', op, children + [b], owner, typeTable);
    }
    assert heads + (children + [b]) == (heads + children) + [b];
    ReduceAppend(op, heads + children, b);
  }

  /** Appending an argument to a message that is (at most) an `op` list reads back as the
      message's own reading combined with the argument: this is why reusing the left
      operand's builder is sound. */
  lemma DecodeAppend(m: ExpressionMessage, op: ComplexExpressionType, x: ExpressionMessage,
                     a: BooleanExpression, b: BooleanExpression, owner: FunctionDescriptor, typeTable: seq<KotlinType>)
    requires OnlyList(m, op)
    requires DecodeExpression(m, owner, typeTable) == Some(a) && DecodeExpression(x, owner, typeTable) == Some(b)
    ensures DecodeExpression(AppendArgument(m, op, x), owner, typeTable) == Some(Combine(op, a, b))
  {
    if ComplexTypeOf(m).None? {
      DecodeEmptyList(m, op, x, a, b, owner, typeTable);
    } else {
      DecodeAppendToList(m, op, x, a, b, owner, typeTable);
    }
  }

  lemma DecodeNoList(m: ExpressionMessage, owner: FunctionDescriptor, typeTable: seq<KotlinType>)
    requires ComplexTypeOf(m).None?
    ensures DecodeExpression(m, owner, typeTable) == ExtractPrimitiveExpression(m, owner, typeTable)
  {
  }

  lemma DecodeEmptyList(m: ExpressionMessage, op: ComplexExpressionType, x: ExpressionMessage,
                        a: BooleanExpression, b: BooleanExpression, owner: FunctionDescriptor, typeTable: seq<KotlinType>)
    requires ComplexTypeOf(m).None?
    requires DecodeExpression(m, owner, typeTable) == Some(a) && DecodeExpression(x, owner, typeTable) == Some(b)
    ensures DecodeExpression(AppendArgument(m, op, x), owner, typeTable) == Some(Combine(op, a, b))
  {
    var m' := AppendArgument(m, op, x);
    assert ExtractPrimitiveExpression(m', owner, typeTable) == Some(a) by {
      SamePrimitive(m, m', owner, typeTable);
      DecodeNoList(m, owner, typeTable);
    }
    assert AllPresent(DecodedArguments(Arguments(m', op), owner, typeTable)) == Some([b]) by {
      assert Arguments(m', op) == [x];
      assert DecodedArguments([x], owner, typeTable) == [Some(b)];
      var present := AllPresent([Some(b)]);
      assert present.Some? && present.value[0] == b;
      assert present.value == [b];
    }
    assert ComplexTypeOf(m') == Some(op);
    DecodeList(m', op, [b], owner, typeTable);
    assert [a] + [b] == [a, b];
    assert Reduce(op, [a, b]) == Combine(op, a, b) by {
      assert [a, b][..1] == [a];
    }
  }

  /** A fresh two-argument `op` list reads back as the combination of its arguments. */
  lemma DecodePair(op: ComplexExpressionType, x: ExpressionMessage, y: ExpressionMessage,
                   a: BooleanExpression, b: BooleanExpression, owner: FunctionDescriptor, typeTable: seq<KotlinType>)
    requires DecodeExpression(x, owner, typeTable) == Some(a) && DecodeExpression(y, owner, typeTable) == Some(b)
    ensures DecodeExpression(AppendArgument(AppendArgument(EmptyExpression, op, x), op, y), owner, typeTable)
      == Some(Combine(op, a, b))
  {
    var m := AppendArgument(EmptyExpression, op, x);
    assert ComplexTypeOf(m) == Some(op);
    assert ExtractPrimitiveExpression(m, owner, typeTable).None?;
    DecodeComplex(m, op, owner, typeTable);
    assert Arguments(m, op) == [x];
    assert DecodedArguments([x], owner, typeTable) == [Some(a)];
    AllPresentAppend([], a);
    assert [] + [Some(a)] == [Some(a)];
    DecodeAppend(m, op, y, a, b, owner, typeTable);
  }

  /** A disjunction whose operands round-trip round-trips: either the left operand's
      message becomes the or-list, or (when it is an and-list) a fresh two-element
      or-list is written. */
  lemma OrRoundTrip(l: BooleanExpression, r: BooleanExpression, owner: FunctionDescriptor,
                    typeId: KotlinType -> int, typeTable: seq<KotlinType>)
    requires NegationOnlyOnAtoms(l) && NegationOnlyOnAtoms(r)
    requires DecodeExpression(EncodeExpression(l, owner, typeId), owner, typeTable) == Some(Normalize(l))
    requires DecodeExpression(EncodeExpression(r, owner, typeId), owner, typeTable) == Some(Normalize(r))
    ensures DecodeExpression(EncodeExpression(LogicalOr(l, r), owner, typeId), owner, typeTable) == Some(Normalize(LogicalOr(l, r)))
  {
    var left, right := EncodeExpression(l, owner, typeId), EncodeExpression(r, owner, typeId);
    var m := EncodeExpression(LogicalOr(l, r), owner, typeId);
    assert DecodeExpression(m, owner, typeTable) == Some(Combine(OrSequence, Normalize(l), Normalize(r))) by {
      if |left.andArguments| != 0 {
        assert m == AppendArgument(AppendArgument(EmptyExpression, OrSequence, left), OrSequence, right);
        DecodePair(OrSequence, left, right, Normalize(l), Normalize(r), owner, typeTable);
      } else {
        assert m == AppendArgument(left, OrSequence, right);
        DecodeAppend(left, OrSequence, right, Normalize(l), Normalize(r), owner, typeTable);
      }
    }
    assert Normalize(LogicalOr(l, r)) == Combine(OrSequence, Normalize(l), Normalize(r));
  }

  /** The same for a conjunction. */
  lemma AndRoundTrip(l: BooleanExpression, r: BooleanExpression, owner: FunctionDescriptor,
                     typeId: KotlinType -> int, typeTable: seq<KotlinType>)
    requires NegationOnlyOnAtoms(l) && NegationOnlyOnAtoms(r)
    requires DecodeExpression(EncodeExpression(l, owner, typeId), owner, typeTable) == Some(Normalize(l))
    requires DecodeExpression(EncodeExpression(r, owner, typeId), owner, typeTable) == Some(Normalize(r))
    ensures DecodeExpression(EncodeExpression(LogicalAnd(l, r), owner, typeId), owner, typeTable) == Some(Normalize(LogicalAnd(l, r)))
  {
    var left, right := EncodeExpression(l, owner, typeId), EncodeExpression(r, owner, typeId);
    var m := EncodeExpression(LogicalAnd(l, r), owner, typeId);
    assert DecodeExpression(m, owner, typeTable) == Some(Combine(AndSequence, Normalize(l), Normalize(r))) by {
      if |left.orArguments| != 0 {
        assert m == AppendArgument(AppendArgument(EmptyExpression, AndSequence, left), AndSequence, right);
        DecodePair(AndSequence, left, right, Normalize(l), Normalize(r), owner, typeTable);
      } else {
        assert m == AppendArgument(left, AndSequence, right);
        DecodeAppend(left, AndSequence, right, Normalize(l), Normalize(r), owner, typeTable);
      }
    }
    assert Normalize(LogicalAnd(l, r)) == Combine(AndSequence, Normalize(l), Normalize(r));
  }

  /** Round trip of conditions: with negation only on atoms, a well-formed condition
      reads back as its normal form. */
  lemma {:induction false} ExpressionRoundTrip(e: BooleanExpression, owner: FunctionDescriptor,
                                              typeId: KotlinType -> int, typeTable: seq<KotlinType>)
    requires NegationOnlyOnAtoms(e) && WellFormedOwner(owner) && WellFormedCondition(e, owner)
    ensures DecodeExpression(EncodeExpression(e, owner, typeId), owner, typeTable) == Some(Normalize(e))
  {
    match e
    case LogicalOr(l, r) =>
      ExpressionRoundTrip(l, owner, typeId, typeTable);
      ExpressionRoundTrip(r, owner, typeId, typeTable);
      OrRoundTrip(l, r, owner, typeId, typeTable);
    case LogicalAnd(l, r) =>
      ExpressionRoundTrip(l, owner, typeId, typeTable);
      ExpressionRoundTrip(r, owner, typeId, typeTable);
      AndRoundTrip(l, r, owner, typeId, typeTable);
    case _ =>
      AtomChainDecodes(e, owner, typeId, typeTable);
  }

  /** The round trip keeps the meaning of a condition. */
  lemma RoundTripPreservesMeaning(e: BooleanExpression, owner: FunctionDescriptor, typeId: KotlinType -> int,
                                  typeTable: seq<KotlinType>, env: Valuation)
    requires NegationOnlyOnAtoms(e) && WellFormedOwner(owner) && WellFormedCondition(e, owner)
    ensures var decoded := DecodeExpression(EncodeExpression(e, owner, typeId), owner, typeTable);
      decoded.Some? && Eval(decoded.value, env) == Eval(e, env)
  {
    ExpressionRoundTrip(e, owner, typeId, typeTable);
    NormalizePreservesMeaning(e, env);
  }

  // Effects and contracts.

  predicate NegationOnlyOnAtomsInEffect(effect: EffectDeclaration) {
    match effect
    case ConditionalEffectDeclaration(inner, condition) => NegationOnlyOnAtomsInEffect(inner) && NegationOnlyOnAtoms(condition)
    case _ => true
  }

  function NormalizeEffect(effect: EffectDeclaration): EffectDeclaration
    requires NegationOnlyOnAtomsInEffect(effect)
  {
    match effect
    case ConditionalEffectDeclaration(inner, condition) => ConditionalEffectDeclaration(NormalizeEffect(inner), Normalize(condition))
    case _ => effect
  }

  function NormalizeEffects(effects: seq<EffectDeclaration>): (r: seq<EffectDeclaration>)
    requires forall i :: 0 <= i < |effects| ==> NegationOnlyOnAtomsInEffect(effects[i])
    ensures |r| == |effects| && forall i :: 0 <= i < |effects| ==> r[i] == NormalizeEffect(effects[i])
  {
    seq(|effects|, i requires 0 <= i < |effects| => NormalizeEffect(effects[i]))
  }

  /** The effects that the format can carry: Returns of TRUE, FALSE, WILDCARD or NOT_NULL,
      Calls on a parameter of the owner, and one level of condition over those. */
  ghost predicate RoundTrippable(effect: EffectDeclaration, owner: FunctionDescriptor) {
    match effect
    case ReturnsEffectDeclaration(value) => value in {True, False, Wildcard, NotNull}
    case CallsEffectDeclaration(v, _) => WellFormedReference(v, owner)
    case ConditionalEffectDeclaration(inner, condition) =>
      && !inner.ConditionalEffectDeclaration?
      && RoundTrippable(inner, owner)
      && NegationOnlyOnAtoms(condition)
      && WellFormedCondition(condition, owner)
  }

  lemma RoundTrippableIsNormalizable(effect: EffectDeclaration, owner: FunctionDescriptor)
    requires RoundTrippable(effect, owner)
    ensures NegationOnlyOnAtomsInEffect(effect)
  {
  }

  /** A simple effect, written into a message that may already hold a conclusion, reads
      back as itself. */
  lemma SimpleEffectRoundTrip(effect: EffectDeclaration, conclusion: Option<ExpressionMessage>, owner: FunctionDescriptor,
                              typeId: KotlinType -> int, typeTable: seq<KotlinType>)
    requires !effect.ConditionalEffectDeclaration? && WellFormedOwner(owner) && RoundTrippable(effect, owner)
    ensures var filled := FillEffect(EmptyEffect.(conclusionOfConditionalEffect := conclusion), effect, owner, typeId);
      filled.Success? && DecodeSimpleEffect(filled.value, owner, typeTable) == Some(effect)
  {
    match effect
    case ReturnsEffectDeclaration(value) =>
      if value in {True, False} {
        var argument := ConstantMessage(value).value;
        DecodeNoList(argument, owner, typeTable);
      }
    case CallsEffectDeclaration(v, kind) =>
      VariableRoundTrip(v, owner);
  }

  /** Round trip of effects: a carriable effect reads back with its condition normalized. */
  lemma EffectRoundTrip(effect: EffectDeclaration, owner: FunctionDescriptor, typeId: KotlinType -> int, typeTable: seq<KotlinType>)
    requires WellFormedOwner(owner) && RoundTrippable(effect, owner)
    ensures NegationOnlyOnAtomsInEffect(effect)
    ensures EncodeEffect(effect, owner, typeId).Success?
    ensures DecodePossiblyConditionalEffect(EncodeEffect(effect, owner, typeId).value, owner, typeTable) == Some(NormalizeEffect(effect))
  {
    match effect
    case ConditionalEffectDeclaration(inner, condition) =>
      var conclusion := Some(EncodeExpression(condition, owner, typeId));
      SimpleEffectRoundTrip(inner, conclusion, owner, typeId, typeTable);
      ExpressionRoundTrip(condition, owner, typeId, typeTable);
      assert EncodeEffect(effect, owner, typeId) == FillEffect(EmptyEffect.(conclusionOfConditionalEffect := conclusion), inner, owner, typeId);
    case _ =>
      SimpleEffectRoundTrip(effect, None, owner, typeId, typeTable);
      assert EmptyEffect.(conclusionOfConditionalEffect := None) == EmptyEffect;
  }

  /** Round trip of contracts: when every effect is carriable, the contract reads back
      with the same owner and its effects, in order, with their conditions normalized. */
  lemma ContractRoundTrip(contract: ContractDescriptor, typeId: KotlinType -> int, typeTable: seq<KotlinType>)
    requires WellFormedOwner(contract.ownerFunction)
    requires forall i :: 0 <= i < |contract.effects| ==> RoundTrippable(contract.effects[i], contract.ownerFunction)
    ensures forall i :: 0 <= i < |contract.effects| ==> NegationOnlyOnAtomsInEffect(contract.effects[i])
    ensures EncodeContract(contract, typeId).Success?
    ensures DecodeContract(EncodeContract(contract, typeId).value, contract.ownerFunction, typeTable)
      == Some(ContractDescriptor(NormalizeEffects(contract.effects), contract.ownerFunction))
  {
    var owner := contract.ownerFunction;
    var effects := contract.effects;
    forall i | 0 <= i < |effects|
      ensures NegationOnlyOnAtomsInEffect(effects[i])
      ensures EncodeEffect(effects[i], owner, typeId).Success?
      ensures DecodePossiblyConditionalEffect(EncodeEffect(effects[i], owner, typeId).value, owner, typeTable)
        == Some(NormalizeEffect(effects[i]))
    {
      EffectRoundTrip(effects[i], owner, typeId, typeTable);
    }
    ContractEncodingFailure(contract, typeId);
    assert EncodeContract(contract, typeId).Success? by {
      if EncodeContract(contract, typeId).Failure? {
        var i :| 0 <= i < |effects| && ReturnsUnknownConstant(effects[i]);
        FillEffectFailure(EmptyEffect, effects[i], owner, typeId);
      }
    }
    var message := EncodeContract(contract, typeId).value;
    assert |message.effects| == |effects|;
    forall i | 0 <= i < |effects|
      ensures DecodePossiblyConditionalEffect(message.effects[i], owner, typeTable) == Some(NormalizeEffect(effects[i]))
    {
      assert EncodeEffect(effects[i], owner, typeId) == Success(message.effects[i]);
    }
    var decoded := DecodeContract(message, owner, typeTable);
    assert decoded.Some?;
    assert forall i :: 0 <= i < |effects| ==> decoded.value.effects[i] == NormalizeEffect(effects[i]);
    assert decoded.value.effects == NormalizeEffects(effects);
  }

  /** The contract field written for a function's contract reads back through the
      function-level entry point whenever the configuration allows some effect kind. */
  lemma FunctionContractRoundTrip(contract: ContractDescriptor, typeId: KotlinType -> int, context: DeserializationContext)
    requires context.ownerFunction == contract.ownerFunction && WellFormedOwner(contract.ownerFunction)
    requires context.configuration.returnsEffectAllowed || context.configuration.callsInPlaceEffectAllowed
    requires forall i :: 0 <= i < |contract.effects| ==> RoundTrippable(contract.effects[i], contract.ownerFunction)
    ensures forall i :: 0 <= i < |contract.effects| ==> NegationOnlyOnAtomsInEffect(contract.effects[i])
    ensures ContractField(Some(contract), typeId).Success?
    ensures DeserializeContractFromFunction(ContractField(Some(contract), typeId).value, context)
      == Some(ContractDescriptor(NormalizeEffects(contract.effects), contract.ownerFunction))
  {
    ContractRoundTrip(contract, typeId, context.typeTable);
  }

  // What does not survive.

  /** `Returns(NULL)` is written with a NULL constant argument, which reads back as no
      boolean expression: the effect, and so the whole contract holding it, is lost. */
  lemma ReturnsNullIsLost(contract: ContractDescriptor, k: nat, typeId: KotlinType -> int, typeTable: seq<KotlinType>)
    requires k < |contract.effects| && contract.effects[k] == ReturnsEffectDeclaration(Null)
    requires EncodeContract(contract, typeId).Success?
    ensures EncodeEffect(ReturnsEffectDeclaration(Null), contract.ownerFunction, typeId).Success?
    ensures DecodePossiblyConditionalEffect(
              EncodeEffect(ReturnsEffectDeclaration(Null), contract.ownerFunction, typeId).value,
              contract.ownerFunction, typeTable).None?
    ensures DecodeContract(EncodeContract(contract, typeId).value, contract.ownerFunction, typeTable).None?
  {
    var owner := contract.ownerFunction;
    var argument := ConstantMessage(Null).value;
    DecodeNoList(argument, owner, typeTable);
    assert DecodeExpression(argument, owner, typeTable).None?;
  }

  /** `!` over `x == null && y == null` is written as a negation bit on the first operand's
      message, so it reads back as `x != null && y == null`, which means something else. */
  lemma NegatedConjunctionChanges(x: VariableReference, y: VariableReference, owner: FunctionDescriptor,
                                  typeId: KotlinType -> int, typeTable: seq<KotlinType>)
    requires WellFormedOwner(owner) && WellFormedReference(x, owner) && WellFormedReference(y, owner)
    requires x.descriptor != y.descriptor
    ensures var e := LogicalNot(LogicalAnd(IsNullPredicate(x, false), IsNullPredicate(y, false)));
      var env := Valuation(d => d == x.descriptor, (d, t) => false, d => false);
      && DecodeExpression(EncodeExpression(e, owner, typeId), owner, typeTable)
           == Some(LogicalAnd(IsNullPredicate(x, true), IsNullPredicate(y, false)))
      && Eval(e, env) != Eval(LogicalAnd(IsNullPredicate(x, true), IsNullPredicate(y, false)), env)
  {
    var a, b := IsNullPredicate(x, false), IsNullPredicate(y, false);
    var ma, mb := EncodeExpression(a, owner, typeId), EncodeExpression(b, owner, typeId);
    AtomChainRoundTrip(a, true, owner, typeId, typeTable);
    AtomChainDecodes(b, owner, typeId, typeTable);
    var negated := WithNegation(ma, true);
    DecodeNoList(negated, owner, typeTable);
    DecodeAppend(negated, AndSequence, mb, IsNullPredicate(x, true), b, owner, typeTable);
    assert EncodeExpression(LogicalNot(LogicalAnd(a, b)), owner, typeId) == AppendArgument(negated, AndSequence, mb);
    var env := Valuation(d => d == x.descriptor, (d, t) => false, d => false);
    assert env.isNull(x.descriptor) && !env.isNull(y.descriptor);
    assert Eval(LogicalNot(LogicalAnd(a, b)), env);
    assert !Eval(LogicalAnd(IsNullPredicate(x, true), b), env);
  }

  /** A message with neither a parameter index nor a constant has no primitive part, so
      its negation bit is ignored. */
  lemma NegationBitIgnoredWithoutPrimitive(m: ExpressionMessage, negated: bool, owner: FunctionDescriptor, typeTable: seq<KotlinType>)
    requires m.valueParameterReference.None? && m.constantValue.None?
    ensures DecodeExpression(WithNegation(m, negated), owner, typeTable) == DecodeExpression(m, owner, typeTable)
  {
    var m' := WithNegation(m, negated);
    assert ExtractPrimitiveExpression(m, owner, typeTable).None?;
    assert ExtractPrimitiveExpression(m', owner, typeTable).None?;
    match ComplexTypeOf(m)
    case None =>
      DecodeNoList(m, owner, typeTable);
      DecodeNoList(m', owner, typeTable);
    case Some(op) =>
      DecodeComplex(m, op, owner, typeTable);
      DecodeComplex(m', op, owner, typeTable);
      assert Arguments(m', op) == Arguments(m, op);
  }

  /** `!((a && b) || c)` is written as a fresh `||` list whose negation bit nobody reads:
      it reads back as `(a && b) || c`, the opposite condition. */
  lemma NegatedDisjunctionIsDropped(l: BooleanExpression, r: BooleanExpression, owner: FunctionDescriptor,
                                    typeId: KotlinType -> int, typeTable: seq<KotlinType>, env: Valuation)
    requires l.LogicalAnd? && NegationOnlyOnAtoms(LogicalOr(l, r))
    requires WellFormedOwner(owner) && WellFormedCondition(LogicalOr(l, r), owner)
    ensures var decoded := DecodeExpression(EncodeExpression(LogicalNot(LogicalOr(l, r)), owner, typeId), owner, typeTable);
      && decoded == Some(Normalize(LogicalOr(l, r)))
      && Eval(decoded.value, env) != Eval(LogicalNot(LogicalOr(l, r)), env)
  {
    var e := LogicalOr(l, r);
    var m := EncodeExpression(e, owner, typeId);
    assert |EncodeExpression(l, owner, typeId).andArguments| != 0;
    assert m.valueParameterReference.None? && m.constantValue.None?;
    NegationBitIgnoredWithoutPrimitive(m, !m.Flags().isNegated, owner, typeTable);
    ExpressionRoundTrip(e, owner, typeId, typeTable);
    NormalizePreservesMeaning(e, env);
  }

  /** A conditional inside a conditional keeps only its inner condition. */
  lemma NestedConditionalLosesOuterCondition(inner: EffectDeclaration, c1: BooleanExpression, c2: BooleanExpression,
                                             owner: FunctionDescriptor, typeId: KotlinType -> int, typeTable: seq<KotlinType>)
    requires WellFormedOwner(owner) && RoundTrippable(ConditionalEffectDeclaration(inner, c1), owner)
    ensures var written := EncodeEffect(ConditionalEffectDeclaration(ConditionalEffectDeclaration(inner, c1), c2), owner, typeId);
      && written.Success?
      && DecodePossiblyConditionalEffect(written.value, owner, typeTable) == Some(ConditionalEffectDeclaration(inner, Normalize(c1)))
  {
    NestedConditionalEncoding(inner, c1, c2, owner, typeId);
    EffectRoundTrip(ConditionalEffectDeclaration(inner, c1), owner, typeId, typeTable);
  }
}
