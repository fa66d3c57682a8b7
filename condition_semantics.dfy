/** What a contract condition means, and the normal form that the binary encoding
    produces: negations pushed onto atoms, double negations cancelled, and a negated
    null or instance check turned into the check with its `isNegated` flag flipped. */
module ConditionSemantics {
  import opened ContractModel

  /** The facts a condition can talk about, for one call of the owner function. */
  datatype Valuation = Valuation(
    isNull: ParameterDescriptor -> bool,
    isInstance: (ParameterDescriptor, KotlinType) -> bool,
    booleanValue: ParameterDescriptor -> bool)

  function Eval(e: BooleanExpression, env: Valuation): bool {
    match e
    case LogicalOr(l, r) => Eval(l, env) || Eval(r, env)
    case LogicalAnd(l, r) => Eval(l, env) && Eval(r, env)
    case LogicalNot(a) => !Eval(a, env)
    case IsInstancePredicate(v, t, negated) => env.isInstance(v.descriptor, t) != negated
    case IsNullPredicate(v, negated) => env.isNull(v.descriptor) != negated
    case BooleanConstant(c) => c == True
    case BooleanVariable(v) => env.booleanValue(v.descriptor)
  }

  /** An atom under zero or more negations. */
  predicate IsAtomChain(e: BooleanExpression) {
    e.IsAtom() || (e.LogicalNot? && IsAtomChain(e.arg))
  }

  /** Negation is applied to atoms only, never to `&&` or `||`. */
  predicate NegationOnlyOnAtoms(e: BooleanExpression) {
    match e
    case LogicalOr(l, r) => NegationOnlyOnAtoms(l) && NegationOnlyOnAtoms(r)
    case LogicalAnd(l, r) => NegationOnlyOnAtoms(l) && NegationOnlyOnAtoms(r)
    case LogicalNot(a) => IsAtomChain(a)
    case _ => true
  }

  /** The atom chain `e`, negated once more when `negate` holds, in normal form. */
  function PushNegation(e: BooleanExpression, negate: bool): (r: BooleanExpression)
    requires IsAtomChain(e)
  {
    match e
    case LogicalNot(a) => PushNegation(a, !negate)
    case IsInstancePredicate(v, t, n) => IsInstancePredicate(v, t, n != negate)
    case IsNullPredicate(v, n) => IsNullPredicate(v, n != negate)
    case _ => if negate then LogicalNot(e) else e
  }

  function Normalize(e: BooleanExpression): (r: BooleanExpression)
    requires NegationOnlyOnAtoms(e)
  {
    match e
    case LogicalOr(l, r) => LogicalOr(Normalize(l), Normalize(r))
    case LogicalAnd(l, r) => LogicalAnd(Normalize(l), Normalize(r))
    case LogicalNot(a) => PushNegation(a, true)
    case _ => e
  }

  lemma {:induction false} PushNegationMeaning(e: BooleanExpression, negate: bool, env: Valuation)
    requires IsAtomChain(e)
    ensures Eval(PushNegation(e, negate), env) == (Eval(e, env) != negate)
    ensures NegationOnlyOnAtoms(PushNegation(e, negate))
  {
    if e.LogicalNot? {
      PushNegationMeaning(e.arg, !negate, env);
    }
  }

  /** Normalizing a condition does not change its meaning. */
  lemma {:induction false} NormalizePreservesMeaning(e: BooleanExpression, env: Valuation)
    requires NegationOnlyOnAtoms(e)
    ensures NegationOnlyOnAtoms(Normalize(e))
    ensures Eval(Normalize(e), env) == Eval(e, env)
  {
    match e
    case LogicalOr(l, r) =>
      NormalizePreservesMeaning(l, env);
      NormalizePreservesMeaning(r, env);
    case LogicalAnd(l, r) =>
      NormalizePreservesMeaning(l, env);
      NormalizePreservesMeaning(r, env);
    case LogicalNot(a) =>
      PushNegationMeaning(a, true, env);
    case _ =>
  }

  lemma {:induction false} PushNegationNormal(e: BooleanExpression, negate: bool)
    requires IsAtomChain(e)
    ensures NegationOnlyOnAtoms(PushNegation(e, negate))
    ensures Normalize(PushNegation(e, negate)) == PushNegation(e, negate)
  {
    if e.LogicalNot? {
      PushNegationNormal(e.arg, !negate);
    }
  }

  /** The normal form is a fixed point: normalizing twice is normalizing once. */
  lemma {:induction false} NormalizeIdempotent(e: BooleanExpression)
    requires NegationOnlyOnAtoms(e)
    ensures NegationOnlyOnAtoms(Normalize(e))
    ensures Normalize(Normalize(e)) == Normalize(e)
  {
    match e
    case LogicalOr(l, r) =>
      NormalizeIdempotent(l);
      NormalizeIdempotent(r);
    case LogicalAnd(l, r) =>
      NormalizeIdempotent(l);
      NormalizeIdempotent(r);
    case LogicalNot(a) =>
      PushNegationNormal(a, true);
    case _ =>
  }

  lemma {:induction false} PushNegationWellFormed(e: BooleanExpression, negate: bool, f: FunctionDescriptor)
    requires IsAtomChain(e) && WellFormedCondition(e, f)
    ensures WellFormedCondition(PushNegation(e, negate), f)
  {
    if e.LogicalNot? {
      PushNegationWellFormed(e.arg, !negate, f);
    }
  }

  /** Normalizing keeps every reference a parameter of the owner. */
  lemma {:induction false} NormalizeWellFormed(e: BooleanExpression, f: FunctionDescriptor)
    requires NegationOnlyOnAtoms(e) && WellFormedCondition(e, f)
    ensures WellFormedCondition(Normalize(e), f)
  {
    match e
    case LogicalOr(l, r) =>
      NormalizeWellFormed(l, f);
      NormalizeWellFormed(r, f);
    case LogicalAnd(l, r) =>
      NormalizeWellFormed(l, f);
      NormalizeWellFormed(r, f);
    case LogicalNot(a) =>
      PushNegationWellFormed(a, true, f);
    case _ =>
  }
}
