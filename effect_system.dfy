/** The semantic effects that contracts are interpreted into: a simple effect happens
    whenever the call completes, a conditional effect attaches a condition to one. */
module EffectSystem {
  import opened Wrappers
  import opened ContractModel

  /** The semantic constants: the two lifted booleans and the three special values. */
  datatype ESConstant = ESTrue | ESFalse | ESNull | ESNotNull | ESWildcard

  /** A parameter of the function, as a semantic variable. */
  datatype ESVariable = ESVariable(descriptor: ParameterDescriptor)

  datatype SimpleEffect =
    | ESReturns(value: ESConstant)
    | ESCalls(callable: ESVariable, kind: InvocationKind)

  /** An effect is either simple or a simple effect guarded by a condition of type `C`;
      the condition language belongs to the condition interpreter. Holding a
      `SimpleEffect`, a conditional effect cannot hold another conditional one. */
  datatype ESEffect<C> =
    | Simple(effect: SimpleEffect)
    | ConditionalEffect(condition: C, simpleEffect: SimpleEffect)

  /** Whether the presence of `self` implies the presence (`Some(true)`) or the absence
      (`Some(false)`) of `other`, or neither (`None`). The answer of each kind of simple
      effect is given by `simpleImplies`; a conditional effect never gives information. */
  function IsImplies<C>(self: ESEffect<C>, other: ESEffect<C>, simpleImplies: (SimpleEffect, ESEffect<C>) -> Option<bool>)
    : (r: Option<bool>)
    ensures self.ConditionalEffect? ==> r.None?
    ensures self.Simple? ==> r == simpleImplies(self.effect, other)
  {
    match self
    case Simple(effect) => simpleImplies(effect, other)
    case ConditionalEffect(_, _) => None
  }
}
