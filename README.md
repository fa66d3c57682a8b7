# Kotlin function contracts, modelled in Dafny

This project models the part of the Kotlin compiler that handles function contracts.
A contract is a description, written with the contracts DSL (`contract { returns(true) implies (x != null) }`), of how a function behaves. It is a list of effects:

- `returns(value)` or `returnsNotNull()`;
- `callsInPlace(lambda, kind)`;
- an effect followed by `implies (condition)`, where the condition is a boolean expression over the function's parameters.

The model covers the life of a contract:

- **Declarations** (`ContractModel`): constant descriptors (`TRUE`, `FALSE`, `NULL`, `NOT_NULL`, `WILDCARD`), variable references, boolean conditions and effect declarations.
- **Meaning of conditions** (`ConditionSemantics`): a reference semantics `Eval` under a valuation of the parameters. It also defines `Normalize`, which folds negations into atoms the way the binary format does.
- **The lazy holder** (`LazyContracts.LazyContractProvider`): a one-shot computation guarded by the NOT_PROCESSED / IN_PROCESS / PROCESSED state machine.
- **Rendering** (`ContractRendering.ContractDescriptorRenderer`): text rendering with its bracketing rules, and proofs that the rendered text is well bracketed.
- **The binary format**: the protobuf messages (`ProtoMessages`), the writer in `DescriptorSerializer` (`ContractSerialization`, as builder classes plus the functions that specify them) and `ContractDeserializer` (`ContractDeserialization`).
- **Round trip** (`ContractRoundTrip`): what survives writing and reading back, and the corners that are lossy by construction.
- **Interpretation** (`EffectSystem`, `ContractInterpretation`): from declarations to the effect system's `ESEffect` clauses and the function's functor.
- **Parsing** (`ContractParsing`): from the PSI of a contract block to declarations, with the diagnostics the parser reports.
- **Chains across stages** (`ContractPipeline`): lemmas that follow a contract through more than one stage.

Behaviour of the code worth noting:

- `parseContract` drops only the statements that fail to parse (`mapNotNull`), and keeps the contract as long as one statement parses. The deserializer, by contrast, is all-or-nothing: one effect that cannot be read discards the contract (`ContractParsing.ParseContractDropsFailures`, `ContractDeserialization.DecodeContract`).
- `a && b && c` is written as `a` with the and-arguments `[b, c]`, not as a three-element and-list (`ContractSerialization.ChainEncoding`).
- `returns(null)` is written as `RETURNS_CONSTANT` with a `NULL` argument. When read back, `NULL` is not a boolean primitive, so the effect, and with it the whole contract, reads back as nothing (`ContractRoundTrip.ReturnsNullIsLost`).
- `getPrimitiveType` and `getComplexType` keep an "ambiguous, so no type" branch. It can never be taken, because each `when` adds at most one candidate. The methods `GetPrimitiveType` and `GetComplexType` keep the candidate list. They are proved equal to `PrimitiveTypeOf` and `ComplexTypeOf`, which have no ambiguous case.

The reference semantics of conditions (`ConditionSemantics`: `Eval`, `Normalize` and the lemmas that normalizing keeps the meaning, is idempotent and keeps references well formed) belongs to the model rather than to any one source function, so it has no rows below; the round-trip lemmas that use it do.

## Model


| member | source | states |
|---|---|---|
| `Wrappers.SingleOrNull` | compiler/resolution/src/org/jetbrains/kotlin/contracts/interpretation/ContractInterpretationDispatcher.kt:65-68 | Kotlin's `singleOrNull`: a value exactly when the list has one element, and then that element |
| `Wrappers.AllPresent` | core/deserialization/src/org/jetbrains/kotlin/serialization/deserialization/ContractDeserializer.kt:44-47 | the `?: return null` inside `map`: a list exactly when every element is present, equal element by element |
| `Wrappers.Present` | compiler/resolution/src/org/jetbrains/kotlin/contracts/interpretation/ContractInterpretationDispatcher.kt:66 | `mapNotNull`: keeps exactly the present values (no more elements than the input, every kept value occurs in the input, every present value is kept), is empty iff nothing is present, and agrees with `AllPresent` when everything is present |
| `Wrappers.PresentInOrder` | compiler/resolution/src/org/jetbrains/kotlin/contracts/interpretation/ContractInterpretationDispatcher.kt:66 | `mapNotNull` keeps order and multiplicity: the k-th kept value is the value of the k-th present element, the present positions being listed in increasing order and all of them covered |
| `Wrappers.PresentAppend` | compiler/resolution/src/org/jetbrains/kotlin/contracts/interpretation/ContractInterpretationDispatcher.kt:66 | keeping the present values of a concatenation keeps those of each part, one part after the other |
| `ContractModel.ReferenceTo` | compiler/frontend/src/org/jetbrains/kotlin/contracts/parsing/PSIContractParserDispatcher.kt:101-104 | a parameter reference keeps its descriptor and the parameter's type, and is a `BooleanVariableReference` exactly when that type is `Boolean` |
| `ContractModel.SingletonConstants` | core/descriptors/src/org/jetbrains/kotlin/descriptors/contracts/expressions/Values.kt:33-51 | NULL, WILDCARD and NOT_NULL are distinct and carry their names; NULL and WILDCARD have type `Any?`, NOT_NULL has type `Nothing?`; TRUE and FALSE are the `Boolean` constants and the other three are not boolean |
| `ContractModel.BooleanReferenceType` | core/descriptors/src/org/jetbrains/kotlin/descriptors/contracts/expressions/Values.kt:59-62 | a `BooleanVariableReference` always has type `Boolean` |
| `LazyContracts.LazyContractProvider.constructor` | core/descriptors/src/org/jetbrains/kotlin/descriptors/contracts/LazyContractProvider.kt:27-30 | a new provider holds no contract and is NOT_PROCESSED |
| `LazyContracts.LazyContractProvider.CreateInitialized` | core/descriptors/src/org/jetbrains/kotlin/descriptors/contracts/LazyContractProvider.kt:53-56 | a fresh provider that is already PROCESSED and holds the given contract |
| `LazyContracts.LazyContractProvider.SetContractDescriptor` | core/descriptors/src/org/jetbrains/kotlin/descriptors/contracts/LazyContractProvider.kt:48-51 | stores the contract and marks the provider PROCESSED |
| `LazyContracts.LazyContractProvider.GetContractDescriptor` | core/descriptors/src/org/jetbrains/kotlin/descriptors/contracts/LazyContractProvider.kt:33-46 | PROCESSED returns the stored contract; IN_PROCESS fails with recursive evaluation; NOT_PROCESSED runs the computation and fails unless it set the contract; success iff the provider ends PROCESSED, returning the stored contract |
| `LazyContracts.ErrorPersists` | core/descriptors/src/org/jetbrains/kotlin/descriptors/contracts/LazyContractProvider.kt:33-46 | once the computation's script has failed, later calls do not change the outcome |
| `LazyContracts.RunWithoutSet` | core/descriptors/src/org/jetbrains/kotlin/descriptors/contracts/LazyContractProvider.kt:36-37 | a computation that never sets the contract leaves the provider IN_PROCESS with its old contract, failing with the recursive-evaluation error exactly when it reads its own contract |
| `LazyContracts.NoSetFails` | core/descriptors/src/org/jetbrains/kotlin/descriptors/contracts/LazyContractProvider.kt:34-39 | a first evaluation whose computation never sets the contract fails and leaves the provider IN_PROCESS |
| `LazyContracts.SetBeforeGetSucceeds` | core/descriptors/src/org/jetbrains/kotlin/descriptors/contracts/LazyContractProvider.kt:34-39 | a computation that sets the contract first ends PROCESSED with the last contract it set, and the first evaluation returns it |
| `LazyContracts.FailureLeavesInProcess` | core/descriptors/src/org/jetbrains/kotlin/descriptors/contracts/LazyContractProvider.kt:34-43 | a failed first evaluation leaves the provider IN_PROCESS, so every later read fails as recursive |
| `LazyContracts.RunStates` | core/descriptors/src/org/jetbrains/kotlin/descriptors/contracts/LazyContractProvider.kt:33-51 | a computation never leaves the provider NOT_PROCESSED, and one that failed leaves it IN_PROCESS |
| `ContractRendering.ContractDescriptorRenderer.constructor` | core/descriptors/src/org/jetbrains/kotlin/renderer/ContractDescriptorRenderer.kt:26 | the renderer writes into the given builder |
| `ContractRendering.ContractDescriptorRenderer.Append` | core/descriptors/src/org/jetbrains/kotlin/renderer/ContractDescriptorRenderer.kt:26 | appends exactly the given text |
| `ContractRendering.ContractDescriptorRenderer.AcceptEffect` | core/descriptors/src/org/jetbrains/kotlin/renderer/ContractDescriptorRenderer.kt:27-44 | appends the rendering of the effect |
| `ContractRendering.ContractDescriptorRenderer.VisitConditionalEffectDeclaration` | core/descriptors/src/org/jetbrains/kotlin/renderer/ContractDescriptorRenderer.kt:27-31 | appends the effect, ` -> ` and the condition |
| `ContractRendering.ContractDescriptorRenderer.VisitReturnsEffectDeclaration` | core/descriptors/src/org/jetbrains/kotlin/renderer/ContractDescriptorRenderer.kt:33-37 | appends `Returns(` the constant's name `)` |
| `ContractRendering.ContractDescriptorRenderer.VisitCallsEffectDeclaration` | core/descriptors/src/org/jetbrains/kotlin/renderer/ContractDescriptorRenderer.kt:39-44 | appends `CallsInPlace(` the parameter name, the kind's name `)` |
| `ContractRendering.ContractDescriptorRenderer.AcceptCondition` | core/descriptors/src/org/jetbrains/kotlin/renderer/ContractDescriptorRenderer.kt:46-79 | appends the rendering of the condition |
| `ContractRendering.ContractDescriptorRenderer.VisitLogicalOr` | core/descriptors/src/org/jetbrains/kotlin/renderer/ContractDescriptorRenderer.kt:46-50 | appends the operands joined by the or-operator, each bracketed when needed |
| `ContractRendering.ContractDescriptorRenderer.VisitLogicalAnd` | core/descriptors/src/org/jetbrains/kotlin/renderer/ContractDescriptorRenderer.kt:52-56 | appends the operands joined by ` && `, each bracketed when needed |
| `ContractRendering.ContractDescriptorRenderer.VisitLogicalNot` | core/descriptors/src/org/jetbrains/kotlin/renderer/ContractDescriptorRenderer.kt:58-61 | appends `!` before a bare atom, `(!)` before anything else |
| `ContractRendering.ContractDescriptorRenderer.VisitIsInstancePredicate` | core/descriptors/src/org/jetbrains/kotlin/renderer/ContractDescriptorRenderer.kt:63-66 | appends the parameter, ` is ` or ` !is `, and the type |
| `ContractRendering.ContractDescriptorRenderer.VisitIsNullPredicate` | core/descriptors/src/org/jetbrains/kotlin/renderer/ContractDescriptorRenderer.kt:68-71 | appends the parameter and ` == null` or ` != null` |
| `ContractRendering.ContractDescriptorRenderer.VisitConstantDescriptor` | core/descriptors/src/org/jetbrains/kotlin/renderer/ContractDescriptorRenderer.kt:73-75 | appends the constant's name |
| `ContractRendering.ContractDescriptorRenderer.VisitVariableReference` | core/descriptors/src/org/jetbrains/kotlin/renderer/ContractDescriptorRenderer.kt:77-79 | appends the parameter's name |
| `ContractRendering.ContractDescriptorRenderer.InBracketsIfNecessary` | core/descriptors/src/org/jetbrains/kotlin/renderer/ContractDescriptorRenderer.kt:90-98 | appends the block's text, wrapped in brackets exactly when the child needs them |
| `ContractRendering.ContractDescriptorRenderer.RunBlock` | core/descriptors/src/org/jetbrains/kotlin/renderer/ContractDescriptorRenderer.kt:90-98 | appends the text of one rendering block |
| `ContractRendering.BracketingRule` | core/descriptors/src/org/jetbrains/kotlin/renderer/ContractDescriptorRenderer.kt:81-88 | atoms are never bracketed; under and/or a non-atomic operand is bracketed iff its operator differs from the parent's; under `!` iff it is not an atom |
| `ContractRendering.NegatedConjunctionRendering` | core/descriptors/src/org/jetbrains/kotlin/renderer/ContractDescriptorRenderer.kt:58-61 | `!(x == null && y == null)` renders as `(!)x == null && y == null`: the brackets hold only the `!` |
| `ContractRendering.RenderedWellBracketed` | core/descriptors/src/org/jetbrains/kotlin/renderer/ContractDescriptorRenderer.kt:46-98 | every rendered condition (over plain names) is balanced: every `)` closes a `(` and none stays open |
| `ContractRendering.BracketedWellBracketed` | core/descriptors/src/org/jetbrains/kotlin/renderer/ContractDescriptorRenderer.kt:90-98 | a possibly bracketed operand is balanced |
| `ContractRendering.CallsWellBracketed` | core/descriptors/src/org/jetbrains/kotlin/renderer/ContractDescriptorRenderer.kt:39-44 | the `CallsInPlace(..)` rendering is balanced |
| `ContractRendering.RenderedEffectWellBracketed` | core/descriptors/src/org/jetbrains/kotlin/renderer/ContractDescriptorRenderer.kt:27-44 | every rendered effect is balanced |
| `ContractSerialization.IndexOf` | compiler/serialization/src/org/jetbrains/kotlin/serialization/DescriptorSerializer.kt:721-739 | the first position of the parameter in the owner's list, none iff absent |
| `ContractSerialization.EncodeVariable` | compiler/serialization/src/org/jetbrains/kotlin/serialization/DescriptorSerializer.kt:721-739 | only the parameter index is set: 0 for the extension receiver, the position plus one for a value parameter |
| `ContractSerialization.ConstantValueProtobufEnum` | compiler/serialization/src/org/jetbrains/kotlin/serialization/DescriptorSerializer.kt:750-760 | TRUE, FALSE and NULL map each to the enum value of the same name and WILDCARD to no value, each in both directions; NOT_NULL and any other constant fail with their errors |
| `ContractSerialization.InvocationKindProtobufEnum` | compiler/serialization/src/org/jetbrains/kotlin/serialization/DescriptorSerializer.kt:743-748 | AT_MOST_ONCE, EXACTLY_ONCE and AT_LEAST_ONCE map each to the enum value of the same name, in both directions; UNKNOWN alone has no enum value |
| `ContractSerialization.EncodeEffects` | compiler/serialization/src/org/jetbrains/kotlin/serialization/DescriptorSerializer.kt:602-612 | one message per effect, in order, or the first failing effect's error |
| `ContractSerialization.ReturnsEncoding` | compiler/serialization/src/org/jetbrains/kotlin/serialization/DescriptorSerializer.kt:621-630 | `returnsNotNull` writes RETURNS_NOT_NULL with no argument, `returns()` RETURNS_CONSTANT with no argument, `returns(true)`, `returns(false)` and `returns(null)` RETURNS_CONSTANT with the TRUE, FALSE or NULL constant message as the only argument; any other constant fails |
| `ContractSerialization.CallsEncoding` | compiler/serialization/src/org/jetbrains/kotlin/serialization/DescriptorSerializer.kt:632-639 | `callsInPlace` writes CALLS with the parameter reference as the only argument and the kind field holding the enum value of the same name, absent for UNKNOWN |
| `ContractSerialization.ConditionalEncoding` | compiler/serialization/src/org/jetbrains/kotlin/serialization/DescriptorSerializer.kt:616-619 | a conditional writes the inner effect into the same message with its condition as conclusion |
| `ContractSerialization.NestedConditionalEncoding` | compiler/serialization/src/org/jetbrains/kotlin/serialization/DescriptorSerializer.kt:616-619 | a conditional inside a conditional overwrites the outer conclusion with the inner one |
| `ContractSerialization.FillEffectFailure` | compiler/serialization/src/org/jetbrains/kotlin/serialization/DescriptorSerializer.kt:614-643 | filling an effect fails exactly when it returns an unknown constant, with that error |
| `ContractSerialization.ContractEncodingFailure` | compiler/serialization/src/org/jetbrains/kotlin/serialization/DescriptorSerializer.kt:602-606 | writing a contract fails exactly when some effect returns an unknown constant, never with the NOT_NULL error |
| `ContractSerialization.NegationEncoding` | compiler/serialization/src/org/jetbrains/kotlin/serialization/DescriptorSerializer.kt:679-683 | `!e` is `e` with the negation flag flipped |
| `ContractSerialization.AtomEncoding` | compiler/serialization/src/org/jetbrains/kotlin/serialization/DescriptorSerializer.kt:685-739 | an atom has no and/or argument list |
| `ContractSerialization.ChainEncoding` | compiler/serialization/src/org/jetbrains/kotlin/serialization/DescriptorSerializer.kt:647-677 | `a && b && c` is `a` with and-arguments `[b, c]` (likewise for or) |
| `ContractSerialization.ContractEncodingStops` | compiler/serialization/src/org/jetbrains/kotlin/serialization/DescriptorSerializer.kt:602-606 | once a prefix fails, the whole contract fails with the same error |
| `ContractSerialization.ExpressionBuilder.constructor` | compiler/serialization/src/org/jetbrains/kotlin/serialization/DescriptorSerializer.kt:645 | a new builder holds the empty message |
| `ContractSerialization.ExpressionBuilder.AddAndArguments` | compiler/serialization/src/org/jetbrains/kotlin/serialization/DescriptorSerializer.kt:663-677 | appends one and-argument, nothing else changes |
| `ContractSerialization.ExpressionBuilder.AddOrArguments` | compiler/serialization/src/org/jetbrains/kotlin/serialization/DescriptorSerializer.kt:647-661 | appends one or-argument, nothing else changes |
| `ContractSerialization.EffectBuilder.constructor` | compiler/serialization/src/org/jetbrains/kotlin/serialization/DescriptorSerializer.kt:608-612 | a new builder holds the empty effect |
| `ContractSerialization.ContractBuilder.constructor` | compiler/serialization/src/org/jetbrains/kotlin/serialization/DescriptorSerializer.kt:602-606 | a new builder holds no effects |
| `ContractSerialization.ContractBuilder.AddEffect` | compiler/serialization/src/org/jetbrains/kotlin/serialization/DescriptorSerializer.kt:602-606 | appends one effect |
| `ContractSerialization.VisitVariableReference` | compiler/serialization/src/org/jetbrains/kotlin/serialization/DescriptorSerializer.kt:721-739 | builds the parameter-index message |
| `ContractSerialization.VisitConstantDescriptor` | compiler/serialization/src/org/jetbrains/kotlin/serialization/DescriptorSerializer.kt:709-719 | builds the constant message or reports its error |
| `ContractSerialization.ContractExpressionProto` | compiler/serialization/src/org/jetbrains/kotlin/serialization/DescriptorSerializer.kt:645-741 | the builder it returns holds the encoding of the condition |
| `ContractSerialization.FillEffectProto` | compiler/serialization/src/org/jetbrains/kotlin/serialization/DescriptorSerializer.kt:614-643 | the effect builder ends holding the filled effect, or the error is reported |
| `ContractSerialization.EffectProto` | compiler/serialization/src/org/jetbrains/kotlin/serialization/DescriptorSerializer.kt:608-612 | the effect message or the error |
| `ContractSerialization.ContractProto` | compiler/serialization/src/org/jetbrains/kotlin/serialization/DescriptorSerializer.kt:602-606 | the contract message or the first error |
| `ContractSerialization.SerializeFunctionContract` | compiler/serialization/src/org/jetbrains/kotlin/serialization/DescriptorSerializer.kt:286-290 | no provider writes nothing; a provider that cannot deliver its contract fails; otherwise the contract field of its stored contract. The provider moves as in GetContractDescriptor: a PROCESSED provider keeps its contract, so that contract is the one written |
| `ContractDeserialization.PrimitiveTypeOf` | core/deserialization/src/org/jetbrains/kotlin/serialization/deserialization/ContractDeserializer.kt:181-212 | each shape in both directions: a reference with a type is an instance check; a reference with the null-check flag and no type a null check, so a predicate overrides a plain value; otherwise a reference above 0 is a value parameter, 0 the receiver, and a message with no usable reference but a constant a constant; nothing else has a shape |
| `ContractDeserialization.ComplexTypeOf` | core/deserialization/src/org/jetbrains/kotlin/serialization/deserialization/ContractDeserializer.kt:170-179 | no list is no complex type; an or-list gives OR_SEQUENCE even when an and-list is present; an and-list alone gives AND_SEQUENCE |
| `ContractDeserialization.GetPrimitiveType` | core/deserialization/src/org/jetbrains/kotlin/serialization/deserialization/ContractDeserializer.kt:181-212 | the procedure with its candidate list agrees with `PrimitiveTypeOf` |
| `ContractDeserialization.GetComplexType` | core/deserialization/src/org/jetbrains/kotlin/serialization/deserialization/ContractDeserializer.kt:170-179 | the procedure with its candidate list agrees with `ComplexTypeOf` |
| `ContractDeserialization.ExtractVariable` | core/deserialization/src/org/jetbrains/kotlin/serialization/deserialization/ContractDeserializer.kt:135-147 | a reference exactly for index 0 with an extension receiver or an index within the value parameters, naming that parameter |
| `ContractDeserialization.ExtractType` | core/deserialization/src/org/jetbrains/kotlin/serialization/deserialization/ContractDeserializer.kt:155-162 | the inline type when present; otherwise the type table entry at the id (at 0 when the id is absent), and none when that index is outside the table |
| `ContractDeserialization.DeserializeConstant` | core/deserialization/src/org/jetbrains/kotlin/serialization/deserialization/ContractDeserializer.kt:164-168 | TRUE, FALSE and NULL read each as the constant of the same name, in both directions; only NULL is not boolean |
| `ContractDeserialization.ToDescriptorInvocationKind` | core/deserialization/src/org/jetbrains/kotlin/serialization/deserialization/ContractDeserializer.kt:149-153 | each enum value reads as the kind of the same name, in both directions; UNKNOWN is never read |
| `ContractDeserialization.ExtractPrimitiveExpression` | core/deserialization/src/org/jetbrains/kotlin/serialization/deserialization/ContractDeserializer.kt:107-131 | a result needs a primitive shape and is one atom under at most one `!` |
| `ContractDeserialization.DecodeContract` | core/deserialization/src/org/jetbrains/kotlin/serialization/deserialization/ContractDeserializer.kt:44-47 | all effects or nothing, in order, owned by the function |
| `ContractDeserialization.DeserializeContractFromFunction` | core/deserialization/src/org/jetbrains/kotlin/serialization/deserialization/ContractDeserializer.kt:35-42 | no contract field, or a configuration allowing neither effect kind, gives none; a contract field with some effect kind allowed gives exactly the decoded contract |
| `ContractDeserialization.ReduceChildren` | core/deserialization/src/org/jetbrains/kotlin/serialization/deserialization/ContractDeserializer.kt:95-100 | the loop computes the left fold of the children |
| `ContractDeserialization.DeserializeArguments` | core/deserialization/src/org/jetbrains/kotlin/serialization/deserialization/ContractDeserializer.kt:93-100 | the loop reads the arguments one by one and gives up at the first that cannot be read, agreeing with reading them all-or-nothing |
| `ContractDeserialization.DeserializeExpression` | core/deserialization/src/org/jetbrains/kotlin/serialization/deserialization/ContractDeserializer.kt:84-105 | the procedure agrees with the decoding function |
| `ContractDeserialization.DecodeExpressionShape` | core/deserialization/src/org/jetbrains/kotlin/serialization/deserialization/ContractDeserializer.kt:84-105 | a message with neither a primitive nor a list part reads as none; without a list it reads as its primitive part; a list message reads exactly when every list argument reads, a primitive part that cannot be read being dropped |
| `ContractDeserialization.DecodedConditionWellFormed` | core/deserialization/src/org/jetbrains/kotlin/serialization/deserialization/ContractDeserializer.kt:84-147 | every condition read from any message refers only to the owner function's extension receiver or its value parameters, with the reference shape the parameter's type gives |
| `ContractDeserialization.DecodeSimpleEffect` | core/deserialization/src/org/jetbrains/kotlin/serialization/deserialization/ContractDeserializer.kt:59-82 | no effect type reads as none; RETURNS_CONSTANT without an argument is WILDCARD, with one it needs a boolean constant and so never reads NULL; RETURNS_NOT_NULL is NOT_NULL; CALLS needs a resolvable first argument and takes UNKNOWN when the kind is absent, otherwise the kind of the same name; never a conditional |
| `ContractDeserialization.DecodePossiblyConditionalEffect` | core/deserialization/src/org/jetbrains/kotlin/serialization/deserialization/ContractDeserializer.kt:49-57 | without a conclusion, the simple effect; with one, a conditional exactly when both the condition and the simple effect read; conditionals never nest |
| `ContractRoundTrip.VariableRoundTrip` | core/deserialization/src/org/jetbrains/kotlin/serialization/deserialization/ContractDeserializer.kt:135-147 | a reference to one of the owner's parameters is written as an index and read back as the same reference |
| `ContractRoundTrip.InstanceCheckRoundTrip` | core/deserialization/src/org/jetbrains/kotlin/serialization/deserialization/ContractDeserializer.kt:118-122 | an instance check is written without lists and, with its negation bit flipped or not, read back as the same check with the flag adjusted |
| `ContractRoundTrip.NullCheckRoundTrip` | core/deserialization/src/org/jetbrains/kotlin/serialization/deserialization/ContractDeserializer.kt:124-127 | the same for a null check |
| `ContractRoundTrip.BooleanVariableRoundTrip` | core/deserialization/src/org/jetbrains/kotlin/serialization/deserialization/ContractDeserializer.kt:111-113 | a boolean parameter is read back as itself, under one `!` when the bit is set |
| `ContractRoundTrip.AtomChainRoundTrip` | core/deserialization/src/org/jetbrains/kotlin/serialization/deserialization/ContractDeserializer.kt:107-133 | an atom under `!`s is written without lists and read back with the negations folded into it |
| `ContractRoundTrip.AtomChainDecodes` | core/deserialization/src/org/jetbrains/kotlin/serialization/deserialization/ContractDeserializer.kt:84-133 | an atom under `!`s reads back as its normal form |
| `ContractRoundTrip.DecodeAppendToList` | core/deserialization/src/org/jetbrains/kotlin/serialization/deserialization/ContractDeserializer.kt:93-96 | appending a readable argument to a readable list adds it as the rightmost operand |
| `ContractRoundTrip.OrRoundTrip` | core/deserialization/src/org/jetbrains/kotlin/serialization/deserialization/ContractDeserializer.kt:98-101 | a disjunction of operands that read back as their normal forms reads back as the disjunction of those forms |
| `ContractRoundTrip.AndRoundTrip` | core/deserialization/src/org/jetbrains/kotlin/serialization/deserialization/ContractDeserializer.kt:93-96 | the same for a conjunction |
| `ContractRoundTrip.ExpressionRoundTrip` | core/deserialization/src/org/jetbrains/kotlin/serialization/deserialization/ContractDeserializer.kt:84-105 | every condition with negation only on atoms reads back as its normal form |
| `ContractRoundTrip.RoundTripPreservesMeaning` | core/deserialization/src/org/jetbrains/kotlin/serialization/deserialization/ContractDeserializer.kt:84-105 | such a condition reads back and means the same under every valuation |
| `ContractRoundTrip.RoundTrippableIsNormalizable` | core/deserialization/src/org/jetbrains/kotlin/serialization/deserialization/ContractDeserializer.kt:49-57 | every effect that can round-trip has negation only on atoms |
| `ContractRoundTrip.SimpleEffectRoundTrip` | core/deserialization/src/org/jetbrains/kotlin/serialization/deserialization/ContractDeserializer.kt:59-82 | a returns (TRUE, FALSE, WILDCARD, NOT_NULL) or calls effect is written and read back unchanged |
| `ContractRoundTrip.EffectRoundTrip` | core/deserialization/src/org/jetbrains/kotlin/serialization/deserialization/ContractDeserializer.kt:49-57 | such an effect, possibly under one condition, is written and read back with its condition normalized |
| `ContractRoundTrip.ContractRoundTrip` | core/deserialization/src/org/jetbrains/kotlin/serialization/deserialization/ContractDeserializer.kt:44-47 | a contract of such effects is written and read back with the same owner and its effects normalized, one for one |
| `ContractRoundTrip.FunctionContractRoundTrip` | core/deserialization/src/org/jetbrains/kotlin/serialization/deserialization/ContractDeserializer.kt:35-42 | the same through the function's contract field whenever some effect kind is allowed |
| `ContractRoundTrip.ReturnsNullIsLost` | core/deserialization/src/org/jetbrains/kotlin/serialization/deserialization/ContractDeserializer.kt:59-82 | `returns(null)` is written but not read back, and the whole contract then reads back as none |
| `ContractRoundTrip.NegatedConjunctionChanges` | core/deserialization/src/org/jetbrains/kotlin/serialization/deserialization/ContractDeserializer.kt:107-133 | `!(x == null && y == null)` reads back as `x != null && y == null`, which means something else for some valuation |
| `ContractRoundTrip.NegationBitIgnoredWithoutPrimitive` | core/deserialization/src/org/jetbrains/kotlin/serialization/deserialization/ContractDeserializer.kt:107-133 | the negation flag of a message with no primitive part is ignored |
| `ContractRoundTrip.NegatedDisjunctionIsDropped` | core/deserialization/src/org/jetbrains/kotlin/serialization/deserialization/ContractDeserializer.kt:84-105 | the negation of a disjunction whose left side is a conjunction reads back without its negation, meaning the opposite under every valuation |
| `ContractRoundTrip.NestedConditionalLosesOuterCondition` | core/deserialization/src/org/jetbrains/kotlin/serialization/deserialization/ContractDeserializer.kt:49-57 | a conditional inside a conditional reads back as one conditional with the inner condition only |
| `EffectSystem.IsImplies` | compiler/resolution/src/org/jetbrains/kotlin/contracts/model/ESEffect.kt:19-53 | a conditional effect never implies anything; a simple effect answers with its own implication test |
| `ContractInterpretation.InterpretConstant` | compiler/resolution/src/org/jetbrains/kotlin/contracts/interpretation/ConstantValuesInterpreter.kt:25-32 | the five singletons and only they have a semantic constant, which stands for the same singleton |
| `ContractInterpretation.ConstantInterpretationInverse` | compiler/resolution/src/org/jetbrains/kotlin/contracts/interpretation/ConstantValuesInterpreter.kt:25-32 | interpreting the singleton of a semantic constant gives that constant back |
| `ContractInterpretation.InterpretVariable` | compiler/resolution/src/org/jetbrains/kotlin/contracts/interpretation/ContractInterpretationDispatcher.kt:76 | every variable interprets, keeping its parameter |
| `ContractInterpretation.TryInterpretReturns` | compiler/resolution/src/org/jetbrains/kotlin/contracts/interpretation/effects/ReturnsEffectInterpreter.kt:27-31 | accepts exactly a returns of a known constant, as that constant's returns effect |
| `ContractInterpretation.TryInterpretCalls` | compiler/resolution/src/org/jetbrains/kotlin/contracts/interpretation/effects/CallsEffectInterpreter.kt:27-33 | accepts exactly a calls effect, keeping parameter and kind |
| `ContractInterpretation.SimpleInterpretersExclusive` | compiler/resolution/src/org/jetbrains/kotlin/contracts/interpretation/ContractInterpretationDispatcher.kt:65-68 | the two simple interpreters never both accept a declaration |
| `ContractInterpretation.InterpretEffect` | compiler/resolution/src/org/jetbrains/kotlin/contracts/interpretation/ContractInterpretationDispatcher.kt:65-68 | a simple effect exactly for a returns of a known constant or a calls, as the accepting interpreter gives it |
| `ContractInterpretation.InterpretConditional` | compiler/resolution/src/org/jetbrains/kotlin/contracts/interpretation/effects/ConditionalEffectInterpreter.kt:25-30 | a conditional effect exactly when the inner effect and the condition interpret; a nested conditional never interprets |
| `ContractInterpretation.DeclarationInterprets` | compiler/resolution/src/org/jetbrains/kotlin/contracts/interpretation/ContractInterpretationDispatcher.kt:53-60 | which declarations interpret: returns of a singleton, every calls, and a conditional over one of those whose condition interprets |
| `ContractInterpretation.ConvertContractDescriptorToFunctor` | compiler/resolution/src/org/jetbrains/kotlin/contracts/interpretation/ContractInterpretationDispatcher.kt:53-63 | all clauses or nothing, one per effect in order, with the contract's owner |
| `ContractInterpretation.ResolveFunctor` | compiler/resolution/src/org/jetbrains/kotlin/contracts/interpretation/ContractInterpretationDispatcher.kt:48-51 | no provider gives no functor; a provider error propagates; otherwise the functor of the stored contract. The provider moves as in GetContractDescriptor: a PROCESSED provider keeps its contract, so that contract is the one interpreted |
| `ContractInterpretation.DecodedEffectInterprets` | compiler/resolution/src/org/jetbrains/kotlin/contracts/interpretation/ContractInterpretationDispatcher.kt:53-60 | every effect the deserializer produces interprets whenever its condition does |
| `ContractInterpretation.DecodedContractInterprets` | compiler/resolution/src/org/jetbrains/kotlin/contracts/interpretation/ContractInterpretationDispatcher.kt:53-63 | a decoded contract gives a functor exactly when the condition interpreter accepts the conditions of its conditional effects |
| `ContractParsing.ParseConstant` | compiler/frontend/src/org/jetbrains/kotlin/contracts/parsing/PSIConstantParser.kt:30-45 | only `true`, `false` and `null` literals with a type and a compile-time value parse, to TRUE, FALSE and NULL |
| `ContractParsing.ParseVariable` | compiler/frontend/src/org/jetbrains/kotlin/contracts/parsing/PSIContractParserDispatcher.kt:89-105 | a reference exactly when the expression resolves to a parameter; a non-parameter is reported; a contracts-DSL receiver is reported as a missing label but still parsed |
| `ContractParsing.ParseValue` | compiler/frontend/src/org/jetbrains/kotlin/contracts/parsing/PSIContractParserDispatcher.kt:107-112 | a variable when one parses, otherwise a constant, keeping the variable's reports |
| `ContractParsing.TryParseReturns` | compiler/frontend/src/org/jetbrains/kotlin/contracts/parsing/effects/PSIReturnsEffectParser.kt:33-60 | off without the feature; `returnsNotNull` is NOT_NULL, `returns()` WILDCARD, `returns(c)` the parsed constant; an unparsable constant is reported and gives none |
| `ContractParsing.ToInvocationKind` | compiler/frontend/src/org/jetbrains/kotlin/contracts/parsing/effects/PSICallsEffectParser.kt:59-70 | a kind exactly when the argument resolves to an entry of the invocation-kind enum with one of the four names |
| `ContractParsing.TryParseCalls` | compiler/frontend/src/org/jetbrains/kotlin/contracts/parsing/effects/PSICallsEffectParser.kt:37-57 | off without the feature or for another call; otherwise reports what parsing the first argument reports, fails when that is not a parameter or there is no second argument, gives UNKNOWN for a default second argument, the kind its enum entry names for an explicit one, and fails for an explicit argument naming no kind |
| `ContractParsing.CallsInPlaceParsesKind` | compiler/frontend/src/org/jetbrains/kotlin/contracts/parsing/effects/PSICallsEffectParser.kt:49-69 | `callsInPlace(x, InvocationKind.K)` on a parameter x parses to a calls effect on x with kind K, for each of the four kinds |
| `ContractParsing.ParseEffect` | compiler/frontend/src/org/jetbrains/kotlin/contracts/parsing/PSIContractParserDispatcher.kt:73-82 | no type gives nothing; an unknown effect type is reported; a known one is handed to its parser |
| `ContractParsing.ParseContract` | compiler/frontend/src/org/jetbrains/kotlin/contracts/parsing/PSIContractParserDispatcher.kt:56-69 | no contract without a contract-description lambda; otherwise every statement's reports and the effects that parsed, none if none did |
| `ContractParsing.ParseContractDropsFailures` | compiler/frontend/src/org/jetbrains/kotlin/contracts/parsing/PSIContractParserDispatcher.kt:64-66 | a contract exactly when some statement parses; every effect comes from a statement and every parsed effect is kept; the k-th effect is the result of the k-th statement that parses, so the survivors keep statement order and multiplicity |
| `ContractParsing.ParseContractKeepsOrder` | compiler/frontend/src/org/jetbrains/kotlin/contracts/parsing/PSIContractParserDispatcher.kt:64-68 | when every statement parses the effects follow the statements one for one |
| `ContractParsing.DisabledCallsInPlaceIsSilent` | compiler/frontend/src/org/jetbrains/kotlin/contracts/parsing/PSIContractParserDispatcher.kt:73-82 | with the feature off a `callsInPlace` statement is dropped without a report |
| `ContractPipeline.ParsedSimpleEffectsInterpret` | compiler/resolution/src/org/jetbrains/kotlin/contracts/interpretation/ContractInterpretationDispatcher.kt:65-68 | every returns or calls effect the parser produces interprets |
| `ContractPipeline.ParsedConstantsRoundTrip` | compiler/serialization/src/org/jetbrains/kotlin/serialization/DescriptorSerializer.kt:750-760 | every constant the parser produces is written and read back as itself |

## Left out

- Visitors: the `accept`/`ContractDescriptorVisitor` double dispatch is replaced by `match` on the datatypes. The renderer and serializer methods keep the visitor's method names.
- Condition interpreter and condition parser: `ConditionInterpreter`, `PSIConditionParser`, `PSIConditionalEffectParser` and `ContractsDslNames` are not part of this model. The condition interpreter and the conditional-effect parser become function parameters (`interpretCondition`, `parseConditional`). The DSL names become the string constants `"Returns"`, `"ReturnsNotNull"`, `"CallsInPlace"`, `"ConditionalEffect"` and the kind names.
- `isContractDescriptionCall`: a parameter. The `!!` on the resolved call after it is modelled as "no contract".
- `ContractStatements`: `firstArgumentAsExpressionOrNull` is approximated as the first value argument's expression.
- PSI resolution: binding-context lookups (resolved call, expression type, compile-time value) are fields of the modelled expression. `ContractParsing.ParseConstant` keeps only which literal it is.
- Diagnostics: their text is replaced by tags (`UnrecognizedEffect`, `OnlyParameterReferencesAllowed`, `MissingLabelOnThis`, `UnsupportedReturnsConstant`). The element they are reported on is left out.
- Kotlin types: a type is its name. The serializer's type table is the parameter `typeId`, and the deserializer's is a sequence `typeTable`; interning and flexible types are left out.
- Integer widths: the int32 width of parameter indices and type ids is not modelled, because no realistic function has 2^31 parameters.
- `LazyContracts.LazyContractProvider.GetContractDescriptor`: the computation callback is a script of `SetContract`/`GetContract` calls on the provider. Other side effects of the callback are left out.
- The JVM `assert` after the computation is modelled as enabled: a computation that set no contract fails. With assertions disabled it would return the stored contract.
- Thread safety: the provider is not synchronized in the source either, so no concurrency is modelled.
- Exceptions: `IllegalStateException` and the serializer's errors become `Failure` values of a `Result`.
- `EffectSystem.IsImplies`: the simple effects' implication tests (`ESReturns`, `ESCalls`) live outside these files, so they are a parameter `simpleImplies`.
- Functors: `SubstitutingFunctor` is kept as its clauses and its owner. Applying it to call arguments is outside this core.
- `ContractSerialization.SerializeFunctionContract`: only the contract field of the function message is modelled. The rest of `DescriptorSerializer` is not part of this model.
- Custom boolean constants: `BooleanConstantDescriptor` has a public constructor (core/descriptors/src/org/jetbrains/kotlin/descriptors/contracts/expressions/Values.kt:44), but the model's boolean constants are only TRUE and FALSE. No producer in this core creates any other boolean constant.
