/** The decisions of the contract parser, over an already-resolved view of the source: each
    expression carries what resolution knows about it (its type, the declaration a call
    resolves to, its arguments, its compile-time value). Diagnostics are tags, returned in
    the order they are reported. */
module ContractParsing {
  import opened Wrappers
  import opened ContractModel

  /** The compile-time value of a constant expression. */
  datatype CompileTimeValue = TrueLiteral | FalseLiteral | NullLiteral | OtherLiteral(text: string)

  /** What a resolved call points at, as far as the contracts DSL is concerned. */
  datatype CallTarget =
    | ParameterTarget(parameter: ParameterDescriptor)
    | ReturnsTarget
    | ReturnsNotNullTarget
    | CallsInPlaceTarget
    | EnumEntryTarget(inInvocationKindEnum: bool, shortName: string)
    | OtherTarget

  datatype ValueArgument =
    | DefaultValueArgument
    | ExpressionValueArgument(expression: Option<KtExpression>)
    | OtherValueArgument

  datatype ResolvedCall = ResolvedCall(resultingDescriptor: CallTarget, valueArgumentsByIndex: seq<ValueArgument>)

  /** The declaration behind an expression's type; `declarationName` is its simple name. */
  datatype TypeInfo = TypeInfo(declarationName: Option<string>)

  datatype ExpressionKind =
    | ConstantExpression(compileTimeValue: Option<CompileTimeValue>)
    | LambdaExpression(statements: Option<seq<KtExpression>>)
    | OtherExpression

  /** A source expression together with what resolution recorded for it. */
  datatype KtExpression = KtExpression(kind: ExpressionKind, expressionType: Option<TypeInfo>, resolvedCall: Option<ResolvedCall>)

  /** The reports made with the contract-description error, by message. */
  datatype Diagnostic =
    | UnrecognizedEffect
    | OnlyParameterReferencesAllowed
    | MissingLabelOnThis
    | UnsupportedReturnsConstant

  /** A nullable parse result together with the diagnostics reported while computing it. */
  datatype Parsed<T> = Parsed(value: Option<T>, diagnostics: seq<Diagnostic>)

  /** The two language features that gate the effect parsers. */
  datatype LanguageSettings = LanguageSettings(returnsEffect: bool, callsInPlaceEffect: bool)

  /** The value of a contract expression: a parameter reference or a constant. */
  datatype ContractDescriptionValue = VariableValue(variable: VariableReference) | ConstantValue(constant: ConstantDescriptor)

  datatype EffectParser = ReturnsEffectParser | CallsEffectParser | ConditionalEffectParser

  /** The parsers by the simple name of the effect interface a statement evaluates to. */
  const EffectsParsers: map<string, EffectParser> := map[
    "Returns" := ReturnsEffectParser,
    "ReturnsNotNull" := ReturnsEffectParser,
    "CallsInPlace" := CallsEffectParser,
    "ConditionalEffect" := ConditionalEffectParser
  ]

  /** The expression passed as the first argument of a call, if there is one. */
  function FirstArgumentExpression(call: ResolvedCall): Option<KtExpression> {
    if |call.valueArgumentsByIndex| > 0 && call.valueArgumentsByIndex[0].ExpressionValueArgument?
    then call.valueArgumentsByIndex[0].expression
    else None
  }

  /** Only typed constant expressions whose compile-time value is `true`, `false` or
      `null` are contract constants. */
  function ParseConstant(expression: Option<KtExpression>): (r: Option<ConstantDescriptor>)
    ensures r.Some? ==> r.value in {True, False, Null}
    ensures r.Some? <==>
      && expression.Some?
      && expression.value.kind.ConstantExpression?
      && expression.value.expressionType.Some?
      && expression.value.kind.compileTimeValue.Some?
      && !expression.value.kind.compileTimeValue.value.OtherLiteral?
    ensures r == Some(True) ==> expression.value.kind.compileTimeValue == Some(TrueLiteral)
    ensures r == Some(False) ==> expression.value.kind.compileTimeValue == Some(FalseLiteral)
    ensures r == Some(Null) ==> expression.value.kind.compileTimeValue == Some(NullLiteral)
  {
    if expression.None? then None
    else match expression.value.kind
      case ConstantExpression(value) =>
        if expression.value.expressionType.None? || value.None? then None
        else (match value.value
          case TrueLiteral => Some(True)
          case FalseLiteral => Some(False)
          case NullLiteral => Some(Null)
          case OtherLiteral(_) => None)
      case _ => None
  }

  /** A reference must resolve to a parameter; a boolean parameter gives a boolean
      reference. The contracts-DSL receiver is reported but still accepted. */
  function ParseVariable(expression: Option<KtExpression>): (r: Parsed<VariableReference>)
    ensures r.value.Some? <==>
      expression.Some? && expression.value.resolvedCall.Some? && expression.value.resolvedCall.value.resultingDescriptor.ParameterTarget?
    ensures r.value.Some? ==> r.value.value == ReferenceTo(expression.value.resolvedCall.value.resultingDescriptor.parameter)
    ensures r.value.Some? ==>
      (r.diagnostics == [MissingLabelOnThis] <==> r.value.value.descriptor.kind == ReceiverParameter(true))
    ensures r.value.Some? ==> r.diagnostics == [] || r.diagnostics == [MissingLabelOnThis]
    ensures r.value.None? ==> r.diagnostics == [] || r.diagnostics == [OnlyParameterReferencesAllowed]
    ensures r.diagnostics == [OnlyParameterReferencesAllowed] <==>
      expression.Some? && expression.value.resolvedCall.Some? && !expression.value.resolvedCall.value.resultingDescriptor.ParameterTarget?
  {
    if expression.None? || expression.value.resolvedCall.None? then Parsed(None, [])
    else match expression.value.resolvedCall.value.resultingDescriptor
      case ParameterTarget(d) =>
        Parsed(Some(ReferenceTo(d)), if d.kind == ReceiverParameter(true) then [MissingLabelOnThis] else [])
      case _ => Parsed(None, [OnlyParameterReferencesAllowed])
  }

  /** A variable if the expression is one, otherwise a constant; the variable attempt's
      diagnostics stay reported either way. */
  function ParseValue(expression: Option<KtExpression>): (r: Parsed<ContractDescriptionValue>)
    ensures r.diagnostics == ParseVariable(expression).diagnostics
    ensures ParseVariable(expression).value.Some? ==> r.value == Some(VariableValue(ParseVariable(expression).value.value))
    ensures ParseVariable(expression).value.None? && ParseConstant(expression).Some? ==>
      r.value == Some(ConstantValue(ParseConstant(expression).value))
    ensures r.value.None? <==> ParseVariable(expression).value.None? && ParseConstant(expression).None?
  {
    var variable := ParseVariable(expression);
    if variable.value.Some? then Parsed(Some(VariableValue(variable.value.value)), variable.diagnostics)
    else
      match ParseConstant(expression)
      case Some(c) => Parsed(Some(ConstantValue(c)), variable.diagnostics)
      case None => Parsed(None, variable.diagnostics)
  }

  /** `returns()`, `returns(value)` and `returnsNotNull()`. */
  function TryParseReturns(expression: KtExpression, settings: LanguageSettings): (r: Parsed<EffectDeclaration>)
    ensures !settings.returnsEffect ==> r == Parsed(None, [])
    ensures r.diagnostics == [] || r.diagnostics == [UnsupportedReturnsConstant]
    ensures r.value.Some? ==> r.diagnostics == [] && r.value.value.ReturnsEffectDeclaration?
    ensures r.value.Some? ==> r.value.value.value in {Wildcard, NotNull, True, False, Null}
    ensures settings.returnsEffect && expression.resolvedCall.Some?
              && expression.resolvedCall.value.resultingDescriptor == ReturnsNotNullTarget
            ==> r == Parsed(Some(ReturnsEffectDeclaration(NotNull)), [])
    ensures settings.returnsEffect && expression.resolvedCall.Some?
              && expression.resolvedCall.value.resultingDescriptor == ReturnsTarget
              && FirstArgumentExpression(expression.resolvedCall.value).None?
            ==> r == Parsed(Some(ReturnsEffectDeclaration(Wildcard)), [])
    ensures settings.returnsEffect && expression.resolvedCall.Some?
              && expression.resolvedCall.value.resultingDescriptor == ReturnsTarget
              && FirstArgumentExpression(expression.resolvedCall.value).Some?
            ==> (var c := ParseConstant(FirstArgumentExpression(expression.resolvedCall.value));
                 r == if c.Some? then Parsed(Some(ReturnsEffectDeclaration(c.value)), []) else Parsed(None, [UnsupportedReturnsConstant]))
    ensures r.value.None? && r.diagnostics == [] ==>
      !settings.returnsEffect || expression.resolvedCall.None?
      || expression.resolvedCall.value.resultingDescriptor !in {ReturnsTarget, ReturnsNotNullTarget}
  {
    if !settings.returnsEffect || expression.resolvedCall.None? then Parsed(None, [])
    else
      var call := expression.resolvedCall.value;
      if call.resultingDescriptor == ReturnsNotNullTarget then Parsed(Some(ReturnsEffectDeclaration(NotNull)), [])
      else if call.resultingDescriptor != ReturnsTarget then Parsed(None, [])
      else match FirstArgumentExpression(call)
        case None => Parsed(Some(ReturnsEffectDeclaration(Wildcard)), [])
        case Some(argument) =>
          match ParseConstant(Some(argument))
          case None => Parsed(None, [UnsupportedReturnsConstant])
          case Some(c) => Parsed(Some(ReturnsEffectDeclaration(c)), [])
  }

  /** An entry of the invocation-kind enum, by its name. */
  function ToInvocationKind(expression: KtExpression): (r: Option<InvocationKind>)
    ensures r.Some? ==>
      (&& expression.resolvedCall.Some?
       && expression.resolvedCall.value.resultingDescriptor.EnumEntryTarget?
       && expression.resolvedCall.value.resultingDescriptor.inInvocationKindEnum
       && r.value.Name() == expression.resolvedCall.value.resultingDescriptor.shortName)
    ensures forall k: InvocationKind ::
      (expression.resolvedCall.Some? && expression.resolvedCall.value.resultingDescriptor == EnumEntryTarget(true, k.Name()))
      ==> r == Some(k)
  {
    if expression.resolvedCall.None? then None
    else match expression.resolvedCall.value.resultingDescriptor
      case EnumEntryTarget(inKindEnum, name) =>
        if !inKindEnum then None
        else if name == "AT_MOST_ONCE" then Some(AtMostOnce)
        else if name == "EXACTLY_ONCE" then Some(ExactlyOnce)
        else if name == "AT_LEAST_ONCE" then Some(AtLeastOnce)
        else if name == "UNKNOWN" then Some(Unknown)
        else None
      case _ => None
  }

  /** `callsInPlace(lambda)` and `callsInPlace(lambda, kind)`. The lambda must be a
      parameter; a default second argument is UNKNOWN, an explicit one must name an
      entry of the invocation-kind enum, and anything else rejects the call. */
  function TryParseCalls(expression: KtExpression, settings: LanguageSettings): (r: Parsed<EffectDeclaration>)
    ensures !settings.callsInPlaceEffect ==> r == Parsed(None, [])
    ensures expression.resolvedCall.None? || expression.resolvedCall.value.resultingDescriptor != CallsInPlaceTarget ==>
      r == Parsed(None, [])
    ensures r.value.Some? ==> r.value.value.CallsEffectDeclaration?
    ensures settings.callsInPlaceEffect && expression.resolvedCall.Some?
              && expression.resolvedCall.value.resultingDescriptor == CallsInPlaceTarget ==>
      var call := expression.resolvedCall.value;
      var lambda := ParseVariable(FirstArgumentExpression(call));
      var arguments := call.valueArgumentsByIndex;
      && r.diagnostics == lambda.diagnostics
      && (lambda.value.None? || |arguments| < 2 ==> r.value.None?)
      && (lambda.value.Some? && |arguments| >= 2 ==>
            match arguments[1]
            case DefaultValueArgument => r.value == Some(CallsEffectDeclaration(lambda.value.value, Unknown))
            case ExpressionValueArgument(Some(k)) =>
              r.value == (if ToInvocationKind(k).Some? then Some(CallsEffectDeclaration(lambda.value.value, ToInvocationKind(k).value)) else None)
            case _ => r.value.None?)
    ensures r.diagnostics == [] || r.diagnostics == [OnlyParameterReferencesAllowed] || r.diagnostics == [MissingLabelOnThis]
  {
    if !settings.callsInPlaceEffect || expression.resolvedCall.None? then Parsed(None, [])
    else
      var call := expression.resolvedCall.value;
      if call.resultingDescriptor != CallsInPlaceTarget then Parsed(None, [])
      else
        var lambda := ParseVariable(FirstArgumentExpression(call));
        if lambda.value.None? then Parsed(None, lambda.diagnostics)
        else
          var kind :=
            if |call.valueArgumentsByIndex| < 2 then None
            else match call.valueArgumentsByIndex[1]
              case DefaultValueArgument => Some(Unknown)
              case ExpressionValueArgument(Some(kindExpression)) => ToInvocationKind(kindExpression)
              case _ => None;
          if kind.None? then Parsed(None, lambda.diagnostics)
          else Parsed(Some(CallsEffectDeclaration(lambda.value.value, kind.value)), lambda.diagnostics)
  }

  /** `callsInPlace(x, InvocationKind.K)` on a parameter `x` parses to a calls effect on
      `x` with the kind named K, for every kind. */
  lemma CallsInPlaceParsesKind(expression: KtExpression, settings: LanguageSettings, kindExpression: KtExpression, kind: InvocationKind)
    requires settings.callsInPlaceEffect
    requires expression.resolvedCall.Some? && expression.resolvedCall.value.resultingDescriptor == CallsInPlaceTarget
    requires ParseVariable(FirstArgumentExpression(expression.resolvedCall.value)).value.Some?
    requires |expression.resolvedCall.value.valueArgumentsByIndex| >= 2
    requires expression.resolvedCall.value.valueArgumentsByIndex[1] == ExpressionValueArgument(Some(kindExpression))
    requires kindExpression.resolvedCall.Some?
    requires kindExpression.resolvedCall.value.resultingDescriptor == EnumEntryTarget(true, kind.Name())
    ensures TryParseCalls(expression, settings).value ==
      Some(CallsEffectDeclaration(ParseVariable(FirstArgumentExpression(expression.resolvedCall.value)).value.value, kind))
  {
    assert ToInvocationKind(kindExpression) == Some(kind);
  }

  /** One statement of the contract lambda: the effect interface its type names selects the
      parser; an unknown type is reported. Conditional effects are parsed by
      `parseConditional`. */
  function ParseEffect(expression: KtExpression, settings: LanguageSettings,
                       parseConditional: KtExpression -> Parsed<EffectDeclaration>): (r: Parsed<EffectDeclaration>)
    ensures expression.expressionType.None? ==> r == Parsed(None, [])
    ensures expression.expressionType.Some? ==>
      var name := expression.expressionType.value.declarationName;
      && (name.None? || name.value !in EffectsParsers ==> r == Parsed(None, [UnrecognizedEffect]))
      && (name.Some? && name.value in EffectsParsers && name.value != "ConditionalEffect" ==> UnrecognizedEffect !in r.diagnostics)
    ensures expression.expressionType.Some? && expression.expressionType.value.declarationName == Some("CallsInPlace")
            ==> r == TryParseCalls(expression, settings)
    ensures expression.expressionType.Some?
              && expression.expressionType.value.declarationName in {Some("Returns"), Some("ReturnsNotNull")}
            ==> r == TryParseReturns(expression, settings)
    ensures expression.expressionType.Some? && expression.expressionType.value.declarationName == Some("ConditionalEffect")
            ==> r == parseConditional(expression)
  {
    if expression.expressionType.None? then Parsed(None, [])
    else
      var name := expression.expressionType.value.declarationName;
      if name.None? || name.value !in EffectsParsers then Parsed(None, [UnrecognizedEffect])
      else match EffectsParsers[name.value]
        case ReturnsEffectParser => TryParseReturns(expression, settings)
        case CallsEffectParser => TryParseCalls(expression, settings)
        case ConditionalEffectParser => parseConditional(expression)
  }

  /** All reports of a sequence of parses, in order. */
  function Concat<T>(parts: seq<seq<T>>): (r: seq<T>)
    ensures parts == [] ==> r == []
    ensures parts != [] ==> r == Concat(parts[..|parts| - 1]) + parts[|parts| - 1]
  {
    if parts == [] then [] else Concat(parts[..|parts| - 1]) + parts[|parts| - 1]
  }

  /** The parse of each statement, in statement order. */
  function ParsedStatements(statements: seq<KtExpression>, settings: LanguageSettings,
                            parseConditional: KtExpression -> Parsed<EffectDeclaration>)
    : (r: seq<Parsed<EffectDeclaration>>)
    ensures |r| == |statements|
    ensures forall j :: 0 <= j < |statements| ==> r[j] == ParseEffect(statements[j], settings, parseConditional)
  {
    seq(|statements|, j requires 0 <= j < |statements| => ParseEffect(statements[j], settings, parseConditional))
  }

  function Values<T>(parsed: seq<Parsed<T>>): (r: seq<Option<T>>)
    ensures |r| == |parsed| && forall j :: 0 <= j < |parsed| ==> r[j] == parsed[j].value
  {
    seq(|parsed|, j requires 0 <= j < |parsed| => parsed[j].value)
  }

  function Reports<T>(parsed: seq<Parsed<T>>): (r: seq<seq<Diagnostic>>)
    ensures |r| == |parsed| && forall j :: 0 <= j < |parsed| ==> r[j] == parsed[j].diagnostics
  {
    seq(|parsed|, j requires 0 <= j < |parsed| => parsed[j].diagnostics)
  }

  /** The statements of the lambda passed to the `contract` call, when `expression` is
      such a call. */
  function ContractStatements(expression: Option<KtExpression>, isContractDescriptionCall: KtExpression -> bool)
    : Option<seq<KtExpression>>
  {
    if expression.None? || !isContractDescriptionCall(expression.value) || expression.value.resolvedCall.None? then None
    else match FirstArgumentExpression(expression.value.resolvedCall.value)
      case Some(KtExpression(LambdaExpression(Some(statements)), _, _)) => Some(statements)
      case _ => None
  }

  /** A contract description: the effects of the statements that parse, or nothing when
      none does. */
  function ParseContract(expression: Option<KtExpression>, owner: FunctionDescriptor,
                         isContractDescriptionCall: KtExpression -> bool, settings: LanguageSettings,
                         parseConditional: KtExpression -> Parsed<EffectDeclaration>): (r: Parsed<ContractDescriptor>)
    ensures ContractStatements(expression, isContractDescriptionCall).None? ==> r == Parsed(None, [])
    ensures ContractStatements(expression, isContractDescriptionCall).Some? ==>
      var parsed := ParsedStatements(ContractStatements(expression, isContractDescriptionCall).value, settings, parseConditional);
      && r.diagnostics == Concat(Reports(parsed))
      && (r.value.Some? ==> r.value.value.ownerFunction == owner && r.value.value.effects == Present(Values(parsed)))
  {
    match ContractStatements(expression, isContractDescriptionCall)
    case None => Parsed(None, [])
    case Some(statements) =>
      var parsed := ParsedStatements(statements, settings, parseConditional);
      var effects := Present(Values(parsed));
      if effects == [] then Parsed(None, Concat(Reports(parsed)))
      else Parsed(Some(ContractDescriptor(effects, owner)), Concat(Reports(parsed)))
  }

  /** Statements that fail to parse are dropped: a contract is produced exactly when some
      statement yields an effect, every effect comes from a statement, every statement's
      effect is kept, and the k-th effect is that of the k-th statement that parses, so
      the survivors keep statement order. `outcomes[j]` is what statement `j` parses to. */
  lemma ParseContractDropsFailures(expression: Option<KtExpression>, owner: FunctionDescriptor,
                                   isContractDescriptionCall: KtExpression -> bool, settings: LanguageSettings,
                                   parseConditional: KtExpression -> Parsed<EffectDeclaration>)
    requires ContractStatements(expression, isContractDescriptionCall).Some?
    ensures var outcomes := Values(ParsedStatements(ContractStatements(expression, isContractDescriptionCall).value, settings, parseConditional));
      var r := ParseContract(expression, owner, isContractDescriptionCall, settings, parseConditional);
      && (r.value.Some? <==> exists j :: 0 <= j < |outcomes| && outcomes[j].Some?)
      && (r.value.Some? ==> forall i :: 0 <= i < |r.value.value.effects| ==> Some(r.value.value.effects[i]) in outcomes)
      && (forall j :: 0 <= j < |outcomes| && outcomes[j].Some? ==> r.value.Some? && outcomes[j].value in r.value.value.effects)
      && (r.value.Some? ==>
            var parsedAt := PresentIndices(outcomes);
            && |r.value.value.effects| == |parsedAt|
            && forall k :: 0 <= k < |parsedAt| ==> outcomes[parsedAt[k]] == Some(r.value.value.effects[k]))
  {
    var outcomes := Values(ParsedStatements(ContractStatements(expression, isContractDescriptionCall).value, settings, parseConditional));
    var effects := Present(outcomes);
    var r := ParseContract(expression, owner, isContractDescriptionCall, settings, parseConditional);
    assert r.value.Some? <==> effects != [];
    assert r.value.Some? ==> r.value.value.effects == effects;
    PresentInOrder(outcomes);
  }

  /** When every statement parses, the contract holds their effects in statement order. */
  lemma ParseContractKeepsOrder(expression: Option<KtExpression>, owner: FunctionDescriptor,
                                isContractDescriptionCall: KtExpression -> bool, settings: LanguageSettings,
                                parseConditional: KtExpression -> Parsed<EffectDeclaration>)
    requires ContractStatements(expression, isContractDescriptionCall).Some?
    requires var statements := ContractStatements(expression, isContractDescriptionCall).value;
      |statements| > 0 && forall j :: 0 <= j < |statements| ==> ParseEffect(statements[j], settings, parseConditional).value.Some?
    ensures var statements := ContractStatements(expression, isContractDescriptionCall).value;
      var r := ParseContract(expression, owner, isContractDescriptionCall, settings, parseConditional);
      && r.value.Some? && |r.value.value.effects| == |statements|
      && forall j :: 0 <= j < |statements| ==> ParseEffect(statements[j], settings, parseConditional).value == Some(r.value.value.effects[j])
  {
    var statements := ContractStatements(expression, isContractDescriptionCall).value;
    var values := Values(ParsedStatements(statements, settings, parseConditional));
    assert AllPresent(values).Some?;
    assert values[0].Some?;
  }

  /** With the callsInPlace feature off, a `callsInPlace` statement yields nothing and
      reports nothing. */
  lemma DisabledCallsInPlaceIsSilent(expression: KtExpression, settings: LanguageSettings,
                                     parseConditional: KtExpression -> Parsed<EffectDeclaration>)
    requires !settings.callsInPlaceEffect
    requires expression.expressionType == Some(TypeInfo(Some("CallsInPlace")))
    ensures ParseEffect(expression, settings, parseConditional) == Parsed(None, [])
  {
  }
}
