/** The debug printer for contracts: a visitor that appends the text of each node to a
    shared builder, bracketing a non-atomic operand whose node class differs from its
    parent's. Under `!` the brackets enclose the `!` alone, so `!(a && b)` prints as
    `(!)a && b`. */
module ContractRendering {
  import opened Wrappers
  import opened ContractModel

  /** The runtime class of a condition node, as `parent::class != child::class` sees it. */
  function NodeClass(e: BooleanExpression): string {
    match e
    case LogicalOr(_, _) => "LogicalOr"
    case LogicalAnd(_, _) => "LogicalAnd"
    case LogicalNot(_) => "LogicalNot"
    case IsInstancePredicate(_, _, _) => "IsInstancePredicate"
    case IsNullPredicate(_, _) => "IsNullPredicate"
    case BooleanConstant(_) => "BooleanConstantDescriptor"
    case BooleanVariable(_) => "BooleanVariableReference"
  }

  predicate NeedsBrackets(parent: BooleanExpression, child: BooleanExpression) {
    !child.IsAtom() && (parent.LogicalNot? || NodeClass(parent) != NodeClass(child))
  }

  /** The text the renderer appends for a condition. */
  function Rendered(e: BooleanExpression): string
    decreases e, 0
  {
    match e
    case LogicalOr(l, r) => Bracketed(e, l) + " || " + Bracketed(e, r)
    case LogicalAnd(l, r) => Bracketed(e, l) + " && " + Bracketed(e, r)
    case LogicalNot(a) => (if NeedsBrackets(e, a) then "(!)" else "!") + Rendered(a)
    case IsInstancePredicate(v, t, negated) => v.descriptor.name + " " + (if negated then "!" else "") + "is " + t.name
    case IsNullPredicate(v, negated) => v.descriptor.name + (if negated then " != null" else " == null")
    case BooleanConstant(c) => c.Name()
    case BooleanVariable(v) => v.descriptor.name
  }

  /** An operand of `&&` or `||`, in brackets when the parent needs them. */
  function Bracketed(parent: BooleanExpression, child: BooleanExpression): string
    decreases child, 1
  {
    if NeedsBrackets(parent, child) then "(" + Rendered(child) + ")" else Rendered(child)
  }

  function RenderedEffect(effect: EffectDeclaration): string {
    match effect
    case ConditionalEffectDeclaration(inner, condition) => RenderedEffect(inner) + " -> " + Rendered(condition)
    case ReturnsEffectDeclaration(value) => "Returns(" + value.Name() + ")"
    case CallsEffectDeclaration(v, kind) => "CallsInPlace(" + v.descriptor.name + ", " + kind.Name() + ")"
  }

  /** The two blocks the renderer passes to `inBracketsIfNecessary`: render the child
      itself, or append a fixed text (the `!` of a negation). */
  datatype Block = AcceptChild | AppendText(text: string)

  function BlockText(block: Block, child: BooleanExpression): string {
    match block
    case AcceptChild => Rendered(child)
    case AppendText(s) => s
  }

  class ContractDescriptorRenderer {
    var builder: string

    constructor (builder: string)
      ensures this.builder == builder
    {
      this.builder := builder;
    }

    method Append(s: string)
      modifies this
      ensures builder == old(builder) + s
    {
      builder := builder + s;
    }

    method AcceptEffect(effect: EffectDeclaration)
      modifies this
      ensures builder == old(builder) + RenderedEffect(effect)
      decreases effect, 1
    {
      match effect
      case ConditionalEffectDeclaration(_, _) => VisitConditionalEffectDeclaration(effect);
      case ReturnsEffectDeclaration(_) => VisitReturnsEffectDeclaration(effect);
      case CallsEffectDeclaration(_, _) => VisitCallsEffectDeclaration(effect);
    }

    method VisitConditionalEffectDeclaration(conditionalEffect: EffectDeclaration)
      requires conditionalEffect.ConditionalEffectDeclaration?
      modifies this
      ensures builder == old(builder) + RenderedEffect(conditionalEffect.effect) + " -> " + Rendered(conditionalEffect.condition)
      decreases conditionalEffect, 0
    {
      AcceptEffect(conditionalEffect.effect);
      Append(" -> ");
      AcceptCondition(conditionalEffect.condition);
    }

    method VisitReturnsEffectDeclaration(returnsEffect: EffectDeclaration)
      requires returnsEffect.ReturnsEffectDeclaration?
      modifies this
      ensures builder == old(builder) + "Returns(" + returnsEffect.value.Name() + ")"
    {
      Append("Returns(");
      VisitConstantDescriptor(returnsEffect.value);
      Append(")");
    }

    method VisitCallsEffectDeclaration(callsEffect: EffectDeclaration)
      requires callsEffect.CallsEffectDeclaration?
      modifies this
      ensures builder == old(builder) + "CallsInPlace(" + callsEffect.variableReference.descriptor.name + ", " + callsEffect.kind.Name() + ")"
    {
      Append("CallsInPlace(");
      VisitVariableReference(callsEffect.variableReference);
      Append(", " + callsEffect.kind.Name() + ")");
    }

    method AcceptCondition(e: BooleanExpression)
      modifies this
      ensures builder == old(builder) + Rendered(e)
      decreases e, 1
    {
      match e
      case LogicalOr(_, _) => VisitLogicalOr(e);
      case LogicalAnd(_, _) => VisitLogicalAnd(e);
      case LogicalNot(_) => VisitLogicalNot(e);
      case IsInstancePredicate(_, _, _) => VisitIsInstancePredicate(e);
      case IsNullPredicate(_, _) => VisitIsNullPredicate(e);
      case BooleanConstant(c) => VisitConstantDescriptor(c);
      case BooleanVariable(v) => VisitVariableReference(v);
    }

    method VisitLogicalOr(logicalOr: BooleanExpression)
      requires logicalOr.LogicalOr?
      modifies this
      ensures builder == old(builder) + Rendered(logicalOr)
      decreases logicalOr, 0
    {
      ghost var start := builder;
      InBracketsIfNecessary(logicalOr, logicalOr.left, AcceptChild);
      assert builder == start + Bracketed(logicalOr, logicalOr.left);
      Append(" || ");
      ghost var middle := builder;
      InBracketsIfNecessary(logicalOr, logicalOr.right, AcceptChild);
      assert builder == middle + Bracketed(logicalOr, logicalOr.right);
      AppendThree(start, Bracketed(logicalOr, logicalOr.left), " || ", Bracketed(logicalOr, logicalOr.right));
    }

    method VisitLogicalAnd(logicalAnd: BooleanExpression)
      requires logicalAnd.LogicalAnd?
      modifies this
      ensures builder == old(builder) + Rendered(logicalAnd)
      decreases logicalAnd, 0
    {
      ghost var start := builder;
      InBracketsIfNecessary(logicalAnd, logicalAnd.left, AcceptChild);
      assert builder == start + Bracketed(logicalAnd, logicalAnd.left);
      Append(" && ");
      ghost var middle := builder;
      InBracketsIfNecessary(logicalAnd, logicalAnd.right, AcceptChild);
      assert builder == middle + Bracketed(logicalAnd, logicalAnd.right);
      AppendThree(start, Bracketed(logicalAnd, logicalAnd.left), " && ", Bracketed(logicalAnd, logicalAnd.right));
    }

    method VisitLogicalNot(logicalNot: BooleanExpression)
      requires logicalNot.LogicalNot?
      modifies this
      ensures builder == old(builder) + Rendered(logicalNot)
      decreases logicalNot, 0
    {
      InBracketsIfNecessary(logicalNot, logicalNot.arg, AppendText("!"));
      AcceptCondition(logicalNot.arg);
    }

    method VisitIsInstancePredicate(isInstancePredicate: BooleanExpression)
      requires isInstancePredicate.IsInstancePredicate?
      modifies this
      ensures builder == old(builder) + Rendered(isInstancePredicate)
    {
      VisitVariableReference(isInstancePredicate.variable);
      Append(" " + (if isInstancePredicate.isNegated then "!" else "") + "is " + isInstancePredicate.instanceType.name);
    }

    method VisitIsNullPredicate(isNullPredicate: BooleanExpression)
      requires isNullPredicate.IsNullPredicate?
      modifies this
      ensures builder == old(builder) + Rendered(isNullPredicate)
    {
      VisitVariableReference(isNullPredicate.variable);
      Append(" " + (if isNullPredicate.isNegated then "!=" else "==") + " null");
    }

    method VisitConstantDescriptor(constantDescriptor: ConstantDescriptor)
      modifies this
      ensures builder == old(builder) + constantDescriptor.Name()
    {
      Append(constantDescriptor.Name());
    }

    method VisitVariableReference(variableReference: VariableReference)
      modifies this
      ensures builder == old(builder) + variableReference.descriptor.name
    {
      Append(variableReference.descriptor.name);
    }

    method InBracketsIfNecessary(parent: BooleanExpression, child: BooleanExpression, block: Block)
      modifies this
      ensures builder == old(builder) +
        if NeedsBrackets(parent, child) then "(" + BlockText(block, child) + ")" else BlockText(block, child)
      decreases child, 3
    {
      if NeedsBrackets(parent, child) {
        Append("(");
        RunBlock(child, block);
        Append(")");
      } else {
        RunBlock(child, block);
      }
    }

    method RunBlock(child: BooleanExpression, block: Block)
      modifies this
      ensures builder == old(builder) + BlockText(block, child)
      decreases child, 2
    {
      match block
      case AcceptChild => AcceptCondition(child);
      case AppendText(s) => Append(s);
    }
  }

  lemma AppendThree(prefix: string, a: string, b: string, c: string)
    ensures prefix + a + b + c == prefix + (a + b + c)
  {
  }

  /** Atoms are never bracketed; a non-atomic operand of `&&` or `||` is bracketed exactly
      when its node class differs from the parent's; every non-atomic operand of `!` is. */
  lemma BracketingRule(parent: BooleanExpression, child: BooleanExpression)
    ensures child.IsAtom() ==> Bracketed(parent, child) == Rendered(child)
    ensures (parent.LogicalOr? || parent.LogicalAnd?) && !child.IsAtom() ==>
      (NeedsBrackets(parent, child) <==> NodeClass(child) != NodeClass(parent))
    ensures (parent.LogicalOr? || parent.LogicalAnd?) && !child.IsAtom() ==>
      (NeedsBrackets(parent, child) <==> !(parent.LogicalOr? && child.LogicalOr?) && !(parent.LogicalAnd? && child.LogicalAnd?))
    ensures parent.LogicalNot? ==> (NeedsBrackets(parent, child) <==> !child.IsAtom())
  {
  }

  /** Under `!` the brackets enclose only the `!`: `!(x == null && y == null)` renders with
      the operand outside the brackets, the same text that `(!)` in front of the
      conjunction's own rendering gives. */
  lemma NegatedConjunctionRendering(x: VariableReference, y: VariableReference)
    ensures Rendered(LogicalNot(LogicalAnd(IsNullPredicate(x, false), IsNullPredicate(y, false))))
      == "(!)" + x.descriptor.name + " == null && " + y.descriptor.name + " == null"
  {
    var a, b := IsNullPredicate(x, false), IsNullPredicate(y, false);
    assert Bracketed(LogicalAnd(a, b), a) == x.descriptor.name + " == null";
    assert Bracketed(LogicalAnd(a, b), b) == y.descriptor.name + " == null";
    assert NeedsBrackets(LogicalNot(LogicalAnd(a, b)), LogicalAnd(a, b));
  }

  // Well-bracketing of the rendered text.

  /** Reads `s` from bracket depth `depth`; `None` when a `)` has no matching `(`. */
  function Scan(s: string, depth: nat): Option<nat>
    decreases |s|
  {
    if s == [] then Some(depth)
    else if s[0] == '(' then Scan(s[1..], depth + 1)
    else if s[0] == ')' then (if depth == 0 then None else Scan(s[1..], depth - 1))
    else Scan(s[1..], depth)
  }

  predicate NoBrackets(s: string) {
    forall i :: 0 <= i < |s| ==> s[i] != '(' && s[i] != ')'
  }

  lemma {:induction false} ScanAppend(a: string, b: string, depth: nat)
    ensures Scan(a + b, depth) == if Scan(a, depth).None? then None else Scan(b, Scan(a, depth).value)
    decreases |a|
  {
    if a != [] {
      assert (a + b)[0] == a[0];
      assert (a + b)[1..] == a[1..] + b;
      if a[0] == '(' {
        ScanAppend(a[1..], b, depth + 1);
      } else if a[0] == ')' {
        if depth > 0 {
          ScanAppend(a[1..], b, depth - 1);
        }
      } else {
        ScanAppend(a[1..], b, depth);
      }
    } else {
      assert a + b == b;
    }
  }

  lemma {:induction false} ScanNoBrackets(s: string, depth: nat)
    requires NoBrackets(s)
    ensures Scan(s, depth) == Some(depth)
    decreases |s|
  {
    if s != [] {
      assert NoBrackets(s[1..]) by {
        forall i | 0 <= i < |s[1..]| ensures s[1..][i] != '(' && s[1..][i] != ')' {
          assert s[1..][i] == s[i + 1];
        }
      }
      ScanNoBrackets(s[1..], depth);
    }
  }

  /** The names a condition prints contain no brackets. */
  ghost predicate PlainNames(e: BooleanExpression) {
    match e
    case LogicalOr(l, r) => PlainNames(l) && PlainNames(r)
    case LogicalAnd(l, r) => PlainNames(l) && PlainNames(r)
    case LogicalNot(a) => PlainNames(a)
    case IsInstancePredicate(v, t, _) => NoBrackets(v.descriptor.name) && NoBrackets(t.name)
    case IsNullPredicate(v, _) => NoBrackets(v.descriptor.name)
    case BooleanConstant(c) => true
    case BooleanVariable(v) => NoBrackets(v.descriptor.name)
  }

  ghost predicate PlainEffectNames(effect: EffectDeclaration) {
    match effect
    case ConditionalEffectDeclaration(inner, condition) => PlainEffectNames(inner) && PlainNames(condition)
    case ReturnsEffectDeclaration(value) => NoBrackets(value.Name())
    case CallsEffectDeclaration(v, _) => NoBrackets(v.descriptor.name)
  }

  lemma ThreeParts(a: string, b: string, c: string, depth: nat)
    requires Scan(a, depth) == Some(depth) && Scan(b, depth) == Some(depth) && Scan(c, depth) == Some(depth)
    ensures Scan(a + b + c, depth) == Some(depth)
  {
    ScanAppend(a + b, c, depth);
    ScanAppend(a, b, depth);
  }

  /** When parameter and type names are bracket-free, the rendering of a condition is
      well-bracketed at any depth, the `(!)` of a negated compound included. */
  lemma {:induction false} RenderedWellBracketed(e: BooleanExpression, depth: nat)
    requires PlainNames(e)
    ensures Scan(Rendered(e), depth) == Some(depth)
    decreases e, 0
  {
    match e
    case LogicalOr(l, r) =>
      BracketedWellBracketed(e, l, depth);
      BracketedWellBracketed(e, r, depth);
      ScanNoBrackets(" || ", depth);
      ThreeParts(Bracketed(e, l), " || ", Bracketed(e, r), depth);
    case LogicalAnd(l, r) =>
      BracketedWellBracketed(e, l, depth);
      BracketedWellBracketed(e, r, depth);
      ScanNoBrackets(" && ", depth);
      ThreeParts(Bracketed(e, l), " && ", Bracketed(e, r), depth);
    case LogicalNot(a) =>
      RenderedWellBracketed(a, depth);
      NegationWellBracketed(e, depth);
    case IsInstancePredicate(v, t, negated) =>
      InstanceCheckWellBracketed(e, depth);
    case IsNullPredicate(v, negated) =>
      NullCheckWellBracketed(e, depth);
    case BooleanConstant(c) =>
      ScanNoBrackets(c.Name(), depth);
    case BooleanVariable(v) =>
      ScanNoBrackets(v.descriptor.name, depth);
  }

  lemma NegationWellBracketed(e: BooleanExpression, depth: nat)
    requires e.LogicalNot? && Scan(Rendered(e.arg), depth) == Some(depth)
    ensures Scan(Rendered(e), depth) == Some(depth)
  {
    var prefix := if NeedsBrackets(e, e.arg) then "(!)" else "!";
    assert Scan(prefix, depth) == Some(depth) by {
      if NeedsBrackets(e, e.arg) {
        ScanAppend("(!", ")", depth);
        assert "(!" + ")" == prefix;
      }
    }
    ScanAppend(prefix, Rendered(e.arg), depth);
  }

  lemma InstanceCheckWellBracketed(e: BooleanExpression, depth: nat)
    requires e.IsInstancePredicate? && PlainNames(e)
    ensures Scan(Rendered(e), depth) == Some(depth)
  {
    var name := e.variable.descriptor.name;
    var neg := if e.isNegated then "!" else "";
    ScanNoBrackets(name, depth);
    ScanNoBrackets(" ", depth);
    ScanNoBrackets(neg, depth);
    ScanNoBrackets("is ", depth);
    ScanNoBrackets(e.instanceType.name, depth);
    ThreeParts(name, " ", neg, depth);
    ThreeParts(name + " " + neg, "is ", e.instanceType.name, depth);
  }

  lemma NullCheckWellBracketed(e: BooleanExpression, depth: nat)
    requires e.IsNullPredicate? && PlainNames(e)
    ensures Scan(Rendered(e), depth) == Some(depth)
  {
    var name := e.variable.descriptor.name;
    var test := if e.isNegated then " != null" else " == null";
    ScanNoBrackets(name, depth);
    ScanNoBrackets(test, depth);
    ScanAppend(name, test, depth);
  }

  lemma {:induction false} BracketedWellBracketed(parent: BooleanExpression, child: BooleanExpression, depth: nat)
    requires PlainNames(child)
    ensures Scan(Bracketed(parent, child), depth) == Some(depth)
    decreases child, 1
  {
    RenderedWellBracketed(child, depth + 1);
    RenderedWellBracketed(child, depth);
    if NeedsBrackets(parent, child) {
      ScanAppend("(" + Rendered(child), ")", depth);
      ScanAppend("(", Rendered(child), depth);
    }
  }

  /** `head(body)` is well-bracketed when `head` has no brackets and `body` is. */
  lemma {:induction false} CallShapeWellBracketed(head: string, body: string, depth: nat)
    requires NoBrackets(head) && Scan(body, depth + 1) == Some(depth + 1)
    ensures Scan(head + "(" + body + ")", depth) == Some(depth)
  {
    ScanNoBrackets(head, depth);
    ScanAppend(head, "(", depth);
    ScanAppend(head + "(", body, depth);
    ScanAppend(head + "(" + body, ")", depth);
  }

  /** The fixed parts of the CallsInPlace text contain no brackets. */
  lemma CallsNameNoBrackets()
    ensures NoBrackets("CallsInPlace")
  {
  }

  lemma KindNameNoBrackets(kind: InvocationKind)
    ensures NoBrackets(", " + kind.Name())
  {
    assert NoBrackets(kind.Name()) by {
      match kind
      case AtMostOnce => assert NoBrackets("AT_MOST_ONCE");
      case ExactlyOnce => assert NoBrackets("EXACTLY_ONCE");
      case AtLeastOnce => assert NoBrackets("AT_LEAST_ONCE");
      case Unknown => assert NoBrackets("UNKNOWN");
    }
    NoBracketsAppend(", ", kind.Name());
  }

  lemma NoBracketsAppend(a: string, b: string)
    requires NoBrackets(a) && NoBrackets(b)
    ensures NoBrackets(a + b)
  {
    forall i | 0 <= i < |a + b| ensures (a + b)[i] != '(' && (a + b)[i] != ')' {
      if i < |a| {
        assert (a + b)[i] == a[i];
      } else {
        assert (a + b)[i] == b[i - |a|];
      }
    }
  }

  lemma CallsWellBracketed(name: string, kind: InvocationKind, depth: nat)
    requires NoBrackets(name)
    ensures Scan("CallsInPlace(" + name + ", " + kind.Name() + ")", depth) == Some(depth)
  {
    var tail := ", " + kind.Name();
    CallsNameNoBrackets();
    KindNameNoBrackets(kind);
    assert Scan(name + tail, depth + 1) == Some(depth + 1) by {
      ScanNoBrackets(name, depth + 1);
      ScanNoBrackets(tail, depth + 1);
      ScanAppend(name, tail, depth + 1);
    }
    CallShapeWellBracketed("CallsInPlace", name + tail, depth);
    assert "CallsInPlace(" + name + ", " + kind.Name() + ")" == "CallsInPlace" + "(" + (name + tail) + ")";
  }

  /** The same holds for whole effects: `Returns(...)`, `CallsInPlace(...)` and
      `<effect> -> <condition>` are all well-bracketed. */
  lemma {:induction false} RenderedEffectWellBracketed(effect: EffectDeclaration, depth: nat)
    requires PlainEffectNames(effect)
    ensures Scan(RenderedEffect(effect), depth) == Some(depth)
  {
    match effect
    case ConditionalEffectDeclaration(inner, condition) =>
      RenderedEffectWellBracketed(inner, depth);
      RenderedWellBracketed(condition, depth);
      ScanNoBrackets(" -> ", depth);
      ThreeParts(RenderedEffect(inner), " -> ", Rendered(condition), depth);
    case ReturnsEffectDeclaration(value) =>
      ScanNoBrackets(value.Name(), depth + 1);
      CallShapeWellBracketed("Returns", value.Name(), depth);
      assert "Returns(" + value.Name() + ")" == "Returns" + "(" + value.Name() + ")";
    case CallsEffectDeclaration(v, kind) =>
      CallsWellBracketed(v.descriptor.name, kind, depth);
  }
}
