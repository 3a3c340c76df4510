/**
 * The TypeScript extension of the no-unused-expressions rule. Before an
 * expression statement reaches the base rule, this wrapper drops
 * non-empty directives and expressions it considers used (an optional call, a
 * dynamic import, and, when the options allow it, short-circuit and
 * conditional expressions built from those), and strips one TypeScript-only
 * wrapper (`as`, `!`, `<T>x`, `f<T>`) so the base rule sees the expression
 * underneath.
 */
module NoUnusedExpressions {
  import opened Wrappers

  /** The options this wrapper reads; the base rule reads the rest. */
  datatype Options = Options(allowShortCircuit: bool, allowTernary: bool)

  /** The options as configured: a missing entry is undefined. */
  datatype RawOptions = RawOptions(
    allowShortCircuit: Option<bool>,
    allowTaggedTemplates: Option<bool>,
    allowTernary: Option<bool>)

  /** The rule's declared defaults: every option off. */
  const DefaultOptions := RawOptions(Some(false), Some(false), Some(false))

  /** The TypeScript expressions that only add type information around another expression. */
  datatype WrapperKind = TSInstantiationExpression | TSAsExpression | TSNonNullExpression | TSTypeAssertion

  /** Expressions, reduced to the kinds this wrapper distinguishes. */
  datatype Expr =
    | LogicalExpression(left: Expr, right: Expr)
    | ConditionalExpression(test: Expr, consequent: Expr, alternate: Expr)
    | ChainExpression(expression: Expr)
    | CallExpression(callee: Expr)
    | ImportExpression
    | TSWrapper(kind: WrapperKind, expression: Expr)
    | OtherExpression  // identifiers, literals, member accesses, assignments, ...

  /** `directive` is the directive text of a prologue string, absent elsewhere. */
  datatype ExpressionStatement = ExpressionStatement(directive: Option<string>, expression: Expr)

  /** What happens to a statement: nothing, or the base rule is run on the given statement. */
  datatype Decision = Skip | Delegate(statement: ExpressionStatement)

  /** Destructuring the options with `= false` fallbacks: only a configured `true` enables an option. */
  function ResolveOptions(raw: RawOptions): (o: Options)
    ensures o.allowShortCircuit <==> raw.allowShortCircuit == Some(true)
    ensures o.allowTernary <==> raw.allowTernary == Some(true)
  {
    Options(raw.allowShortCircuit.Some? && raw.allowShortCircuit.value,
            raw.allowTernary.Some? && raw.allowTernary.value)
  }

  /** Both options are off by default, whether given as the defaults or left out. */
  lemma DefaultsAreOff()
    ensures ResolveOptions(DefaultOptions) == Options(false, false)
    ensures ResolveOptions(RawOptions(None, None, None)) == Options(false, false)
  {
  }

  /** An expression that is used on its own: an optional-chain call or a dynamic import. */
  predicate IsEffectful(e: Expr) {
    (e.ChainExpression? && e.expression.CallExpression?) || e.ImportExpression?
  }

  /**
   * Whether an expression statement is used: an optional call or a dynamic
   * import, or, when allowed, a short circuit whose right operand is valid or
   * a conditional whose branches both are.
   */
  function IsValidExpression(o: Options, e: Expr): (r: bool)
    ensures IsEffectful(e) ==> r
    ensures !o.allowShortCircuit && !o.allowTernary ==> (r <==> IsEffectful(e))
    ensures !e.LogicalExpression? && !e.ConditionalExpression? ==> (r <==> IsEffectful(e))
  {
    if o.allowShortCircuit && e.LogicalExpression? then
      IsValidExpression(o, e.right)
    else if o.allowTernary && e.ConditionalExpression? then
      IsValidExpression(o, e.alternate) && IsValidExpression(o, e.consequent)
    else
      IsEffectful(e)
  }

  /**
   * The expressions a statement's value can come from, looking through the
   * right operand of a logical expression and both branches of a conditional
   * expression when the options allow it.
   */
  ghost function Outcomes(o: Options, e: Expr): set<Expr> {
    if o.allowShortCircuit && e.LogicalExpression? then
      Outcomes(o, e.right)
    else if o.allowTernary && e.ConditionalExpression? then
      Outcomes(o, e.consequent) + Outcomes(o, e.alternate)
    else
      {e}
  }

  /** An expression is valid exactly when every expression its value can come from is effectful. */
  lemma {:induction false} ValidIffAllOutcomesEffectful(o: Options, e: Expr)
    ensures IsValidExpression(o, e) <==> forall x :: x in Outcomes(o, e) ==> IsEffectful(x)
  {
    if o.allowShortCircuit && e.LogicalExpression? {
      ValidIffAllOutcomesEffectful(o, e.right);
    } else if o.allowTernary && e.ConditionalExpression? {
      ValidIffAllOutcomesEffectful(o, e.consequent);
      ValidIffAllOutcomesEffectful(o, e.alternate);
    }
  }

  /** With short circuits allowed, a logical expression is valid exactly when its right operand is. */
  lemma ShortCircuit(o: Options, left: Expr, right: Expr)
    ensures IsValidExpression(o, LogicalExpression(left, right)) <==>
            o.allowShortCircuit && IsValidExpression(o, right)
  {
  }

  /** With ternaries allowed, a conditional is valid exactly when both branches are. */
  lemma Ternary(o: Options, test: Expr, consequent: Expr, alternate: Expr)
    ensures IsValidExpression(o, ConditionalExpression(test, consequent, alternate)) <==>
            o.allowTernary && IsValidExpression(o, consequent) && IsValidExpression(o, alternate)
  {
  }

  /** With both options off, only effectful expressions are valid. */
  lemma DefaultsAcceptOnlyEffectful(e: Expr)
    ensures IsValidExpression(ResolveOptions(DefaultOptions), e) <==> IsEffectful(e)
  {
  }

  /** `weaker`'s options are all enabled in `stronger`. */
  predicate AllowsAtLeast(stronger: Options, weaker: Options) {
    (weaker.allowShortCircuit ==> stronger.allowShortCircuit) && (weaker.allowTernary ==> stronger.allowTernary)
  }

  /** Enabling an option never makes a valid expression invalid. */
  lemma {:induction false} OptionsMonotone(weaker: Options, stronger: Options, e: Expr)
    requires AllowsAtLeast(stronger, weaker)
    requires IsValidExpression(weaker, e)
    ensures IsValidExpression(stronger, e)
  {
    if weaker.allowShortCircuit && e.LogicalExpression? {
      OptionsMonotone(weaker, stronger, e.right);
    } else if weaker.allowTernary && e.ConditionalExpression? {
      OptionsMonotone(weaker, stronger, e.alternate);
      OptionsMonotone(weaker, stronger, e.consequent);
    }
  }

  /** Strips exactly one TypeScript wrapper; other expressions are left as they are. */
  function Unwrap(e: Expr): (r: Expr)
    ensures e.TSWrapper? ==> r == e.expression
    ensures !e.TSWrapper? ==> r == e
  {
    if e.TSWrapper? then e.expression else e
  }

  /** Only one layer goes: a wrapper inside a wrapper reaches the base rule still wrapped. */
  lemma UnwrapIsOneLevel(outer: WrapperKind, inner: WrapperKind, e: Expr)
    ensures Unwrap(TSWrapper(outer, TSWrapper(inner, e))) == TSWrapper(inner, e)
  {
  }

  /** The handler for expression statements. */
  function OnExpressionStatement(o: Options, s: ExpressionStatement): (d: Decision)
    ensures d.Skip? <==> (s.directive.Some? && s.directive.value != "") || IsValidExpression(o, s.expression)
    ensures d.Delegate? ==> d.statement.directive == s.directive
    ensures d.Delegate? ==> d.statement.expression == Unwrap(s.expression)
  {
    if (s.directive.Some? && s.directive.value != "") || IsValidExpression(o, s.expression) then
      Skip
    else if s.expression.TSWrapper? then
      Delegate(s.(expression := s.expression.expression))
    else
      Delegate(s)
  }

  /**
   * A non-empty directive or a valid expression never reaches the base rule;
   * anything else, an empty directive `"";` included, reaches it once.
   */
  lemma DelegatesOnlyUnused(o: Options, s: ExpressionStatement)
    requires !IsValidExpression(o, s.expression)
    requires s.directive.None? || s.directive.value == ""
    ensures OnExpressionStatement(o, s).Delegate?
    ensures !s.expression.TSWrapper? ==> OnExpressionStatement(o, s) == Delegate(s)
  {
  }
}
