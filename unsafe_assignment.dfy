/**
 * The no-unsafe-assignment rule: a value typed `any` must not flow into a
 * variable, property or destructuring pattern. The type checker and the
 * helpers around it are outside the model: a type is represented by the
 * answers the rule obtains about it (is it `any`, `unknown`, `any[]`, a
 * tuple, which properties it has, how it prints), and the generic
 * assignability test is a function supplied with the program.
 *
 * Reports, which the rule hands to the linter one by one, are the returned
 * sequence of reports in the order they are made.
 */
module NoUnsafeAssignment {
  import opened Wrappers

  type NodeId = nat

  /** The type checker's answers about one type. */
  datatype Ty = Ty(
    text: string,                   // how the type prints
    isAny: bool,                    // the type is `any` (the intrinsic error type included)
    isUnknown: bool,                // the type is `unknown`
    isAnyArray: bool,               // the type is `any[]` or `readonly any[]`
    isErrorType: bool,              // the type is the intrinsic error type
    tupleElements: Option<seq<Ty>>, // the element types, when the type is a tuple
    properties: seq<(string, Ty)>)  // each property's name and type, in checker order

  /** Which type an assignment is compared against. */
  datatype ComparisonType =
    | NoComparison  // do no comparison
    | Basic         // compare with the receiver's own type
    | Contextual    // compare with the contextual type of the receiver, if it has one

  datatype MessageId =
    | AnyAssignment
    | AnyAssignmentThis
    | UnsafeArrayPattern
    | UnsafeArrayPatternFromTuple
    | UnsafeArraySpread
    | UnsafeAssignment

  /** The placeholders of a message: the sender's description and, for a type mismatch, the receiver's. */
  datatype ReportData = ReportData(sender: string, receiver: Option<string>)

  datatype Report = Report(node: NodeId, messageId: MessageId, data: ReportData)

  /** What a check returns ("did it report", as the rule uses it) and the reports it made. */
  datatype Checked = Checked(didReport: bool, reports: seq<Report>)

  /** Assignment targets, reduced to what the destructuring checks look at. */
  datatype Pattern =
    | ArrayPattern(id: NodeId, elements: seq<Option<Pattern>>)  // None is a hole: `[, x]`
    | ObjectPattern(id: NodeId, properties: seq<PatternProperty>)
    | RestElement(id: NodeId)
    | OtherTarget(id: NodeId)  // an identifier, a member access, a pattern with a default, ...

  datatype PatternProperty =
    | RestProperty(id: NodeId)
    | Property(id: NodeId, computed: bool, key: PropertyKey, value: Pattern)

  datatype PropertyKey =
    | IdentifierKey(name: string)
    | LiteralKey(text: string)        // the literal's value converted to a string
    | TemplateKey(cooked: seq<string>) // the cooked text of each quasi of a template literal
    | OtherKey                        // any other expression

  /** A type annotation, present or not; its content does not matter here. */
  datatype TypeAnnotation = TypeAnnotation

  /** A generic assignability failure found by the shared helper: the offending sender and receiver types. */
  datatype UnsafePair = UnsafePair(sender: Ty, receiver: Ty)

  /** What the rule reads from the program: one compiler option and the shared assignability helper. */
  datatype Program = Program(noImplicitThis: bool, isUnsafeAssignment: (Ty, Ty) -> Option<UnsafePair>)

  /** The right-hand side: its type, and the type of the `this` it is rooted at, if any. */
  datatype Sender = Sender(id: NodeId, ty: Ty, thisType: Option<Ty>)

  /** The left-hand side: the target, its type and its contextual type, if any. */
  datatype Receiver = Receiver(target: Pattern, ty: Ty, contextualType: Option<Ty>)

  // ---------------------------------------------------------------------------
  // Messages and comparison modes

  /** The message data: with a receiver, both types printed in backticks; without, a fixed description. */
  function CreateData(sender: Ty, receiver: Option<Ty>): (d: ReportData)
    ensures receiver.Some? ==> d == ReportData("`" + sender.text + "`", Some("`" + receiver.value.text + "`"))
    ensures receiver.None? ==> d.receiver.None? && (d.sender == "error typed" <==> sender.isErrorType)
    ensures receiver.None? && !sender.isErrorType ==> d.sender == "`any`"
  {
    if receiver.Some? then
      ReportData("`" + sender.text + "`", Some("`" + receiver.value.text + "`"))
    else
      ReportData(if sender.isErrorType then "error typed" else "`any`", None)
  }

  /** A declaration with a type annotation is compared with it; one without is inferred, so equal. */
  function GetComparisonType(typeAnnotation: Option<TypeAnnotation>): (c: ComparisonType)
    ensures c == Basic <==> typeAnnotation.Some?
    ensures c == NoComparison <==> typeAnnotation.None?
  {
    if typeAnnotation.Some? then Basic else NoComparison
  }

  /** The type a sender is compared with. */
  function ReceiverType(comparison: ComparisonType, receiver: Receiver): (t: Ty)
    ensures comparison != Contextual || receiver.contextualType.None? ==> t == receiver.ty
    ensures comparison == Contextual && receiver.contextualType.Some? ==> t == receiver.contextualType.value
  {
    if comparison == Contextual && receiver.contextualType.Some? then receiver.contextualType.value
    else receiver.ty
  }

  // ---------------------------------------------------------------------------
  // Plain assignments

  /** The message for an `any` sender: the `this` variant when `this` is implicitly `any`. */
  function AnyMessage(prog: Program, sender: Sender): (m: MessageId)
    ensures m == AnyAssignmentThis <==>
              !prog.noImplicitThis && sender.thisType.Some? && sender.thisType.value.isAny
    ensures m == AnyAssignment || m == AnyAssignmentThis
  {
    if !prog.noImplicitThis && sender.thisType.Some? && sender.thisType.value.isAny then AnyAssignmentThis
    else AnyAssignment
  }

  /** Checks one assignment; it reports at most once, and returns true exactly when it reported. */
  function CheckAssignment(prog: Program, receiver: Receiver, sender: Sender, reportingNode: NodeId,
                           comparison: ComparisonType): (c: Checked)
    ensures c.didReport <==> |c.reports| == 1
    ensures |c.reports| <= 1
    ensures sender.ty.isAny && ReceiverType(comparison, receiver).isUnknown ==> c == Checked(false, [])
    ensures sender.ty.isAny && !ReceiverType(comparison, receiver).isUnknown ==>
              c.reports == [Report(reportingNode, AnyMessage(prog, sender), CreateData(sender.ty, None))]
    ensures !sender.ty.isAny && comparison == NoComparison ==> c == Checked(false, [])
    ensures !sender.ty.isAny && comparison != NoComparison ==>
              (c.didReport <==> prog.isUnsafeAssignment(sender.ty, ReceiverType(comparison, receiver)).Some?)
    ensures !sender.ty.isAny && comparison != NoComparison &&
            prog.isUnsafeAssignment(sender.ty, ReceiverType(comparison, receiver)).Some? ==>
              var pair := prog.isUnsafeAssignment(sender.ty, ReceiverType(comparison, receiver)).value;
              c.reports == [Report(reportingNode, UnsafeAssignment, CreateData(pair.sender, Some(pair.receiver)))]
    ensures forall k :: 0 <= k < |c.reports| ==> c.reports[k].node == reportingNode
    ensures forall k :: 0 <= k < |c.reports| ==>
              c.reports[k].messageId in {AnyAssignment, AnyAssignmentThis, UnsafeAssignment}
  {
    var receiverType := ReceiverType(comparison, receiver);
    if sender.ty.isAny then
      if receiverType.isUnknown then Checked(false, [])
      else Checked(true, [Report(reportingNode, AnyMessage(prog, sender), CreateData(sender.ty, None))])
    else if comparison == NoComparison then
      Checked(false, [])
    else
      match prog.isUnsafeAssignment(sender.ty, receiverType)
      case None => Checked(false, [])
      case Some(pair) =>
        Checked(true, [Report(reportingNode, UnsafeAssignment, CreateData(pair.sender, Some(pair.receiver)))])
  }

  // ---------------------------------------------------------------------------
  // Destructuring: the reference definitions

  /**
   * The lookup key of an object-pattern property: the name of a plain
   * identifier key, the string value of a literal key, the cooked text of a
   * template key with a single quasi; None for rest elements and for any
   * other computed key, which the check skips.
   */
  function KeyOf(q: PatternProperty): (key: Option<string>)
    ensures q.RestProperty? ==> key.None?
    ensures q.Property? && !q.computed ==> key.Some?
    ensures q.Property? && !q.computed && q.key.IdentifierKey? ==> key == Some(q.key.name)
    ensures q.Property? && q.key.LiteralKey? ==> key == Some(q.key.text)
    ensures q.Property? && q.computed && q.key.TemplateKey? ==>
              (key.Some? <==> |q.key.cooked| == 1) && (key.Some? ==> key.value == q.key.cooked[0])
    ensures q.Property? && q.computed && (q.key.IdentifierKey? || q.key.OtherKey?) ==> key.None?
  {
    match q
    case RestProperty(_) => None
    case Property(_, computed, key, _) =>
      if !computed then
        match key
        case IdentifierKey(name) => Some(name)
        case LiteralKey(text) => Some(text)
        case _ => Some("undefined")  // the value of a key that is not a literal
      else
        match key
        case LiteralKey(text) => Some(text)
        case TemplateKey(cooked) => if |cooked| == 1 then Some(cooked[0]) else None
        case _ => None
  }

  /** The property table built from the checker's list; a later entry of the same name wins. */
  function PropertyMap(properties: seq<(string, Ty)>): (m: map<string, Ty>)
    ensures forall name :: name in m <==> exists i :: 0 <= i < |properties| && properties[i].0 == name
  {
    if properties == [] then map[]
    else
      var n := |properties| - 1;
      var m := PropertyMap(properties[..n])[properties[n].0 := properties[n].1];
      assert forall i :: 0 <= i < n ==> properties[..n][i] == properties[i];
      m
  }

  /** When several properties share a name, the table holds the type of the last of them. */
  lemma {:induction false} PropertyMapLastEntryWins(properties: seq<(string, Ty)>, i: nat)
    requires i < |properties|
    requires forall j :: i < j < |properties| ==> properties[j].0 != properties[i].0
    ensures PropertyMap(properties)[properties[i].0] == properties[i].1
  {
    var n := |properties| - 1;
    if i < n {
      var init := properties[..n];
      assert init[i] == properties[i];
      assert forall j :: i < j < n ==> init[j] == properties[j];
      PropertyMapLastEntryWins(init, i);
    }
  }

  /** The array-pattern check against a sender type. */
  function ArrayDestructure(p: Pattern, sender: Ty): Checked
    requires p.ArrayPattern?
    decreases p, 1
  {
    if sender.isAnyArray then
      Checked(false, [Report(p.id, UnsafeArrayPattern, CreateData(sender, None))])
    else if sender.tupleElements.None? then
      Checked(true, [])
    else
      ArrayElements(p, sender.tupleElements.value, |p.elements|)
  }

  /** The state of the array-pattern loop after the first `n` elements of a tuple sender. */
  function ArrayElements(p: Pattern, tuple: seq<Ty>, n: nat): Checked
    requires p.ArrayPattern? && n <= |p.elements|
    decreases p, 0, n
  {
    if n == 0 then Checked(false, [])
    else
      var prev := ArrayElements(p, tuple, n - 1);
      var element := p.elements[n - 1];
      assert element in p.elements;
      if element.None? || element.value.RestElement? || n - 1 >= |tuple| then
        prev
      else if tuple[n - 1].isAny then
        Checked(true, prev.reports +
                      [Report(element.value.id, UnsafeArrayPatternFromTuple, CreateData(tuple[n - 1], None))])
      else if element.value.ArrayPattern? then
        var sub := ArrayDestructure(element.value, tuple[n - 1]);
        Checked(sub.didReport, prev.reports + sub.reports)
      else if element.value.ObjectPattern? then
        var sub := ObjectDestructure(element.value, tuple[n - 1]);
        Checked(sub.didReport, prev.reports + sub.reports)
      else
        prev
  }

  /** The object-pattern check against a sender type. */
  function ObjectDestructure(p: Pattern, sender: Ty): Checked
    requires p.ObjectPattern?
    decreases p, 1
  {
    ObjectProperties(p, PropertyMap(sender.properties), |p.properties|)
  }

  /** The state of the object-pattern loop after the first `n` properties. */
  function ObjectProperties(p: Pattern, table: map<string, Ty>, n: nat): Checked
    requires p.ObjectPattern? && n <= |p.properties|
    decreases p, 0, n
  {
    if n == 0 then Checked(false, [])
    else
      var prev := ObjectProperties(p, table, n - 1);
      var q := p.properties[n - 1];
      assert q in p.properties;
      var key := KeyOf(q);
      if key.None? || key.value !in table then
        prev
      else
        var t := table[key.value];
        if t.isAny then
          Checked(true, prev.reports + [Report(q.value.id, UnsafeArrayPatternFromTuple, CreateData(t, None))])
        else if q.value.ArrayPattern? then
          var sub := ArrayDestructure(q.value, t);
          Checked(sub.didReport, prev.reports + sub.reports)
        else if q.value.ObjectPattern? then
          var sub := ObjectDestructure(q.value, t);
          Checked(sub.didReport, prev.reports + sub.reports)
        else
          prev
  }

  /** The reports the destructuring checks make for a target, whatever kind of target it is. */
  function DestructureReports(target: Pattern, sender: Ty): seq<Report> {
    if target.ArrayPattern? then ArrayDestructure(target, sender).reports
    else if target.ObjectPattern? then ObjectDestructure(target, sender).reports
    else []
  }

  // ---------------------------------------------------------------------------
  // Destructuring: the loops

  method CheckArrayDestructure(p: Pattern, sender: Ty) returns (didReport: bool, reports: seq<Report>)
    requires p.ArrayPattern?
    ensures Checked(didReport, reports) == ArrayDestructure(p, sender)
    ensures sender.isAnyArray ==>
              !didReport && reports == [Report(p.id, UnsafeArrayPattern, CreateData(sender, None))]
    ensures !sender.isAnyArray && sender.tupleElements.None? ==> didReport && reports == []
    ensures !sender.isAnyArray && sender.tupleElements.Some? ==>
              var tuple := sender.tupleElements.value;
              && reports == Flatten(ElementReportsList(p, tuple, |p.elements|))
              && (didReport <==> exists i :: IsLastOutcome(p, tuple, |p.elements|, i) && ElementOutcome(p, tuple, i).value)
    decreases p, 1
  {
    if sender.isAnyArray {
      return false, [Report(p.id, UnsafeArrayPattern, CreateData(sender, None))];
    }
    if sender.tupleElements.None? {
      return true, [];
    }
    var tuple := sender.tupleElements.value;
    didReport, reports := false, [];
    var i := 0;
    while i < |p.elements|
      invariant 0 <= i <= |p.elements|
      invariant Checked(didReport, reports) == ArrayElements(p, tuple, i)
    {
      var element := p.elements[i];
      assert element in p.elements;
      if element.None? || element.value.RestElement? || i >= |tuple| {
        // a hole, a rest element, or a position past the end of the tuple
      } else if tuple[i].isAny {
        reports := reports + [Report(element.value.id, UnsafeArrayPatternFromTuple, CreateData(tuple[i], None))];
        didReport := true;
      } else if element.value.ArrayPattern? {
        var subReports;
        didReport, subReports := CheckArrayDestructure(element.value, tuple[i]);
        reports := reports + subReports;
      } else if element.value.ObjectPattern? {
        var subReports;
        didReport, subReports := CheckObjectDestructure(element.value, tuple[i]);
        reports := reports + subReports;
      }
      i := i + 1;
    }
    ArrayReportsConcatenate(p, tuple, |p.elements|);
    ArrayFlagIsLastOutcome(p, tuple, |p.elements|);
  }

  method CheckObjectDestructure(p: Pattern, sender: Ty) returns (didReport: bool, reports: seq<Report>)
    requires p.ObjectPattern?
    ensures Checked(didReport, reports) == ObjectDestructure(p, sender)
    ensures var table := PropertyMap(sender.properties);
            && reports == Flatten(PropertyReportsList(p, table, |p.properties|))
            && (didReport <==> exists i :: IsLastPropertyOutcome(p, table, |p.properties|, i) && PropertyOutcome(p, table, i).value)
    decreases p, 1
  {
    var table := PropertyMap(sender.properties);
    didReport, reports := false, [];
    var i := 0;
    while i < |p.properties|
      invariant 0 <= i <= |p.properties|
      invariant Checked(didReport, reports) == ObjectProperties(p, table, i)
    {
      var q := p.properties[i];
      assert q in p.properties;
      var key := KeyOf(q);
      if key.None? || key.value !in table {
        // a rest element, a key that cannot be named, or a property the sender lacks
      } else {
        var t := table[key.value];
        if t.isAny {
          reports := reports + [Report(q.value.id, UnsafeArrayPatternFromTuple, CreateData(t, None))];
          didReport := true;
        } else if q.value.ArrayPattern? {
          var subReports;
          didReport, subReports := CheckArrayDestructure(q.value, t);
          reports := reports + subReports;
        } else if q.value.ObjectPattern? {
          var subReports;
          didReport, subReports := CheckObjectDestructure(q.value, t);
          reports := reports + subReports;
        }
      }
      i := i + 1;
    }
    ObjectReportsConcatenate(p, table, |p.properties|);
    ObjectFlagIsLastOutcome(p, table, |p.properties|);
  }

  /** The array check on a target that may not be an array pattern. */
  method CheckArrayDestructureHelper(target: Pattern, sender: Ty) returns (didReport: bool, reports: seq<Report>)
    ensures !target.ArrayPattern? ==> !didReport && reports == []
    ensures target.ArrayPattern? ==> Checked(didReport, reports) == ArrayDestructure(target, sender)
  {
    if !target.ArrayPattern? {
      return false, [];
    }
    didReport, reports := CheckArrayDestructure(target, sender);
  }

  /** The object check on a target that may not be an object pattern. */
  method CheckObjectDestructureHelper(target: Pattern, sender: Ty) returns (didReport: bool, reports: seq<Report>)
    ensures !target.ObjectPattern? ==> !didReport && reports == []
    ensures target.ObjectPattern? ==> Checked(didReport, reports) == ObjectDestructure(target, sender)
  {
    if !target.ObjectPattern? {
      return false, [];
    }
    didReport, reports := CheckObjectDestructure(target, sender);
  }

  // ---------------------------------------------------------------------------
  // Handlers

  datatype AssignmentNode =
    | AssignmentExpression(id: NodeId, operator: string, left: Receiver, right: Sender)
    | AssignmentPattern(id: NodeId, left: Receiver, right: Sender)

  /**
   * `x = y` and default values in patterns: the plain check first, then the
   * destructuring checks, each only when nothing before it reported.
   */
  method OnAssignment(prog: Program, node: AssignmentNode) returns (reports: seq<Report>)
    ensures node.AssignmentExpression? && node.operator != "=" ==> reports == []
    ensures node.AssignmentPattern? || node.operator == "=" ==>
              var first := CheckAssignment(prog, node.left, node.right, node.id, Basic);
              reports == first.reports + (if first.didReport then [] else DestructureReports(node.left.target, node.right.ty))
  {
    if node.AssignmentExpression? && node.operator != "=" {
      return [];
    }
    reports := OnAssignmentLike(prog, node.left, node.right, node.id, Basic);
  }

  /** A variable declaration: `const x: T = y`, `let [a, b] = y`, ... */
  datatype VariableDeclarator = VariableDeclarator(
    id: NodeId, target: Receiver, typeAnnotation: Option<TypeAnnotation>, init: Option<Sender>)

  method OnVariableDeclarator(prog: Program, node: VariableDeclarator) returns (reports: seq<Report>)
    ensures node.init.None? ==> reports == []
    ensures node.init.Some? ==>
              var first := CheckAssignment(prog, node.target, node.init.value, node.id, GetComparisonType(node.typeAnnotation));
              reports == first.reports + (if first.didReport then [] else DestructureReports(node.target.target, node.init.value.ty))
  {
    if node.init.None? {
      return [];
    }
    reports := OnAssignmentLike(prog, node.target, node.init.value, node.id, GetComparisonType(node.typeAnnotation));
  }

  /**
   * The sequence shared by the two handlers above. The flag the array check
   * returns never holds back the object check that follows it: the target is
   * one kind of pattern or the other, so the reports are those of the plain
   * check followed, when it did not report, by those of the one destructuring
   * check that applies.
   */
  method OnAssignmentLike(prog: Program, receiver: Receiver, sender: Sender, reportingNode: NodeId,
                          comparison: ComparisonType) returns (reports: seq<Report>)
    ensures var first := CheckAssignment(prog, receiver, sender, reportingNode, comparison);
            reports == first.reports + (if first.didReport then [] else DestructureReports(receiver.target, sender.ty))
  {
    var first := CheckAssignment(prog, receiver, sender, reportingNode, comparison);
    var didReport := first.didReport;
    reports := first.reports;
    if !didReport {
      var more;
      didReport, more := CheckArrayDestructureHelper(receiver.target, sender.ty);
      reports := reports + more;
    }
    if !didReport {
      var _, more := CheckObjectDestructureHelper(receiver.target, sender.ty);
      reports := reports + more;
    }
  }

  /** A class property or accessor; only one with an initial value is checked. */
  datatype PropertyDefinition = PropertyDefinition(
    id: NodeId, key: Receiver, typeAnnotation: Option<TypeAnnotation>, value: Option<Sender>)

  function OnPropertyDefinition(prog: Program, node: PropertyDefinition): (reports: seq<Report>)
    ensures node.value.None? ==> reports == []
    ensures node.value.Some? ==>
              reports == CheckAssignment(prog, node.key, node.value.value, node.id, GetComparisonType(node.typeAnnotation)).reports
  {
    if node.value.None? then []
    else CheckAssignment(prog, node.key, node.value.value, node.id, GetComparisonType(node.typeAnnotation)).reports
  }

  /** What stands as the value of an object-literal property. */
  datatype PropertyValueKind = DefaultValue | EmptyBodyFunction | OtherValue

  /** A property of an object literal; properties of object patterns are checked through their assignment. */
  datatype ObjectProperty = ObjectProperty(
    id: NodeId, inObjectPattern: bool, key: Receiver, valueKind: PropertyValueKind, value: Sender)

  function OnObjectProperty(prog: Program, node: ObjectProperty): (reports: seq<Report>)
    ensures node.inObjectPattern || node.valueKind != OtherValue ==> reports == []
    ensures !node.inObjectPattern && node.valueKind == OtherValue ==>
              reports == CheckAssignment(prog, node.key, node.value, node.id, Contextual).reports
  {
    if node.inObjectPattern || node.valueKind != OtherValue then []
    else CheckAssignment(prog, node.key, node.value, node.id, Contextual).reports
  }

  /** A spread element: `[...x]` in an array literal, or a spread in a call or an object literal. */
  datatype SpreadElement = SpreadElement(id: NodeId, inArrayExpression: bool, argument: Ty)

  /** Only a spread whose parent is an array literal is checked. */
  function OnArraySpread(node: SpreadElement): (reports: seq<Report>)
    ensures reports != [] <==> node.inArrayExpression && (node.argument.isAny || node.argument.isAnyArray)
    ensures reports != [] ==> reports == [Report(node.id, UnsafeArraySpread, CreateData(node.argument, None))]
  {
    if node.inArrayExpression && (node.argument.isAny || node.argument.isAnyArray) then
      [Report(node.id, UnsafeArraySpread, CreateData(node.argument, None))]
    else []
  }

  /** The value of a JSX attribute: an expression container (maybe empty) or something else. */
  datatype JSXAttributeValue = ExpressionContainer(expression: Option<Sender>) | OtherAttributeValue

  datatype JSXAttribute = JSXAttribute(name: Receiver, value: Option<JSXAttributeValue>)

  /** A JSX attribute holding an expression is an assignment reported on that expression. */
  function OnJSXAttribute(prog: Program, node: JSXAttribute): (reports: seq<Report>)
    ensures node.value.None? || node.value.value.OtherAttributeValue? || node.value.value.expression.None? ==>
              reports == []
    ensures node.value.Some? && node.value.value.ExpressionContainer? && node.value.value.expression.Some? ==>
              var e := node.value.value.expression.value;
              reports == CheckAssignment(prog, node.name, e, e.id, Contextual).reports
  {
    if node.value.None? || node.value.value.OtherAttributeValue? || node.value.value.expression.None? then []
    else
      var e := node.value.value.expression.value;
      CheckAssignment(prog, node.name, e, e.id, Contextual).reports
  }

  // ---------------------------------------------------------------------------
  // Properties of the destructuring checks

  /** The nodes of a pattern. */
  ghost function NodesOf(p: Pattern): set<NodeId>
    decreases p, 1
  {
    match p
    case ArrayPattern(id, elements) => {id} + ElementNodes(p, |elements|)
    case ObjectPattern(id, properties) => {id} + PropertyNodes(p, |properties|)
    case RestElement(id) => {id}
    case OtherTarget(id) => {id}
  }

  ghost function ElementNodes(p: Pattern, n: nat): set<NodeId>
    requires p.ArrayPattern? && n <= |p.elements|
    decreases p, 0, n
  {
    if n == 0 then {}
    else
      var element := p.elements[n - 1];
      assert element in p.elements;
      ElementNodes(p, n - 1) + (if element.None? then {} else NodesOf(element.value))
  }

  ghost function PropertyNodes(p: Pattern, n: nat): set<NodeId>
    requires p.ObjectPattern? && n <= |p.properties|
    decreases p, 0, n
  {
    if n == 0 then {}
    else
      var q := p.properties[n - 1];
      assert q in p.properties;
      PropertyNodes(p, n - 1) + (if q.RestProperty? then {q.id} else {q.id} + NodesOf(q.value))
  }

  /** The message ids the destructuring checks use. */
  predicate IsPatternMessage(m: MessageId) {
    m == UnsafeArrayPattern || m == UnsafeArrayPatternFromTuple
  }

  ghost predicate ReportsWithin(reports: seq<Report>, nodes: set<NodeId>) {
    forall k :: 0 <= k < |reports| ==> reports[k].node in nodes && IsPatternMessage(reports[k].messageId)
  }

  /** Every report of an array-pattern check is on a node of the pattern, with a pattern message. */
  lemma {:induction false} ArrayReportsWithinPattern(p: Pattern, sender: Ty)
    requires p.ArrayPattern?
    ensures ReportsWithin(ArrayDestructure(p, sender).reports, NodesOf(p))
    decreases p, 1
  {
    if !sender.isAnyArray && sender.tupleElements.Some? {
      ArrayElementReportsWithin(p, sender.tupleElements.value, |p.elements|);
    }
  }

  lemma {:induction false} ArrayElementReportsWithin(p: Pattern, tuple: seq<Ty>, n: nat)
    requires p.ArrayPattern? && n <= |p.elements|
    ensures ReportsWithin(ArrayElements(p, tuple, n).reports, ElementNodes(p, n))
    decreases p, 0, n
  {
    if n > 0 {
      ArrayElementReportsWithin(p, tuple, n - 1);
      var element := p.elements[n - 1];
      assert element in p.elements;
      if element.None? || element.value.RestElement? || n - 1 >= |tuple| {
      } else if tuple[n - 1].isAny {
        assert element.value.id in NodesOf(element.value);
      } else if element.value.ArrayPattern? {
        ArrayReportsWithinPattern(element.value, tuple[n - 1]);
      } else if element.value.ObjectPattern? {
        ObjectReportsWithinPattern(element.value, tuple[n - 1]);
      }
    }
  }

  /** Every report of an object-pattern check is on a node of the pattern, with a pattern message. */
  lemma {:induction false} ObjectReportsWithinPattern(p: Pattern, sender: Ty)
    requires p.ObjectPattern?
    ensures ReportsWithin(ObjectDestructure(p, sender).reports, NodesOf(p))
    decreases p, 1
  {
    PropertyReportsWithin(p, PropertyMap(sender.properties), |p.properties|);
  }

  lemma {:induction false} PropertyReportsWithin(p: Pattern, table: map<string, Ty>, n: nat)
    requires p.ObjectPattern? && n <= |p.properties|
    ensures ReportsWithin(ObjectProperties(p, table, n).reports, PropertyNodes(p, n))
    decreases p, 0, n
  {
    if n > 0 {
      PropertyReportsWithin(p, table, n - 1);
      var q := p.properties[n - 1];
      assert q in p.properties;
      var key := KeyOf(q);
      if key.None? || key.value !in table {
      } else if table[key.value].isAny {
        assert q.value.id in NodesOf(q.value);
      } else if q.value.ArrayPattern? {
        ArrayReportsWithinPattern(q.value, table[key.value]);
      } else if q.value.ObjectPattern? {
        ObjectReportsWithinPattern(q.value, table[key.value]);
      }
    }
  }

  /** Processing more elements only appends reports. */
  lemma {:induction false} ArrayElementReportsGrow(p: Pattern, tuple: seq<Ty>, m: nat, n: nat)
    requires p.ArrayPattern? && m <= n <= |p.elements|
    ensures ArrayElements(p, tuple, m).reports <= ArrayElements(p, tuple, n).reports
    decreases n
  {
    if m < n {
      ArrayElementReportsGrow(p, tuple, m, n - 1);
    }
  }

  /** Each `any` position of a tuple sender is reported on its element of the pattern. */
  lemma AnyTupleElementReported(p: Pattern, tuple: seq<Ty>, i: nat)
    requires p.ArrayPattern? && i < |p.elements| && i < |tuple|
    requires p.elements[i].Some? && !p.elements[i].value.RestElement?
    requires tuple[i].isAny
    ensures Report(p.elements[i].value.id, UnsafeArrayPatternFromTuple, CreateData(tuple[i], None))
            in ArrayElements(p, tuple, |p.elements|).reports
  {
    ArrayElementReportsGrow(p, tuple, i + 1, |p.elements|);
    var r := ArrayElements(p, tuple, i + 1).reports;
    assert r[|r| - 1] == Report(p.elements[i].value.id, UnsafeArrayPatternFromTuple, CreateData(tuple[i], None));
  }

  /** Pattern elements past the end of the tuple change nothing. */
  lemma {:induction false} ElementsPastTupleIgnored(p: Pattern, tuple: seq<Ty>, n: nat)
    requires p.ArrayPattern? && |tuple| <= n <= |p.elements|
    ensures ArrayElements(p, tuple, n) == ArrayElements(p, tuple, |tuple|)
    decreases n
  {
    if n > |tuple| {
      ElementsPastTupleIgnored(p, tuple, n - 1);
    }
  }

  /**
   * The outcome of element `i` of the array loop, when it has one: an `any`
   * element reports, a nested pattern returns its own outcome; holes, rests,
   * positions past the tuple and plain targets leave the flag alone.
   */
  function ElementOutcome(p: Pattern, tuple: seq<Ty>, i: nat): Option<bool>
    requires p.ArrayPattern? && i < |p.elements|
  {
    var element := p.elements[i];
    assert element in p.elements;
    if element.None? || element.value.RestElement? || i >= |tuple| then None
    else if tuple[i].isAny then Some(true)
    else if element.value.ArrayPattern? then Some(ArrayDestructure(element.value, tuple[i]).didReport)
    else if element.value.ObjectPattern? then Some(ObjectDestructure(element.value, tuple[i]).didReport)
    else None
  }

  /** Element `i` is the last of the first `n` elements to have an outcome. */
  predicate IsLastOutcome(p: Pattern, tuple: seq<Ty>, n: nat, i: nat)
    requires p.ArrayPattern? && n <= |p.elements|
  {
    i < n && ElementOutcome(p, tuple, i).Some? &&
    forall j :: i < j < n ==> ElementOutcome(p, tuple, j).None?
  }

  /**
   * The flag the array loop returns is not "any element reported": it is the
   * outcome of the last element that has one, or false when none has.
   */
  lemma {:induction false} ArrayFlagIsLastOutcome(p: Pattern, tuple: seq<Ty>, n: nat)
    requires p.ArrayPattern? && n <= |p.elements|
    ensures ArrayElements(p, tuple, n).didReport <==>
            exists i :: IsLastOutcome(p, tuple, n, i) && ElementOutcome(p, tuple, i).value
    decreases n
  {
    if n > 0 {
      ArrayFlagIsLastOutcome(p, tuple, n - 1);
      var o := ElementOutcome(p, tuple, n - 1);
      if o.Some? {
        assert IsLastOutcome(p, tuple, n, n - 1);
        // no earlier element can be the last one with an outcome: element n - 1 has one
        forall i: nat | i < n - 1
          ensures !IsLastOutcome(p, tuple, n, i)
        {
          assert ElementOutcome(p, tuple, n - 1).Some?;
        }
      } else {
        forall i: nat | i < n - 1
          ensures IsLastOutcome(p, tuple, n, i) <==> IsLastOutcome(p, tuple, n - 1, i)
        {
        }
      }
    }
  }

  /** The reports of each part, one after another. */
  function Flatten<T>(parts: seq<seq<T>>): (r: seq<T>)
    ensures parts == [] ==> r == []
  {
    if parts == [] then [] else parts[0] + Flatten(parts[1..])
  }

  lemma {:induction false} FlattenAppend<T>(parts: seq<seq<T>>, last: seq<T>)
    ensures Flatten(parts + [last]) == Flatten(parts) + last
  {
    if parts != [] {
      assert (parts + [last])[1..] == parts[1..] + [last];
      FlattenAppend(parts[1..], last);
    }
  }

  /**
   * What element `i` of an array pattern adds to the reports: one report for
   * an `any` position, the nested check's reports for a nested pattern, and
   * nothing for a hole, a rest element, a position past the tuple or a plain
   * target of another type.
   */
  function ElementReports(p: Pattern, tuple: seq<Ty>, i: nat): seq<Report>
    requires p.ArrayPattern? && i < |p.elements|
  {
    var element := p.elements[i];
    assert element in p.elements;
    if element.None? || element.value.RestElement? || i >= |tuple| then []
    else if tuple[i].isAny then [Report(element.value.id, UnsafeArrayPatternFromTuple, CreateData(tuple[i], None))]
    else if element.value.ArrayPattern? then ArrayDestructure(element.value, tuple[i]).reports
    else if element.value.ObjectPattern? then ObjectDestructure(element.value, tuple[i]).reports
    else []
  }

  /** The contributions of the first `n` elements, in pattern order. */
  function ElementReportsList(p: Pattern, tuple: seq<Ty>, n: nat): (parts: seq<seq<Report>>)
    requires p.ArrayPattern? && n <= |p.elements|
    ensures |parts| == n
    ensures forall i :: 0 <= i < n ==> parts[i] == ElementReports(p, tuple, i)
  {
    seq(n, i requires 0 <= i < n => ElementReports(p, tuple, i))
  }

  /** The array loop's reports are the contributions of its elements, in order and each once. */
  lemma {:induction false} ArrayReportsConcatenate(p: Pattern, tuple: seq<Ty>, n: nat)
    requires p.ArrayPattern? && n <= |p.elements|
    ensures ArrayElements(p, tuple, n).reports == Flatten(ElementReportsList(p, tuple, n))
    decreases n
  {
    if n > 0 {
      ArrayReportsConcatenate(p, tuple, n - 1);
      var parts := ElementReportsList(p, tuple, n);
      assert parts == ElementReportsList(p, tuple, n - 1) + [ElementReports(p, tuple, n - 1)];
      FlattenAppend(ElementReportsList(p, tuple, n - 1), ElementReports(p, tuple, n - 1));
    }
  }

  /** The array check on a tuple sender reports exactly its elements' contributions. */
  lemma ArrayDestructureReports(p: Pattern, sender: Ty)
    requires p.ArrayPattern? && !sender.isAnyArray && sender.tupleElements.Some?
    ensures ArrayDestructure(p, sender).reports ==
            Flatten(ElementReportsList(p, sender.tupleElements.value, |p.elements|))
  {
    ArrayReportsConcatenate(p, sender.tupleElements.value, |p.elements|);
  }

  /** Elements without an outcome (holes, rests, positions past the tuple, plain targets) change nothing. */
  lemma {:induction false} SkippedElementsChangeNothing(p: Pattern, tuple: seq<Ty>, m: nat, n: nat)
    requires p.ArrayPattern? && m <= n <= |p.elements|
    requires forall j :: m <= j < n ==> ElementOutcome(p, tuple, j).None?
    ensures ArrayElements(p, tuple, n) == ArrayElements(p, tuple, m)
    decreases n
  {
    if m < n {
      assert ElementOutcome(p, tuple, n - 1).None?;
      SkippedElementsChangeNothing(p, tuple, m, n - 1);
    }
  }

  /**
   * What property `i` of an object pattern adds to the reports: one report on
   * its value when the sender's property of that name is `any`, the nested
   * check's reports for a nested pattern, and nothing for a rest element, a
   * key that cannot be named, a key the sender lacks or a plain target of
   * another type.
   */
  function PropertyReports(p: Pattern, table: map<string, Ty>, i: nat): seq<Report>
    requires p.ObjectPattern? && i < |p.properties|
  {
    var q := p.properties[i];
    assert q in p.properties;
    var key := KeyOf(q);
    if key.None? || key.value !in table then []
    else if table[key.value].isAny then [Report(q.value.id, UnsafeArrayPatternFromTuple, CreateData(table[key.value], None))]
    else if q.value.ArrayPattern? then ArrayDestructure(q.value, table[key.value]).reports
    else if q.value.ObjectPattern? then ObjectDestructure(q.value, table[key.value]).reports
    else []
  }

  /** The contributions of the first `n` properties, in pattern order. */
  function PropertyReportsList(p: Pattern, table: map<string, Ty>, n: nat): (parts: seq<seq<Report>>)
    requires p.ObjectPattern? && n <= |p.properties|
    ensures |parts| == n
    ensures forall i :: 0 <= i < n ==> parts[i] == PropertyReports(p, table, i)
  {
    seq(n, i requires 0 <= i < n => PropertyReports(p, table, i))
  }

  /** The object loop's reports are the contributions of its properties, in order and each once. */
  lemma {:induction false} ObjectReportsConcatenate(p: Pattern, table: map<string, Ty>, n: nat)
    requires p.ObjectPattern? && n <= |p.properties|
    ensures ObjectProperties(p, table, n).reports == Flatten(PropertyReportsList(p, table, n))
    decreases n
  {
    if n > 0 {
      ObjectReportsConcatenate(p, table, n - 1);
      var parts := PropertyReportsList(p, table, n);
      assert parts == PropertyReportsList(p, table, n - 1) + [PropertyReports(p, table, n - 1)];
      FlattenAppend(PropertyReportsList(p, table, n - 1), PropertyReports(p, table, n - 1));
    }
  }

  /** The object check reports exactly its properties' contributions against the sender's property table. */
  lemma ObjectDestructureReports(p: Pattern, sender: Ty)
    requires p.ObjectPattern?
    ensures ObjectDestructure(p, sender).reports ==
            Flatten(PropertyReportsList(p, PropertyMap(sender.properties), |p.properties|))
  {
    ObjectReportsConcatenate(p, PropertyMap(sender.properties), |p.properties|);
  }

  /** Processing more properties only appends reports. */
  lemma {:induction false} ObjectPropertyReportsGrow(p: Pattern, table: map<string, Ty>, m: nat, n: nat)
    requires p.ObjectPattern? && m <= n <= |p.properties|
    ensures ObjectProperties(p, table, m).reports <= ObjectProperties(p, table, n).reports
    decreases n
  {
    if m < n {
      ObjectPropertyReportsGrow(p, table, m, n - 1);
    }
  }

  /** A property whose name the sender has with type `any` is reported on the property's value. */
  lemma AnyPropertyReported(p: Pattern, sender: Ty, i: nat)
    requires p.ObjectPattern? && i < |p.properties|
    requires KeyOf(p.properties[i]).Some?
    requires KeyOf(p.properties[i]).value in PropertyMap(sender.properties)
    requires PropertyMap(sender.properties)[KeyOf(p.properties[i]).value].isAny
    ensures Report(p.properties[i].value.id, UnsafeArrayPatternFromTuple,
                   CreateData(PropertyMap(sender.properties)[KeyOf(p.properties[i]).value], None))
            in ObjectDestructure(p, sender).reports
  {
    var table := PropertyMap(sender.properties);
    ObjectPropertyReportsGrow(p, table, i + 1, |p.properties|);
    var r := ObjectProperties(p, table, i + 1).reports;
    assert r[|r| - 1] == Report(p.properties[i].value.id, UnsafeArrayPatternFromTuple,
                                CreateData(table[KeyOf(p.properties[i]).value], None));
  }

  /** The outcome of property `i` of the object loop, when it has one. */
  function PropertyOutcome(p: Pattern, table: map<string, Ty>, i: nat): Option<bool>
    requires p.ObjectPattern? && i < |p.properties|
  {
    var q := p.properties[i];
    assert q in p.properties;
    var key := KeyOf(q);
    if key.None? || key.value !in table then None
    else if table[key.value].isAny then Some(true)
    else if q.value.ArrayPattern? then Some(ArrayDestructure(q.value, table[key.value]).didReport)
    else if q.value.ObjectPattern? then Some(ObjectDestructure(q.value, table[key.value]).didReport)
    else None
  }

  /** Property `i` is the last of the first `n` properties to have an outcome. */
  predicate IsLastPropertyOutcome(p: Pattern, table: map<string, Ty>, n: nat, i: nat)
    requires p.ObjectPattern? && n <= |p.properties|
  {
    i < n && PropertyOutcome(p, table, i).Some? &&
    forall j :: i < j < n ==> PropertyOutcome(p, table, j).None?
  }

  /** As for arrays, the object loop's flag is the outcome of the last property that has one. */
  lemma {:induction false} ObjectFlagIsLastOutcome(p: Pattern, table: map<string, Ty>, n: nat)
    requires p.ObjectPattern? && n <= |p.properties|
    ensures ObjectProperties(p, table, n).didReport <==>
            exists i :: IsLastPropertyOutcome(p, table, n, i) && PropertyOutcome(p, table, i).value
    decreases n
  {
    if n > 0 {
      ObjectFlagIsLastOutcome(p, table, n - 1);
      var o := PropertyOutcome(p, table, n - 1);
      if o.Some? {
        assert IsLastPropertyOutcome(p, table, n, n - 1);
        forall i: nat | i < n - 1
          ensures !IsLastPropertyOutcome(p, table, n, i)
        {
          assert PropertyOutcome(p, table, n - 1).Some?;
        }
      } else {
        forall i: nat | i < n - 1
          ensures IsLastPropertyOutcome(p, table, n, i) <==> IsLastPropertyOutcome(p, table, n - 1, i)
        {
        }
      }
    }
  }

  /** Properties without an outcome (rests, unnamed or missing keys, plain targets) change nothing. */
  lemma {:induction false} SkippedPropertiesChangeNothing(p: Pattern, table: map<string, Ty>, m: nat, n: nat)
    requires p.ObjectPattern? && m <= n <= |p.properties|
    requires forall j :: m <= j < n ==> PropertyOutcome(p, table, j).None?
    ensures ObjectProperties(p, table, n) == ObjectProperties(p, table, m)
    decreases n
  {
    if m < n {
      assert PropertyOutcome(p, table, n - 1).None?;
      SkippedPropertiesChangeNothing(p, table, m, n - 1);
    }
  }

  /**
   * An example of the overwrite: in `const [a, [b]] = [anyValue, [1]]` the
   * first element is reported, and the nested pattern's false then replaces
   * the flag, so the check returns false although it reported.
   */
  lemma ReportThenOverwritten()
    ensures var num := Ty("number", false, false, false, false, None, []);
            var anyTy := Ty("any", true, false, false, false, None, []);
            var inner := Ty("[number]", false, false, false, false, Some([num]), []);
            var outer := Ty("[any, [number]]", false, false, false, false, Some([anyTy, inner]), []);
            var pattern := ArrayPattern(0, [Some(OtherTarget(1)), Some(ArrayPattern(2, [Some(OtherTarget(3))]))]);
            ArrayDestructure(pattern, outer) ==
              Checked(false, [Report(1, UnsafeArrayPatternFromTuple, ReportData("`any`", None))])
  {
    var num := Ty("number", false, false, false, false, None, []);
    var anyTy := Ty("any", true, false, false, false, None, []);
    var inner := Ty("[number]", false, false, false, false, Some([num]), []);
    var outer := Ty("[any, [number]]", false, false, false, false, Some([anyTy, inner]), []);
    var nested := ArrayPattern(2, [Some(OtherTarget(3))]);
    var pattern := ArrayPattern(0, [Some(OtherTarget(1)), Some(nested)]);
    assert ArrayElements(nested, [num], 1) == Checked(false, []);
    assert ArrayDestructure(nested, inner) == Checked(false, []);
    assert ArrayElements(pattern, [anyTy, inner], 1) ==
           Checked(true, [Report(1, UnsafeArrayPatternFromTuple, ReportData("`any`", None))]);
  }
}
