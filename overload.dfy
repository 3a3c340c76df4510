/**
 * The adjacent-overload-signatures rule: in one body (a block, a class body,
 * a program, an interface body, a module block or a type literal), every
 * overload of a method must directly follow the previous overload of the
 * same method. One left-to-right pass remembers the method of the previous
 * member and the distinct methods seen so far, and reports a member whose
 * method was seen before but does not continue the run just before it.
 */
module AdjacentOverloadSignatures {
  import opened Wrappers

  /** How a member's name was written, as the name helper classifies it. */
  datatype MemberNameType = Private | Quoted | Normal | Expression

  /**
   * The identity of an overload set. `isStatic` is absent for functions and
   * signatures and present (true or false) for class methods and method
   * signatures, so a non-static method never equals a function of that name.
   */
  datatype Method = Method(name: string, isStatic: Option<bool>, callSignature: bool, nameType: MemberNameType)

  /** The name the name helper derives from a method's key. */
  datatype MemberName = MemberName(name: string, nameType: MemberNameType)

  /** The members of a body, reduced to what the rule looks at. */
  datatype Member =
    | ExportDeclaration(declaration: Option<Member>)      // `export default …` / `export …`; absent for `export { a };`
    | FunctionDeclaration(id: Option<string>)             // a function or `declare function`, possibly unnamed
    | MethodMember(memberName: MemberName, isStatic: bool) // a class method or a method signature
    | CallSignature
    | ConstructSignature
    | OtherMember

  datatype RuleNodeKind = BlockStatement | ClassBody | Program | TSInterfaceBody | TSModuleBlock

  /** A node whose members are checked; type literals keep theirs under another field. */
  datatype RuleNode = Body(kind: RuleNodeKind, body: seq<Member>) | TSTypeLiteral(members: seq<Member>)

  /** One report: the position of the offending member in its body and the name shown. */
  datatype Report = Report(member: nat, name: string)

  /** The method a member belongs to, or None for members the rule ignores. */
  function GetMemberMethod(member: Member): (r: Option<Method>)
    ensures member.ExportDeclaration? && member.declaration.None? ==> r.None?
    ensures member.ExportDeclaration? && member.declaration.Some? ==> r == GetMemberMethod(member.declaration.value)
    ensures member.FunctionDeclaration? ==>
              (r.None? <==> member.id.None?) &&
              (r.Some? ==> r.value == Method(member.id.value, None, false, Normal))
    ensures member.MethodMember? ==>
              r == Some(Method(member.memberName.name, Some(member.isStatic), false, member.memberName.nameType))
    ensures member.CallSignature? ==> r == Some(Method("call", None, true, Normal))
    ensures member.ConstructSignature? ==> r == Some(Method("new", None, false, Normal))
    ensures member.OtherMember? ==> r.None?
    ensures r.Some? && r.value.callSignature ==> r.value.name == "call" && r.value.isStatic.None?
  {
    match member
    case ExportDeclaration(declaration) =>
      if declaration.None? then None else GetMemberMethod(declaration.value)
    case FunctionDeclaration(id) =>
      if id.None? then None else Some(Method(id.value, None, false, Normal))
    case MethodMember(memberName, isStatic) =>
      Some(Method(memberName.name, Some(isStatic), false, memberName.nameType))
    case CallSignature => Some(Method("call", None, true, Normal))
    case ConstructSignature => Some(Method("new", None, false, Normal))
    case OtherMember => None
  }

  /** `member` under `depth` layers of export statements. */
  function Exported(member: Member, depth: nat): Member {
    if depth == 0 then member else ExportDeclaration(Some(Exported(member, depth - 1)))
  }

  /** Exporting a declaration, however many times, does not change its method. */
  lemma {:induction false} ExportIsTransparent(member: Member, depth: nat)
    ensures GetMemberMethod(Exported(member, depth)) == GetMemberMethod(member)
  {
    if depth > 0 {
      ExportIsTransparent(member, depth - 1);
    }
  }

  /** Only class methods and method signatures carry a static flag, exported or not. */
  lemma StaticOnlyOnMethods(member: Member, depth: nat)
    requires !member.ExportDeclaration?
    requires GetMemberMethod(Exported(member, depth)).Some?
    ensures GetMemberMethod(Exported(member, depth)).value.isStatic.Some? <==> member.MethodMember?
  {
    ExportIsTransparent(member, depth);
  }

  /** Field-by-field comparison of two methods; nothing equals a missing method. */
  function IsSameMethod(method1: Method, method2: Option<Method>): (r: bool)
    ensures r <==> method2 == Some(method1)
  {
    && method2.Some?
    && method1.name == method2.value.name
    && method1.isStatic == method2.value.isStatic
    && method1.callSignature == method2.value.callSignature
    && method1.nameType == method2.value.nameType
  }

  /** On present methods, the comparison is an equivalence. */
  lemma SameMethodIsEquivalence(a: Method, b: Method, c: Method)
    ensures IsSameMethod(a, Some(a))
    ensures IsSameMethod(a, Some(b)) <==> IsSameMethod(b, Some(a))
    ensures IsSameMethod(a, Some(b)) && IsSameMethod(b, Some(c)) ==> IsSameMethod(a, Some(c))
    ensures !IsSameMethod(a, None)
  {
  }

  /** The name shown in a report: static methods are prefixed with "static ". */
  function Label(m: Method): (r: string)
    ensures r == "static " + m.name <==> m.isStatic == Some(true)
    ensures m.isStatic != Some(true) ==> r == m.name
  {
    if m.isStatic == Some(true) then "static " + m.name else m.name
  }

  /** The members of a node: `body` for every body kind, `members` for a type literal. */
  function GetMembers(node: RuleNode): (members: seq<Member>)
    ensures node.Body? ==> members == node.body
    ensures node.TSTypeLiteral? ==> members == node.members
  {
    match node
    case Body(_, body) => body
    case TSTypeLiteral(members) => members
  }

  /** The position of the first method in `seen` equal to `m`, or -1. */
  function FindIndex(seen: seq<Method>, m: Method): (k: int)
    ensures -1 <= k < |seen|
    ensures k == -1 <==> m !in seen
    ensures k >= 0 ==> seen[k] == m && m !in seen[..k]
  {
    if seen == [] then -1
    else if IsSameMethod(m, Some(seen[0])) then 0
    else
      var k := FindIndex(seen[1..], m);
      assert k >= 0 ==> seen[1..][..k] == seen[1..k + 1];
      if k == -1 then -1 else k + 1
  }

  // ---------------------------------------------------------------------------
  // The reference definition of what the pass reports, stated per member.

  /** Member `i`'s method occurs at some earlier member. */
  ghost predicate SeenBefore(members: seq<Member>, i: nat)
    requires i < |members|
  {
    exists j :: 0 <= j < i && GetMemberMethod(members[j]) == GetMemberMethod(members[i])
  }

  /** Member `i` directly follows a member of the same method. */
  predicate ContinuesRun(members: seq<Member>, i: nat)
    requires i < |members|
  {
    i > 0 && GetMemberMethod(members[i - 1]) == GetMemberMethod(members[i])
  }

  /** Member `i` is reported: it belongs to a method seen before but does not continue its run. */
  ghost predicate IsReported(members: seq<Member>, i: nat)
    requires i < |members|
  {
    GetMemberMethod(members[i]).Some? && SeenBefore(members, i) && !ContinuesRun(members, i)
  }

  /** The reports for the first `n` members, in member order. */
  ghost function ReportsUpTo(members: seq<Member>, n: nat): seq<Report>
    requires n <= |members|
  {
    if n == 0 then []
    else
      ReportsUpTo(members, n - 1) +
      (if IsReported(members, n - 1) then [Report(n - 1, Label(GetMemberMethod(members[n - 1]).value))] else [])
  }

  /** The distinct methods of the first `n` members, in order of first occurrence. */
  ghost function FirstOccurrences(members: seq<Member>, n: nat): seq<Method>
    requires n <= |members|
  {
    if n == 0 then []
    else
      var seen := FirstOccurrences(members, n - 1);
      var m := GetMemberMethod(members[n - 1]);
      if m.Some? && m.value !in seen then seen + [m.value] else seen
  }

  ghost predicate NoDuplicates(s: seq<Method>) {
    forall i, j :: 0 <= i < j < |s| ==> s[i] != s[j]
  }

  /**
   * The distinct-methods list holds exactly the methods of the earlier
   * members, each once, and grows only when a member brings a new method.
   */
  lemma {:induction false} FirstOccurrencesAreTheSeenMethods(members: seq<Member>, n: nat)
    requires n <= |members|
    ensures NoDuplicates(FirstOccurrences(members, n))
    ensures forall m :: m in FirstOccurrences(members, n) <==>
                        exists j :: 0 <= j < n && GetMemberMethod(members[j]) == Some(m)
    ensures n > 0 ==> |FirstOccurrences(members, n)| ==
                        |FirstOccurrences(members, n - 1)| +
                        (if GetMemberMethod(members[n - 1]).Some? && !SeenBefore(members, n - 1) then 1 else 0)
  {
    if n > 0 {
      FirstOccurrencesAreTheSeenMethods(members, n - 1);
      var m := GetMemberMethod(members[n - 1]);
      if m.Some? && SeenBefore(members, n - 1) {
        var j :| 0 <= j < n - 1 && GetMemberMethod(members[j]) == m;
        assert m.value in FirstOccurrences(members, n - 1);
      }
    }
  }

  /** Each report names a reported member before `n`, with the label of its method. */
  lemma {:induction false} ReportsAreReportedMembers(members: seq<Member>, n: nat)
    requires n <= |members|
    ensures forall k :: 0 <= k < |ReportsUpTo(members, n)| ==>
              var rep := ReportsUpTo(members, n)[k];
              rep.member < n && IsReported(members, rep.member) &&
              rep.name == Label(GetMemberMethod(members[rep.member]).value)
  {
    if n > 0 {
      ReportsAreReportedMembers(members, n - 1);
      var prev := ReportsUpTo(members, n - 1);
      assert ReportsUpTo(members, n)[..|prev|] == prev;
    }
  }

  /** The reports come in strictly increasing member order. */
  lemma {:induction false} ReportsInMemberOrder(members: seq<Member>, n: nat)
    requires n <= |members|
    ensures forall k, l :: 0 <= k < l < |ReportsUpTo(members, n)| ==>
              ReportsUpTo(members, n)[k].member < ReportsUpTo(members, n)[l].member
  {
    if n > 0 {
      ReportsInMemberOrder(members, n - 1);
      ReportsAreReportedMembers(members, n - 1);
      var prev := ReportsUpTo(members, n - 1);
      assert ReportsUpTo(members, n)[..|prev|] == prev;
    }
  }

  /** Some report is for member `i`. */
  ghost predicate HasReport(reports: seq<Report>, i: nat) {
    exists k :: 0 <= k < |reports| && reports[k].member == i
  }

  /** Every reported member before `n` has a report. */
  lemma {:induction false} ReportedMembersHaveReports(members: seq<Member>, n: nat)
    requires n <= |members|
    ensures forall i :: 0 <= i < n && IsReported(members, i) ==> HasReport(ReportsUpTo(members, n), i)
  {
    if n > 0 {
      ReportedMembersHaveReports(members, n - 1);
      var prev := ReportsUpTo(members, n - 1);
      var cur := ReportsUpTo(members, n);
      assert cur[..|prev|] == prev;
      forall i | 0 <= i < n && IsReported(members, i)
        ensures HasReport(cur, i)
      {
        if i < n - 1 {
          var k :| 0 <= k < |prev| && prev[k].member == i;
          assert cur[k] == prev[k];
        } else {
          assert cur[|prev|].member == i;
        }
      }
    }
  }

  /**
   * Every report names a reported member and the label of its method, the
   * reports come in member order (so no member is reported twice), and every
   * reported member has its report.
   */
  lemma ReportsUpToCharacterized(members: seq<Member>, n: nat)
    requires n <= |members|
    ensures forall k :: 0 <= k < |ReportsUpTo(members, n)| ==>
              var rep := ReportsUpTo(members, n)[k];
              rep.member < n && IsReported(members, rep.member) &&
              rep.name == Label(GetMemberMethod(members[rep.member]).value)
    ensures forall k, l :: 0 <= k < l < |ReportsUpTo(members, n)| ==>
              ReportsUpTo(members, n)[k].member < ReportsUpTo(members, n)[l].member
    ensures forall i :: 0 <= i < n && IsReported(members, i) ==>
              exists k :: 0 <= k < |ReportsUpTo(members, n)| && ReportsUpTo(members, n)[k].member == i
  {
    ReportsAreReportedMembers(members, n);
    ReportsInMemberOrder(members, n);
    ReportedMembersHaveReports(members, n);
  }

  /** The first member of each method is never reported. */
  lemma FirstOccurrenceNotReported(members: seq<Member>, i: nat)
    requires i < |members|
    requires forall j :: 0 <= j < i ==> GetMemberMethod(members[j]) != GetMemberMethod(members[i])
    ensures !IsReported(members, i)
  {
  }

  /** When all members of a method stand in one contiguous run, none of them is reported. */
  lemma ContiguousRunNotReported(members: seq<Member>, m: Method)
    requires forall i, j, k :: 0 <= i < j < k < |members| &&
               GetMemberMethod(members[i]) == Some(m) && GetMemberMethod(members[k]) == Some(m)
               ==> GetMemberMethod(members[j]) == Some(m)
    ensures forall i :: 0 <= i < |members| && GetMemberMethod(members[i]) == Some(m) ==>
              !IsReported(members, i)
  {
    forall i | 0 <= i < |members| && GetMemberMethod(members[i]) == Some(m)
      ensures !IsReported(members, i)
    {
      if SeenBefore(members, i) {
        var j :| 0 <= j < i && GetMemberMethod(members[j]) == GetMemberMethod(members[i]);
        if j < i - 1 {
          assert GetMemberMethod(members[i - 1]) == Some(m);
        }
      }
    }
  }

  /**
   * A later run of an already-seen method, standing from `start` up to (not
   * including) `end`, reports exactly its first member.
   */
  lemma SeparatedRunReportsItsFirstMember(members: seq<Member>, m: Method, start: nat, end: nat, earlier: nat)
    requires earlier < start < end <= |members|
    requires GetMemberMethod(members[earlier]) == Some(m)
    requires forall i :: start <= i < end ==> GetMemberMethod(members[i]) == Some(m)
    requires GetMemberMethod(members[start - 1]) != Some(m)
    ensures IsReported(members, start)
    ensures forall i :: start < i < end ==> !IsReported(members, i)
  {
    assert GetMemberMethod(members[earlier]) == GetMemberMethod(members[start]);
  }

  /** The pass over one body: the reports of the rule for that node, in member order. */
  method CheckBodyForOverloadMethods(node: RuleNode) returns (reports: seq<Report>)
    ensures reports == ReportsUpTo(GetMembers(node), |GetMembers(node)|)
    ensures forall i :: 0 <= i < |GetMembers(node)| ==>
              (IsReported(GetMembers(node), i) <==> exists k :: 0 <= k < |reports| && reports[k].member == i)
    ensures forall k :: 0 <= k < |reports| ==>
              reports[k].member < |GetMembers(node)| &&
              GetMemberMethod(GetMembers(node)[reports[k].member]).Some? &&
              reports[k].name == Label(GetMemberMethod(GetMembers(node)[reports[k].member]).value)
    ensures forall k, l :: 0 <= k < l < |reports| ==> reports[k].member < reports[l].member
  {
    var members := GetMembers(node);
    var lastMethod: Option<Method> := None;
    var seenMethods: seq<Method> := [];
    reports := [];
    var i := 0;
    while i < |members|
      invariant 0 <= i <= |members|
      invariant reports == ReportsUpTo(members, i)
      invariant seenMethods == FirstOccurrences(members, i)
      invariant lastMethod == if i == 0 then None else GetMemberMethod(members[i - 1])
    {
      FirstOccurrencesAreTheSeenMethods(members, i);
      var current := GetMemberMethod(members[i]);
      if current.None? {
        lastMethod := None;
      } else {
        var index := FindIndex(seenMethods, current.value);
        assert index > -1 <==> SeenBefore(members, i);
        if index > -1 && !IsSameMethod(current.value, lastMethod) {
          reports := reports + [Report(i, Label(current.value))];
        } else if index == -1 {
          seenMethods := seenMethods + [current.value];
        }
        lastMethod := current;
      }
      i := i + 1;
    }
    ReportsUpToCharacterized(members, |members|);
  }
}
