// The exported document as the JSON tree encoding/json prints, and the bytes the capacity
// walk charges for each part of it: never more than the part prints
// (internal/catalog/catalog.go, internal/readiness, internal/conformance).
module CatalogJson {
  import opened GoStd
  import opened JsonText
  import opened JsonPrint
  import opened CatalogModel
  import LockHash

  // ---- the walk's constants; their texts follow ----

  const MINIMAL: nat := 56
  const ENTRY: nat := 131
  const MAP_ENTRY: nat := 3
  const ASSESSMENT: nat := 137
  const CONDITION: nat := 19
  const CAUSE: nat := 50
  const RESULT: nat := 49
  const CHECKS_FIELD: nat := 12
  const CHECK: nat := 74
  const OPT_STRING: nat := 10
  const OPT_VALUE: nat := 12
  const OPT_ARRAY: nat := 11
  const OBSERVATION_ERROR: nat := 41

  // Each constant is the length of the text it stands for; ENTRY adds its line breaks, its
  // indentation and the spaces after its colons.
  lemma DocumentSkeletons()
    ensures MINIMAL == |"{\n  \"claims\": [],\n  \"by_facet\": {},\n  \"by_module\": {}\n}\n"|
    ensures ENTRY == |"{\"id\":,\"facet\":,\"module\":,\"status\":,\"layout\":,\"kind\":,\"edges\":{}}"| + 5
      + 7 * (1 + 6) + 7 + (1 + 4)
  {
  }

  lemma ReadinessSkeletons()
    ensures MAP_ENTRY == |":[]"| && CONDITION == |"{\"kind\":,\"path\":[]}"|
    ensures ASSESSMENT == |"{\"claim_id\":,\"policy_version\":0,\"local_approved\":true,"|
      + |"\"locally_approved\":true,\"dependency_ready\":true,"|
                          + |"\"ready\":true,\"review_pending\":true}"|
  {
  }

  lemma ResultSkeletons()
    ensures CAUSE == |"{\"kind\":,\"path\":[],\"direct\":true,\"inherited\":true}"|
    ensures RESULT == |"{\"claim_id\":,\"mode\":,\"implementation_ready\":true}"| && CHECKS_FIELD == |",\"checks\":[]"|
  {
  }

  lemma CheckSkeletons()
    ensures CHECK == |"{\"id\":,\"adapter\":,\"target\":,\"shape\":,\"state\":,\"implementation_ready\":true}"|
    ensures OPT_STRING == |",\"reason\":"| && OPT_VALUE == |",\"expected\":"| && OPT_ARRAY == |",\"extra\":[]"|
    ensures OBSERVATION_ERROR == |",\"observation_error\":{\"code\":,\"message\":}"|
  {
  }

  // ---- sums ----

  function Total<T>(s: seq<T>, cost: T -> nat): nat { if s == [] then 0 else cost(s[0]) + Total(s[1..], cost) }

  lemma {:induction false} TotalAppend<T>(a: seq<T>, b: seq<T>, cost: T -> nat)
    ensures Total(a + b, cost) == Total(a, cost) + Total(b, cost)
  {
    if a == [] {
      assert a + b == b;
    } else {
      TotalAppend(a[1..], b, cost);
      assert (a + b)[1..] == a[1..] + b;
    }
  }

  lemma {:induction false} TotalWithout<T>(b: seq<T>, k: nat, cost: T -> nat)
    requires k < |b|
    ensures Total(b, cost) == cost(b[k]) + Total(b[..k] + b[k + 1..], cost)
  {
    var rest := b[..k] + b[k + 1..];
    if k == 0 {
      assert rest == b[1..];
    } else {
      TotalWithout(b[1..], k - 1, cost);
      assert rest[0] == b[0] && rest[1..] == b[1..][..k - 1] + b[1..][k..];
    }
  }

  lemma Without<T>(b: seq<T>, k: nat)
    requires k < |b|
    ensures multiset(b[..k] + b[k + 1..]) == multiset(b) - multiset{b[k]}
  {
    assert b == b[..k] + ([b[k]] + b[k + 1..]);
  }

  // A sum does not depend on the order.
  lemma {:induction false} TotalOfRearranged<T>(a: seq<T>, b: seq<T>, cost: T -> nat)
    requires multiset(a) == multiset(b)
    ensures Total(a, cost) == Total(b, cost)
    decreases |a|
  {
    MultisetSize(a, b);
    if a == [] {
    } else {
      assert a[0] in multiset(b);
      var k :| 0 <= k < |b| && b[k] == a[0];
      assert a == [a[0]] + a[1..];
      assert multiset(a[1..]) == multiset(a) - multiset{a[0]};
      TotalWithout(b, k, cost);
      Without(b, k);
      TotalOfRearranged(a[1..], b[..k] + b[k + 1..], cost);
    }
  }

  lemma {:induction false} StringsCostIsTotal(ss: seq<string>)
    ensures StringsCost(ss) == Total(ss, StringCost)
  {
    if ss == [] {
    } else {
      StringsCostIsTotal(ss[1..]);
    }
  }

  lemma SortedStringsCost(ss: seq<string>)
    ensures StringsCost(SortStrings(ss)) == StringsCost(ss)
  {
    StringsCostIsTotal(ss);
    StringsCostIsTotal(SortStrings(ss));
    TotalOfRearranged(SortStrings(ss), ss, StringCost);
  }

  // ---- values shared by the records ----

  function Bool(b: bool): Json { Lit(if b then "true" else "false") }

  function IntText(n: int): (s: string)
    ensures |s| >= 1
  {
    if n < 0 then "-" + LockHash.Decimal(-n) else DecimalText(n)
  }

  function DecimalText(n: nat): (s: string)
    ensures |s| >= 1
  {
    LockHash.Decimal(n)
  }

  function SliceJson(p: Slice): Json { if p.None? then Lit("null") else Arr(Strings(p.value)) }

  function SliceCost(p: Slice): nat { if p.None? then 0 else StringsCost(p.value) }

  lemma SliceAtLeast(p: Slice)
    ensures Bare(SliceJson(p)) >= 2 + SliceCost(p)
  {
    if p.Some? { ArrayOfStrings(p.value); }
  }

  // ---- one field at a time ----

  lemma Present(name: string, value: Json, rest: Fields)
    ensures BareFields(Field(true, name, value, rest)) == |name| + 4 + Bare(value) + BareFields(rest)
  {
  }

  lemma PresentString(name: string, s: string, rest: Fields)
    ensures BareFields(Field(true, name, Str(s), rest)) >= |name| + 4 + StringCost(s) + BareFields(rest)
  {
  }

  lemma PresentBool(name: string, b: bool, rest: Fields)
    ensures BareFields(Field(true, name, Bool(b), rest)) >= |name| + 8 + BareFields(rest)
  {
  }

  lemma Optional(emit: bool, name: string, value: Json, rest: Fields)
    ensures BareFields(Field(emit, name, value, rest)) ==
      (if emit then |name| + 4 + Bare(value) else 0) + BareFields(rest)
  {
  }

  lemma OptString(name: string, s: string, rest: Fields)
    ensures BareFields(Field(s != "", name, Str(s), rest)) ==
      (if s == "" then 0 else |name| + 4 + StringCost(s)) + BareFields(rest)
  {
  }

  // ---- readiness ----

  function ConditionFields(c: Condition): Fields {
    Field(true, "kind", Str(c.kind),
    Field(c.dependencyID != "", "dependency_id", Str(c.dependencyID),
    Field(true, "path", SliceJson(c.path),
    Field(c.detail != "", "detail", Str(c.detail), End))))
  }

  function ConditionCost(c: Condition): nat {
    CONDITION + StringCost(c.kind) + StringCost(c.dependencyID) + StringCost(c.detail) + SliceCost(c.path)
  }

  lemma ConditionAtLeast(c: Condition)
    ensures Bare(Obj(ConditionFields(c))) >= ConditionCost(c)
  {
    hide BareFields;
    OptString("detail", c.detail, End);
    var f3 := Field(c.detail != "", "detail", Str(c.detail), End);
    Present("path", SliceJson(c.path), f3);
    var f2 := Field(true, "path", SliceJson(c.path), f3);
    OptString("dependency_id", c.dependencyID, f2);
    var f1 := Field(c.dependencyID != "", "dependency_id", Str(c.dependencyID), f2);
    PresentString("kind", c.kind, f1);
    SliceAtLeast(c.path);
  }

  function CauseFields(c: Cause): Fields {
    Field(true, "kind", Str(c.kind),
    Field(c.sourceKind != "", "source_kind", Str(c.sourceKind),
    Field(c.dependencyID != "", "dependency_id", Str(c.dependencyID),
    Field(true, "path", SliceJson(c.path),
    Field(c.detail != "", "detail", Str(c.detail),
    Field(true, "direct", Bool(c.direct),
    Field(true, "inherited", Bool(c.inherited), End)))))))
  }

  function CauseCost(c: Cause): nat {
    CAUSE + StringCost(c.kind) + StringCost(c.sourceKind) + StringCost(c.dependencyID) + StringCost(c.detail)
      + SliceCost(c.path)
  }

  lemma CauseAtLeast(c: Cause)
    ensures Bare(Obj(CauseFields(c))) >= CauseCost(c)
  {
    hide BareFields;
    PresentBool("inherited", c.inherited, End);
    var f6 := Field(true, "inherited", Bool(c.inherited), End);
    PresentBool("direct", c.direct, f6);
    var f5 := Field(true, "direct", Bool(c.direct), f6);
    OptString("detail", c.detail, f5);
    var f4 := Field(c.detail != "", "detail", Str(c.detail), f5);
    Present("path", SliceJson(c.path), f4);
    var f3 := Field(true, "path", SliceJson(c.path), f4);
    OptString("dependency_id", c.dependencyID, f3);
    var f2 := Field(c.dependencyID != "", "dependency_id", Str(c.dependencyID), f3);
    OptString("source_kind", c.sourceKind, f2);
    var f1 := Field(c.sourceKind != "", "source_kind", Str(c.sourceKind), f2);
    PresentString("kind", c.kind, f1);
    SliceAtLeast(c.path);
  }

  function Conditions(cs: seq<Condition>): seq<Json> {
    seq(|cs|, k requires 0 <= k < |cs| => Obj(ConditionFields(cs[k])))
  }

  function Causes(cs: seq<Cause>): seq<Json> { seq(|cs|, k requires 0 <= k < |cs| => Obj(CauseFields(cs[k]))) }

  lemma {:induction false} ConditionsAtLeast(cs: seq<Condition>)
    ensures BareItems(Conditions(cs)) >= Total(cs, ConditionCost)
  {
    if cs == [] {
    } else {
      ConditionAtLeast(cs[0]);
      ConditionsAtLeast(cs[1..]);
      assert Conditions(cs)[1..] == Conditions(cs[1..]);
    }
  }

  lemma {:induction false} CausesAtLeast(cs: seq<Cause>)
    ensures BareItems(Causes(cs)) >= Total(cs, CauseCost)
  {
    if cs == [] {
    } else {
      CauseAtLeast(cs[0]);
      CausesAtLeast(cs[1..]);
      assert Causes(cs)[1..] == Causes(cs[1..]);
    }
  }

  lemma ConditionsArray(cs: seq<Condition>)
    ensures (if cs != [] then Bare(Arr(Conditions(cs))) else 0) >= Total(cs, ConditionCost)
  {
    ConditionsAtLeast(cs);
  }

  lemma CausesArray(cs: seq<Cause>)
    ensures (if cs != [] then Bare(Arr(Causes(cs))) else 0) >= Total(cs, CauseCost)
  {
    CausesAtLeast(cs);
  }

  // The fields an assessment may omit, and before them those it always prints.
  function AssessmentTail(a: Assessment): Fields {
    Field(a.dependencyConditions != [], "dependency_conditions", Arr(Conditions(a.dependencyConditions)),
    Field(a.conditions != [], "conditions", Arr(Conditions(a.conditions)),
    Field(a.reviewCauses != [], "review_causes", Arr(Causes(a.reviewCauses)),
    Field(a.causes != [], "causes", Arr(Causes(a.causes)),
    Field(a.localReasons != [], "local_reasons", Arr(Strings(a.localReasons)),
    Field(a.localApprovalIssue != "", "local_approval_issue", Str(a.localApprovalIssue), End))))))
  }

  function AssessmentFields(a: Assessment): Fields {
    Field(true, "claim_id", Str(a.claimID),
    Field(true, "policy_version", Lit(IntText(a.policyVersion)),
    Field(true, "local_approved", Bool(a.localApproved),
    Field(true, "locally_approved", Bool(a.locallyApproved),
    Field(true, "dependency_ready", Bool(a.dependencyReady),
    Field(true, "ready", Bool(a.ready),
    Field(true, "review_pending", Bool(a.reviewPending), AssessmentTail(a))))))))
  }

  function AssessmentCost(a: Assessment): nat {
    ASSESSMENT + StringCost(a.claimID) + StringCost(a.localApprovalIssue) + StringsCost(a.localReasons)
    + Total(a.dependencyConditions, ConditionCost) + Total(a.conditions, ConditionCost)
    + Total(a.reviewCauses, CauseCost) + Total(a.causes, CauseCost)
  }

  lemma AssessmentTailAtLeast(a: Assessment)
    ensures BareFields(AssessmentTail(a)) >= StringCost(a.localApprovalIssue) + StringsCost(a.localReasons)
      + Total(a.dependencyConditions, ConditionCost) + Total(a.conditions, ConditionCost)
      + Total(a.reviewCauses, CauseCost) + Total(a.causes, CauseCost)
  {
    hide BareFields, Bare, Total, Quoted, StringsCost, StringCost;
    var f5 := Field(a.localApprovalIssue != "", "local_approval_issue", Str(a.localApprovalIssue), End);
    var f4 := Field(a.localReasons != [], "local_reasons", Arr(Strings(a.localReasons)), f5);
    LocalTailAtLeast(a);
    Optional(a.causes != [], "causes", Arr(Causes(a.causes)), f4);
    var f3 := Field(a.causes != [], "causes", Arr(Causes(a.causes)), f4);
    Optional(a.reviewCauses != [], "review_causes", Arr(Causes(a.reviewCauses)), f3);
    var f2 := Field(a.reviewCauses != [], "review_causes", Arr(Causes(a.reviewCauses)), f3);
    Optional(a.conditions != [], "conditions", Arr(Conditions(a.conditions)), f2);
    var f1 := Field(a.conditions != [], "conditions", Arr(Conditions(a.conditions)), f2);
    Optional(a.dependencyConditions != [], "dependency_conditions", Arr(Conditions(a.dependencyConditions)), f1);
    ConditionsArray(a.dependencyConditions);
    ConditionsArray(a.conditions);
    CausesArray(a.reviewCauses);
    CausesArray(a.causes);
  }

  lemma LocalTailAtLeast(a: Assessment)
    ensures var f5 := Field(a.localApprovalIssue != "", "local_approval_issue", Str(a.localApprovalIssue), End);
      BareFields(Field(a.localReasons != [], "local_reasons", Arr(Strings(a.localReasons)), f5)) >=
        StringCost(a.localApprovalIssue) + StringsCost(a.localReasons)
  {
    hide BareFields, Bare, Quoted, StringsCost, StringCost;
    OptString("local_approval_issue", a.localApprovalIssue, End);
    var f5 := Field(a.localApprovalIssue != "", "local_approval_issue", Str(a.localApprovalIssue), End);
    Optional(a.localReasons != [], "local_reasons", Arr(Strings(a.localReasons)), f5);
    ArrayOfStrings(a.localReasons);
    NoStrings();
  }

  lemma NoStrings()
    ensures StringsCost([]) == 0 && StringCost("") == 0
  {
  }

  lemma AssessmentAtLeast(a: Assessment)
    ensures Bare(Obj(AssessmentFields(a))) >= AssessmentCost(a)
  {
    AssessmentTailAtLeast(a);
    var tail := AssessmentTail(a);
    hide BareFields, Quoted, Total, StringsCost, StringCost, AssessmentTail;
    PresentBool("review_pending", a.reviewPending, tail);
    var f6 := Field(true, "review_pending", Bool(a.reviewPending), tail);
    PresentBool("ready", a.ready, f6);
    var f5 := Field(true, "ready", Bool(a.ready), f6);
    PresentBool("dependency_ready", a.dependencyReady, f5);
    var f4 := Field(true, "dependency_ready", Bool(a.dependencyReady), f5);
    PresentBool("locally_approved", a.locallyApproved, f4);
    var f3 := Field(true, "locally_approved", Bool(a.locallyApproved), f4);
    PresentBool("local_approved", a.localApproved, f3);
    var f2 := Field(true, "local_approved", Bool(a.localApproved), f3);
    Present("policy_version", Lit(IntText(a.policyVersion)), f2);
    var f1 := Field(true, "policy_version", Lit(IntText(a.policyVersion)), f2);
    PresentString("claim_id", a.claimID, f1);
  }

  // ---- conformance ----

  function ValueJson(v: Value): Json {
    match v
    case NoValue => Lit("null")
    case Scalar(s) => Str(s)
    case Set(values) => SliceJson(values)
  }

  function ValueCost(v: Value): nat {
    match v
    case NoValue => 0
    case Scalar(s) => OPT_VALUE + StringCost(s)
    case Set(values) => OPT_VALUE + 2 + SliceCost(values)
  }

  lemma ValueAtLeast(v: Value)
    ensures v.NoValue? || 12 + Bare(ValueJson(v)) >= ValueCost(v)
  {
    if v.Set? { SliceAtLeast(v.values); }
  }

  function ErrorFields(e: ObservationError): Fields {
    Field(true, "code", Str(e.code),
    Field(true, "message", Str(e.message), End))
  }

  function ErrorCost(e: Option<ObservationError>): nat {
    if e.None? then 0 else OBSERVATION_ERROR + StringCost(e.value.code) + StringCost(e.value.message)
  }

  function ErrorJson(e: Option<ObservationError>): Json { if e.None? then Lit("null") else Obj(ErrorFields(e.value)) }

  lemma ErrorAtLeast(e: ObservationError)
    ensures 21 + Bare(ErrorJson(Some(e))) >= ErrorCost(Some(e))
  {
    hide BareFields;
    PresentString("message", e.message, End);
    var f1 := Field(true, "message", Str(e.message), End);
    PresentString("code", e.code, f1);
  }

  function CheckTail(c: Check): Fields {
    Field(!c.expected.NoValue?, "expected", ValueJson(c.expected),
    Field(!c.observed.NoValue?, "observed", ValueJson(c.observed),
    Field(c.missing != [], "missing", Arr(Strings(c.missing)),
    Field(c.extra != [], "extra", Arr(Strings(c.extra)),
    Field(c.reason != "", "reason", Str(c.reason),
    Field(c.error.Some?, "observation_error", ErrorJson(c.error), End))))))
  }

  function CheckFields(c: Check): Fields {
    Field(true, "id", Str(c.id),
    Field(true, "adapter", Str(c.adapter),
    Field(true, "target", Str(c.target),
    Field(true, "shape", Str(c.shape),
    Field(true, "state", Str(c.state),
    Field(true, "implementation_ready", Bool(c.ready), CheckTail(c)))))))
  }

  function OptArrayCost(ss: seq<string>): nat { (if ss == [] then 0 else OPT_ARRAY) + StringsCost(ss) }

  function OptStringCost(s: string): nat { (if s == "" then 0 else OPT_STRING) + StringCost(s) }

  function CheckCost(c: Check): nat {
    CHECK + StringCost(c.id) + StringCost(c.adapter) + StringCost(c.target) + StringCost(c.shape) + StringCost(c.state)
    + ValueCost(c.expected) + ValueCost(c.observed) + OptArrayCost(c.missing) + OptArrayCost(c.extra)
      + OptStringCost(c.reason)
    + ErrorCost(c.error)
  }

  lemma CheckTailAtLeast(c: Check)
    ensures BareFields(CheckTail(c)) >= ValueCost(c.expected) + ValueCost(c.observed) + OptArrayCost(c.missing)
      + OptArrayCost(c.extra) + OptStringCost(c.reason) + ErrorCost(c.error)
  {
    hide BareFields;
    Optional(c.error.Some?, "observation_error", ErrorJson(c.error), End);
    var f5 := Field(c.error.Some?, "observation_error", ErrorJson(c.error), End);
    OptString("reason", c.reason, f5);
    var f4 := Field(c.reason != "", "reason", Str(c.reason), f5);
    Optional(c.extra != [], "extra", Arr(Strings(c.extra)), f4);
    var f3 := Field(c.extra != [], "extra", Arr(Strings(c.extra)), f4);
    Optional(c.missing != [], "missing", Arr(Strings(c.missing)), f3);
    var f2 := Field(c.missing != [], "missing", Arr(Strings(c.missing)), f3);
    Optional(!c.observed.NoValue?, "observed", ValueJson(c.observed), f2);
    var f1 := Field(!c.observed.NoValue?, "observed", ValueJson(c.observed), f2);
    Optional(!c.expected.NoValue?, "expected", ValueJson(c.expected), f1);
    ValueAtLeast(c.expected);
    ValueAtLeast(c.observed);
    ArrayOfStrings(c.missing);
    ArrayOfStrings(c.extra);
    if c.error.Some? { ErrorAtLeast(c.error.value); }
  }

  lemma CheckAtLeast(c: Check)
    ensures Bare(Obj(CheckFields(c))) >= CheckCost(c)
  {
    CheckTailAtLeast(c);
    var tail := CheckTail(c);
    hide BareFields;
    PresentBool("implementation_ready", c.ready, tail);
    var f5 := Field(true, "implementation_ready", Bool(c.ready), tail);
    PresentString("state", c.state, f5);
    var f4 := Field(true, "state", Str(c.state), f5);
    PresentString("shape", c.shape, f4);
    var f3 := Field(true, "shape", Str(c.shape), f4);
    PresentString("target", c.target, f3);
    var f2 := Field(true, "target", Str(c.target), f3);
    PresentString("adapter", c.adapter, f2);
    var f1 := Field(true, "adapter", Str(c.adapter), f2);
    PresentString("id", c.id, f1);
  }

  function Checks(cs: seq<Check>): seq<Json> { seq(|cs|, k requires 0 <= k < |cs| => Obj(CheckFields(cs[k]))) }

  lemma {:induction false} ChecksAtLeast(cs: seq<Check>)
    ensures BareItems(Checks(cs)) >= Total(cs, CheckCost) + |cs|
  {
    if cs == [] {
    } else {
      CheckAtLeast(cs[0]);
      ChecksAtLeast(cs[1..]);
      assert Checks(cs)[1..] == Checks(cs[1..]);
    }
  }

  function ResultFields(r: Result): Fields {
    Field(true, "claim_id", Str(r.claimID),
    Field(true, "mode", Str(r.mode),
    Field(true, "implementation_ready", Bool(r.ready),
    Field(r.checks != [], "checks", Arr(Checks(r.checks)),
    Field(r.reason != "", "reason", Str(r.reason), End)))))
  }

  function ResultCost(r: Result): nat {
    RESULT + (if r.checks == [] then 0 else CHECKS_FIELD) + StringCost(r.claimID) + StringCost(r.mode)
      + OptStringCost(r.reason)
    + Total(r.checks, CheckCost)
  }

  lemma ResultAtLeast(r: Result)
    ensures Bare(Obj(ResultFields(r))) >= ResultCost(r)
  {
    ChecksAtLeast(r.checks);
    hide BareFields;
    OptString("reason", r.reason, End);
    var f4 := Field(r.reason != "", "reason", Str(r.reason), End);
    Optional(r.checks != [], "checks", Arr(Checks(r.checks)), f4);
    var f3 := Field(r.checks != [], "checks", Arr(Checks(r.checks)), f4);
    PresentBool("implementation_ready", r.ready, f3);
    var f2 := Field(true, "implementation_ready", Bool(r.ready), f3);
    PresentString("mode", r.mode, f2);
    var f1 := Field(true, "mode", Str(r.mode), f2);
    PresentString("claim_id", r.claimID, f1);
  }

  // ---- the members of each record, in order, under the names a reader knows ----

  lemma ConditionMembers(c: Condition)
    ensures Members(ConditionFields(c)) ==
      [("kind", Str(c.kind))]
      + (if c.dependencyID != "" then [("dependency_id", Str(c.dependencyID))] else [])
      + [("path", SliceJson(c.path))]
      + (if c.detail != "" then [("detail", Str(c.detail))] else [])
  {
    var f3 := Field(c.detail != "", "detail", Str(c.detail), End);
    var f2 := Field(true, "path", SliceJson(c.path), f3);
    var f1 := Field(c.dependencyID != "", "dependency_id", Str(c.dependencyID), f2);
    hide Members;
    MembersOf(c.detail != "", "detail", Str(c.detail), End);
    MembersOf(true, "path", SliceJson(c.path), f3);
    MembersOf(c.dependencyID != "", "dependency_id", Str(c.dependencyID), f2);
    MembersOf(true, "kind", Str(c.kind), f1);
  }

  lemma CauseMembers(c: Cause)
    ensures Members(CauseFields(c)) ==
      [("kind", Str(c.kind))]
      + (if c.sourceKind != "" then [("source_kind", Str(c.sourceKind))] else [])
      + (if c.dependencyID != "" then [("dependency_id", Str(c.dependencyID))] else [])
      + [("path", SliceJson(c.path))]
      + (if c.detail != "" then [("detail", Str(c.detail))] else [])
      + [("direct", Bool(c.direct)), ("inherited", Bool(c.inherited))]
  {
    var f6 := Field(true, "inherited", Bool(c.inherited), End);
    var f5 := Field(true, "direct", Bool(c.direct), f6);
    var f4 := Field(c.detail != "", "detail", Str(c.detail), f5);
    var f3 := Field(true, "path", SliceJson(c.path), f4);
    var f2 := Field(c.dependencyID != "", "dependency_id", Str(c.dependencyID), f3);
    var f1 := Field(c.sourceKind != "", "source_kind", Str(c.sourceKind), f2);
    hide Members, SliceJson, Bool;
    MembersOf(true, "inherited", Bool(c.inherited), End);
    MembersOf(true, "direct", Bool(c.direct), f6);
    MembersOf(c.detail != "", "detail", Str(c.detail), f5);
    MembersOf(true, "path", SliceJson(c.path), f4);
    MembersOf(c.dependencyID != "", "dependency_id", Str(c.dependencyID), f3);
    MembersOf(c.sourceKind != "", "source_kind", Str(c.sourceKind), f2);
    MembersOf(true, "kind", Str(c.kind), f1);
  }

  lemma AssessmentMembers(a: Assessment)
    ensures Members(AssessmentFields(a)) ==
      [("claim_id", Str(a.claimID)), ("policy_version", Lit(IntText(a.policyVersion))),
       ("local_approved", Bool(a.localApproved)), ("locally_approved", Bool(a.locallyApproved)),
       ("dependency_ready", Bool(a.dependencyReady)), ("ready", Bool(a.ready)),
       ("review_pending", Bool(a.reviewPending))]
      + Members(AssessmentTail(a))
  {
    var f6 := Field(true, "review_pending", Bool(a.reviewPending), AssessmentTail(a));
    var f5 := Field(true, "ready", Bool(a.ready), f6);
    var f4 := Field(true, "dependency_ready", Bool(a.dependencyReady), f5);
    var f3 := Field(true, "locally_approved", Bool(a.locallyApproved), f4);
    var f2 := Field(true, "local_approved", Bool(a.localApproved), f3);
    var f1 := Field(true, "policy_version", Lit(IntText(a.policyVersion)), f2);
    hide Members;
    MembersOf(true, "review_pending", Bool(a.reviewPending), AssessmentTail(a));
    MembersOf(true, "ready", Bool(a.ready), f6);
    MembersOf(true, "dependency_ready", Bool(a.dependencyReady), f5);
    MembersOf(true, "locally_approved", Bool(a.locallyApproved), f4);
    MembersOf(true, "local_approved", Bool(a.localApproved), f3);
    MembersOf(true, "policy_version", Lit(IntText(a.policyVersion)), f2);
    MembersOf(true, "claim_id", Str(a.claimID), f1);
  }

  lemma AssessmentTailMembers(a: Assessment)
    ensures Members(AssessmentTail(a)) ==
      (if a.dependencyConditions == [] then []
       else [("dependency_conditions", Arr(Conditions(a.dependencyConditions)))])
      + (if a.conditions != [] then [("conditions", Arr(Conditions(a.conditions)))] else [])
      + (if a.reviewCauses != [] then [("review_causes", Arr(Causes(a.reviewCauses)))] else [])
      + (if a.causes != [] then [("causes", Arr(Causes(a.causes)))] else [])
      + (if a.localReasons != [] then [("local_reasons", Arr(Strings(a.localReasons)))] else [])
      + (if a.localApprovalIssue != "" then [("local_approval_issue", Str(a.localApprovalIssue))] else [])
  {
    SixOptional(a.dependencyConditions != [], "dependency_conditions", Arr(Conditions(a.dependencyConditions)),
      a.conditions != [], "conditions", Arr(Conditions(a.conditions)),
      a.reviewCauses != [], "review_causes", Arr(Causes(a.reviewCauses)),
      a.causes != [], "causes", Arr(Causes(a.causes)),
      a.localReasons != [], "local_reasons", Arr(Strings(a.localReasons)),
      a.localApprovalIssue != "", "local_approval_issue", Str(a.localApprovalIssue));
  }

  lemma SixOptional(a: bool, an: string, av: Json, b: bool, bn: string, bv: Json, c: bool, cn: string, cv: Json,
                    d: bool, dn: string, dv: Json, e: bool, en: string, ev: Json, f: bool, fn: string, fv: Json)
    ensures Members(Field(a, an, av,
      Field(b, bn, bv, Field(c, cn, cv, Field(d, dn, dv, Field(e, en, ev, Field(f, fn, fv, End))))))) ==
      (if a then [(an, av)] else []) + (if b then [(bn, bv)] else []) + (if c then [(cn, cv)] else [])
      + (if d then [(dn, dv)] else []) + (if e then [(en, ev)] else []) + (if f then [(fn, fv)] else [])
  {
    hide Members;
    var f5 := Field(f, fn, fv, End);
    var f4 := Field(e, en, ev, f5);
    var f3 := Field(d, dn, dv, f4);
    var f2 := Field(c, cn, cv, f3);
    var f1 := Field(b, bn, bv, f2);
    MembersOf(f, fn, fv, End);
    MembersOf(e, en, ev, f5);
    MembersOf(d, dn, dv, f4);
    MembersOf(c, cn, cv, f3);
    MembersOf(b, bn, bv, f2);
    MembersOf(a, an, av, f1);
  }

  lemma CheckTailMembers(c: Check)
    ensures Members(CheckTail(c)) ==
      (if !c.expected.NoValue? then [("expected", ValueJson(c.expected))] else [])
      + (if !c.observed.NoValue? then [("observed", ValueJson(c.observed))] else [])
      + (if c.missing != [] then [("missing", Arr(Strings(c.missing)))] else [])
      + (if c.extra != [] then [("extra", Arr(Strings(c.extra)))] else [])
      + (if c.reason != "" then [("reason", Str(c.reason))] else [])
      + (if c.error.Some? then [("observation_error", ErrorJson(c.error))] else [])
  {
    SixOptional(!c.expected.NoValue?, "expected", ValueJson(c.expected),
      !c.observed.NoValue?, "observed", ValueJson(c.observed),
      c.missing != [], "missing", Arr(Strings(c.missing)), c.extra != [], "extra", Arr(Strings(c.extra)),
      c.reason != "", "reason", Str(c.reason), c.error.Some?, "observation_error", ErrorJson(c.error));
  }

  lemma CheckMembers(c: Check)
    ensures Members(CheckFields(c)) ==
      [("id", Str(c.id)), ("adapter", Str(c.adapter)), ("target", Str(c.target)), ("shape", Str(c.shape)),
        ("state", Str(c.state)), ("implementation_ready", Bool(c.ready))]
      + Members(CheckTail(c))
  {
    var f5 := Field(true, "implementation_ready", Bool(c.ready), CheckTail(c));
    var f4 := Field(true, "state", Str(c.state), f5);
    var f3 := Field(true, "shape", Str(c.shape), f4);
    var f2 := Field(true, "target", Str(c.target), f3);
    var f1 := Field(true, "adapter", Str(c.adapter), f2);
    hide Members;
    MembersOf(true, "implementation_ready", Bool(c.ready), CheckTail(c));
    MembersOf(true, "state", Str(c.state), f5);
    MembersOf(true, "shape", Str(c.shape), f4);
    MembersOf(true, "target", Str(c.target), f3);
    MembersOf(true, "adapter", Str(c.adapter), f2);
    MembersOf(true, "id", Str(c.id), f1);
  }

  lemma ErrorMembers(e: ObservationError)
    ensures Members(ErrorFields(e)) ==
      [("code", Str(e.code)), ("message", Str(e.message))]
  {
    var f1 := Field(true, "message", Str(e.message), End);
    hide Members;
    MembersOf(true, "message", Str(e.message), End);
    MembersOf(true, "code", Str(e.code), f1);
  }

  lemma ResultMembers(r: Result)
    ensures Members(ResultFields(r)) ==
      [("claim_id", Str(r.claimID)), ("mode", Str(r.mode)), ("implementation_ready", Bool(r.ready))]
      + (if r.checks != [] then [("checks", Arr(Checks(r.checks)))] else [])
      + (if r.reason != "" then [("reason", Str(r.reason))] else [])
  {
    var f4 := Field(r.reason != "", "reason", Str(r.reason), End);
    var f3 := Field(r.checks != [], "checks", Arr(Checks(r.checks)), f4);
    var f2 := Field(true, "implementation_ready", Bool(r.ready), f3);
    var f1 := Field(true, "mode", Str(r.mode), f2);
    hide Members;
    MembersOf(r.reason != "", "reason", Str(r.reason), End);
    MembersOf(r.checks != [], "checks", Arr(Checks(r.checks)), f4);
    MembersOf(true, "implementation_ready", Bool(r.ready), f3);
    MembersOf(true, "mode", Str(r.mode), f2);
    MembersOf(true, "claim_id", Str(r.claimID), f1);
  }
}
