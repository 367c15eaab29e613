// The capacity preflight and the bounded encoder: a saturating budget walks the catalog
// without building the document, and refuses only what the encoder would refuse
// (internal/catalog/catalog.go).
module CatalogBudget {
  import opened GoStd
  import opened JsonText
  import opened JsonPrint
  import opened CatalogModel
  import opened CatalogJson
  import opened CatalogText

  // A uint64 counter that stops at its limit.
  class Budget {
    const limit: nat
    var total: nat
    var exceeded: bool
    ghost var charged: nat   // what an unbounded counter would hold

    ghost predicate Valid() reads this {
      && total <= limit < 0x1_0000_0000_0000_0000
      && (exceeded <==> charged > limit) && (!exceeded ==> total == charged)
    }

    // The walk has charged up to `full` since the counter stood at c0, and all of it
    // unless the limit is passed.
    ghost predicate Took(c0: nat, full: nat) reads this {
      c0 <= charged <= c0 + full && (charged <= limit ==> charged == c0 + full)
    }

    constructor (limit: nat)
      requires limit < 0x1_0000_0000_0000_0000
      ensures Valid() && this.limit == limit && charged == 0
    {
      this.limit, total, exceeded, charged := limit, 0, false, 0;
    }

    // No step of it leaves the range of a uint64.
    method Add(n: nat)
      requires Valid()
      modifies this
      ensures Valid() && charged == old(charged) + n
    {
      charged := charged + n;
      if exceeded || n > limit || total > limit - n {
        exceeded := true;
        total := limit;
        return;
      }
      total := total + n;
    }

    // The walk's `add`: an empty value is left uncounted.
    method AddValue(value: string)
      requires Valid()
      modifies this
      ensures Valid() && charged == old(charged) + StringCost(value)
    {
      if value != "" {
        var n := QuotedUpperBound(value);
        Add(n);
      }
    }

    method AddStrings(values: seq<string>)
      requires Valid()
      modifies this
      ensures Valid() && Took(old(charged), StringsCost(values))
    {
      ghost var c0 := charged;
      for k := 0 to |values|
        invariant Valid() && c0 <= charged && charged + StringsCost(values[k..]) == c0 + StringsCost(values)
      {
        assert values[k..][0] == values[k] && values[k..][1..] == values[k + 1..];
        AddValue(values[k]);
        if exceeded { return; }
      }
    }

    method AddSlice(p: Slice)
      requires Valid()
      modifies this
      ensures Valid() && Took(old(charged), SliceCost(p))
    {
      if p.Some? { AddStrings(p.value); }
    }

    method AddCondition(c: Condition)
      requires Valid()
      modifies this
      ensures Valid() && Took(old(charged), ConditionCost(c))
    {
      Add(CONDITION);
      AddValue(c.kind);
      AddValue(c.dependencyID);
      AddValue(c.detail);
      AddSlice(c.path);
    }

    method AddCause(c: Cause)
      requires Valid()
      modifies this
      ensures Valid() && Took(old(charged), CauseCost(c))
    {
      Add(CAUSE);
      AddValue(c.kind);
      AddValue(c.sourceKind);
      AddValue(c.dependencyID);
      AddValue(c.detail);
      AddSlice(c.path);
    }

    method AddConditions(cs: seq<Condition>)
      requires Valid()
      modifies this
      ensures Valid() && Took(old(charged), Total(cs, ConditionCost))
    {
      ghost var c0 := charged;
      for k := 0 to |cs|
        invariant Valid() && Leaves(c0, Total(cs, ConditionCost), Total(cs[k..], ConditionCost))
      {
        assert cs[k..][0] == cs[k] && cs[k..][1..] == cs[k + 1..];
        AddCondition(cs[k]);
      }
    }

    method AddCauses(cs: seq<Cause>)
      requires Valid()
      modifies this
      ensures Valid() && Took(old(charged), Total(cs, CauseCost))
    {
      ghost var c0 := charged;
      for k := 0 to |cs|
        invariant Valid() && Leaves(c0, Total(cs, CauseCost), Total(cs[k..], CauseCost))
      {
        assert cs[k..][0] == cs[k] && cs[k..][1..] == cs[k + 1..];
        AddCause(cs[k]);
      }
    }

    // Of `full` to charge, `left` is still to come.
    ghost predicate Leaves(c0: nat, full: nat, left: nat) reads this {
      c0 <= charged && charged + left <= c0 + full && (charged <= limit ==> charged + left == c0 + full)
    }

    method AddAssessment(a: Assessment)
      requires Valid()
      modifies this
      ensures Valid() && Took(old(charged), AssessmentCost(a))
    {
      hide Total, StringCost;
      Add(ASSESSMENT);
      AddValue(a.claimID);
      AddValue(a.localApprovalIssue);
      AddStrings(a.localReasons);
      AddConditions(a.dependencyConditions);
      AddConditions(a.conditions);
      AddCauses(a.reviewCauses);
      AddCauses(a.causes);
    }

    method AddConformanceValue(v: Value)
      requires Valid()
      modifies this
      ensures Valid() && Took(old(charged), ValueCost(v))
    {
      if !v.NoValue? { Add(OPT_VALUE); }
      match v
      case NoValue =>
      case Scalar(s) => AddValue(s);
      case Set(values) =>
        Add(2);
        AddSlice(values);
    }

    method AddOptArray(values: seq<string>)
      requires Valid()
      modifies this
      ensures Valid() && Took(old(charged), OptArrayCost(values))
    {
      if values != [] { Add(OPT_ARRAY); }
      AddStrings(values);
    }

    method AddOptString(value: string)
      requires Valid()
      modifies this
      ensures Valid() && Took(old(charged), OptStringCost(value))
    {
      if value != "" { Add(OPT_STRING); }
      AddValue(value);
    }

    method AddError(e: Option<ObservationError>)
      requires Valid()
      modifies this
      ensures Valid() && Took(old(charged), ErrorCost(e))
    {
      if e.Some? {
        Add(OBSERVATION_ERROR);
        AddValue(e.value.code);
        AddValue(e.value.message);
      }
    }

    method AddCheck(c: Check)
      requires Valid()
      modifies this
      ensures Valid() && Took(old(charged), CheckCost(c))
    {
      hide StringCost, ValueCost, OptArrayCost, OptStringCost, ErrorCost;
      Add(CHECK);
      AddValue(c.id);
      AddValue(c.adapter);
      AddValue(c.target);
      AddValue(c.shape);
      AddValue(c.state);
      AddOptString(c.reason);
      AddConformanceValue(c.expected);
      AddConformanceValue(c.observed);
      AddOptArray(c.missing);
      AddOptArray(c.extra);
      AddError(c.error);
    }

    method AddChecks(cs: seq<Check>)
      requires Valid()
      modifies this
      ensures Valid() && Took(old(charged), Total(cs, CheckCost))
    {
      ghost var c0 := charged;
      for k := 0 to |cs|
        invariant Valid() && Leaves(c0, Total(cs, CheckCost), Total(cs[k..], CheckCost))
      {
        assert cs[k..][0] == cs[k] && cs[k..][1..] == cs[k + 1..];
        AddCheck(cs[k]);
      }
    }

    method AddResult(r: Result)
      requires Valid()
      modifies this
      ensures Valid() && Took(old(charged), ResultCost(r))
    {
      hide StringCost, Total, OptStringCost;
      Add(RESULT);
      if r.checks != [] { Add(CHECKS_FIELD); }
      AddOptString(r.reason);
      AddValue(r.claimID);
      AddValue(r.mode);
      AddChecks(r.checks);
    }

    // One exported claim's part of the walk.
    method AddClaim(cat: Catalog, c: Claim, internals: set<string>)
      requires Valid() && internals == InternalsIDs(cat.claims)
      modifies this
      ensures Valid() && Took(old(charged), ClaimCost(cat, c))
    {
      hide StringCost, AssessmentCost, ResultCost;
      Add(ENTRY);
      AddValue(c.id);
      AddValue(c.facet);
      AddValue(c.mod);
      AddValue(c.status);
      AddValue(c.layout);
      AddValue(c.kind);
      AddValue(c.reason);
      var kept := DropInternalsTargets(c.ids, internals);
      AddStrings(kept);
      if c.id in cat.readiness { AddAssessment(Redact(cat.readiness[c.id], internals)); }
      if c.id in cat.conformance { AddResult(cat.conformance[c.id]); }
    }

    // The claims, stopping once the limit is passed.
    method AddClaims(cat: Catalog, internals: set<string>)
      requires Valid() && internals == InternalsIDs(cat.claims)
      modifies this
      ensures Valid() && Took(old(charged), Total(Exported(cat.claims), ClaimCosts(cat)))
    {
      ghost var c0 := charged;
      for k := 0 to |cat.claims|
        invariant Valid()
        invariant Leaves(c0, Total(Exported(cat.claims), ClaimCosts(cat)),
          Total(Exported(cat.claims[k..]), ClaimCosts(cat)))
      {
        NextClaim(cat, k);
        if IsInternals(cat.claims[k]) { continue; }
        AddClaim(cat, cat.claims[k], internals);
        if exceeded { return; }
      }
    }

    // The facets, or the modules, in whatever order the map is walked.
    method AddKeys(all: map<string, seq<string>>, skip: set<string>, internals: set<string>)
      requires Valid()
      modifies this
      ensures Valid() && Took(old(charged), KeysCost(all, internals, all.Keys - skip))
    {
      ghost var c0 := charged;
      var keys := all.Keys;
      while keys != {}
        invariant keys <= all.Keys && Valid()
        invariant Leaves(c0, KeysCost(all, internals, all.Keys - skip), KeysCost(all, internals, keys - skip))
        decreases |keys|
      {
        var k :| k in keys;
        NextKey(all, skip, internals, keys, k);
        keys := keys - {k};
        if k in skip { continue; }
        AddKey(all, k, internals);
        if exceeded { return; }
      }
      assert {} - skip == {};
    }

    method AddKey(all: map<string, seq<string>>, k: string, internals: set<string>)
      requires Valid() && k in all
      modifies this
      ensures Valid() && Took(old(charged), KeyCost(all, internals, k))
    {
      hide StringCost;
      Add(MAP_ENTRY);
      AddValue(k);
      var kept := DropInternalsTargets(all[k], internals);
      AddStrings(kept);
    }
  }

  lemma NextClaim(cat: Catalog, k: nat)
    requires k < |cat.claims|
    ensures Total(Exported(cat.claims[k..]), ClaimCosts(cat)) ==
      (if IsInternals(cat.claims[k]) then 0 else ClaimCost(cat, cat.claims[k]))
        + Total(Exported(cat.claims[k + 1..]), ClaimCosts(cat))
  {
    var rest := cat.claims[k..];
    assert rest[0] == cat.claims[k] && rest[1..] == cat.claims[k + 1..];
    if IsInternals(rest[0]) {
      assert Exported(rest) == Exported(rest[1..]);
    } else {
      assert Exported(rest)[0] == rest[0] && Exported(rest)[1..] == Exported(rest[1..]);
    }
  }

  lemma NextKey(all: map<string, seq<string>>, skip: set<string>, internals: set<string>, keys: set<string>, k: string)
    requires k in keys
    ensures KeysCost(all, internals, keys - skip) ==
      (if k in skip then 0 else KeyCost(all, internals, k)) + KeysCost(all, internals, (keys - {k}) - skip)
  {
    hide KeyCost, Listed;
    var left := (keys - {k}) - skip;
    if k in skip {
      assert keys - skip == left;
    } else {
      assert keys - skip == left + {k};
      assert multiset(Listed(keys - skip)) == multiset{k} + multiset(Listed(left));
      TotalOfRearranged(Listed(keys - skip), [k] + Listed(left), KeyCosts(all, internals));
      assert ([k] + Listed(left))[1..] == Listed(left);
    }
  }

  // catalogProjectionStringLowerBound: it passes the limit exactly when the charges do.
  method LowerBound(cat: Option<Catalog>, limit: nat) returns (b: Budget)
    requires limit < 0x1_0000_0000_0000_0000
    ensures b.exceeded <==> Charges(if cat.Some? then cat.value else EMPTY_CATALOG) > limit
  {
    b := new Budget(limit);
    b.Add(MINIMAL);
    if cat.None? {
      ChargesOfNothing();
      return;
    }
    var c := cat.value;
    var internals := InternalsIDs(c.claims);
    b.AddClaims(c, internals);
    if b.exceeded { return; }
    b.AddKeys(c.byFacet, {FACET_INTERNALS}, internals);
    if b.exceeded { return; }
    b.AddKeys(c.byModule, {}, internals);
    assert c.byModule.Keys - {} == c.byModule.Keys;
  }

  lemma ChargesOfNothing()
    ensures Charges(EMPTY_CATALOG) == MINIMAL
  {
    assert Exported(EMPTY_CATALOG.claims) == [];
    assert EMPTY_CATALOG.byFacet.Keys - {FACET_INTERNALS} == {} && EMPTY_CATALOG.byModule.Keys == {};
  }

  datatype Encoded = Encoded(data: string) | TooLarge | BadLimit

  // encodeJSON; a zero maximum is no maximum.
  method Encode(cat: Catalog, maxBytes: nat) returns (r: Encoded)
    ensures !r.BadLimit?
    ensures exists doc ::
      IsDocument(doc, cat) && r == (if maxBytes > 0 && |Text(doc)| > maxBytes then TooLarge else Encoded(Text(doc)))
  {
    var doc := Document(cat);
    var facets := SortedKeys(doc.byFacet.Keys);
    var modules := SortedKeys(doc.byModule.Keys);
    var data := Print(Obj(DocFields(doc, facets, modules)), 0) + "\n";
    assert data == Text(doc);
    r := if maxBytes > 0 && |data| > maxBytes then TooLarge else Encoded(data);
  }

  // The preflight never changes the verdict: the encoder refuses exactly when the full
  // document is larger than the maximum, and otherwise returns it whole.
  method EncodeBounded(cat: Option<Catalog>, maxBytes: int) returns (r: Encoded)
    requires maxBytes < 0x8000_0000_0000_0000
    requires cat.Some? ==> ReasonsStated(cat.value)
    ensures r.BadLimit? <==> maxBytes <= 0
    ensures var c := if cat.Some? then cat.value else EMPTY_CATALOG;
      forall doc :: maxBytes > 0 && IsDocument(doc, c) ==> (r.TooLarge? <==> |Text(doc)| > maxBytes)
    ensures var c := if cat.Some? then cat.value else EMPTY_CATALOG;
      r.Encoded? ==> exists doc :: IsDocument(doc, c) && r.data == Text(doc)
  {
    if maxBytes <= 0 { return BadLimit; }
    var c := if cat.Some? then cat.value else EMPTY_CATALOG;
    var b := LowerBound(cat, maxBytes);
    if b.exceeded {
      forall doc | IsDocument(doc, c) ensures |Text(doc)| > maxBytes { ChargesAreEmitted(c, doc); }
      return TooLarge;
    }
    r := Encode(c, maxBytes);
    ghost var made :| IsDocument(made, c)
      && r == (if maxBytes > 0 && |Text(made)| > maxBytes then TooLarge else Encoded(Text(made)));
    forall doc | IsDocument(doc, c) ensures |Text(doc)| == |Text(made)| { TextLengthIsFixed(doc, made); }
  }

  // ---- the hypothesis on reasons ----

  // rests_on as its decoder builds it: a list of ids, a stated absence with its reason, or
  // nothing.
  datatype RestsOnNode = Absent | Ids(ids: seq<string>) | Mapping(none: bool, reason: string, hasIds: bool)
  datatype RestsOn = RestsOn(none: bool, reason: string, ids: seq<string>)

  function DecodeRestsOn(n: RestsOnNode): Option<RestsOn> {
    match n
    case Absent => Some(RestsOn(false, "", []))
    case Ids(ids) => Some(RestsOn(false, "", ids))
    case Mapping(none, reason, hasIds) => if !none || hasIds then None else Some(RestsOn(true, reason, []))
  }

  // A reason, and an absence, come from a mapping that states it and names no targets.
  lemma DecodedReasonsAreStated(n: RestsOnNode)
    ensures DecodeRestsOn(n).Some? && DecodeRestsOn(n).value.reason != "" ==> DecodeRestsOn(n).value.none
    ensures DecodeRestsOn(n).Some? ==>
      var r := DecodeRestsOn(n).value;
      (r.none <==> n.Mapping?) && (r.ids != [] ==> n.Ids? && r.ids == n.ids) && (r.none ==> r.reason == n.reason)
    ensures DecodeRestsOn(n).None? <==> n.Mapping? && !(n.none && !n.hasIds)
  {
  }

  lemma {:induction false} EscapeIsNoShorter(s: string, i: nat)
    requires i <= |s|
    ensures |Escape(s, i)| >= |s| - i
    decreases |s| - i
  {
    if i == |s| {
    } else {
      PieceLength(s, i);
      EscapeIsNoShorter(s, i + Step(s, i));
    }
  }

  // Without the hypothesis the walk charges a reason the document leaves out: this
  // catalog's text is 202 bytes and is charged more.
  lemma UnstatedReasonIsOvercharged(reason: string)
    requires |reason| >= 14
    ensures var cat := Catalog([Claim("", "", "", "", "", "", false, reason, [])], map[], map[], map[], map[]);
            var doc := Doc([Entry("", "", "", "", "", "", [], false, "", 0, None, None)], map[], map[]);
      IsDocument(doc, cat) && |Text(doc)| == 202 && Charges(cat) > 202
  {
    var cat := Catalog([Claim("", "", "", "", "", "", false, reason, [])], map[], map[], map[], map[]);
    var e := Entry("", "", "", "", "", "", [], false, "", 0, None, None);
    var doc := Doc([e], map[], map[]);
    OneClaimDocument(cat, doc, e, reason);
    EmptyEntryLength(e);
    assert EntriesJson([e])[1..] == [];
    PrintArray(EntriesJson([e]), 1);
    assert KeyOrder({}) == [] by { KeyOrderLists({}); }
    DocLength(Arr(EntriesJson([e])), Obj(MapFields(map[], [])), Obj(MapFields(map[], [])));
    EscapeIsNoShorter(reason, 0);
    assert cat.claims[1..] == [] && Total(cat.claims, ClaimCosts(cat)) == ClaimCost(cat, cat.claims[0]);
  }

  lemma OneClaimDocument(cat: Catalog, doc: Doc, e: Entry, reason: string)
    requires cat == Catalog([Claim("", "", "", "", "", "", false, reason, [])], map[], map[], map[], map[])
    requires e == Entry("", "", "", "", "", "", [], false, "", 0, None, None) && doc == Doc([e], map[], map[])
    ensures Exported(cat.claims) == cat.claims && IsDocument(doc, cat)
  {
    assert Exported(cat.claims) == cat.claims by { assert cat.claims[1..] == []; }
    assert Entries(cat) == [e];
    assert doc.byFacet == ExportedFacets(cat) && doc.byModule == ExportedModules(cat);
  }

  lemma EmptyEntryLength(e: Entry)
    requires e == Entry("", "", "", "", "", "", [], false, "", 0, None, None)
    ensures |Print(Obj(EntryFields(e)), 2)| == 138
  {
    var f6 := EntryTail(e);
    assert NoneLeft(f6.rest) && NoneLeft(EdgeFields(e));
    assert |PrintFields(f6, 3)| == 7 + 9 + 2;
    var f5 := Field(true, "kind", Str(""), f6);
    assert |PrintFields(f5, 3)| == 7 + 8 + 2 + 1 + |PrintFields(f6, 3)|;
    var f4 := Field(true, "layout", Str(""), f5);
    assert |PrintFields(f4, 3)| == 7 + 10 + 2 + 1 + |PrintFields(f5, 3)|;
    var f3 := Field(true, "status", Str(""), f4);
    assert |PrintFields(f3, 3)| == 7 + 10 + 2 + 1 + |PrintFields(f4, 3)|;
    var f2 := Field(true, "module", Str(""), f3);
    assert |PrintFields(f2, 3)| == 7 + 10 + 2 + 1 + |PrintFields(f3, 3)|;
    var f1 := Field(true, "facet", Str(""), f2);
    assert |PrintFields(f1, 3)| == 7 + 9 + 2 + 1 + |PrintFields(f2, 3)|;
    var f0 := Field(true, "id", Str(""), f1);
    assert |PrintFields(f0, 3)| == 7 + 6 + 2 + 1 + |PrintFields(f1, 3)|;
    assert EntryFields(e) == f0;
  }
}
