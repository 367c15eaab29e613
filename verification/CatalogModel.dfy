// The catalog, and the document it exports: internals claims left out, edges to them
// dropped and counted, and their ids redacted from readiness (internal/catalog,
// internal/visibility).
module CatalogModel {
  import opened GoStd

  const FACET_INTERNALS := "internals"
  const REDACTED := "(internals)"
  const WITHHELD := "withheld: authored on an internals claim"

  // kind is the resolved kind; none, reason and ids are rests_on.
  datatype Claim = Claim(id: string, facet: string, mod: string, status: string, layout: string, kind: string,
                         none: bool, reason: string, ids: seq<string>)

  // A []string that may be nil.
  type Slice = Option<seq<string>>

  datatype Condition = Condition(kind: string, dependencyID: string, path: Slice, detail: string)

  datatype Cause = Cause(kind: string, sourceKind: string, dependencyID: string, path: Slice, detail: string,
                         direct: bool, inherited: bool)

  datatype Assessment = Assessment(claimID: string, policyVersion: int, localApproved: bool, locallyApproved: bool,
                                   dependencyReady: bool, ready: bool, reviewPending: bool,
                                   dependencyConditions: seq<Condition>, conditions: seq<Condition>,
                                   reviewCauses: seq<Cause>, causes: seq<Cause>,
                                   localReasons: seq<string>, localApprovalIssue: string)

  datatype Value = NoValue | Scalar(s: string) | Set(values: Slice)

  datatype ObservationError = ObservationError(code: string, message: string)

  datatype Check = Check(id: string, adapter: string, target: string, shape: string, state: string, ready: bool,
                         expected: Value, observed: Value, missing: seq<string>, extra: seq<string>,
                         reason: string, error: Option<ObservationError>)

  datatype Result = Result(claimID: string, mode: string, ready: bool, checks: seq<Check>, reason: string)

  datatype Catalog = Catalog(claims: seq<Claim>, readiness: map<string, Assessment>, conformance: map<string, Result>,
                             byFacet: map<string, seq<string>>, byModule: map<string, seq<string>>)

  datatype Entry = Entry(id: string, facet: string, mod: string, status: string, layout: string, kind: string,
                         restsOn: seq<string>, none: bool, reason: string, omitted: nat,
                         readiness: Option<Assessment>, conformance: Option<Result>)

  datatype Doc = Doc(claims: seq<Entry>, byFacet: map<string, seq<string>>, byModule: map<string, seq<string>>)

  const EMPTY_CATALOG := Catalog([], map[], map[], map[], map[])

  // ---- visibility ----

  predicate IsInternals(c: Claim) { c.facet == FACET_INTERNALS }

  function InternalsIDs(claims: seq<Claim>): set<string> {
    set k | 0 <= k < |claims| && IsInternals(claims[k]) :: claims[k].id
  }

  function Exported(claims: seq<Claim>): seq<Claim> {
    if claims == [] then []
    else (if IsInternals(claims[0]) then [] else [claims[0]]) + Exported(claims[1..])
  }

  function DropInternals(ids: seq<string>, internals: set<string>): (r: seq<string>)
    ensures forall k :: 0 <= k < |r| ==> r[k] !in internals
    ensures |r| <= |ids|
  {
    if ids == [] then []
    else (if ids[0] in internals then [] else [ids[0]]) + DropInternals(ids[1..], internals)
  }

  method DropInternalsTargets(ids: seq<string>, internals: set<string>) returns (out: seq<string>)
    ensures out == DropInternals(ids, internals)
  {
    out := [];
    for k := 0 to |ids|
      invariant out + DropInternals(ids[k..], internals) == DropInternals(ids, internals)
    {
      NextKept(ids, k, internals, out);
      if ids[k] !in internals { out := out + [ids[k]]; }
    }
    assert ids[|ids|..] == [];
  }

  lemma NextKept(ids: seq<string>, k: nat, internals: set<string>, out: seq<string>)
    requires k < |ids|
    ensures out + DropInternals(ids[k..], internals) ==
      (if ids[k] in internals then out else out + [ids[k]]) + DropInternals(ids[k + 1..], internals)
  {
    var rest := DropInternals(ids[k + 1..], internals);
    assert ids[k..][1..] == ids[k + 1..] && ids[k..][0] == ids[k];
    assert [] + rest == rest;
    assert out + ([ids[k]] + rest) == (out + [ids[k]]) + rest;
  }

  // ---- redaction ----

  function RedactID(id: string, internals: set<string>): string { if id in internals then REDACTED else id }

  function RedactPath(p: Slice, internals: set<string>): (r: Slice)
    ensures r.Some? <==> p.Some?
    ensures p.Some? ==> |r.value| == |p.value| && forall k :: 0 <= k < |p.value| ==>
      r.value[k] == RedactID(p.value[k], internals)
  {
    if p.None? then None
    else Some(seq(|p.value|, k requires 0 <= k < |p.value| => RedactID(p.value[k], internals)))
  }

  function RedactCondition(c: Condition, internals: set<string>): Condition {
    c.(dependencyID := RedactID(c.dependencyID, internals), path := RedactPath(c.path, internals))
  }

  // The claim a cause's detail was authored on is internals.
  predicate DetailIsInternals(c: Cause, internals: set<string>) {
    && (c.sourceKind == "own_thread" || c.sourceKind == "own_flag")
    && c.path.Some? && c.path.value != [] && c.path.value[|c.path.value| - 1] in internals
  }

  function RedactCause(c: Cause, internals: set<string>): Cause {
    c.(detail := if DetailIsInternals(c, internals) then WITHHELD else c.detail,
       dependencyID := RedactID(c.dependencyID, internals), path := RedactPath(c.path, internals))
  }

  function RedactConditions(cs: seq<Condition>, internals: set<string>): (r: seq<Condition>)
    ensures |r| == |cs| && forall k :: 0 <= k < |cs| ==> r[k] == RedactCondition(cs[k], internals)
  {
    seq(|cs|, k requires 0 <= k < |cs| => RedactCondition(cs[k], internals))
  }

  function RedactCauses(cs: seq<Cause>, internals: set<string>): (r: seq<Cause>)
    ensures |r| == |cs| && forall k :: 0 <= k < |cs| ==> r[k] == RedactCause(cs[k], internals)
  {
    seq(|cs|, k requires 0 <= k < |cs| => RedactCause(cs[k], internals))
  }

  function Redact(a: Assessment, internals: set<string>): Assessment {
    if internals == {} then a
    else a.(dependencyConditions := RedactConditions(a.dependencyConditions, internals),
            conditions := RedactConditions(a.conditions, internals),
            reviewCauses := RedactCauses(a.reviewCauses, internals),
            causes := RedactCauses(a.causes, internals))
  }

  // ---- the document ----

  function EntryOf(cat: Catalog, c: Claim, internals: set<string>): Entry {
    var kept := DropInternals(c.ids, internals);
    Entry(c.id, c.facet, c.mod, c.status, c.layout, c.kind, kept, c.none, if c.none then c.reason else "",
          |c.ids| - |kept|,
          if c.id in cat.readiness then Some(Redact(cat.readiness[c.id], internals)) else None,
          if c.id in cat.conformance then Some(cat.conformance[c.id]) else None)
  }

  function Entries(cat: Catalog): (r: seq<Entry>)
    ensures |r| == |Exported(cat.claims)|
    ensures forall k :: 0 <= k < |r| ==> r[k] == EntryOf(cat, Exported(cat.claims)[k], InternalsIDs(cat.claims))
  {
    var claims := Exported(cat.claims);
    seq(|claims|, k requires 0 <= k < |claims| => EntryOf(cat, claims[k], InternalsIDs(cat.claims)))
  }

  predicate ById(a: Entry, b: Entry) { StrLe(a.id, b.id) }

  function ExportedIDs(ids: seq<string>, internals: set<string>): seq<string> {
    SortStrings(DropInternals(ids, internals))
  }

  function ExportedLists(all: map<string, seq<string>>, skip: set<string>, internals: set<string>)
    : map<string, seq<string>>
  {
    map f | f in all && f !in skip :: ExportedIDs(all[f], internals)
  }

  function ExportedFacets(cat: Catalog): map<string, seq<string>> {
    ExportedLists(cat.byFacet, {FACET_INTERNALS}, InternalsIDs(cat.claims))
  }

  function ExportedModules(cat: Catalog): map<string, seq<string>> {
    ExportedLists(cat.byModule, {}, InternalsIDs(cat.claims))
  }

  // Entries of one id may come in any order: the sort is not stable.
  ghost predicate IsDocument(doc: Doc, cat: Catalog) {
    && multiset(doc.claims) == multiset(Entries(cat)) && SortedBy(doc.claims, ById)
    && doc.byFacet == ExportedFacets(cat) && doc.byModule == ExportedModules(cat)
  }

  // No internals id is named by an exported edge, cause, condition, path or listing.
  ghost predicate NamesNone(ids: seq<string>, internals: set<string>) {
    forall k :: 0 <= k < |ids| ==> ids[k] !in internals
  }

  ghost predicate ConditionNamesNone(c: Condition, internals: set<string>) {
    c.dependencyID !in internals && (c.path.Some? ==> NamesNone(c.path.value, internals))
  }

  ghost predicate CauseNamesNone(c: Cause, internals: set<string>) {
    c.dependencyID !in internals && (c.path.Some? ==> NamesNone(c.path.value, internals))
  }

  ghost predicate AssessmentNamesNone(a: Assessment, internals: set<string>) {
    && (forall k :: 0 <= k < |a.dependencyConditions| ==> ConditionNamesNone(a.dependencyConditions[k], internals))
    && (forall k :: 0 <= k < |a.conditions| ==> ConditionNamesNone(a.conditions[k], internals))
    && (forall k :: 0 <= k < |a.reviewCauses| ==> CauseNamesNone(a.reviewCauses[k], internals))
    && (forall k :: 0 <= k < |a.causes| ==> CauseNamesNone(a.causes[k], internals))
  }

  ghost predicate EntryNamesNone(e: Entry, internals: set<string>) {
    && e.facet != FACET_INTERNALS && NamesNone(e.restsOn, internals)
    && (e.readiness.Some? ==> AssessmentNamesNone(e.readiness.value, internals))
  }

  lemma {:induction false} ExportedAreVisible(claims: seq<Claim>)
    ensures forall k :: 0 <= k < |Exported(claims)| ==> !IsInternals(Exported(claims)[k])
  {
    if claims == [] {
    } else {
      ExportedAreVisible(claims[1..]);
    }
  }

  lemma EntryIsRedacted(cat: Catalog, c: Claim)
    requires !IsInternals(c) && REDACTED !in InternalsIDs(cat.claims)
    ensures EntryNamesNone(EntryOf(cat, c, InternalsIDs(cat.claims)), InternalsIDs(cat.claims))
  {
    if c.id in cat.readiness { RedactedNamesNone(cat.readiness[c.id], InternalsIDs(cat.claims)); }
  }

  lemma RedactedNamesNone(a: Assessment, internals: set<string>)
    requires REDACTED !in internals
    ensures AssessmentNamesNone(Redact(a, internals), internals)
  {
  }

  // The ids of the claims in the internals facet.
  ghost function HiddenIDs(claims: seq<Claim>): set<string> {
    set c | c in claims && c.facet == "internals" :: c.id
  }

  lemma InternalsAre(claims: seq<Claim>)
    ensures InternalsIDs(claims) == HiddenIDs(claims)
  {
    forall k | 0 <= k < |claims| && claims[k].facet == "internals" ensures claims[k].id in HiddenIDs(claims) {
      assert claims[k] in claims;
    }
  }

  lemma NoInternalsNamed(doc: Doc, cat: Catalog)
    requires IsDocument(doc, cat)
    requires REDACTED !in HiddenIDs(cat.claims)
    ensures var internals := HiddenIDs(cat.claims);
      && (forall k :: 0 <= k < |doc.claims| ==> EntryNamesNone(doc.claims[k], internals))
      && FACET_INTERNALS !in doc.byFacet
      && (forall f :: f in doc.byFacet ==> NamesNone(doc.byFacet[f], internals))
      && (forall m :: m in doc.byModule ==> NamesNone(doc.byModule[m], internals))
  {
    var internals := InternalsIDs(cat.claims);
    InternalsAre(cat.claims);
    ExportedAreVisible(cat.claims);
    forall k | 0 <= k < |doc.claims| ensures EntryNamesNone(doc.claims[k], internals) {
      assert doc.claims[k] in multiset(Entries(cat));
      var j :| 0 <= j < |Entries(cat)| && Entries(cat)[j] == doc.claims[k];
      EntryIsRedacted(cat, Exported(cat.claims)[j]);
    }
    hide EntryNamesNone, Entries, Exported;
    forall f | f in doc.byFacet ensures NamesNone(doc.byFacet[f], internals)
    {
      SortNamesNone(cat.byFacet[f], internals);
    }
    forall m | m in doc.byModule ensures NamesNone(doc.byModule[m], internals)
    {
      SortNamesNone(cat.byModule[m], internals);
    }
  }

  lemma SortNamesNone(ids: seq<string>, internals: set<string>)
    ensures NamesNone(ExportedIDs(ids, internals), internals)
  {
    var kept, sorted := DropInternals(ids, internals), ExportedIDs(ids, internals);
    forall k | 0 <= k < |sorted| ensures sorted[k] !in internals { assert sorted[k] in multiset(kept); }
  }

  // One path, but for the internals ids in it.
  ghost predicate SamePlaces(p: Slice, r: Slice, internals: set<string>) {
    && (p.Some? <==> r.Some?)
    && (p.Some? ==> |r.value| == |p.value| && forall k :: 0 <= k < |p.value| && p.value[k] !in internals ==>
          r.value[k] == p.value[k])
  }

  ghost predicate SameCondition(c: Condition, r: Condition, internals: set<string>) {
    && r.kind == c.kind && r.detail == c.detail && SamePlaces(c.path, r.path, internals)
    && (c.dependencyID !in internals ==> r.dependencyID == c.dependencyID)
  }

  ghost predicate SameCause(c: Cause, r: Cause, internals: set<string>) {
    && r.kind == c.kind && r.sourceKind == c.sourceKind && r.direct == c.direct && r.inherited == c.inherited
    && SamePlaces(c.path, r.path, internals)
    && (c.dependencyID !in internals ==> r.dependencyID == c.dependencyID)
    && (!DetailIsInternals(c, internals) ==> r.detail == c.detail)
  }

  // Redaction withholds identities, never facts: each record keeps its kind, its booleans
  // and its place, so a claim blocked by an internals claim still reads blocked.
  lemma RedactionKeepsFacts(a: Assessment, internals: set<string>)
    ensures var r := Redact(a, internals);
      && r.(dependencyConditions := a.dependencyConditions, conditions := a.conditions, reviewCauses := a.reviewCauses,
          causes := a.causes) == a
      && |r.conditions| == |a.conditions| && |r.dependencyConditions| == |a.dependencyConditions|
      && |r.causes| == |a.causes| && |r.reviewCauses| == |a.reviewCauses|
      && (forall k :: 0 <= k < |a.causes| ==> SameCause(a.causes[k], r.causes[k], internals))
      && (forall k :: 0 <= k < |a.reviewCauses| ==> SameCause(a.reviewCauses[k], r.reviewCauses[k], internals))
      && (forall k :: 0 <= k < |a.conditions| ==> SameCondition(a.conditions[k], r.conditions[k], internals))
      && (forall k :: 0 <= k < |a.dependencyConditions| ==>
            SameCondition(a.dependencyConditions[k], r.dependencyConditions[k], internals))
  {
    hide SameCause, SameCondition, RedactCause, RedactCondition;
    forall c: Cause ensures SameCause(c, RedactCause(c, internals), internals) { CauseKeepsFacts(c, internals); }
    forall c: Condition ensures SameCondition(c, RedactCondition(c, internals), internals)
    {
      ConditionKeepsFacts(c, internals);
    }
    forall c: Cause ensures SameCause(c, c, internals) { CauseKeepsFacts(c, internals); }
    forall c: Condition ensures SameCondition(c, c, internals) { ConditionKeepsFacts(c, internals); }
  }

  lemma CauseKeepsFacts(c: Cause, internals: set<string>)
    ensures SameCause(c, RedactCause(c, internals), internals) && SameCause(c, c, internals)
  {
  }

  lemma ConditionKeepsFacts(c: Condition, internals: set<string>)
    ensures SameCondition(c, RedactCondition(c, internals), internals) && SameCondition(c, c, internals)
  {
  }

  // ---- what a document lists ----

  // The ids left of a list, each as often as it was there, sorted.
  ghost predicate ListsVisible(out: seq<string>, ids: seq<string>, internals: set<string>) {
    && (forall id :: multiset(out)[id] == if id in internals then 0 else multiset(ids)[id])
    && forall i, j :: 0 <= i < j < |out| ==> StrLe(out[i], out[j])
  }

  // An entry says of its claim what it may: its fields, its visible edges in order and how
  // many are left out, and what was assessed of it.
  ghost predicate Tells(e: Entry, cat: Catalog, c: Claim) {
    && e.id == c.id && e.facet == c.facet && e.mod == c.mod && e.status == c.status && e.layout == c.layout
    && e.kind == c.kind && e.none == c.none && e.reason == (if c.none then c.reason else "")
    && e.omitted + |e.restsOn| == |c.ids| && IsVisible(e.restsOn, c.ids, HiddenIDs(cat.claims))
    && (e.readiness.Some? <==> c.id in cat.readiness)
    && (e.readiness.Some? ==> e.readiness.value == Redact(cat.readiness[c.id], HiddenIDs(cat.claims)))
    && (e.conformance.Some? <==> c.id in cat.conformance)
    && (e.conformance.Some? ==> e.conformance.value == cat.conformance[c.id])
  }

  // out is ids without the hidden ones, in order.
  ghost predicate IsVisible(out: seq<string>, ids: seq<string>, hidden: set<string>) {
    if ids == [] then out == []
    else if ids[0] in hidden then IsVisible(out, ids[1..], hidden)
    else out != [] && out[0] == ids[0] && IsVisible(out[1..], ids[1..], hidden)
  }

  lemma {:induction false} DropIsVisible(ids: seq<string>, hidden: set<string>)
    ensures IsVisible(DropInternals(ids, hidden), ids, hidden)
    ensures forall id :: multiset(DropInternals(ids, hidden))[id] == if id in hidden then 0 else multiset(ids)[id]
  {
    if ids == [] {
    } else {
      DropIsVisible(ids[1..], hidden);
      var rest := DropInternals(ids[1..], hidden);
      assert ids == [ids[0]] + ids[1..];
      assert ([ids[0]] + rest)[1..] == rest && [] + rest == rest;
    }
  }

  lemma {:induction false} ExportedAre(claims: seq<Claim>)
    ensures forall c :: multiset(Exported(claims))[c] == if c.facet == "internals" then 0 else multiset(claims)[c]
  {
    if claims == [] {
    } else {
      ExportedAre(claims[1..]);
      assert claims == [claims[0]] + claims[1..];
    }
  }

  lemma EntryTells(cat: Catalog, c: Claim)
    ensures Tells(EntryOf(cat, c, InternalsIDs(cat.claims)), cat, c)
  {
    InternalsAre(cat.claims);
    DropIsVisible(c.ids, InternalsIDs(cat.claims));
  }

  // One entry for each claim outside the internals facet, and no other, sorted by id.
  lemma DocumentLists(doc: Doc, cat: Catalog)
    requires IsDocument(doc, cat)
    ensures exists claims: seq<Claim> ::
      && |claims| == |doc.claims| && (forall k :: 0 <= k < |claims| ==> Tells(doc.claims[k], cat, claims[k]))
      && forall c :: multiset(claims)[c] == if c.facet == "internals" then 0 else multiset(cat.claims)[c]
    ensures forall i, j :: 0 <= i < j < |doc.claims| ==> StrLe(doc.claims[i].id, doc.claims[j].id)
  {
    hide Tells, Exported, EntryOf, ExportedFacets, ExportedModules;
    ExportedAre(cat.claims);
    var from := Exported(cat.claims);
    forall k | 0 <= k < |from| ensures Tells(Entries(cat)[k], cat, from[k]) { EntryTells(cat, from[k]); }
    var claims := Matched(doc.claims, Entries(cat), from, cat);
    assert forall c :: multiset(claims)[c] == multiset(from)[c];
    forall i, j | 0 <= i < j < |doc.claims| ensures StrLe(doc.claims[i].id, doc.claims[j].id) {
      assert ById(doc.claims[i], doc.claims[j]);
    }
  }

  // Entries rearranged take their claims along.
  lemma {:induction false} Matched(out: seq<Entry>, es: seq<Entry>, from: seq<Claim>, cat: Catalog)
    returns (claims: seq<Claim>)
    requires multiset(out) == multiset(es) && |es| == |from| && forall k :: 0 <= k < |es| ==> Tells(es[k], cat, from[k])
    ensures |claims| == |out| && multiset(claims) == multiset(from)
    ensures forall k :: 0 <= k < |out| ==> Tells(out[k], cat, claims[k])
    decreases |out|
  {
    hide Tells;
    MultisetSize(out, es);
    if out == [] {
      claims := [];
    } else {
      var k := FirstTaken(out, es);
      StillTell(es, from, k, cat);
      var rest := Matched(out[1..], es[..k] + es[k + 1..], from[..k] + from[k + 1..], cat);
      claims := [from[k]] + rest;
      TakenOut(from, k);
    }
  }

  lemma FirstTaken<T>(out: seq<T>, es: seq<T>) returns (k: nat)
    requires out != [] && multiset(out) == multiset(es)
    ensures k < |es| && es[k] == out[0] && multiset(out[1..]) == multiset(es[..k] + es[k + 1..])
  {
    k := IndexIn(es, out[0], out);
    TailWithout(out);
    TakenOut(es, k);
  }

  lemma IndexIn<T>(es: seq<T>, x: T, out: seq<T>) returns (k: nat)
    requires x in out && multiset(out) == multiset(es)
    ensures k < |es| && es[k] == x
  {
    assert x in multiset(es);
    k :| 0 <= k < |es| && es[k] == x;
  }

  lemma TailWithout<T>(s: seq<T>)
    requires s != []
    ensures multiset(s[1..]) == multiset(s) - multiset{s[0]}
  {
    assert s == [s[0]] + s[1..];
  }

  lemma StillTell(es: seq<Entry>, from: seq<Claim>, k: nat, cat: Catalog)
    requires k < |es| == |from| && forall i :: 0 <= i < |es| ==> Tells(es[i], cat, from[i])
    ensures var es', from' := es[..k] + es[k + 1..], from[..k] + from[k + 1..];
      |es'| == |from'| && forall i :: 0 <= i < |es'| ==> Tells(es'[i], cat, from'[i])
  {
    hide Tells;
    var es', from' := es[..k] + es[k + 1..], from[..k] + from[k + 1..];
    forall i | 0 <= i < |es'| ensures Tells(es'[i], cat, from'[i]) {
      var j := if i < k then i else i + 1;
      assert es'[i] == es[j] && from'[i] == from[j];
    }
  }

  lemma TakenOut<T>(s: seq<T>, k: nat)
    requires k < |s|
    ensures multiset(s) == multiset{s[k]} + multiset(s[..k] + s[k + 1..])
    ensures multiset(s[..k] + s[k + 1..]) == multiset(s) - multiset{s[k]}
  {
    assert s == s[..k] + [s[k]] + s[k + 1..];
  }

  // The facet and module listings: every facet but internals and every module, each with
  // its ids that are not internals, sorted.
  lemma DocumentIndexes(doc: Doc, cat: Catalog)
    requires IsDocument(doc, cat)
    ensures doc.byFacet.Keys == cat.byFacet.Keys - {"internals"} && doc.byModule.Keys == cat.byModule.Keys
    ensures forall f :: f in doc.byFacet ==> ListsVisible(doc.byFacet[f], cat.byFacet[f], HiddenIDs(cat.claims))
    ensures forall m :: m in doc.byModule ==> ListsVisible(doc.byModule[m], cat.byModule[m], HiddenIDs(cat.claims))
  {
    InternalsAre(cat.claims);
    hide InternalsIDs, ListsVisible, ExportedIDs, HiddenIDs;
    forall f | f in doc.byFacet ensures ListsVisible(doc.byFacet[f], cat.byFacet[f], HiddenIDs(cat.claims)) {
      ExportedIDsAre(cat.byFacet[f], InternalsIDs(cat.claims));
    }
    forall m | m in doc.byModule ensures ListsVisible(doc.byModule[m], cat.byModule[m], HiddenIDs(cat.claims)) {
      ExportedIDsAre(cat.byModule[m], InternalsIDs(cat.claims));
    }
  }

  lemma ExportedIDsAre(ids: seq<string>, internals: set<string>)
    ensures ListsVisible(ExportedIDs(ids, internals), ids, internals)
  {
    hide StrLe;
    DropIsVisible(ids, internals);
    SortStringsSorted(DropInternals(ids, internals));
  }

  // ---- what redaction withholds ----

  // The prose of an own thread or an own flag, on a path that ends in an internals claim.
  ghost predicate Private(kind: string, p: Slice, internals: set<string>) {
    && (kind == "own_thread" || kind == "own_flag")
    && p.Some? && |p.value| > 0 && p.value[|p.value| - 1] in internals
  }

  // Two causes alike but for private prose.
  ghost predicate AlikeCause(c: Cause, d: Cause, internals: set<string>) {
    if Private(c.sourceKind, c.path, internals) then c.(detail := d.detail) == d else c == d
  }

  ghost predicate AlikeCauses(cs: seq<Cause>, ds: seq<Cause>, internals: set<string>) {
    |cs| == |ds| && forall k :: 0 <= k < |cs| ==> AlikeCause(cs[k], ds[k], internals)
  }

  ghost predicate AlikeAssessment(a: Assessment, b: Assessment, internals: set<string>) {
    && a.(reviewCauses := b.reviewCauses, causes := b.causes) == b
    && AlikeCauses(a.reviewCauses, b.reviewCauses, internals) && AlikeCauses(a.causes, b.causes, internals)
  }

  ghost predicate AlikeCatalog(c: Catalog, d: Catalog) {
    && c.(readiness := d.readiness) == d && c.readiness.Keys == d.readiness.Keys
    && forall id :: id in c.readiness ==> AlikeAssessment(c.readiness[id], d.readiness[id], HiddenIDs(c.claims))
  }

  lemma CausesRedactAlike(cs: seq<Cause>, ds: seq<Cause>, internals: set<string>)
    requires AlikeCauses(cs, ds, internals)
    ensures RedactCauses(cs, internals) == RedactCauses(ds, internals)
  {
    forall k | 0 <= k < |cs| ensures RedactCause(cs[k], internals) == RedactCause(ds[k], internals) {
      assert AlikeCause(cs[k], ds[k], internals);
      assert cs[k].(detail := ds[k].detail) == ds[k];
    }
  }

  lemma RedactsAlike(a: Assessment, b: Assessment, internals: set<string>)
    requires AlikeAssessment(a, b, internals) && internals != {}
    ensures Redact(a, internals) == Redact(b, internals)
  {
    CausesRedactAlike(a.reviewCauses, b.reviewCauses, internals);
    CausesRedactAlike(a.causes, b.causes, internals);
    var mid := a.(reviewCauses := b.reviewCauses, causes := b.causes);
    assert Redact(a, internals) == Redact(mid, internals);
  }

  lemma NoInternalsAlike(a: Assessment, b: Assessment)
    requires AlikeAssessment(a, b, {})
    ensures a == b
  {
    forall k | 0 <= k < |a.causes| ensures a.causes[k] == b.causes[k]
    {
      assert AlikeCause(a.causes[k], b.causes[k], {});
    }
    forall k | 0 <= k < |a.reviewCauses| ensures a.reviewCauses[k] == b.reviewCauses[k] {
      assert AlikeCause(a.reviewCauses[k], b.reviewCauses[k], {});
    }
    assert a.reviewCauses == b.reviewCauses && a.causes == b.causes;
  }

  // The document does not depend on what is private: two catalogs that differ in private
  // prose alone have the same documents.
  lemma PrivateProseIsNotExported(c: Catalog, d: Catalog, doc: Doc)
    requires AlikeCatalog(c, d)
    ensures IsDocument(doc, c) <==> IsDocument(doc, d)
  {
    var internals := InternalsIDs(c.claims);
    InternalsAre(c.claims);
    assert d.claims == c.claims && d.conformance == c.conformance && d.byFacet == c.byFacet && d.byModule == c.byModule;
    forall id | id in c.readiness ensures Redact(c.readiness[id], internals) == Redact(d.readiness[id], internals) {
      if internals == {} { NoInternalsAlike(c.readiness[id], d.readiness[id]); }
      else { RedactsAlike(c.readiness[id], d.readiness[id], internals); }
    }
    hide Redact, InternalsIDs, DropInternals, Exported;
    forall k | 0 <= k < |Entries(c)| ensures Entries(c)[k] == Entries(d)[k] {
      var claim := Exported(c.claims)[k];
      assert claim.id in c.readiness <==> claim.id in d.readiness;
    }
    assert Entries(c) == Entries(d);
  }

  // In its place stands one fixed text; every other detail is as it was.
  lemma PrivateProseIsWithheld(a: Assessment, internals: set<string>)
    ensures var r := Redact(a, internals);
      && |r.causes| == |a.causes| && |r.reviewCauses| == |a.reviewCauses|
      && (forall k :: 0 <= k < |a.causes| ==>
            r.causes[k].detail == if Private(a.causes[k].sourceKind, a.causes[k].path, internals)
                                  then "withheld: authored on an internals claim" else a.causes[k].detail)
      && (forall k :: 0 <= k < |a.reviewCauses| ==>
            r.reviewCauses[k].detail == if Private(a.reviewCauses[k].sourceKind, a.reviewCauses[k].path, internals)
                                        then "withheld: authored on an internals claim" else a.reviewCauses[k].detail)
  {
  }

  lemma ByIdIsOrder()
    ensures IsOrder(ById)
  {
    StrLeIsOrder();
  }

  method ExportEntries(cat: Catalog) returns (entries: seq<Entry>)
    ensures entries == Entries(cat)
  {
    var internals := InternalsIDs(cat.claims);
    entries := [];
    ghost var kept: seq<Claim> := [];
    for k := 0 to |cat.claims|
      invariant kept + Exported(cat.claims[k..]) == Exported(cat.claims)
      invariant |entries| == |kept| && forall i :: 0 <= i < |kept| ==> entries[i] == EntryOf(cat, kept[i], internals)
    {
      var c := cat.claims[k];
      assert cat.claims[k..][1..] == cat.claims[k + 1..] && cat.claims[k..][0] == c;
      if IsInternals(c) {
        assert [] + Exported(cat.claims[k + 1..]) == Exported(cat.claims[k..]);
        continue;
      }
      assert (kept + [c]) + Exported(cat.claims[k + 1..]) == kept + ([c] + Exported(cat.claims[k + 1..]));
      entries, kept := entries + [EntryOf(cat, c, internals)], kept + [c];
    }
    assert cat.claims[|cat.claims|..] == [] && kept + [] == kept;
  }

  method Document(cat: Catalog) returns (doc: Doc)
    ensures IsDocument(doc, cat)
  {
    var internals := InternalsIDs(cat.claims);
    var entries := ExportEntries(cat);
    ByIdIsOrder();
    SortBySorted(entries, ById);
    var facets := ExportLists(cat.byFacet, {FACET_INTERNALS}, internals);
    var modules := ExportLists(cat.byModule, {}, internals);
    doc := Doc(SortBy(entries, ById), facets, modules);
  }

  lemma ExportStep(all: map<string, seq<string>>, left: set<string>, f: string, skip: set<string>,
                   internals: set<string>)
    requires f in all && f in left
    ensures var out := ExportedLists(all, left + skip, internals);
      ExportedLists(all, (left - {f}) + skip, internals) ==
        if f in skip then out else out[f := ExportedIDs(all[f], internals)]
  {
    hide ExportedIDs;
    var out, next := ExportedLists(all, left + skip, internals), ExportedLists(all, (left - {f}) + skip, internals);
    assert next.Keys == if f in skip then out.Keys else out.Keys + {f};
  }

  method ExportLists(all: map<string, seq<string>>, skip: set<string>, internals: set<string>)
    returns (out: map<string, seq<string>>)
    ensures out == ExportedLists(all, skip, internals)
  {
    out := map[];
    var keys := all.Keys;
    while keys != {}
      invariant keys <= all.Keys
      invariant out == ExportedLists(all, keys + skip, internals)
      decreases |keys|
    {
      var f :| f in keys;
      ExportStep(all, keys, f, skip, internals);
      keys := keys - {f};
      if f in skip { continue; }
      var kept := DropInternalsTargets(all[f], internals);
      out := out[f := SortStrings(kept)];
    }
    assert {} + skip == skip;
  }
}
