// catalog.json, whole: what it prints for a document, and that the capacity walk's charges
// never exceed it (internal/catalog/catalog.go).
module CatalogText {
  import opened GoStd
  import opened JsonText
  import opened JsonPrint
  import opened CatalogModel
  import opened CatalogJson

  // ---- one entry ----

  function EdgeFields(e: Entry): Fields {
    Field(e.restsOn != [], "rests_on", Arr(Strings(e.restsOn)),
    Field(e.none, "rests_on_none", Lit("true"),
    Field(e.reason != "", "rests_on_reason", Str(e.reason),
    Field(e.omitted > 0, "rests_on_internals_omitted", Lit(DecimalText(e.omitted)), End))))
  }

  function ReadinessJson(a: Option<Assessment>): Json {
    if a.None? then Lit("null") else Obj(AssessmentFields(a.value))
  }

  function ConformanceJson(r: Option<Result>): Json { if r.None? then Lit("null") else Obj(ResultFields(r.value)) }

  function EntryTail(e: Entry): Fields {
    Field(true, "edges", Obj(EdgeFields(e)),
    Field(e.readiness.Some?, "readiness", ReadinessJson(e.readiness),
    Field(e.conformance.Some?, "conformance", ConformanceJson(e.conformance), End)))
  }

  function EntryFields(e: Entry): Fields {
    Field(true, "id", Str(e.id),
    Field(true, "facet", Str(e.facet),
    Field(true, "module", Str(e.mod),
    Field(true, "status", Str(e.status),
    Field(true, "layout", Str(e.layout),
    Field(true, "kind", Str(e.kind), EntryTail(e)))))))
  }

  // ---- the members of an entry, in order, under the names a reader knows ----

  lemma EdgeMembers(e: Entry)
    ensures Members(EdgeFields(e)) ==
      (if e.restsOn != [] then [("rests_on", Arr(Strings(e.restsOn)))] else [])
      + (if e.none then [("rests_on_none", Lit("true"))] else [])
      + (if e.reason != "" then [("rests_on_reason", Str(e.reason))] else [])
      + (if e.omitted > 0 then [("rests_on_internals_omitted", Lit(DecimalText(e.omitted)))] else [])
  {
    var f3 := Field(e.omitted > 0, "rests_on_internals_omitted", Lit(DecimalText(e.omitted)), End);
    var f2 := Field(e.reason != "", "rests_on_reason", Str(e.reason), f3);
    var f1 := Field(e.none, "rests_on_none", Lit("true"), f2);
    hide Members;
    MembersOf(e.omitted > 0, "rests_on_internals_omitted", Lit(DecimalText(e.omitted)), End);
    MembersOf(e.reason != "", "rests_on_reason", Str(e.reason), f3);
    MembersOf(e.none, "rests_on_none", Lit("true"), f2);
    MembersOf(e.restsOn != [], "rests_on", Arr(Strings(e.restsOn)), f1);
  }

  lemma EntryTailMembers(e: Entry)
    ensures Members(EntryTail(e)) ==
      [("edges", Obj(EdgeFields(e)))]
      + (if e.readiness.Some? then [("readiness", ReadinessJson(e.readiness))] else [])
      + (if e.conformance.Some? then [("conformance", ConformanceJson(e.conformance))] else [])
  {
    var f2 := Field(e.conformance.Some?, "conformance", ConformanceJson(e.conformance), End);
    var f1 := Field(e.readiness.Some?, "readiness", ReadinessJson(e.readiness), f2);
    hide Members;
    MembersOf(e.conformance.Some?, "conformance", ConformanceJson(e.conformance), End);
    MembersOf(e.readiness.Some?, "readiness", ReadinessJson(e.readiness), f2);
    MembersOf(true, "edges", Obj(EdgeFields(e)), f1);
  }

  lemma EntryMembers(e: Entry)
    ensures Members(EntryFields(e)) ==
      [("id", Str(e.id)), ("facet", Str(e.facet)), ("module", Str(e.mod)), ("status", Str(e.status)),
        ("layout", Str(e.layout)), ("kind", Str(e.kind))]
      + Members(EntryTail(e))
  {
    var f5 := Field(true, "kind", Str(e.kind), EntryTail(e));
    var f4 := Field(true, "layout", Str(e.layout), f5);
    var f3 := Field(true, "status", Str(e.status), f4);
    var f2 := Field(true, "module", Str(e.mod), f3);
    var f1 := Field(true, "facet", Str(e.facet), f2);
    hide Members;
    MembersOf(true, "kind", Str(e.kind), EntryTail(e));
    MembersOf(true, "layout", Str(e.layout), f5);
    MembersOf(true, "status", Str(e.status), f4);
    MembersOf(true, "module", Str(e.mod), f3);
    MembersOf(true, "facet", Str(e.facet), f2);
    MembersOf(true, "id", Str(e.id), f1);
  }

  function ReadinessCost(a: Option<Assessment>): nat { if a.None? then 0 else AssessmentCost(a.value) }

  function ConformanceCost(r: Option<Result>): nat { if r.None? then 0 else ResultCost(r.value) }

  function EntryCost(e: Entry): nat {
    ENTRY + StringCost(e.id) + StringCost(e.facet) + StringCost(e.mod) + StringCost(e.status) + StringCost(e.layout)
      + StringCost(e.kind)
    + StringCost(e.reason) + StringsCost(e.restsOn) + ReadinessCost(e.readiness) + ConformanceCost(e.conformance)
  }

  lemma EdgesAtLeast(e: Entry)
    ensures Bare(Obj(EdgeFields(e))) >= 2 + StringCost(e.reason) + StringsCost(e.restsOn)
  {
    hide BareFields, Quoted;
    ArrayOfStrings(e.restsOn);
    Optional(e.omitted > 0, "rests_on_internals_omitted", Lit(DecimalText(e.omitted)), End);
    var f3 := Field(e.omitted > 0, "rests_on_internals_omitted", Lit(DecimalText(e.omitted)), End);
    OptString("rests_on_reason", e.reason, f3);
    var f2 := Field(e.reason != "", "rests_on_reason", Str(e.reason), f3);
    Optional(e.none, "rests_on_none", Lit("true"), f2);
    var f1 := Field(e.none, "rests_on_none", Lit("true"), f2);
    Optional(e.restsOn != [], "rests_on", Arr(Strings(e.restsOn)), f1);
    assert NoneLeft(f2) <==> e.reason == "" && NoneLeft(f3);
    assert NoneLeft(f1) ==> NoneLeft(f2);
    assert NoneLeft(EdgeFields(e)) ==> e.restsOn == [] && NoneLeft(f1);
  }

  lemma EntryTailAtLeast(e: Entry)
    ensures BareFields(EntryTail(e)) >= 11 + StringCost(e.reason) + StringsCost(e.restsOn) + ReadinessCost(e.readiness)
      + ConformanceCost(e.conformance)
    ensures Emitted(EntryTail(e)) >= 1
  {
    hide BareFields, Bare, Quoted;
    EdgesAtLeast(e);
    if e.readiness.Some? { AssessmentAtLeast(e.readiness.value); }
    if e.conformance.Some? { ResultAtLeast(e.conformance.value); }
    Optional(e.conformance.Some?, "conformance", ConformanceJson(e.conformance), End);
    var f2 := Field(e.conformance.Some?, "conformance", ConformanceJson(e.conformance), End);
    Optional(e.readiness.Some?, "readiness", ReadinessJson(e.readiness), f2);
    var f1 := Field(e.readiness.Some?, "readiness", ReadinessJson(e.readiness), f2);
    Present("edges", Obj(EdgeFields(e)), f1);
  }

  lemma EntryFieldsAtLeast(e: Entry)
    ensures BareFields(EntryFields(e)) + 67 >= EntryCost(e)
    ensures Emitted(EntryFields(e)) >= 7
  {
    hide BareFields, Bare, Quoted;
    EntryTailAtLeast(e);
    var f6 := EntryTail(e);
    PresentString("kind", e.kind, f6);
    var f5 := Field(true, "kind", Str(e.kind), f6);
    PresentString("layout", e.layout, f5);
    var f4 := Field(true, "layout", Str(e.layout), f5);
    PresentString("status", e.status, f4);
    var f3 := Field(true, "status", Str(e.status), f4);
    PresentString("module", e.mod, f3);
    var f2 := Field(true, "module", Str(e.mod), f3);
    PresentString("facet", e.facet, f2);
    var f1 := Field(true, "facet", Str(e.facet), f2);
    PresentString("id", e.id, f1);
    assert Emitted(f4) == 2 + Emitted(f6);
    assert Emitted(f2) == 2 + Emitted(f4);
    assert Emitted(EntryFields(e)) == 2 + Emitted(f2);
  }

  // An entry in place, its line break and indentation included, prints what it is charged.
  lemma EntryAtLeast(e: Entry)
    ensures 5 + |Print(Obj(EntryFields(e)), 2)| >= EntryCost(e)
  {
    EntryFieldsAtLeast(e);
    var fs := EntryFields(e);
    PrintFieldsAtLeast(fs, 3);
    assert Emitted(fs) * 8 >= 56;
  }

  // ---- the whole document ----

  function EntriesJson(es: seq<Entry>): seq<Json> { seq(|es|, k requires 0 <= k < |es| => Obj(EntryFields(es[k]))) }

  // A map's members in key order.
  function MapFields(m: map<string, seq<string>>, keys: seq<string>): Fields {
    if keys == [] then End
    else
      var list := if keys[0] in m then Arr(Strings(m[keys[0]])) else Arr([]);
      Field(true, Escape(keys[0], 0), list, MapFields(m, keys[1..]))
  }

  function DocFields(doc: Doc, facets: seq<string>, modules: seq<string>): Fields {
    Field(true, "claims", Arr(EntriesJson(doc.claims)),
    Field(true, "by_facet", Obj(MapFields(doc.byFacet, facets)),
    Field(true, "by_module", Obj(MapFields(doc.byModule, modules)), End)))
  }

  lemma {:induction false} MapMembers(m: map<string, seq<string>>, keys: seq<string>)
    requires forall k :: 0 <= k < |keys| ==> keys[k] in m
    ensures |Members(MapFields(m, keys))| == |keys|
    ensures forall k :: 0 <= k < |keys| ==>
      Members(MapFields(m, keys))[k] == (Escape(keys[k], 0), Arr(Strings(m[keys[k]])))
  {
    if keys == [] {
    } else {
      MapMembers(m, keys[1..]);
    }
  }

  lemma DocumentMembers(doc: Doc, facets: seq<string>, modules: seq<string>)
    ensures Members(DocFields(doc, facets, modules)) ==
      [("claims", Arr(EntriesJson(doc.claims))), ("by_facet", Obj(MapFields(doc.byFacet, facets))),
        ("by_module", Obj(MapFields(doc.byModule, modules)))]
  {
    var f2 := Field(true, "by_module", Obj(MapFields(doc.byModule, modules)), End);
    var f1 := Field(true, "by_facet", Obj(MapFields(doc.byFacet, facets)), f2);
    hide Members;
    MembersOf(true, "by_module", Obj(MapFields(doc.byModule, modules)), End);
    MembersOf(true, "by_facet", Obj(MapFields(doc.byFacet, facets)), f2);
    MembersOf(true, "claims", Arr(EntriesJson(doc.claims)), f1);
  }

  ghost function Text(doc: Doc): string {
    Print(Obj(DocFields(doc, KeyOrder(doc.byFacet.Keys), KeyOrder(doc.byModule.Keys))), 0) + "\n"
  }

  lemma DocLength(claims: Json, byFacet: Json, byModule: Json)
    ensures var fs := Field(true, "claims", claims,
      Field(true, "by_facet", byFacet, Field(true, "by_module", byModule, End)));
      |Print(Obj(fs), 0)| + 1 == 50 + |Print(claims, 1)| + |Print(byFacet, 1)| + |Print(byModule, 1)|
  {
    var f3 := Field(true, "by_module", byModule, End);
    var f2 := Field(true, "by_facet", byFacet, f3);
    var f1 := Field(true, "claims", claims, f2);
    assert |PrintFields(f3, 1)| == 16 + |Print(byModule, 1)|;
    assert |PrintFields(f2, 1)| == 15 + |Print(byFacet, 1)| + 1 + |PrintFields(f3, 1)|;
    assert |PrintFields(f1, 1)| == 13 + |Print(claims, 1)| + 1 + |PrintFields(f2, 1)|;
  }

  lemma {:induction false} EntriesLength(es: seq<Entry>)
    ensures ItemsLength(EntriesJson(es), 2) == Total(es, EntryLengths())
  {
    if es == [] {
    } else {
      EntriesLength(es[1..]);
      assert EntriesJson(es)[1..] == EntriesJson(es[1..]);
    }
  }

  function EntryLengths(): Entry -> nat { e => 5 + |Print(Obj(EntryFields(e)), 2)| }

  function EntryCosts(): Entry -> nat { e => EntryCost(e) }

  lemma {:induction false} EntriesAtLeast(es: seq<Entry>)
    ensures Total(es, EntryLengths()) >= Total(es, EntryCosts())
  {
    if es == [] {
    } else {
      EntryAtLeast(es[0]);
      EntriesAtLeast(es[1..]);
    }
  }

  // What the walk charges a map's key and its array.
  function ListCost(m: map<string, seq<string>>, k: string): nat {
    MAP_ENTRY + StringCost(k) + (if k in m then StringsCost(m[k]) else 0)
  }

  function ListCosts(m: map<string, seq<string>>): string -> nat { k => ListCost(m, k) }

  lemma {:induction false} MapAtLeast(m: map<string, seq<string>>, keys: seq<string>)
    requires forall k :: 0 <= k < |keys| ==> keys[k] in m
    ensures BareFields(MapFields(m, keys)) >= Total(keys, ListCosts(m)) + |keys|
    ensures NoneLeft(MapFields(m, keys)) <==> keys == []
  {
    if keys == [] {
    } else {
      hide Escape;
      MapAtLeast(m, keys[1..]);
      ArrayOfStrings(m[keys[0]]);
      assert |Quoted(keys[0])| == |Escape(keys[0], 0)| + 2;
    }
  }

  lemma MapPrintsAtLeast(m: map<string, seq<string>>)
    ensures |Print(Obj(MapFields(m, KeyOrder(m.Keys))), 1)| >= 2 + Total(KeyOrder(m.Keys), ListCosts(m))
  {
    var keys := KeyOrder(m.Keys);
    KeyOrderLists(m.Keys);
    MapAtLeast(m, keys);
    PrintAtLeastBare(Obj(MapFields(m, keys)), 1);
  }

  // No document is shorter than what its parts are charged.
  lemma TextAtLeast(doc: Doc)
    ensures |Text(doc)| >= MINIMAL + Total(doc.claims, EntryCosts())
      + Total(KeyOrder(doc.byFacet.Keys), ListCosts(doc.byFacet))
      + Total(KeyOrder(doc.byModule.Keys), ListCosts(doc.byModule))
  {
    var claims := Arr(EntriesJson(doc.claims));
    DocLength(claims, Obj(MapFields(doc.byFacet, KeyOrder(doc.byFacet.Keys))),
      Obj(MapFields(doc.byModule, KeyOrder(doc.byModule.Keys))));
    PrintArray(EntriesJson(doc.claims), 1);
    EntriesLength(doc.claims);
    EntriesAtLeast(doc.claims);
    MapPrintsAtLeast(doc.byFacet);
    MapPrintsAtLeast(doc.byModule);
  }

  // However entries of one id are ordered, the text is as long.
  lemma TextLengthIsFixed(a: Doc, b: Doc)
    requires multiset(a.claims) == multiset(b.claims) && a.byFacet == b.byFacet && a.byModule == b.byModule
    ensures |Text(a)| == |Text(b)|
  {
    var f, m := Obj(MapFields(a.byFacet, KeyOrder(a.byFacet.Keys))),
      Obj(MapFields(a.byModule, KeyOrder(a.byModule.Keys)));
    MultisetSize(a.claims, b.claims);
    DocLength(Arr(EntriesJson(a.claims)), f, m);
    DocLength(Arr(EntriesJson(b.claims)), f, m);
    PrintArray(EntriesJson(a.claims), 1);
    PrintArray(EntriesJson(b.claims), 1);
    EntriesLength(a.claims);
    EntriesLength(b.claims);
    TotalOfRearranged(a.claims, b.claims, EntryLengths());
  }

  // ---- the charges, in the catalog's own terms ----

  function ClaimCost(cat: Catalog, c: Claim): nat {
    var internals := InternalsIDs(cat.claims);
    ENTRY + StringCost(c.id) + StringCost(c.facet) + StringCost(c.mod) + StringCost(c.status) + StringCost(c.layout)
      + StringCost(c.kind)
    + StringCost(c.reason) + StringsCost(DropInternals(c.ids, internals))
    + (if c.id in cat.readiness then AssessmentCost(Redact(cat.readiness[c.id], internals)) else 0)
    + (if c.id in cat.conformance then ResultCost(cat.conformance[c.id]) else 0)
  }

  function ClaimCosts(cat: Catalog): Claim -> nat { c => ClaimCost(cat, c) }

  // The key and the ids of one facet or module that the document keeps.
  function KeyCost(all: map<string, seq<string>>, internals: set<string>, k: string): nat {
    MAP_ENTRY + StringCost(k) + (if k in all then StringsCost(DropInternals(all[k], internals)) else 0)
  }

  function KeyCosts(all: map<string, seq<string>>, internals: set<string>): string -> nat {
    k => KeyCost(all, internals, k)
  }

  ghost function KeysCost(all: map<string, seq<string>>, internals: set<string>, keys: set<string>): nat {
    Total(Listed(keys), KeyCosts(all, internals))
  }

  ghost function Charges(cat: Catalog): nat {
    var internals := InternalsIDs(cat.claims);
    MINIMAL + Total(Exported(cat.claims), ClaimCosts(cat))
    + KeysCost(cat.byFacet, internals, cat.byFacet.Keys - {FACET_INTERNALS})
      + KeysCost(cat.byModule, internals, cat.byModule.Keys)
  }

  // A reason is stated only with rests_on none, as every rests_on the loader decodes.
  ghost predicate ReasonsStated(cat: Catalog) {
    forall k :: 0 <= k < |cat.claims| && cat.claims[k].reason != "" ==> cat.claims[k].none
  }

  lemma {:induction false} ExportedIn(claims: seq<Claim>)
    ensures forall k :: 0 <= k < |Exported(claims)| ==> Exported(claims)[k] in claims
  {
    if claims == [] {
    } else {
      ExportedIn(claims[1..]);
    }
  }

  lemma {:induction false} EntriesCost(cat: Catalog, claims: seq<Claim>, es: seq<Entry>)
    requires forall k :: 0 <= k < |claims| && claims[k].reason != "" ==> claims[k].none
    requires |es| == |claims| && forall k :: 0 <= k < |es| ==>
      es[k] == EntryOf(cat, claims[k], InternalsIDs(cat.claims))
    ensures Total(es, EntryCosts()) == Total(claims, ClaimCosts(cat))
  {
    if es == [] {
    } else {
      EntriesCost(cat, claims[1..], es[1..]);
      assert EntryCost(es[0]) == ClaimCost(cat, claims[0]);
    }
  }

  lemma {:induction false} ListsCost(all: map<string, seq<string>>, skip: set<string>, internals: set<string>,
                                     keys: seq<string>)
    requires forall k :: 0 <= k < |keys| ==> keys[k] in all && keys[k] !in skip
    ensures Total(keys, ListCosts(ExportedLists(all, skip, internals))) == Total(keys, KeyCosts(all, internals))
  {
    if keys == [] {
    } else {
      ListsCost(all, skip, internals, keys[1..]);
      SortedStringsCost(DropInternals(all[keys[0]], internals));
    }
  }

  lemma KeysCostIs(all: map<string, seq<string>>, skip: set<string>, internals: set<string>, kept: set<string>)
    requires kept == all.Keys - skip
    ensures var m := ExportedLists(all, skip, internals);
      m.Keys == kept && Total(KeyOrder(kept), ListCosts(m)) == KeysCost(all, internals, kept)
  {
    hide Total, Listed;
    assert ExportedLists(all, skip, internals).Keys == kept;
    KeyOrderLists(kept);
    var keys := KeyOrder(kept);
    forall k | 0 <= k < |keys| ensures keys[k] in all && keys[k] !in skip { assert keys[k] in keys; }
    ListsCost(all, skip, internals, KeyOrder(kept));
    TotalOfRearranged(KeyOrder(kept), Listed(kept), KeyCosts(all, internals));
  }

  lemma ClaimsCost(cat: Catalog, doc: Doc)
    requires IsDocument(doc, cat) && ReasonsStated(cat)
    ensures Total(doc.claims, EntryCosts()) == Total(Exported(cat.claims), ClaimCosts(cat))
  {
    var claims := Exported(cat.claims);
    ExportedIn(cat.claims);
    EntriesCost(cat, claims, Entries(cat));
    TotalOfRearranged(doc.claims, Entries(cat), EntryCosts());
  }

  // Every byte the walk charges is in the file.
  lemma ChargesAreEmitted(cat: Catalog, doc: Doc)
    requires IsDocument(doc, cat) && ReasonsStated(cat)
    ensures Charges(cat) <= |Text(doc)|
  {
    hide Total, KeyOrder, Text, Entries, InternalsIDs, ReasonsStated;
    var internals := InternalsIDs(cat.claims);
    var facets := cat.byFacet.Keys - {FACET_INTERNALS};
    TextAtLeast(doc);
    ClaimsCost(cat, doc);
    KeysCostIs(cat.byFacet, {FACET_INTERNALS}, internals, facets);
    assert cat.byModule.Keys == cat.byModule.Keys - {};
    KeysCostIs(cat.byModule, {}, internals, cat.byModule.Keys);
  }
}
