// A brief's lock read against the lock store: its state, whether it is review_pending, and
// the findings both raise (internal/briefs/lockstate.go).
module BriefEvaluate {
  import opened GoStd
  import C = ClaimModel
  import opened BriefModel

  const RULE_ABANDONED := "brief-abandoned"
  const RULE_CONTENT_DRIFT := "brief-content-drift"
  const RULE_ORPHAN := "brief-orphan"
  const RULE_UNRECORDED := "brief-unrecorded"
  const RULE_MISSING := "brief-rests-on-missing"
  const RULE_DRIFT := "brief-dependency-drift"

  // where is the path a finding names; about is the claim, or "".
  datatype Finding = Finding(rule: string, where: string, about: string)

  datatype LockState = IsDraft | IsLocked | IsEdited | IsUnrecorded

  datatype Trigger = NoTrigger | DependencyDrift | RestsOnMissing

  // current is None for a claim that is gone; wording None is "earlier wording not available".
  datatype ChangedClaim = ChangedClaim(id: string, baseline: C.ContentHash, current: Option<C.ContentHash>,
                                       wording: Option<string>)

  // What a review shows of a standing record.
  datatype Shown = Shown(at: string, reason: string, approved: Approved, images: map<string, string>)

  datatype Review = Review(state: LockState, pending: bool, trigger: Trigger, changed: seq<ChangedClaim>, threads: nat,
                           record: Option<Shown>)

  datatype Evaluation = Evaluation(reviews: map<string, Review>, lint: seq<Finding>, integrity: seq<Finding>)

  predicate Standing(s: Option<BriefStore>, id: string) {
    s.Some? && id in s.value.briefs && s.value.briefs[id].release.None?
  }

  // ---- what moved of a locked brief ----

  datatype Part = Text | NewImage(name: string) | ChangedImage(name: string) | GoneImage(name: string)

  predicate Agrees(b: Brief, r: BriefRecord) { r.hash == HashOf(b) && r.images == b.images }

  method ContentMoved(b: Brief, r: BriefRecord) returns (parts: set<Part>)
    ensures Text in parts <==> r.hash != HashOf(b)
    ensures forall n :: NewImage(n) in parts <==> n in b.images && n !in r.images
    ensures forall n :: ChangedImage(n) in parts <==> n in b.images && n in r.images && b.images[n] != r.images[n]
    ensures forall n :: GoneImage(n) in parts <==> n in r.images && n !in b.images
    ensures parts == {} <==> Agrees(b, r)
  {
    var now := ImagesNow(b.images, r.images);
    var gone := ImagesGone(b.images, r.images);
    parts := (if r.hash != HashOf(b) then {Text} else {}) + now + gone;
    NothingMoved(b, r, parts);
  }

  // The first loop: images the brief references that the record does not sign as they are.
  method ImagesNow(images: map<string, string>, signed: map<string, string>) returns (parts: set<Part>)
    ensures forall p :: p in parts <==>
      || (p.NewImage? && p.name in images && p.name !in signed)
      || (p.ChangedImage? && p.name in images && p.name in signed && images[p.name] != signed[p.name])
  {
    parts := {};
    var names := images.Keys;
    while names != {}
      invariant names <= images.Keys
      invariant forall p :: p in parts <==>
        || (p.NewImage? && p.name in images && p.name !in names && p.name !in signed)
        || (p.ChangedImage? && p.name in images && p.name !in names && p.name in signed
            && images[p.name] != signed[p.name])
      decreases |names|
    {
      var n :| n in names;
      names := names - {n};
      if n !in signed {
        parts := parts + {NewImage(n)};
      } else if signed[n] != images[n] {
        parts := parts + {ChangedImage(n)};
      }
    }
  }

  // The second: images the record signs that the brief no longer references.
  method ImagesGone(images: map<string, string>, signed: map<string, string>) returns (parts: set<Part>)
    ensures forall p :: p in parts <==> p.GoneImage? && p.name in signed && p.name !in images
  {
    parts := {};
    var names := signed.Keys;
    while names != {}
      invariant names <= signed.Keys
      invariant forall p :: p in parts <==> p.GoneImage? && p.name in signed && p.name !in names && p.name !in images
      decreases |names|
    {
      var n :| n in names;
      names := names - {n};
      if n !in images { parts := parts + {GoneImage(n)}; }
    }
  }

  lemma NothingMoved(b: Brief, r: BriefRecord, parts: set<Part>)
    requires Text in parts <==> r.hash != HashOf(b)
    requires forall n :: NewImage(n) in parts <==> n in b.images && n !in r.images
    requires forall n :: ChangedImage(n) in parts <==> n in b.images && n in r.images && b.images[n] != r.images[n]
    requires forall n :: GoneImage(n) in parts <==> n in r.images && n !in b.images
    ensures parts == {} <==> Agrees(b, r)
  {
    if parts == {} {
      forall n ensures n in b.images <==> n in r.images {
        assert NewImage(n) !in parts && GoneImage(n) !in parts;
      }
      assert b.images.Keys == r.images.Keys;
      forall n | n in b.images ensures b.images[n] == r.images[n] { assert ChangedImage(n) !in parts; }
    } else {
      var p :| p in parts;
      match p {
        case Text =>
        case NewImage(n) =>
        case ChangedImage(n) =>
        case GoneImage(n) =>
      }
    }
  }

  function StateOf(b: Brief, s: Option<BriefStore>): LockState {
    if b.status == C.Draft then IsDraft
    else if !Standing(s, b.id) then IsUnrecorded
    else if Agrees(b, s.value.briefs[b.id]) then IsLocked
    else IsEdited
  }

  // ---- the wording a baseline stands for ----

  predicate IsSnapshot(c: C.Claim, id: string, hash: C.ContentHash) { c.id == id && C.Content(c) == hash }

  ghost predicate Retains(s: BriefStore, id: string, hash: C.ContentHash) {
    || (exists other ::
          other in s.briefs && id in s.briefs[other].receipts && IsSnapshot(s.briefs[other].receipts[id], id, hash))
    || (exists k :: 0 <= k < |s.elsewhere| && IsSnapshot(s.elsewhere[k], id, hash))
  }

  method RetainedClaimContent(s: BriefStore, id: string, hash: C.ContentHash) returns (found: Option<C.Claim>)
    ensures found.Some? ==> IsSnapshot(found.value, id, hash)
    ensures found.Some? <==> Retains(s, id, hash)
  {
    var others := s.briefs.Keys;
    while others != {}
      invariant others <= s.briefs.Keys
      invariant forall o :: o in s.briefs && o !in others && id in s.briefs[o].receipts ==>
        !IsSnapshot(s.briefs[o].receipts[id], id, hash)
      decreases |others|
    {
      var o :| o in others;
      others := others - {o};
      if id in s.briefs[o].receipts && IsSnapshot(s.briefs[o].receipts[id], id, hash) {
        return Some(s.briefs[o].receipts[id]);
      }
    }
    for k := 0 to |s.elsewhere|
      invariant forall j :: 0 <= j < k ==> !IsSnapshot(s.elsewhere[j], id, hash)
    {
      if IsSnapshot(s.elsewhere[k], id, hash) { return Some(s.elsewhere[k]); }
    }
    found := None;
  }

  // What a shown wording must be: the words that hash to the baseline; and it is shown
  // whenever any snapshot the store retains has that hash.
  ghost predicate WordingIs(w: Option<string>, s: BriefStore, r: BriefRecord, id: string) {
    && (w.Some? ==> id in r.baselines && w.value == r.baselines[id].body)
    && (w.None? ==>
          && id in r.baselines && !Retains(s, id, r.baselines[id])
          && (id in r.receipts ==> C.Content(r.receipts[id]) != r.baselines[id]))
  }

  method BaselineWording(s: BriefStore, r: BriefRecord, id: string) returns (w: Option<string>)
    requires id in r.baselines
    ensures WordingIs(w, s, r, id)
  {
    var hash := r.baselines[id];
    if id in r.receipts && C.Content(r.receipts[id]) == hash { return Some(r.receipts[id].body); }
    var c := RetainedClaimContent(s, id, hash);
    w := if c.Some? then Some(c.value.body) else None;
  }

  // ---- the claims that moved under a brief ----

  // The baselined claim is gone, or reads differently.
  predicate Differs(r: BriefRecord, index: Index, id: string) {
    id in r.baselines && (id in index ==> C.Content(index[id]) != r.baselines[id])
  }

  ghost predicate ChangedIs(c: ChangedClaim, s: BriefStore, r: BriefRecord, index: Index) {
    && c.id in r.baselines && c.baseline == r.baselines[c.id]
    && c.current == (if c.id in index then Some(C.Content(index[c.id])) else None)
    && WordingIs(c.wording, s, r, c.id)
  }

  function MovedFinding(b: Brief, index: Index, id: string): Finding {
    Finding(if id in index then RULE_DRIFT else RULE_MISSING, b.path, id)
  }

  // A claim that is gone and one that reads otherwise are told apart by the rule.
  lemma MovedNamesTheCause(b: Brief, index: Index, id: string)
    ensures var f := MovedFinding(b, index, id);
      && (f.rule == "brief-rests-on-missing" <==> id !in index)
      && (f.rule == "brief-dependency-drift" <==> id in index)
      && f.where == b.path && f.about == id
  {
    assert RULE_MISSING[6] != RULE_DRIFT[6];
  }

  predicate Gone(c: ChangedClaim) { c.current.None? }

  // Exactly the differing ids, in order.
  ghost predicate ChangedAmong(changed: seq<ChangedClaim>, s: BriefStore, r: BriefRecord, index: Index,
                               ids: seq<string>) {
    && (forall k :: 0 <= k < |changed| ==>
          ChangedIs(changed[k], s, r, index) && changed[k].id in ids && Differs(r, index, changed[k].id))
    && (forall id :: id in ids && Differs(r, index, id) ==> Names(changed, id))
  }

  ghost predicate Names(changed: seq<ChangedClaim>, id: string) {
    exists k :: 0 <= k < |changed| && changed[k].id == id
  }

  ghost predicate InOrder(changed: seq<ChangedClaim>) {
    forall i, j :: 0 <= i < j < |changed| ==> StrLt(changed[i].id, changed[j].id)
  }

  ghost predicate Drifts(changed: seq<ChangedClaim>) { exists k :: 0 <= k < |changed| && !Gone(changed[k]) }

  method BaselineIDs(r: BriefRecord) returns (ids: seq<string>)
    ensures forall id :: id in ids <==> id in r.baselines
    ensures forall j, k :: 0 <= j < k < |ids| ==> StrLt(ids[j], ids[k])
  {
    ids := SortedKeys(r.baselines.Keys);
    KeyOrderLists(r.baselines.Keys);
  }

  // The baselines compared in id order.
  method Compare(b: Brief, s: BriefStore, r: BriefRecord, index: Index)
    returns (changed: seq<ChangedClaim>, lint: seq<Finding>, drifted: nat, missing: nat)
    ensures ChangesAre(changed, s, r, index)
    ensures |lint| == |changed| == drifted + missing
    ensures forall k :: 0 <= k < |changed| ==> lint[k] == MovedFinding(b, index, changed[k].id)
    ensures drifted > 0 <==> Drifts(changed)
  {
    hide WordingIs, ChangedIs, Differs, StrLt;
    var ids := BaselineIDs(r);
    changed, lint, drifted, missing := [], [], 0, 0;
    for i := 0 to |ids|
      invariant ChangedAmong(changed, s, r, index, ids[..i])
      invariant InOrder(changed)
      invariant |lint| == |changed| == drifted + missing
      invariant forall k :: 0 <= k < |changed| ==> lint[k] == MovedFinding(b, index, changed[k].id)
      invariant drifted > 0 <==> Drifts(changed)
    {
      var id := ids[i];
      assert ids[..i + 1] == ids[..i] + [id];
      assert id in ids;
      var found := CompareOne(s, r, index, id);
      if found.None? { continue; }
      AddChanged(changed, s, r, index, ids, i, found.value);
      if Gone(found.value) { missing := missing + 1; } else { drifted := drifted + 1; }
      changed, lint := changed + [found.value], lint + [MovedFinding(b, index, id)];
    }
    assert ids[..|ids|] == ids;
    AllCompared(changed, s, r, index, ids);
  }

  lemma AllCompared(changed: seq<ChangedClaim>, s: BriefStore, r: BriefRecord, index: Index, ids: seq<string>)
    requires ChangedAmong(changed, s, r, index, ids) && InOrder(changed) && forall id :: id in r.baselines ==> id in ids
    ensures ChangesAre(changed, s, r, index)
  {
  }

  // One baseline against the claim as it reads now.
  method CompareOne(s: BriefStore, r: BriefRecord, index: Index, id: string) returns (found: Option<ChangedClaim>)
    requires id in r.baselines
    ensures found.Some? <==> Differs(r, index, id)
    ensures found.Some? ==> found.value.id == id && ChangedIs(found.value, s, r, index)
  {
    if id in index && C.Content(index[id]) == r.baselines[id] { return None; }
    var w := BaselineWording(s, r, id);
    found := Some(ChangedClaim(id, r.baselines[id], if id in index then Some(C.Content(index[id])) else None, w));
  }

  // Every differing baseline, once, in id order, told as it is.
  ghost predicate ChangesAre(changed: seq<ChangedClaim>, s: BriefStore, r: BriefRecord, index: Index) {
    && (forall k :: 0 <= k < |changed| ==> ChangedIs(changed[k], s, r, index) && Differs(r, index, changed[k].id))
    && (forall id :: Differs(r, index, id) ==> Names(changed, id))
    && InOrder(changed)
  }

  lemma AddChanged(changed: seq<ChangedClaim>, s: BriefStore, r: BriefRecord, index: Index, ids: seq<string>, i: nat,
                   c: ChangedClaim)
    requires i < |ids| && ChangedAmong(changed, s, r, index, ids[..i]) && InOrder(changed)
    requires forall j, k :: 0 <= j < k < |ids| ==> StrLt(ids[j], ids[k])
    requires c.id == ids[i] && ChangedIs(c, s, r, index) && Differs(r, index, c.id)
    ensures ChangedAmong(changed + [c], s, r, index, ids[..i + 1]) && InOrder(changed + [c])
    ensures Drifts(changed + [c]) <==> Drifts(changed) || !Gone(c)
  {
    hide WordingIs, Differs, ChangedIs, StrLt;
    var grown := changed + [c];
    forall id | id in ids[..i + 1] && Differs(r, index, id) ensures Names(grown, id) {
      if id == c.id {
        assert grown[|changed|].id == id;
      } else {
        assert id in ids[..i];
        assert Names(changed, id);
        var k :| 0 <= k < |changed| && changed[k].id == id;
        assert grown[k].id == id;
      }
    }
    if Drifts(changed) {
      var k :| 0 <= k < |changed| && !Gone(changed[k]);
      assert !Gone(grown[k]);
    }
    if !Gone(c) { assert !Gone(grown[|changed|]); }
  }

  // ---- the whole evaluation ----

  ghost predicate DistinctBriefs(briefs: seq<Brief>) {
    forall i, j :: 0 <= i < j < |briefs| ==> briefs[i].id != briefs[j].id && briefs[i].path != briefs[j].path
  }

  // A locked brief with a standing record has a claim that moved or is gone.
  ghost predicate Pending(b: Brief, s: Option<BriefStore>, index: Index) {
    && b.status == C.Locked && Standing(s, b.id)
    && exists id :: Differs(s.value.briefs[b.id], index, id)
  }

  function RecordShown(b: Brief, s: Option<BriefStore>): Option<Shown> {
    if !Standing(s, b.id) then None
    else var r := s.value.briefs[b.id]; Some(Shown(r.at, r.reason, r.approved, r.images))
  }

  ghost predicate ReviewIs(v: Review, b: Brief, s: Option<BriefStore>, index: Index) {
    && v.state == StateOf(b, s) && v.threads == b.threads && v.record == RecordShown(b, s)
    && (v.pending <==> Pending(b, s, index))
    && (v.trigger == NoTrigger <==> !v.pending)
    && (v.pending ==> (v.trigger == DependencyDrift <==>
          exists id :: id in index && Differs(s.value.briefs[b.id], index, id)))
    && (if b.status == C.Locked && Standing(s, b.id)
        then ChangesAre(v.changed, s.value, s.value.briefs[b.id], index)
        else v.changed == [])
  }

  // The integrity finding a brief's state raises, if any.
  function Raised(b: Brief, s: Option<BriefStore>): Option<Finding> {
    match StateOf(b, s)
    case IsDraft => if Standing(s, b.id) then Some(Finding(RULE_ORPHAN, b.path, "")) else None
    case IsUnrecorded => Some(Finding(RULE_UNRECORDED, b.path, ""))
    case IsEdited => Some(Finding(RULE_CONTENT_DRIFT, b.path, ""))
    case IsLocked => None
  }

  // Each finding is one state of a brief against the store, and an approved brief that reads
  // as approved raises none.
  lemma RaisedNamesTheState(b: Brief, s: Option<BriefStore>)
    ensures var stands := s.Some? && b.id in s.value.briefs && s.value.briefs[b.id].release.None?;
            var rule := if Raised(b, s).Some? then Raised(b, s).value.rule else "";
      && (rule == "brief-orphan" <==> b.status == C.Draft && stands)
      && (rule == "brief-unrecorded" <==> b.status == C.Locked && !stands)
      && (rule == "brief-content-drift" <==>
            b.status == C.Locked && stands
              && (s.value.briefs[b.id].hash != HashOf(b) || s.value.briefs[b.id].images != b.images))
      && (rule == "" <==> Raised(b, s).None?) && (Raised(b, s).Some? ==> Raised(b, s).value.where == b.path)
  {
    assert RULE_ORPHAN[6] != RULE_UNRECORDED[6] && RULE_ORPHAN[6] != RULE_CONTENT_DRIFT[6];
    assert RULE_UNRECORDED[6] != RULE_CONTENT_DRIFT[6];
  }

  // The two report orders, read off the findings: paths in order and rules within a path;
  // the missing before the drifted, and paths in order within each.
  lemma ReportOrders(integrity: seq<Finding>, lint: seq<Finding>)
    requires SortedBy(integrity, ByWhere) && SortedBy(lint, ByRule)
    ensures forall i, j :: 0 <= i < j < |integrity| ==>
      && StrLe(integrity[i].where, integrity[j].where)
      && (integrity[i].where == integrity[j].where ==> StrLe(integrity[i].rule, integrity[j].rule))
    ensures forall i, j :: 0 <= i < j < |lint| ==>
      && !(lint[i].rule == "brief-dependency-drift" && lint[j].rule == "brief-rests-on-missing")
      && (lint[i].rule == lint[j].rule ==> StrLe(lint[i].where, lint[j].where))
  {
    forall i, j | 0 <= i < j < |integrity|
      ensures StrLe(integrity[i].where, integrity[j].where)
      ensures integrity[i].where == integrity[j].where ==> StrLe(integrity[i].rule, integrity[j].rule)
    {
      assert ByWhere(integrity[i], integrity[j]);
      StrLeTotal(integrity[i].where, integrity[i].where);
    }
    assert RULE_MISSING[6] != RULE_DRIFT[6];
    forall i, j | 0 <= i < j < |lint|
      ensures !(lint[i].rule == RULE_DRIFT && lint[j].rule == RULE_MISSING)
      ensures lint[i].rule == lint[j].rule ==> StrLe(lint[i].where, lint[j].where)
    {
      assert ByRule(lint[i], lint[j]);
    }
  }

  ghost predicate RaisedByOne(f: Finding, briefs: seq<Brief>, s: Option<BriefStore>) {
    exists k :: 0 <= k < |briefs| && Raised(briefs[k], s) == Some(f)
  }

  ghost predicate Present(briefs: seq<Brief>, id: string) { exists k :: 0 <= k < |briefs| && briefs[k].id == id }

  // Where an abandoned record's finding points.
  function AbandonedAt(dir: string, id: string, r: BriefRecord): Finding {
    Finding(RULE_ABANDONED, if r.path == "" then PathOf(dir, id) else r.path, "")
  }

  // The finding points at the record's own path, and where it kept none at the path the id
  // names.
  lemma AbandonedPointsAtTheBrief(dir: string, folder: string, slug: string, r: BriefRecord)
    requires '.' !in folder
    ensures var f := AbandonedAt(dir, folder + "." + slug, r);
      && f.rule == "brief-abandoned" && f.about == ""
      && f.where == if r.path != "" then r.path else dir + "/" + folder + "/" + slug + ".md"
  {
    if r.path == "" { PathOfIsExact(dir, folder, slug); }
  }

  // What a review shows of a record is that record's, and only of one that stands.
  lemma ShownIsTheRecord(b: Brief, s: Option<BriefStore>)
    ensures var stands := s.Some? && b.id in s.value.briefs && s.value.briefs[b.id].release.None?;
      && (RecordShown(b, s).Some? <==> stands)
      && (stands ==>
            var shown, r := RecordShown(b, s).value, s.value.briefs[b.id];
            shown.at == r.at && shown.reason == r.reason && shown.approved == r.approved && shown.images == r.images)
  {
  }

  // A snapshot is of the claim asked for, and reads as hashed.
  lemma SnapshotIs(c: C.Claim, id: string, hash: C.ContentHash)
    ensures IsSnapshot(c, id, hash) <==> c.id == id && hash == C.ContentOf(id, c.restsOn, c.body)
  {
  }

  ghost predicate IsAbandoned(f: Finding, briefs: seq<Brief>, s: Option<BriefStore>, dir: string) {
    exists id :: Standing(s, id) && !Present(briefs, id) && f == AbandonedAt(dir, id, s.value.briefs[id])
  }

  ghost predicate LintRaised(f: Finding, briefs: seq<Brief>, s: Option<BriefStore>, index: Index) {
    exists k, id :: 0 <= k < |briefs| && LintOf(briefs[k], s, index, id, f)
  }

  ghost predicate LintOf(b: Brief, s: Option<BriefStore>, index: Index, id: string, f: Finding) {
    && b.status == C.Locked && Standing(s, b.id) && Differs(s.value.briefs[b.id], index, id)
    && f == MovedFinding(b, index, id)
  }

  // The report order of the integrity findings: path, then rule.
  predicate ByWhere(a: Finding, b: Finding) {
    if a.where == b.where then StrLe(a.rule, b.rule) else StrLe(a.where, b.where)
  }

  // The report order of the lint findings: the two rules in registry order, then path.
  function RuleOrder(rule: string): nat { if rule == RULE_MISSING then 8 else if rule == RULE_DRIFT then 9 else 10 }

  predicate ByRule(a: Finding, b: Finding) {
    if RuleOrder(a.rule) == RuleOrder(b.rule) then StrLe(a.where, b.where) else RuleOrder(a.rule) < RuleOrder(b.rule)
  }

  lemma OrdersAreOrders()
    ensures IsOrder(ByWhere) && IsOrder(ByRule)
  {
    StrLeIsOrder();
    forall a: Finding, b: Finding, c: Finding | ByWhere(a, b) && ByWhere(b, c) ensures ByWhere(a, c) {
      if a.where != b.where && b.where != c.where && a.where == c.where { StrLeAntisymmetric(a.where, b.where); }
    }
    forall a: Finding, b: Finding, c: Finding | ByRule(a, b) && ByRule(b, c) ensures ByRule(a, c) {}
  }

  // The path a brief id names: everything before its first dot is the folder.
  function PathOf(dir: string, id: string): string {
    var dot := IndexFrom(id, ".", 0);
    if dot.None? then dir + "/" + id
    else dir + "/" + id[..dot.value] + "/" + id[dot.value + 1..] + ".md"
  }

  // Neither folder nor slug holds a dot, so the path comes back exactly.
  lemma PathOfIsExact(dir: string, folder: string, slug: string)
    requires '.' !in folder
    ensures PathOf(dir, folder + "." + slug) == dir + "/" + folder + "/" + slug + ".md"
    ensures PathOf(dir, folder) == dir + "/" + folder
  {
    forall i: nat ensures !OccursAt(folder, ".", i) {
      if i < |folder| { assert folder[i..i + 1] == [folder[i]] && folder[i] in folder; }
    }
    var id := folder + "." + slug;
    assert OccursAt(id, ".", |folder|);
    forall i: nat | i < |folder| ensures !OccursAt(id, ".", i) {
      assert id[i..i + 1][0] == id[i] == folder[i] && folder[i] in folder;
    }
    assert IndexFrom(id, ".", 0) == Some(|folder|);
    assert id[..|folder|] == folder && id[|folder| + 1..] == slug;
  }

  method AbandonedFindings(briefs: seq<Brief>, s: Option<BriefStore>, dir: string) returns (out: seq<Finding>)
    ensures forall f :: f in out <==> IsAbandoned(f, briefs, s, dir)
    ensures |out| == |Abandoned(briefs, s)|
  {
    hide Abandoned, AbandonedAt;
    out := [];
    AbandonedEnds(briefs, s);
    if s.None? { return; }
    var present := {};
    for k := 0 to |briefs|
      invariant forall id :: id in present <==> Present(briefs[..k], id)
    {
      GrowPresent(briefs, k);
      present := present + {briefs[k].id};
    }
    assert briefs[..|briefs|] == briefs;
    var ids := s.value.briefs.Keys;
    while ids != {}
      invariant ids <= s.value.briefs.Keys
      invariant forall f :: f in out <==> AbandonedBesides(f, briefs, s, dir, ids)
      invariant |out| == |Abandoned(briefs, s) - ids|
      decreases |ids|
    {
      var id :| id in ids;
      var r := s.value.briefs[id];
      AbandonedStep(briefs, s, ids, id);
      ids := ids - {id};
      if id in present || r.release.Some? { continue; }
      out := out + [AbandonedAt(dir, id, r)];
    }
  }

  lemma AbandonedStep(briefs: seq<Brief>, s: Option<BriefStore>, ids: set<string>, id: string)
    requires s.Some? && id in ids && id in s.value.briefs
    ensures |Abandoned(briefs, s) - (ids - {id})| ==
      |Abandoned(briefs, s) - ids| + if s.value.briefs[id].release.None? && !Present(briefs, id) then 1 else 0
  {
    var all := Abandoned(briefs, s);
    if id in all {
      assert all - (ids - {id}) == (all - ids) + {id};
    } else {
      assert all - (ids - {id}) == all - ids;
    }
  }

  lemma AbandonedEnds(briefs: seq<Brief>, s: Option<BriefStore>)
    ensures Abandoned(briefs, s) - {} == Abandoned(briefs, s)
    ensures if s.None? then Abandoned(briefs, s) == {} else Abandoned(briefs, s) - s.value.briefs.Keys == {}
  {
  }

  // The briefs gone from under a standing record.
  ghost function Abandoned(briefs: seq<Brief>, s: Option<BriefStore>): set<string> {
    if s.None? then {}
    else set id | id in s.value.briefs && s.value.briefs[id].release.None? && !Present(briefs, id)
  }

  // How many claims the reviews of the first n briefs show changed, and how many of those
  // briefs raise an integrity finding.
  ghost function ChangesShown(reviews: map<string, Review>, briefs: seq<Brief>, n: nat): nat
    requires n <= |briefs| && forall k :: 0 <= k < n ==> briefs[k].id in reviews
  {
    if n == 0 then 0 else ChangesShown(reviews, briefs, n - 1) + |reviews[briefs[n - 1].id].changed|
  }

  ghost function RaisedAmong(briefs: seq<Brief>, s: Option<BriefStore>, n: nat): nat
    requires n <= |briefs|
  {
    if n == 0 then 0 else RaisedAmong(briefs, s, n - 1) + if Raised(briefs[n - 1], s).Some? then 1 else 0
  }

  lemma {:induction false} ChangesShownAlike(a: map<string, Review>, b: map<string, Review>, briefs: seq<Brief>, n: nat)
    requires n <= |briefs| && forall k :: 0 <= k < n ==> briefs[k].id in a && briefs[k].id in b
    requires forall k :: 0 <= k < n ==> a[briefs[k].id] == b[briefs[k].id]
    ensures ChangesShown(a, briefs, n) == ChangesShown(b, briefs, n)
  {
    if n == 0 {
    } else {
      ChangesShownAlike(a, b, briefs, n - 1);
    }
  }

  ghost predicate AbandonedBesides(f: Finding, briefs: seq<Brief>, s: Option<BriefStore>, dir: string,
                                   left: set<string>) {
    exists id :: id !in left && Standing(s, id) && !Present(briefs, id) && f == AbandonedAt(dir, id, s.value.briefs[id])
  }

  lemma GrowPresent(briefs: seq<Brief>, k: nat)
    requires k < |briefs|
    ensures forall id :: Present(briefs[..k + 1], id) <==> Present(briefs[..k], id) || id == briefs[k].id
  {
    forall id ensures Present(briefs[..k + 1], id) <==> Present(briefs[..k], id) || id == briefs[k].id {
      if Present(briefs[..k], id) {
        var j :| 0 <= j < k && briefs[..k][j].id == id;
        assert briefs[..k + 1][j].id == id;
      }
      if id == briefs[k].id { assert briefs[..k + 1][k].id == id; }
      if Present(briefs[..k + 1], id) && id != briefs[k].id {
        var j :| 0 <= j < k + 1 && briefs[..k + 1][j].id == id;
        assert briefs[..k][j].id == id;
      }
    }
  }

  lemma CountsNext(reviews: map<string, Review>, briefs: seq<Brief>, s: Option<BriefStore>, k: nat, v: Review)
    requires k < |briefs| && DistinctBriefs(briefs) && forall j :: 0 <= j < k ==> briefs[j].id in reviews
    ensures ChangesShown(reviews[briefs[k].id := v], briefs, k + 1) == ChangesShown(reviews, briefs, k) + |v.changed|
    ensures RaisedAmong(briefs, s, k + 1) == RaisedAmong(briefs, s, k) + if Raised(briefs[k], s).Some? then 1 else 0
  {
    hide Raised;
    ChangesShownAlike(reviews, reviews[briefs[k].id := v], briefs, k);
  }

  // One brief's turn of the loop.
  method EvaluateOne(b: Brief, s: Option<BriefStore>, index: Index)
    returns (v: Review, lint: seq<Finding>, integrity: seq<Finding>)
    ensures ReviewIs(v, b, s, index)
    ensures integrity == if Raised(b, s).Some? then [Raised(b, s).value] else []
    ensures forall f :: f in lint <==> exists id :: LintOf(b, s, index, id, f)
    ensures |lint| == |v.changed|
  {
    v, lint, integrity := Review(IsDraft, false, NoTrigger, [], b.threads, None), [], [];
    var standing := Standing(s, b.id);
    if standing {
      var rec := s.value.briefs[b.id];
      v := v.(record := Some(Shown(rec.at, rec.reason, rec.approved, rec.images)));
    }
    if b.status != C.Locked {
      if standing { integrity := [Finding(RULE_ORPHAN, b.path, "")]; }
      return;
    }
    if !standing {
      v, integrity := v.(state := IsUnrecorded), [Finding(RULE_UNRECORDED, b.path, "")];
      return;
    }
    v := v.(state := IsLocked);
    var r := s.value.briefs[b.id];
    var moved := ContentMoved(b, r);
    if moved != {} { v, integrity := v.(state := IsEdited), [Finding(RULE_CONTENT_DRIFT, b.path, "")]; }
    var changed, found, drifted, missing := Compare(b, s.value, r, index);
    v, lint := v.(changed := changed), found;
    if drifted > 0 {
      v := v.(pending := true, trigger := DependencyDrift);
    } else if missing > 0 {
      v := v.(pending := true, trigger := RestsOnMissing);
    }
    ChangesTell(b, s.value, r, index, changed, found);
    forall f ensures f in lint <==> exists id :: LintOf(b, s, index, id, f) {
      if f in lint {
        var id :| Differs(r, index, id) && f == MovedFinding(b, index, id);
        assert LintOf(b, s, index, id, f);
      }
      if id :| LintOf(b, s, index, id, f) { assert Differs(r, index, id); }
    }
  }

  lemma ChangesTell(b: Brief, s: BriefStore, r: BriefRecord, index: Index, changed: seq<ChangedClaim>,
                    lint: seq<Finding>)
    requires ChangesAre(changed, s, r, index)
    requires |lint| == |changed| && forall k :: 0 <= k < |changed| ==> lint[k] == MovedFinding(b, index, changed[k].id)
    ensures changed != [] <==> exists id :: Differs(r, index, id)
    ensures Drifts(changed) <==> exists id :: id in index && Differs(r, index, id)
    ensures forall f :: f in lint <==> exists id :: Differs(r, index, id) && f == MovedFinding(b, index, id)
  {
    if changed != [] { assert Differs(r, index, changed[0].id); }
    if id :| Differs(r, index, id) { assert Names(changed, id); }
    if id :| id in index && Differs(r, index, id) {
      assert Names(changed, id);
      var k :| 0 <= k < |changed| && changed[k].id == id;
      assert ChangedIs(changed[k], s, r, index) && !Gone(changed[k]);
    }
    if Drifts(changed) {
      var k :| 0 <= k < |changed| && !Gone(changed[k]);
      assert ChangedIs(changed[k], s, r, index) && Differs(r, index, changed[k].id);
    }
    forall f ensures f in lint <==> exists id :: Differs(r, index, id) && f == MovedFinding(b, index, id) {
      if f in lint {
        var k :| 0 <= k < |lint| && lint[k] == f;
        assert Differs(r, index, changed[k].id);
      }
      if id :| Differs(r, index, id) && f == MovedFinding(b, index, id) {
        assert Names(changed, id);
        var k :| 0 <= k < |changed| && changed[k].id == id;
        assert lint[k] == f;
      }
    }
  }

  // The loop over the briefs.
  method EvaluateEach(briefs: seq<Brief>, s: Option<BriefStore>, index: Index)
    returns (reviews: map<string, Review>, lint: seq<Finding>, integrity: seq<Finding>)
    requires DistinctBriefs(briefs)
    ensures reviews.Keys == set k | 0 <= k < |briefs| :: briefs[k].id
    ensures forall k :: 0 <= k < |briefs| ==> ReviewIs(reviews[briefs[k].id], briefs[k], s, index)
    ensures forall f :: f in lint <==> LintRaised(f, briefs, s, index)
    ensures forall f :: f in integrity <==> RaisedByOne(f, briefs, s)
    ensures |lint| == ChangesShown(reviews, briefs, |briefs|) && |integrity| == RaisedAmong(briefs, s, |briefs|)
  {
    hide ReviewIs, LintOf, Raised, ChangesShown, RaisedAmong, LintSoFar, RaisedSoFar;
    reviews, lint, integrity := map[], [], [];
    SoFarStarts(briefs, s, index);
    for k := 0 to |briefs|
      invariant ReviewsSoFar(reviews, briefs, s, index, k)
      invariant LintSoFar(lint, briefs, s, index, k) && RaisedSoFar(integrity, briefs, s, k)
      invariant |lint| == ChangesShown(reviews, briefs, k) && |integrity| == RaisedAmong(briefs, s, k)
    {
      var v, found, raised := EvaluateOne(briefs[k], s, index);
      ReviewsNext(reviews, briefs, s, index, k, v);
      CountsNext(reviews, briefs, s, k, v);
      SoFarNext(briefs, s, index, k, lint, found, integrity, raised);
      reviews, lint, integrity := reviews[briefs[k].id := v], lint + found, integrity + raised;
    }
    SoFarEnds(briefs, s, index, lint, integrity);
  }

  ghost predicate ReviewsSoFar(reviews: map<string, Review>, briefs: seq<Brief>, s: Option<BriefStore>, index: Index,
                               n: nat)
    requires n <= |briefs|
  {
    && reviews.Keys == (set j | 0 <= j < n :: briefs[j].id)
    && forall j :: 0 <= j < n ==> ReviewIs(reviews[briefs[j].id], briefs[j], s, index)
  }

  lemma ReviewsNext(reviews: map<string, Review>, briefs: seq<Brief>, s: Option<BriefStore>, index: Index, k: nat,
                    v: Review)
    requires k < |briefs| && DistinctBriefs(briefs) && ReviewsSoFar(reviews, briefs, s, index, k)
    requires ReviewIs(v, briefs[k], s, index)
    ensures ReviewsSoFar(reviews[briefs[k].id := v], briefs, s, index, k + 1)
    ensures forall j :: 0 <= j < k ==> briefs[j].id in reviews
  {
    hide ReviewIs;
  }

  ghost predicate LintSoFar(lint: seq<Finding>, briefs: seq<Brief>, s: Option<BriefStore>, index: Index, n: nat)
    requires n <= |briefs|
  {
    forall f :: f in lint <==> exists j, id :: 0 <= j < n && LintOf(briefs[j], s, index, id, f)
  }

  ghost predicate RaisedSoFar(integrity: seq<Finding>, briefs: seq<Brief>, s: Option<BriefStore>, n: nat)
    requires n <= |briefs|
  {
    forall f :: f in integrity <==> exists j :: 0 <= j < n && Raised(briefs[j], s) == Some(f)
  }

  lemma SoFarStarts(briefs: seq<Brief>, s: Option<BriefStore>, index: Index)
    ensures LintSoFar([], briefs, s, index, 0) && RaisedSoFar([], briefs, s, 0)
    ensures ReviewsSoFar(map[], briefs, s, index, 0)
    ensures ChangesShown(map[], briefs, 0) == 0 && RaisedAmong(briefs, s, 0) == 0
  {
  }

  lemma SoFarNext(briefs: seq<Brief>, s: Option<BriefStore>, index: Index, k: nat, lint: seq<Finding>,
                  found: seq<Finding>, integrity: seq<Finding>, raised: seq<Finding>)
    requires k < |briefs| && LintSoFar(lint, briefs, s, index, k) && RaisedSoFar(integrity, briefs, s, k)
    requires forall f :: f in found <==> exists id :: LintOf(briefs[k], s, index, id, f)
    requires raised == if Raised(briefs[k], s).Some? then [Raised(briefs[k], s).value] else []
    ensures LintSoFar(lint + found, briefs, s, index, k + 1) && RaisedSoFar(integrity + raised, briefs, s, k + 1)
  {
    hide LintOf, Raised;
  }

  lemma SoFarEnds(briefs: seq<Brief>, s: Option<BriefStore>, index: Index, lint: seq<Finding>, integrity: seq<Finding>)
    requires LintSoFar(lint, briefs, s, index, |briefs|) && RaisedSoFar(integrity, briefs, s, |briefs|)
    ensures forall f :: f in lint <==> LintRaised(f, briefs, s, index)
    ensures forall f :: f in integrity <==> RaisedByOne(f, briefs, s)
  {
    hide LintOf, Raised;
  }

  method Evaluate(briefs: seq<Brief>, claims: seq<C.Claim>, s: Option<BriefStore>, dir: string) returns (e: Evaluation)
    requires DistinctBriefs(briefs)
    ensures e.reviews.Keys == set k | 0 <= k < |briefs| :: briefs[k].id
    ensures forall k :: 0 <= k < |briefs| ==> ReviewIs(e.reviews[briefs[k].id], briefs[k], s, C.Latest(claims))
    ensures forall f :: f in e.lint <==> LintRaised(f, briefs, s, C.Latest(claims))
    ensures forall f :: f in e.integrity <==> RaisedByOne(f, briefs, s) || IsAbandoned(f, briefs, s, dir)
    ensures SortedBy(e.lint, ByRule) && SortedBy(e.integrity, ByWhere)
    ensures |e.lint| == ChangesShown(e.reviews, briefs, |briefs|)
    ensures |e.integrity| == RaisedAmong(briefs, s, |briefs|) + |Abandoned(briefs, s)|
  {
    var index := C.IndexClaims(claims);
    var reviews, lint, integrity := EvaluateEach(briefs, s, index);
    hide ReviewIs, LintRaised, RaisedByOne, IsAbandoned, SortedBy, SortBy, ByRule, ByWhere;
    var abandoned := AbandonedFindings(briefs, s, dir);
    OrdersAreOrders();
    SortBySorted(lint, ByRule);
    SortBySorted(integrity + abandoned, ByWhere);
    SortKeeps(lint, ByRule);
    SortKeeps(integrity + abandoned, ByWhere);
    e := Evaluation(reviews, SortBy(lint, ByRule), SortBy(integrity + abandoned, ByWhere));
  }

  lemma SortKeeps(s: seq<Finding>, le: (Finding, Finding) -> bool)
    ensures forall f :: f in SortBy(s, le) <==> f in s
  {
    forall f ensures f in SortBy(s, le) <==> f in s { assert f in multiset(SortBy(s, le)) <==> f in multiset(s); }
  }
}
