// brief lock, brief unlock and brief reaudit over the two files they move together, the
// brief and the lock store (cmd/dossierx/brief_lock.go): what each refuses, what each
// writes and in which order, and what holds over every run of them, crashes included.
module BriefLifecycle {
  import opened GoStd
  import C = ClaimModel
  import opened BriefModel
  import opened BriefEvaluate
  import opened BriefRules

  // briefs is the briefs tree by id.
  datatype World = World(briefs: map<string, Brief>, claims: seq<C.Claim>, store: BriefStore)

  // What a command reads besides the world: whether --reason was given, the gitignore
  // guard's verdict, what the tree raised on its own, whether the store loads, and whether
  // it predates the claim ledger.
  datatype Gates = Gates(hasReason: bool, tracked: bool, tree: seq<LintFinding>, storeReadable: bool, preLedger: bool)

  datatype Code =
    | MissingReason | StoreGitignored | NotFound | LintFailed | CommentOpen | StoreUnreadable | AlreadyLocked
    | PreLedger | NotLocked | IntegrityFailed | NotReviewPending | WrongState

  datatype Outcome = Refused(code: Code) | WriteFailed | Done

  ghost predicate Valid(w: World) {
    && (forall id :: id in w.briefs ==> w.briefs[id].id == id && !HasSuffix(w.briefs[id].path, "/"))
    && (forall a, b :: a in w.briefs && b in w.briefs && a != b ==> w.briefs[a].path != w.briefs[b].path)
  }

  function RecordOf(w: World, id: string): Option<BriefRecord> {
    if id in w.store.briefs then Some(w.store.briefs[id]) else None
  }

  predicate Stands(w: World, id: string) { Standing(Some(w.store), id) }

  // A pre-ledger store still holding locked claims records no approval.
  predicate PreLedgerRefuses(w: World, g: Gates) {
    g.preLedger && exists k :: 0 <= k < |w.claims| && w.claims[k].status == C.Locked
  }

  // ---- the refusals, in the order the write paths make them ----

  // brief lock's, given what it found of the brief.
  function LockCode(g: Gates, clean: bool, threads: nat, already: bool, preLedger: bool): Option<Code> {
    if !clean then Some(LintFailed)
    else if threads > 0 then Some(CommentOpen)
    else if !g.storeReadable then Some(StoreUnreadable)
    else if already then Some(AlreadyLocked)
    else if preLedger then Some(PreLedger)
    else None
  }

  ghost function LockRefusal(w: World, id: string, g: Gates): Option<Code> {
    if !g.hasReason then Some(MissingReason)
    else if !g.tracked then Some(StoreGitignored)
    else if id !in w.briefs then Some(NotFound)
    else
      var b := w.briefs[id];
      var already := StateOf(b, Some(w.store)) == IsLocked;
      LockCode(g, !HasErrors(b, C.Latest(w.claims), g.tree), b.threads, already, PreLedgerRefuses(w, g))
  }

  ghost function UnlockRefusal(w: World, id: string, g: Gates): Option<Code> {
    if !g.hasReason then Some(MissingReason)
    else if id !in w.briefs then Some(NotFound)
    else if w.briefs[id].status != C.Locked then Some(NotLocked)
    else if !g.storeReadable then Some(StoreUnreadable)
    else None
  }

  // brief reaudit's, given the brief's review.
  function ReauditCode(state: LockState, threads: nat, pending: bool, known: bool, preLedger: bool): Option<Code> {
    if state == IsDraft || state == IsUnrecorded then Some(NotLocked)
    else if state == IsEdited then Some(IntegrityFailed)
    else if threads > 0 then Some(CommentOpen)
    else if !pending then Some(NotReviewPending)
    else if !known then Some(WrongState)
    else if preLedger then Some(PreLedger)
    else None
  }

  ghost function ReauditRefusal(w: World, id: string, g: Gates): Option<Code> {
    if !g.hasReason then Some(MissingReason)
    else if !g.tracked then Some(StoreGitignored)
    else if id !in w.briefs then Some(NotFound)
    else if !g.storeReadable then Some(StoreUnreadable)
    else
      var b, index := w.briefs[id], C.Latest(w.claims);
      ReauditCode(StateOf(b, Some(w.store)), b.threads, Pending(b, Some(w.store), index), AllExist(b, index),
        PreLedgerRefuses(w, g))
  }

  ghost predicate AllExist(b: Brief, index: Index) { forall id :: id in b.restsOn ==> id in index }

  // ---- the writes; landed of them reached the disk ----

  function SetStatus(w: World, id: string, status: C.Status): World
    requires id in w.briefs
  {
    w.(briefs := w.briefs[id := w.briefs[id].(status := status)])
  }

  function PutRecord(w: World, id: string, r: BriefRecord): World {
    w.(store := w.store.(briefs := w.store.briefs[id := r]))
  }

  function Approval(b: Brief, index: Index, prev: Option<BriefRecord>, at: string, reason: string): BriefRecord {
    BriefRecord(b.path, HashOf(b), at, reason, Approved(b.summary, b.restsOn, b.body), b.images,
                RelockHashes(b, index, prev), RelockReceipts(b, index, prev), [], None)
  }

  // The brief's status line, then the store.
  function LockWrites(w: World, id: string, at: string, reason: string, landed: nat): World
    requires id in w.briefs
  {
    var filed := if landed >= 1 then SetStatus(w, id, C.Locked) else w;
    if landed < 2 then filed
    else PutRecord(filed, id, Approval(w.briefs[id], C.Latest(w.claims), RecordOf(w, id), at, reason))
  }

  // The release, then the brief's status line.
  function UnlockWrites(w: World, id: string, at: string, reason: string, landed: nat): World
    requires id in w.briefs
  {
    var released := if landed >= 1 && Stands(w, id)
                    then PutRecord(w, id, w.store.briefs[id].(release := Some(Stamp(at, reason)))) else w;
    if landed >= 2 then SetStatus(released, id, C.Draft) else released
  }

  // The ids a confirmed reaudit accepts.
  function Accepted(r: BriefRecord, index: Index): set<string> { set id | id in r.baselines && Differs(r, index, id) }

  function Reread(b: Brief, index: Index, r: BriefRecord, at: string, reason: string): BriefRecord {
    r.(baselines := Baselined(b, index), receipts := RelockReceipts(b, index, None), images := b.images,
       reaudits := r.reaudits + [Reaudit(at, reason, Accepted(r, index))])
  }

  function ReauditWrites(w: World, id: string, at: string, reason: string, landed: nat): World
    requires id in w.briefs
  {
    if landed < 1 || id !in w.store.briefs then w
    else PutRecord(w, id, Reread(w.briefs[id], C.Latest(w.claims), w.store.briefs[id], at, reason))
  }

  // ---- the commands ----

  class Project {
    var briefs: map<string, Brief>
    var claims: seq<C.Claim>
    var store: BriefStore

    ghost function Now(): World reads this { World(briefs, claims, store) }

    // briefs.Load: every brief of the tree, once.
    method Load() returns (all: seq<Brief>)
      requires Valid(Now())
      ensures DistinctBriefs(all) && ProperPaths(all)
      ensures forall id :: id in briefs <==> Present(all, id)
      ensures forall k :: 0 <= k < |all| ==> all[k].id in briefs && all[k] == briefs[all[k].id]
    {
      all := [];
      var ids := briefs.Keys;
      while ids != {}
        invariant ids <= briefs.Keys
        invariant DistinctBriefs(all) && ProperPaths(all)
        invariant forall k :: 0 <= k < |all| ==> all[k].id in briefs && all[k].id !in ids && all[k] == briefs[all[k].id]
        invariant forall id :: id in briefs ==> id in ids || Present(all, id)
        decreases |ids|
      {
        var id :| id in ids;
        ghost var was := all;
        ids, all := ids - {id}, all + [briefs[id]];
        assert all[|was|].id == id;
        forall i | Present(was, i) ensures Present(all, i) {
          var k :| 0 <= k < |was| && was[k].id == i;
          assert all[k].id == i;
        }
      }
    }

    // Set.Lookup by id.
    method Lookup(all: seq<Brief>, id: string) returns (found: Option<Brief>)
      requires DistinctBriefs(all)
      ensures found.Some? <==> Present(all, id)
      ensures found.Some? ==> found.value in all && found.value.id == id
    {
      for k := 0 to |all|
        invariant !Present(all[..k], id)
      {
        if all[k].id == id { return Some(all[k]); }
        GrowPresent(all, k);
      }
      assert all[..|all|] == all;
      found := None;
    }

    // briefTarget over a fresh load.
    method Target(id: string) returns (all: seq<Brief>, found: Option<Brief>)
      requires Valid(Now())
      ensures DistinctBriefs(all) && ProperPaths(all)
      ensures found == if id in briefs then Some(briefs[id]) else None
      ensures found.Some? ==> found.value in all && found.value.id == id
    {
      all := Load();
      found := Lookup(all, id);
      if found.Some? {
        var k :| 0 <= k < |all| && all[k] == found.value;
      }
    }

    // rewriteBriefFile; the write may fail.
    method RewriteStatus(b: Brief, status: C.Status) returns (ok: bool)
      requires b.id in briefs && briefs[b.id] == b
      modifies `briefs
      ensures Now() == if ok then SetStatus(old(Now()), b.id, status) else old(Now())
    {
      ok := *;
      if ok { briefs := briefs[b.id := b.(status := status)]; }
    }

    // Store.Save; the write may fail.
    method Save(next: BriefStore) returns (ok: bool)
      modifies `store
      ensures store == if ok then next else old(store)
    {
      ok := *;
      if ok { store := next; }
    }

    method AnyLocked() returns (some: bool)
      ensures some <==> exists k :: 0 <= k < |claims| && claims[k].status == C.Locked
    {
      for k := 0 to |claims|
        invariant forall j :: 0 <= j < k ==> claims[j].status != C.Locked
      {
        if claims[k].status == C.Locked { return true; }
      }
      some := false;
    }

    // Everything brief lock refuses on, before it writes.
    method LockGate(id: string, g: Gates) returns (refused: Option<Code>, b: Option<Brief>)
      requires Valid(Now())
      ensures refused == LockRefusal(Now(), id, g)
      ensures refused.None? ==>
        id in briefs && b == Some(briefs[id]) && !HasErrors(briefs[id], C.Latest(claims), g.tree)
    {
      b := None;
      if !g.hasReason { return Some(MissingReason), None; }
      if !g.tracked { return Some(StoreGitignored), None; }
      var all;
      all, b := Target(id);
      if b.None? { return Some(NotFound), b; }
      var errors := ErrorFindings(all, g.tree, b.value, claims);
      if errors != [] { return Some(LintFailed), b; }
      if b.value.threads > 0 { return Some(CommentOpen), b; }
      if !g.storeReadable { return Some(StoreUnreadable), b; }
      if b.value.status == C.Locked && id in store.briefs && store.briefs[id].release.None? {
        var moved := ContentMoved(b.value, store.briefs[id]);
        if moved == {} { return Some(AlreadyLocked), b; }
      }
      var locked := AnyLocked();
      refused := if g.preLedger && locked then Some(PreLedger) else None;
    }

    method Lock(id: string, g: Gates, at: string, reason: string) returns (o: Outcome, ghost landed: nat)
      requires Valid(Now())
      modifies `briefs, `store
      ensures if LockRefusal(old(Now()), id, g).Some?
              then o == Refused(LockRefusal(old(Now()), id, g).value) && Now() == old(Now())
              else landed <= 2 && o == (if landed == 2 then Done else WriteFailed)
                   && Now() == LockWrites(old(Now()), id, at, reason, landed)
    {
      var refused, target := LockGate(id, g);
      if refused.Some? { return Refused(refused.value), 0; }
      var b := target.value;
      var prev := if id in store.briefs then Some(store.briefs[id]) else None;
      var hashes, receipts, carried, unknown := RelockBaselines(b, claims, prev);
      // The belt to the error findings' braces: it never fires.
      NoneUnknown(b, C.Latest(claims), g.tree, prev);
      HasMember(unknown);
      o, landed := Refused(LintFailed), 0;
      if unknown != [] { return; }
      if b.status != C.Locked {
        var filed := RewriteStatus(b, C.Locked);
        if !filed { return WriteFailed, 0; }
      }
      assert briefs == SetStatus(old(Now()), id, C.Locked).briefs;
      var r := BriefRecord(b.path, HashOf(b), at, reason, Approved(b.summary, b.restsOn, b.body), b.images, hashes,
        receipts, [], None);
      var saved := Save(store.(briefs := store.briefs[id := r]));
      o, landed := if saved then Done else WriteFailed, if saved then 2 else 1;
    }

    method Unlock(id: string, g: Gates, at: string, reason: string) returns (o: Outcome, ghost landed: nat)
      requires Valid(Now())
      modifies `briefs, `store
      ensures if UnlockRefusal(old(Now()), id, g).Some?
              then o == Refused(UnlockRefusal(old(Now()), id, g).value) && Now() == old(Now())
              else landed <= 2 && o == (if landed == 2 then Done else WriteFailed)
                   && Now() == UnlockWrites(old(Now()), id, at, reason, landed)
    {
      landed := 0;
      if !g.hasReason { return Refused(MissingReason), 0; }
      var all, found := Target(id);
      if found.None? { return Refused(NotFound), 0; }
      var b := found.value;
      if b.status != C.Locked { return Refused(NotLocked), 0; }
      if !g.storeReadable { return Refused(StoreUnreadable), 0; }
      if id in store.briefs && store.briefs[id].release.None? {
        var saved := Save(store.(briefs := store.briefs[id := store.briefs[id].(release := Some(Stamp(at, reason)))]));
        if !saved { return WriteFailed, 0; }
      }
      assert Now() == UnlockWrites(old(Now()), id, at, reason, 1);
      var filed := RewriteStatus(b, C.Draft);
      o, landed := if filed then Done else WriteFailed, if filed then 2 else 1;
    }

    // Everything brief reaudit --confirm refuses on, and the ids it would accept.
    method ReauditGate(id: string, g: Gates) returns (refused: Option<Code>, b: Option<Brief>, ids: set<string>)
      requires Valid(Now())
      ensures refused == ReauditRefusal(Now(), id, g)
      ensures refused.None? ==>
        id in briefs && b == Some(briefs[id]) && id in store.briefs
        && ids == Accepted(store.briefs[id], C.Latest(claims))
    {
      b, ids := None, {};
      if !g.hasReason { return Some(MissingReason), None, {}; }
      if !g.tracked { return Some(StoreGitignored), None, {}; }
      var all;
      all, b := Target(id);
      if b.None? { return Some(NotFound), b, {}; }
      if !g.storeReadable { return Some(StoreUnreadable), b, {}; }
      var v := ReviewOf(all, b.value);
      if v.state == IsDraft || v.state == IsUnrecorded { return Some(NotLocked), b, {}; }
      if v.state == IsEdited { return Some(IntegrityFailed), b, {}; }
      if b.value.threads > 0 { return Some(CommentOpen), b, {}; }
      if !v.pending { return Some(NotReviewPending), b, {}; }
      var known := NoUnknown(b.value);
      if !known { return Some(WrongState), b, {}; }
      var locked := AnyLocked();
      if g.preLedger && locked { return Some(PreLedger), b, {}; }
      ids := set j | 0 <= j < |v.changed| :: v.changed[j].id;
      AcceptedAre(v.changed, store, store.briefs[id], C.Latest(claims), ids);
      refused := None;
    }

    // Evaluate(...).Review(b).
    method ReviewOf(all: seq<Brief>, b: Brief) returns (v: Review)
      requires DistinctBriefs(all) && b in all
      ensures ReviewIs(v, b, Some(store), C.Latest(claims))
    {
      var e := Evaluate(all, claims, Some(store), "");
      ghost var k :| 0 <= k < |all| && all[k] == b;
      assert ReviewIs(e.reviews[all[k].id], all[k], Some(store), C.Latest(claims));
      v := e.reviews[b.id];
    }

    method NoUnknown(b: Brief) returns (known: bool)
      ensures known <==> AllExist(b, C.Latest(claims))
    {
      var hashes, receipts, unknown := Baselines(b, claims);
      known := unknown == [];
      HasMember(unknown);
      forall i | known && i in b.restsOn ensures i in C.Latest(claims) { assert i !in unknown; }
    }

    method Reaudit(id: string, g: Gates, at: string, reason: string) returns (o: Outcome, ghost landed: nat)
      requires Valid(Now())
      modifies `store
      ensures if ReauditRefusal(old(Now()), id, g).Some?
              then o == Refused(ReauditRefusal(old(Now()), id, g).value) && Now() == old(Now())
              else id in old(briefs) && id in old(store.briefs) && landed <= 1
                   && Now() == ReauditWrites(old(Now()), id, at, reason, landed)
                   && o == (if landed == 1 then Done else WriteFailed)
    {
      var refused, target, ids := ReauditGate(id, g);
      if refused.Some? { return Refused(refused.value), 0; }
      var b, r := target.value, store.briefs[id];
      var hashes, receipts, unknown := Baselines(b, claims);
      var next := r.(baselines := hashes, receipts := receipts, images := b.images,
                     reaudits := r.reaudits + [BriefModel.Reaudit(at, reason, ids)]);
      var saved := Save(store.(briefs := store.briefs[id := next]));
      o, landed := if saved then Done else WriteFailed, if saved then 1 else 0;
    }
  }

  lemma HasMember(ids: seq<string>)
    ensures ids == [] || exists id :: id in ids
  {
    if ids != [] { assert ids[0] in ids; }
  }

  lemma AcceptedAre(changed: seq<ChangedClaim>, s: BriefStore, r: BriefRecord, index: Index, ids: set<string>)
    requires ChangesAre(changed, s, r, index) && ids == set j | 0 <= j < |changed| :: changed[j].id
    ensures ids == Accepted(r, index)
  {
    forall id | Differs(r, index, id) ensures id in ids { assert Names(changed, id); }
  }

  // With no error finding, a lock baselines every id the brief lists and no other, whatever
  // record it follows: the refusal of an unknown id behind those findings never fires.
  lemma NoneUnknown(b: Brief, index: Index, tree: seq<LintFinding>, prev: Option<BriefRecord>)
    requires !HasErrors(b, index, tree)
    ensures AllExist(b, index)
    ensures forall id :: id in RelockHashes(b, index, prev) <==> id in b.restsOn
  {
    forall id | id in b.restsOn ensures id in index {
      var i :| 0 <= i < |b.restsOn| && b.restsOn[i] == id;
      assert b.restsOn[i] in index;
    }
  }
}
