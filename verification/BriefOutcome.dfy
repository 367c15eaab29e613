// What brief lock, unlock and reaudit refuse, gate by gate in the order they are tried, and
// what they leave when they finish: the brief and its record, told field by field, and a
// project `check` finds no fault with.
module BriefOutcome {
  import opened GoStd
  import C = ClaimModel
  import opened BriefModel
  import opened BriefEvaluate
  import opened BriefIntegrity
  import opened BriefLifecycle
  import opened BriefRuns
  import opened BriefRules
  import LockHash

  // ---- the gates ----

  // No error finding is about the brief, its folder or the tree, and each id it rests on is
  // a claim's.
  ghost predicate NoErrors(b: Brief, claims: seq<C.Claim>, tree: seq<LintFinding>) {
    && (forall k :: 0 <= k < |tree| && !tree[k].warning ==> !Covers(tree[k].where, b.path))
    && (forall id :: id in b.restsOn ==> exists k :: 0 <= k < |claims| && claims[k].id == id)
  }

  // The path itself, or a folder it is in.
  ghost predicate Covers(where: string, path: string) {
    where == path || (|where| > 0 && where[|where| - 1] == '/' && |where| <= |path| && path[..|where|] == where)
  }

  // A standing record of the brief.
  ghost predicate OnRecord(w: World, id: string) { id in w.store.briefs && w.store.briefs[id].release.None? }

  // It signs the brief as it reads now.
  ghost predicate Unmoved(w: World, b: Brief)
    requires b.id in w.store.briefs
  {
    w.store.briefs[b.id].hash == LockHash.Of(b.summary, b.restsOn, b.body) && w.store.briefs[b.id].images == b.images
  }

  // A claim it was read against reads otherwise now, or is gone.
  ghost predicate ReadMoved(w: World, b: Brief)
    requires b.id in w.store.briefs
  {
    exists id :: id in w.store.briefs[b.id].baselines &&
      (id in C.Latest(w.claims) ==> C.Content(C.Latest(w.claims)[id]) != w.store.briefs[b.id].baselines[id])
  }

  ghost predicate LedgerReady(w: World, g: Gates) {
    g.preLedger ==> forall k :: 0 <= k < |w.claims| ==> w.claims[k].status != C.Locked
  }

  lemma ErrorsAre(b: Brief, claims: seq<C.Claim>, tree: seq<LintFinding>)
    ensures NoErrors(b, claims, tree) <==> !HasErrors(b, C.Latest(claims), tree)
  {
    forall where: string ensures About(where, b.path) <==> Covers(where, b.path) {
      if |where| > 0 { assert where[|where| - 1..] == [where[|where| - 1]]; }
    }
    forall id ensures id in C.Latest(claims) <==> exists k :: 0 <= k < |claims| && claims[k].id == id {
      C.LatestHolds(claims, id);
    }
    hide About, Covers, C.Latest;
    if i :| 0 <= i < |b.restsOn| && b.restsOn[i] !in C.Latest(claims) { assert b.restsOn[i] in b.restsOn; }
    if k :| 0 <= k < |tree| && IsErrorAbout(tree[k], b.path) { assert Covers(tree[k].where, b.path); }
  }

  // brief lock, on a brief that is there.
  lemma LockGates(w: World, id: string, g: Gates)
    requires Valid(w) && id in w.briefs
    ensures var b := w.briefs[id];
      LockRefusal(w, id, g) == FirstFailing([
        (MissingReason, g.hasReason), (StoreGitignored, g.tracked),
        (LintFailed, NoErrors(b, w.claims, g.tree)), (CommentOpen, b.threads == 0)] + [
        (StoreUnreadable, g.storeReadable),
        (AlreadyLocked, !(b.status == C.Locked && OnRecord(w, id) && Unmoved(w, b))),
        (PreLedger, LedgerReady(w, g)), (PreLedger, true)])
  {
    var b := w.briefs[id];
    ErrorsAre(b, w.claims, g.tree);
    var already := b.status == C.Locked && OnRecord(w, id) && Unmoved(w, b);
    assert already <==> StateOf(b, Some(w.store)) == IsLocked;
    assert LedgerReady(w, g) <==> !PreLedgerRefuses(w, g);
    var first := [(MissingReason, g.hasReason), (StoreGitignored, g.tracked),
                  (LintFailed, NoErrors(b, w.claims, g.tree)), (CommentOpen, b.threads == 0)];
    var last := [(StoreUnreadable, g.storeReadable), (AlreadyLocked, !already), (PreLedger, LedgerReady(w, g)),
      (PreLedger, true)];
    GatesThen(first, last);
    FourGates(first[0], first[1], first[2], first[3]);
    FourGates(last[0], last[1], last[2], last[3]);
  }

  lemma UnlockGates(w: World, id: string, g: Gates)
    requires Valid(w) && id in w.briefs
    ensures UnlockRefusal(w, id, g) == FirstFailing([
        (MissingReason, g.hasReason), (NotLocked, w.briefs[id].status == C.Locked),
        (StoreUnreadable, g.storeReadable), (StoreUnreadable, true)])
  {
    FourGates((MissingReason, g.hasReason), (NotLocked, w.briefs[id].status == C.Locked),
      (StoreUnreadable, g.storeReadable), (StoreUnreadable, true));
  }

  // brief reaudit --confirm, on a brief that is there.
  lemma ReauditGates(w: World, id: string, g: Gates)
    requires Valid(w) && id in w.briefs
    ensures var b := w.briefs[id];
      ReauditRefusal(w, id, g) == FirstFailing([
        (MissingReason, g.hasReason), (StoreGitignored, g.tracked),
        (StoreUnreadable, g.storeReadable), (NotLocked, b.status == C.Locked && OnRecord(w, id))] + ([
        (IntegrityFailed, OnRecord(w, id) ==> Unmoved(w, b)), (CommentOpen, b.threads == 0),
        (NotReviewPending, OnRecord(w, id) ==> ReadMoved(w, b)), (WrongState, AllClaims(b, w.claims))] + [
        (PreLedger, LedgerReady(w, g))]))
  {
    var b := w.briefs[id];
    AllKnown(b, w.claims);
    StateTold(w, b);
    assert LedgerReady(w, g) <==> !PreLedgerRefuses(w, g);
    hide StateOf, Pending, AllExist, AllClaims, LedgerReady, PreLedgerRefuses, Unmoved, ReadMoved, FirstFailing;
    NineGates(MissingReason, g.hasReason, StoreGitignored, g.tracked, StoreUnreadable, g.storeReadable,
      NotLocked, b.status == C.Locked && OnRecord(w, id), IntegrityFailed, OnRecord(w, id) ==> Unmoved(w, b),
      CommentOpen, b.threads == 0, NotReviewPending, OnRecord(w, id) ==> ReadMoved(w, b),
      WrongState, AllClaims(b, w.claims), PreLedger, LedgerReady(w, g));
  }

  // Every id the brief rests on is a claim's.
  ghost predicate AllClaims(b: Brief, claims: seq<C.Claim>) {
    forall c :: c in b.restsOn ==> exists k :: 0 <= k < |claims| && claims[k].id == c
  }

  lemma NineGates(a: Code, x: bool, b: Code, y: bool, c: Code, z: bool, d: Code, u: bool, e: Code, v: bool, f: Code,
                  p: bool, h: Code, q: bool, i: Code, r: bool, j: Code, t: bool)
    ensures FirstFailing([(a, x), (b, y), (c, z), (d, u)] + ([(e, v), (f, p), (h, q), (i, r)] + [(j, t)])) ==
      if !x then Some(a) else if !y then Some(b) else if !z then Some(c) else if !u then Some(d)
      else if !v then Some(e) else if !p then Some(f) else if !q then Some(h) else if !r then Some(i)
      else if !t then Some(j) else None
  {
    hide FirstFailing;
    var first, middle, last := [(a, x), (b, y), (c, z), (d, u)], [(e, v), (f, p), (h, q), (i, r)], [(j, t)];
    GatesThen(first, middle + last);
    GatesThen(middle, last);
    FourGates((a, x), (b, y), (c, z), (d, u));
    FourGates((e, v), (f, p), (h, q), (i, r));
    GateCons((j, t), []);
  }

  lemma AllKnown(b: Brief, claims: seq<C.Claim>)
    ensures AllExist(b, C.Latest(claims)) <==> AllClaims(b, claims)
  {
    forall id ensures id in C.Latest(claims) <==> exists k :: 0 <= k < |claims| && claims[k].id == id {
      C.LatestHolds(claims, id);
    }
  }

  lemma StateTold(w: World, b: Brief)
    requires b.id in w.briefs && w.briefs[b.id] == b
    ensures var state := StateOf(b, Some(w.store));
      && (state == IsDraft || state == IsUnrecorded <==> !(b.status == C.Locked && OnRecord(w, b.id)))
      && (b.status == C.Locked && OnRecord(w, b.id) ==> (state == IsEdited <==> !Unmoved(w, b)))
      && (b.status == C.Locked && OnRecord(w, b.id) ==>
            (Pending(b, Some(w.store), C.Latest(w.claims)) <==> ReadMoved(w, b)))
  {
    if b.status == C.Locked && OnRecord(w, b.id) {
      forall id ensures Differs(w.store.briefs[b.id], C.Latest(w.claims), id) <==>
        id in w.store.briefs[b.id].baselines &&
          (id in C.Latest(w.claims) ==> C.Content(C.Latest(w.claims)[id]) != w.store.briefs[b.id].baselines[id])
      {
      }
    }
  }

  // A brief that is not there is not found, unless a gate ahead of it refuses.
  lemma NoBriefIsNotFound(w: World, id: string, g: Gates)
    requires id !in w.briefs
    ensures var refusal := FirstFailing([(MissingReason, g.hasReason), (StoreGitignored, g.tracked), (NotFound, false),
      (NotFound, false)]);
      LockRefusal(w, id, g) == refusal && ReauditRefusal(w, id, g) == refusal
    ensures UnlockRefusal(w, id, g) == FirstFailing([(MissingReason, g.hasReason), (NotFound, false)])
  {
    FourGates((MissingReason, g.hasReason), (StoreGitignored, g.tracked), (NotFound, false), (NotFound, false));
    TwoGates((MissingReason, g.hasReason), (NotFound, false));
  }

  // ---- what a finished command leaves ----

  // The briefs of a world, as a load lists them.
  ghost predicate Lists(all: seq<Brief>, w: World) {
    && DistinctBriefs(all)
    && (forall k :: 0 <= k < |all| ==> all[k].id in w.briefs && w.briefs[all[k].id] == all[k])
    && (forall id :: id in w.briefs ==> Present(all, id))
  }

  // Everything but one brief and its record.
  ghost predicate OthersKept(w: World, now: World, id: string) {
    && now.claims == w.claims && now.store.elsewhere == w.store.elsewhere && now.briefs.Keys == w.briefs.Keys
    && (forall other :: other in w.briefs && other != id ==> now.briefs[other] == w.briefs[other])
    && (forall other :: other != id ==> (other in now.store.briefs <==> other in w.store.briefs))
    && (forall other :: other in w.store.briefs && other != id ==> now.store.briefs[other] == w.store.briefs[other])
  }

  // A finished lock: the file says locked and is otherwise as it was, and its record stands
  // and signs it, text and images, in the command's own words.
  lemma LockLeavesLocked(w: World, id: string, g: Gates, at: string, reason: string)
    requires Valid(w) && LockRefusal(w, id, g).None?
    ensures OthersKept(w, LockWrites(w, id, at, reason, 2), id)
    ensures var now := LockWrites(w, id, at, reason, 2);
      && now.briefs[id] == w.briefs[id].(status := C.Locked) && id in now.store.briefs
      && StateOf(now.briefs[id], Some(now.store)) == IsLocked && Raised(now.briefs[id], Some(now.store)).None?
    ensures var b, r := w.briefs[id], LockWrites(w, id, at, reason, 2).store.briefs[id];
      && r.path == b.path && r.at == at && r.reason == reason && r.images == b.images && r.release == None
      && r.approved.summary == b.summary && r.approved.restsOn == b.restsOn && r.approved.markdown == b.body
      && r.reaudits == []
  {
    var now := LockWrites(w, id, at, reason, 2);
    assert now.briefs.Keys == w.briefs.Keys;
    assert HashOf(now.briefs[id]) == HashOf(w.briefs[id]);
  }

  // A finished unlock: a draft, otherwise as it was, on a record that was kept but no
  // longer stands.
  lemma UnlockLeavesDraft(w: World, id: string, g: Gates, at: string, reason: string)
    requires Valid(w) && UnlockRefusal(w, id, g).None?
    ensures OthersKept(w, UnlockWrites(w, id, at, reason, 2), id)
    ensures var now := UnlockWrites(w, id, at, reason, 2);
      && now.briefs[id] == w.briefs[id].(status := C.Draft) && Raised(now.briefs[id], Some(now.store)).None?
      && (id in now.store.briefs <==> id in w.store.briefs)
    ensures var now := UnlockWrites(w, id, at, reason, 2);
      id in w.store.briefs ==>
        now.store.briefs[id] ==
          if w.store.briefs[id].release.Some? then w.store.briefs[id]
          else w.store.briefs[id].(release := Some(Stamp(at, reason)))
  {
    var now := UnlockWrites(w, id, at, reason, 2);
    assert now.briefs.Keys == w.briefs.Keys;
    assert StateOf(now.briefs[id], Some(now.store)) == IsDraft;
  }

  // A finished reaudit: the files as they were, and in the record the baselines of the
  // brief's list as the claims read now, its images, and one more reaudit, which names
  // exactly the claims that differed.
  lemma ReauditLeavesReread(w: World, id: string, g: Gates, at: string, reason: string)
    requires Valid(w) && ReauditRefusal(w, id, g).None?
    ensures var now := ReauditWrites(w, id, at, reason, 1);
      && OthersKept(w, now, id) && now.briefs == w.briefs && id in w.store.briefs && id in now.store.briefs
      && var was, r := w.store.briefs[id], now.store.briefs[id];
         && r == was.(baselines := r.baselines, receipts := r.receipts, images := w.briefs[id].images,
             reaudits := r.reaudits)
         && (forall c :: c in r.baselines <==> c in w.briefs[id].restsOn) && r.receipts.Keys == r.baselines.Keys
         && (forall c :: c in r.baselines ==>
               && c in C.Latest(w.claims)
               && r.baselines[c] == C.Content(C.Latest(w.claims)[c])
               && r.receipts[c] == C.Latest(w.claims)[c].(path := ""))
         && |r.reaudits| == |was.reaudits| + 1 && was.reaudits <= r.reaudits
         && var last := r.reaudits[|was.reaudits|];
            && last.at == at && last.reason == reason
            && forall c :: c in last.claims <==>
                 c in was.baselines && (c in C.Latest(w.claims) ==>
                   C.Content(C.Latest(w.claims)[c]) != was.baselines[c])
  {
  }

  // ---- and check finds no fault with it ----

  // A command that leaves one brief clean leaves a clean project clean.
  lemma OneBriefClean(w: World, now: World, id: string, before: seq<Brief>, after: seq<Brief>, dir: string)
    requires Lists(before, w) && Lists(after, now) && OthersKept(w, now, id) && id in w.briefs
    requires Clean(before, Some(w.store), dir) && Raised(now.briefs[id], Some(now.store)).None?
    ensures Clean(after, Some(now.store), dir)
  {
    CleanIff(before, Some(w.store), dir);
    forall k | 0 <= k < |after|
      ensures if after[k].status == C.Draft then !Standing(Some(now.store), after[k].id)
              else Standing(Some(now.store), after[k].id) && Agrees(after[k], now.store.briefs[after[k].id])
    {
      if after[k].id != id {
        assert Present(before, after[k].id);
        var j :| 0 <= j < |before| && before[j].id == after[k].id;
        assert before[j] == after[k];
      }
    }
    forall other | Standing(Some(now.store), other) ensures Present(after, other) {
      if other != id { assert Standing(Some(w.store), other); }
      assert other in now.briefs;
    }
    CleanIff(after, Some(now.store), dir);
  }

  lemma LockKeepsClean(w: World, id: string, g: Gates, at: string, reason: string, before: seq<Brief>,
                       after: seq<Brief>, dir: string)
    requires Valid(w) && LockRefusal(w, id, g).None? && Lists(before, w) && Clean(before, Some(w.store), dir)
    requires Lists(after, LockWrites(w, id, at, reason, 2))
    ensures Clean(after, Some(LockWrites(w, id, at, reason, 2).store), dir)
  {
    LockLeavesLocked(w, id, g, at, reason);
    OneBriefClean(w, LockWrites(w, id, at, reason, 2), id, before, after, dir);
  }

  lemma UnlockKeepsClean(w: World, id: string, g: Gates, at: string, reason: string, before: seq<Brief>,
                         after: seq<Brief>, dir: string)
    requires Valid(w) && UnlockRefusal(w, id, g).None? && Lists(before, w) && Clean(before, Some(w.store), dir)
    requires Lists(after, UnlockWrites(w, id, at, reason, 2))
    ensures Clean(after, Some(UnlockWrites(w, id, at, reason, 2).store), dir)
  {
    UnlockLeavesDraft(w, id, g, at, reason);
    OneBriefClean(w, UnlockWrites(w, id, at, reason, 2), id, before, after, dir);
  }
}
