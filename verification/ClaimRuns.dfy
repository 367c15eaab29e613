// Runs of set lock, unlock, flag, reaudit, reconcile, comment and the editor over the
// claims, each command free to stop after any of its writes: an edit to a locked claim is
// never re-signed, and a baseline is the claim as it was last accepted.
module ClaimRuns {
  import opened GoStd
  import opened ClaimModel
  import opened ClaimReview
  import L = SetLock

  datatype Event =
    | Edit(claims: seq<Claim>)                 // the editor: any files, any change
    | LockSet(ids: seq<string>, refused: set<string>, reason: string, at: string, landed: nat)
    | Unlock(id: string, gated: bool, flagsReadable: bool, landed: nat)
    | Flag(id: string, flag: string, gated: bool, landed: nat)
    | Confirm(id: string, d: Diff, reason: string, at: string, gated: bool, landed: nat)
    | Reconcile(storeReadable: bool, flagsReadable: bool, landed: nat)
    | Comment(id: string, threads: nat)        // a comment op: review_pending follows on a locked claim

  ghost predicate DistinctPaths(claims: seq<Claim>) {
    forall i, j :: 0 <= i < j < |claims| ==> claims[i].path != claims[j].path
  }

  // The claims a set lock has saved when it stops after `landed` files.
  function LockFiles(claims: seq<Claim>, ids: seq<string>, landed: nat): (r: seq<Claim>)
    ensures |r| == |claims|
  {
    var n := if landed < |claims| then landed else |claims|;
    L.Final(claims, L.Requested(ids))[..n] + claims[n..]
  }

  // Claim by claim, then the lock store.
  function LockWrites(w: World, ids: seq<string>, reason: string, at: string, landed: nat): World {
    w.(claims := LockFiles(w.claims, ids, landed),
       store := if landed > |w.claims| then L.Approved(w.store, w.claims, L.Requested(ids), reason, at) else w.store)
  }

  function Discussed(w: World, c: Claim, threads: nat): Claim {
    var next := c.(threads := threads);
    if c.status == Locked then next.(reviewPending := OughtPend(next, w.claims, Some(w.store), Some(w.flags))) else next
  }

  ghost function Step(w: World, e: Event): World {
    match e
    case Edit(claims) => if DistinctPaths(claims) then w.(claims := claims) else w
    case LockSet(ids, refused, reason, at, landed) =>
      if L.Allowed(w.claims, w.store, refused, ids) then LockWrites(w, ids, reason, at, landed) else w
    case Unlock(id, gated, flagsReadable, landed) =>
      if UnlockRefusal(w, id, gated).None? then UnlockWrites(w, id, flagsReadable, landed) else w
    case Flag(id, flag, gated, landed) => if FlagRefusal(w, id, gated).None? then FlagWrites(w, id, flag, landed) else w
    case Confirm(id, d, reason, at, gated, landed) =>
      if ReauditRefusal(w, id, gated).None? then ReauditWrites(w, id, d, reason, at, landed) else w
    case Reconcile(storeReadable, flagsReadable, landed) =>
      w.(claims := Reconciled(w.claims, if storeReadable then Some(w.store) else None,
                              if flagsReadable then Some(w.flags) else None,
                              if landed < |w.claims| then landed else |w.claims|))
    case Comment(id, threads) =>
      if Has(w.claims, id) then w.(claims := Put(w.claims, Discussed(w, Get(w.claims, id), threads))) else w
  }

  ghost function After(w: World, run: seq<Event>): World {
    if run == [] then w else Step(After(w, run[..|run| - 1]), run[|run| - 1])
  }

  ghost predicate SamePaths(a: seq<Claim>, b: seq<Claim>) {
    |a| == |b| && forall k :: 0 <= k < |a| ==> a[k].path == b[k].path
  }

  lemma PutKeepsPaths(claims: seq<Claim>, c: Claim)
    requires Has(claims, c.id) && Get(claims, c.id).path == c.path
    ensures SamePaths(Put(claims, c), claims)
  {
  }

  lemma LockKeepsPaths(claims: seq<Claim>, ids: seq<string>, landed: nat)
    ensures SamePaths(LockFiles(claims, ids, landed), claims)
  {
  }

  lemma StepKeepsPaths(w: World, e: Event)
    requires DistinctPaths(w.claims)
    ensures DistinctPaths(Step(w, e).claims)
  {
    hide LockFiles, Put, OughtPend, Resigned, Has, Drifts, Disputed, L.Approved, L.Allowed;
    var next := Step(w, e).claims;
    match e {
      case Edit(_) =>
      case LockSet(ids, _, _, _, landed) => LockKeepsPaths(w.claims, ids, landed);
      case Unlock(id, _, _, _) => if Has(w.claims, id) { PutKeepsPaths(w.claims, Drafted(Get(w.claims, id))); }
      case Flag(id, _, _, _) => if Has(w.claims, id) {
        PutKeepsPaths(w.claims, Get(w.claims, id).(reviewPending := true));
      }
      case Confirm(id, d, reason, at, _, _) => if Has(w.claims, id) {
        PutKeepsPaths(w.claims, Confirmed(w, id, d, reason, at));
      }
      case Reconcile(_, _, _) => assert SamePaths(next, w.claims);
      case Comment(id, threads) => if Has(w.claims, id) {
        PutKeepsPaths(w.claims, Discussed(w, Get(w.claims, id), threads));
      }
    }
    assert e.Edit? || SamePaths(next, w.claims);
  }

  lemma {:induction false} RunKeepsPaths(w: World, run: seq<Event>)
    requires DistinctPaths(w.claims)
    ensures DistinctPaths(After(w, run).claims)
  {
    if run == [] {
    } else {
      RunKeepsPaths(w, run[..|run| - 1]);
      StepKeepsPaths(After(w, run[..|run| - 1]), run[|run| - 1]);
    }
  }

  // ---- a standing record is replaced only by what it signs, or released ----

  lemma LockLeavesStanding(w: World, ids: seq<string>, refused: set<string>, reason: string, at: string, id: string)
    requires DistinctPaths(w.claims) && L.Allowed(w.claims, w.store, refused, ids) && Standing(w.store, id)
    ensures var s := L.Approved(w.store, w.claims, L.Requested(ids), reason, at);
      id in s.ledger && s.ledger[id] == w.store.ledger[id]
  {
    L.AllowedIsUnique(w.claims, w.store, refused, ids);
    forall i | 0 <= i < |ids| ensures ids[i] != id { assert L.Admissible(w.claims, w.store, refused, ids[i]); }
    L.SuccessRecordsExactly(w.store, w.claims, ids, reason, at, id);
  }

  // A set lock never touches a standing record, unlock only releases its own, and a
  // reaudit replaces one only when the file still hashes to it.
  lemma RecordMovesOnlyHonestly(w: World, e: Event, id: string)
    requires DistinctPaths(w.claims) && Standing(w.store, id)
    ensures var now := Step(w, e).store; var was := w.store.ledger[id];
      && id in now.ledger
      && (now.ledger[id] != was ==>
            || (e.Unlock? && e.id == id && now.ledger[id] == was.(released := true))
            || (e.Confirm? && e.id == id && Has(w.claims, id) && Signed(Get(w.claims, id)) == was.hash))
  {
    if e.LockSet? && L.Allowed(w.claims, w.store, e.refused, e.ids) {
      LockLeavesStanding(w, e.ids, e.refused, e.reason, e.at, id);
    }
  }

  // So a standing record survives every run in which its claim's file, whenever a reaudit
  // of it runs, disagrees with it, and no unlock of it runs: however the claim was edited,
  // flagged, reconciled, discussed or drifted.
  lemma {:induction false} DisputeSurvives(w: World, run: seq<Event>, id: string)
    requires DistinctPaths(w.claims) && Standing(w.store, id)
    requires forall k :: 0 <= k < |run| && run[k].Unlock? ==> run[k].id != id
    requires forall k :: 0 <= k < |run| && run[k].Confirm? && run[k].id == id && Has(After(w, run[..k]).claims, id) ==>
               Signed(Get(After(w, run[..k]).claims, id)) != w.store.ledger[id].hash
    ensures var now := After(w, run).store; id in now.ledger && now.ledger[id] == w.store.ledger[id]
  {
    if run == [] {
    } else {
      var n := |run| - 1;
      var init := run[..n];
      forall k | 0 <= k < n && init[k].Confirm? && init[k].id == id && Has(After(w, init[..k]).claims, id)
        ensures Signed(Get(After(w, init[..k]).claims, id)) != w.store.ledger[id].hash
      {
        assert init[..k] == run[..k] && init[k] == run[k];
      }
      forall k | 0 <= k < n && init[k].Unlock? ensures init[k].id != id { assert init[k] == run[k]; }
      DisputeSurvives(w, init, id);
      RunKeepsPaths(w, init);
      RecordMovesOnlyHonestly(After(w, init), run[n], id);
    }
  }

  // A claim whose file disagrees with its standing record is refused by both commands that
  // could sign it.
  lemma DisputedIsRefused(w: World, id: string, gated: bool, refused: set<string>, ids: seq<string>)
    requires Has(w.claims, id) && Disputed(w.store, Get(w.claims, id))
    ensures ReauditRefusal(w, id, gated).Some?
    ensures id in ids ==> !L.Allowed(w.claims, w.store, refused, ids)
  {
    if id in ids {
      var i :| 0 <= i < |ids| && ids[i] == id;
      assert !L.Admissible(w.claims, w.store, refused, ids[i]);
    }
  }

  // ---- what an approval binds ----

  lemma AtByIds(a: seq<Claim>, b: seq<Claim>, id: string)
    requires |a| == |b| && forall k :: 0 <= k < |a| ==> a[k].id == b[k].id
    ensures At(a, id) == At(b, id)
  {
  }

  // After a confirmed reaudit the record signs the file just written.
  lemma ConfirmSignsTheFile(w: World, id: string, d: Diff, reason: string, at: string)
    requires Has(w.claims, id)
    ensures var now := ReauditWrites(w, id, d, reason, at, 3);
      && Has(now.claims, id) && Standing(now.store, id) && !Disputed(now.store, Get(now.claims, id))
      && now.store.ledger[id] == LedgerRecord(Signed(Get(now.claims, id)), at, reason, false)
  {
    PutGet(w.claims, Confirmed(w, id, d, reason, at), id);
  }

  // After a set lock every requested claim's record signs its file, now locked.
  lemma LockSignsTheFiles(w: World, ids: seq<string>, refused: set<string>, reason: string, at: string, id: string)
    requires DistinctPaths(w.claims) && L.Allowed(w.claims, w.store, refused, ids) && id in ids
    ensures var now := LockWrites(w, ids, reason, at, |w.claims| + 1);
      && Has(now.claims, id) && Get(now.claims, id) == LockClaim(Get(w.claims, id)) && Has(w.claims, id)
      && id in now.store.ledger && now.store.ledger[id] == LedgerRecord(Signed(Get(now.claims, id)), at, reason, false)
  {
    var now := LockWrites(w, ids, reason, at, |w.claims| + 1);
    AtByIds(w.claims, now.claims, id);
    var i :| 0 <= i < |ids| && ids[i] == id;
    assert L.Admissible(w.claims, w.store, refused, ids[i]);
    IndexIsFirst(w.claims, id);
    L.AllowedIsUnique(w.claims, w.store, refused, ids);
    L.SuccessRecordsExactly(w.store, w.claims, ids, reason, at, id);
    assert id in L.Requested(ids);
  }

  // A finished reaudit, field by field: the claim with the confirmed body and trail, its
  // review settled but for open threads; a record of what was written, in the command's
  // words; the flag gone; nothing else moved.
  lemma ConfirmLeaves(w: World, id: string, d: Diff, reason: string, at: string)
    requires Has(w.claims, id)
    ensures var now := ReauditWrites(w, id, d, reason, at, 3); var was := Get(w.claims, id);
      && Has(now.claims, id)
      && Get(now.claims, id) == was.(body := d.body, meta := d.meta, reviewPending := was.threads > 0)
      && (forall other :: other != id ==>
            && (Has(now.claims, other) <==> Has(w.claims, other))
            && (Has(w.claims, other) ==> Get(now.claims, other) == Get(w.claims, other)))
      && now.store.ledger ==
          w.store.ledger[id := LedgerRecord(SignedOf(id, was.restsOn, d.body, d.meta), at, reason, false)]
      && now.store.lockedAt == w.store.lockedAt[id := at]
      && now.flags == map f | f in w.flags && f != id :: w.flags[f]
  {
    ConfirmedPendsIffThreads(w, id, d, reason, at);
    var c := Confirmed(w, id, d, reason, at);
    forall other ensures Has(Put(w.claims, c), other) <==> Has(w.claims, other)
      ensures Has(w.claims, other) ==> Get(Put(w.claims, c), other) == if other == id then c else Get(w.claims, other)
    {
      PutGet(w.claims, c, other);
    }
    assert w.flags - {id} == map f | f in w.flags && f != id :: w.flags[f];
  }

  // ---- commands stopped between their writes ----

  // Wherever an unlock stops, a record it released is a draft's, and a draft it made has
  // no flag it could read left: no half of it invites an edit to a locked claim.
  lemma StoppedUnlockIsSafe(w: World, id: string, readable: bool, landed: nat)
    requires Has(w.claims, id)
    ensures var now := UnlockWrites(w, id, readable, landed);
      && Has(now.claims, id)
      && (Standing(w.store, id) && !Standing(now.store, id) ==> Get(now.claims, id).status == Draft)
      && (Get(w.claims, id).status == Locked && Get(now.claims, id).status == Draft && readable ==> id !in now.flags)
  {
    PutGet(w.claims, Drafted(Get(w.claims, id)), id);
  }

  // Unlock takes a claim in any status, so it finishes whatever a stopped one left, and the
  // flag is gone when either of the two could read it.
  lemma UnlockRerunFinishes(w: World, id: string, readable: bool, landed: nat, again: bool)
    requires Has(w.claims, id)
    ensures var stopped := UnlockWrites(w, id, readable, landed);
      && UnlockRefusal(stopped, id, false).None?
      && UnlockWrites(stopped, id, again, 3) == UnlockWrites(w, id, again || (readable && landed >= 1), 3)
  {
    PutGet(w.claims, Drafted(Get(w.claims, id)), id);
    var k := At(w.claims, id);
    var put := Put(w.claims, Drafted(Get(w.claims, id)));
    AtUpdated(w.claims, k, Drafted(Get(w.claims, id)), id);
    assert put[k := put[k]] == put;
  }

  // A claim unlocked to the end is the claim it was, a settled draft, and carries nothing
  // into its next lock, but for a flag in a flag store that could not be read.
  lemma UnlockLeavesNothing(w: World, id: string, flagsReadable: bool)
    requires Has(w.claims, id)
    ensures var now := UnlockWrites(w, id, flagsReadable, 3);
      && Has(now.claims, id) && Get(now.claims, id) == Get(w.claims, id).(status := Draft, reviewPending := false)
      && (forall other :: other != id ==>
            && (Has(now.claims, other) <==> Has(w.claims, other))
            && (Has(w.claims, other) ==> Get(now.claims, other) == Get(w.claims, other)))
      && (forall other :: other != id ==> (other in now.flags <==> other in w.flags))
      && (forall other :: other in now.flags ==> other in w.flags && now.flags[other] == w.flags[other])
      && (id in now.flags <==> id in w.flags && !flagsReadable)
      && !Standing(now.store, id) && (id in w.store.ledger <==> id in now.store.ledger)
  {
    var c := Drafted(Get(w.claims, id));
    forall other ensures Has(Put(w.claims, c), other) <==> Has(w.claims, other)
      ensures Has(w.claims, other) ==> Get(Put(w.claims, c), other) == if other == id then c else Get(w.claims, other)
    {
      PutGet(w.claims, c, other);
    }
  }

  // A flag parked to the end: the claim, otherwise as it was, is pending.
  lemma FlagLeavesPending(w: World, id: string, flag: string)
    requires FlagRefusal(w, id, false).None?
    ensures var now := FlagWrites(w, id, flag, 2);
      && now.flags == w.flags[id := flag] && now.store == w.store
      && Has(now.claims, id) && Get(now.claims, id) == Get(w.claims, id).(reviewPending := true)
      && (forall other :: other != id ==>
            && (Has(now.claims, other) <==> Has(w.claims, other))
            && (Has(w.claims, other) ==> Get(now.claims, other) == Get(w.claims, other)))
  {
    var c := Get(w.claims, id).(reviewPending := true);
    forall other ensures Has(Put(w.claims, c), other) <==> Has(w.claims, other)
      ensures Has(w.claims, other) ==> Get(Put(w.claims, c), other) == if other == id then c else Get(w.claims, other)
    {
      PutGet(w.claims, c, other);
    }
  }

  // A flag stopped after its first write is not lost: check's reconcile sets review_pending.
  lemma FlagIsRestored(w: World, id: string, flag: string, storeReadable: bool)
    requires FlagRefusal(w, id, false).None?
    ensures var stopped := FlagWrites(w, id, flag, 1);
            var now := Step(stopped, Reconcile(storeReadable, true, |stopped.claims|));
      Has(now.claims, id) && Get(now.claims, id).reviewPending
  {
    var stopped := FlagWrites(w, id, flag, 1);
    var now := Step(stopped, Reconcile(storeReadable, true, |stopped.claims|));
    AtByIds(stopped.claims, now.claims, id);
  }

  // A reaudit stopped after the claim file leaves the earlier record standing against it:
  // it is reported, and no later reaudit signs it.
  lemma StoppedReauditIsDisputed(w: World, id: string, d: Diff, reason: string, at: string, gated: bool)
    requires ReauditRefusal(w, id, gated).None? && Standing(w.store, id)
    requires Get(w.claims, id).body != d.body || Get(w.claims, id).meta != d.meta
    ensures var stopped := ReauditWrites(w, id, d, reason, at, 1);
      Has(stopped.claims, id) && Disputed(stopped.store, Get(stopped.claims, id))
        && ReauditRefusal(stopped, id, gated).Some?
  {
    PutGet(w.claims, Confirmed(w, id, d, reason, at), id);
  }

  // ---- a claim nothing calls for review stays settled ----

  // Nothing calls for a review of the claim.
  ghost predicate Quiet(w: World, id: string) {
    Has(w.claims, id) ==> !OughtPend(Get(w.claims, id), w.claims, Some(w.store), Some(w.flags))
  }

  ghost predicate Settled(w: World, id: string) { Has(w.claims, id) ==> !Get(w.claims, id).reviewPending }

  // Reading order and content are all a drift looks at.
  lemma TriggersIgnoreThreads(w: World, c: Claim, threads: nat, d: Claim)
    requires Has(w.claims, c.id) && Get(w.claims, c.id) == c
    requires d == c.(threads := threads, reviewPending := d.reviewPending)
    ensures forall e: Claim :: OughtPend(e, Put(w.claims, d), Some(w.store), Some(w.flags)) <==>
                               OughtPend(e, w.claims, Some(w.store), Some(w.flags))
  {
    var now := Put(w.claims, d);
    forall e: Claim, i | 0 <= i < |e.restsOn|
      ensures DriftedFrom(e, now, w.store, e.restsOn[i]) <==> DriftedFrom(e, w.claims, w.store, e.restsOn[i])
    {
      PutGet(w.claims, d, e.restsOn[i]);
    }
  }

  lemma CommentStaysSettled(w: World, id: string, threads: nat, other: string)
    requires Has(w.claims, id) && Settled(w, other)
    requires Quiet(w.(claims := Put(w.claims, Discussed(w, Get(w.claims, id), threads))), other)
    ensures Settled(w.(claims := Put(w.claims, Discussed(w, Get(w.claims, id), threads))), other)
  {
    hide OughtPend;
    var c := Get(w.claims, id);
    var d := Discussed(w, c, threads);
    PutGet(w.claims, d, other);
    TriggersIgnoreThreads(w, c, threads, d);
    PendingIsNoTrigger(w, c.(threads := threads), d);
  }

  lemma PendingIsNoTrigger(w: World, c: Claim, d: Claim)
    requires d == c.(reviewPending := d.reviewPending)
    ensures OughtPend(d, w.claims, Some(w.store), Some(w.flags)) <==>
      OughtPend(c, w.claims, Some(w.store), Some(w.flags))
  {
    TriggersIgnorePending(d, c, w.claims, w.claims, Some(w.store), Some(w.flags));
  }

  lemma ConfirmStaysSettled(w: World, id: string, d: Diff, reason: string, at: string, landed: nat, other: string)
    requires Has(w.claims, id) && Settled(w, other) && Quiet(ReauditWrites(w, id, d, reason, at, landed), other)
    ensures Settled(ReauditWrites(w, id, d, reason, at, landed), other)
  {
    var c := Confirmed(w, id, d, reason, at);
    ConfirmedPendsIffThreads(w, id, d, reason, at);
    assert c.threads == Get(w.claims, id).threads && c.id == id;
    hide Confirmed, Resigned, DriftsIn, Put;
    PutGet(w.claims, c, other);
  }

  lemma ReconcileStaysSettled(w: World, s: Option<Store>, f: Option<Flags>, n: nat, id: string)
    requires n <= |w.claims| && Settled(w, id) && Quiet(w, id)
    requires (s.Some? ==> s.value == w.store) && (f.Some? ==> f.value == w.flags)
    ensures Settled(w.(claims := Reconciled(w.claims, s, f, n)), id)
  {
    hide Drifts;
    AtByIds(w.claims, Reconciled(w.claims, s, f, n), id);
  }

  lemma FlagStaysSettled(w: World, id: string, flag: string, landed: nat, other: string)
    requires Has(w.claims, id) && Settled(w, other) && Quiet(FlagWrites(w, id, flag, landed), other)
    ensures Settled(FlagWrites(w, id, flag, landed), other)
  {
    hide DriftsIn;
    PutGet(w.claims, Get(w.claims, id).(reviewPending := true), other);
  }

  lemma UnlockStaysSettled(w: World, id: string, readable: bool, landed: nat, other: string)
    requires Has(w.claims, id) && Settled(w, other)
    ensures Settled(UnlockWrites(w, id, readable, landed), other)
  {
    PutGet(w.claims, Drafted(Get(w.claims, id)), other);
  }

  lemma LockStaysSettled(w: World, ids: seq<string>, reason: string, at: string, landed: nat, other: string)
    requires Settled(w, other)
    ensures Settled(LockWrites(w, ids, reason, at, landed), other)
  {
    AtByIds(w.claims, LockFiles(w.claims, ids, landed), other);
  }

  lemma StepStaysSettled(w: World, e: Event, id: string)
    requires Settled(w, id) && Quiet(w, id) && Quiet(Step(w, e), id) && (e.Edit? ==> Settled(Step(w, e), id))
    ensures Settled(Step(w, e), id)
  {
    hide Settled, Quiet, LockWrites, UnlockWrites, FlagWrites, ReauditWrites, Reconciled, Discussed, L.Allowed;
    match e
    case Edit(_) =>
    case LockSet(ids, _, reason, at, landed) => LockStaysSettled(w, ids, reason, at, landed, id);
    case Unlock(i, _, readable, landed) => if Has(w.claims, i) { UnlockStaysSettled(w, i, readable, landed, id); }
    case Flag(i, flag, gated, landed) =>
      if FlagRefusal(w, i, gated).None? { FlagStaysSettled(w, i, flag, landed, id); }
    case Confirm(i, d, reason, at, gated, landed) =>
      if ReauditRefusal(w, i, gated).None? { ConfirmStaysSettled(w, i, d, reason, at, landed, id); }
    case Reconcile(storeReadable, flagsReadable, landed) =>
      var s := if storeReadable then Some(w.store) else None;
      var f := if flagsReadable then Some(w.flags) else None;
      ReconcileStaysSettled(w, s, f, if landed < |w.claims| then landed else |w.claims|, id);
    case Comment(i, threads) => if Has(w.claims, i) { CommentStaysSettled(w, i, threads, id); }
  }

  // Over every run in which nothing ever calls for a review of the claim and no edit by
  // hand sets it pending, no command does.
  lemma {:induction false} QuietStaysSettled(w: World, run: seq<Event>, id: string)
    requires Settled(w, id)
    requires forall k :: 0 <= k <= |run| ==> Quiet(After(w, run[..k]), id)
    requires forall k :: 0 <= k < |run| && run[k].Edit? ==> Settled(After(w, run[..k + 1]), id)
    ensures Settled(After(w, run), id)
  {
    hide Quiet, Settled, Step;
    if run == [] {
    } else {
      var n := |run| - 1;
      var init := run[..n];
      assert run[..n + 1] == run && run[..n + 1][..n] == init;
      forall k | 0 <= k <= n ensures Quiet(After(w, init[..k]), id) { assert init[..k] == run[..k]; }
      forall k | 0 <= k < n && init[k].Edit? ensures Settled(After(w, init[..k + 1]), id) {
        assert init[..k + 1] == run[..k + 1] && init[k] == run[k];
      }
      QuietStaysSettled(w, init, id);
      assert Quiet(After(w, run[..n]), id) && Quiet(After(w, run[..n + 1]), id);
      StepStaysSettled(After(w, init), run[n], id);
    }
  }

  // ---- what a claim's baseline is ----

  function BaselineAt(w: World, id: string, dep: string): Option<ContentHash> {
    if dep in BaselinesOf(w.store, id) then Some(BaselinesOf(w.store, id)[dep]) else None
  }

  // The event approved the claim: a set lock or a confirmed reaudit whose store write landed.
  ghost predicate Accepts(w: World, e: Event, id: string) {
    || (e.LockSet? && id in e.ids && L.Allowed(w.claims, w.store, e.refused, e.ids) && e.landed > |w.claims|)
    || (e.Confirm? && e.id == id && ReauditRefusal(w, id, e.gated).None? && e.landed >= 2)
  }

  ghost function MovedBy(w: World, e: Event, id: string, dep: string, was: Option<ContentHash>): Option<ContentHash> {
    if Accepts(w, e, id) && Has(w.claims, id) && dep in Get(w.claims, id).restsOn && Has(w.claims, dep)
    then Some(Content(Get(w.claims, dep))) else was
  }

  // How a dependency read when the claim was last approved resting on it.
  ghost function LastRead(w: World, run: seq<Event>, id: string, dep: string): Option<ContentHash> {
    if run == [] then None
    else MovedBy(After(w, run[..|run| - 1]), run[|run| - 1], id, dep, LastRead(w, run[..|run| - 1], id, dep))
  }

  lemma FinalReads(claims: seq<Claim>, requested: set<string>, id: string)
    ensures var final := L.Final(claims, requested);
      && (id in IndexOf(final) <==> Has(claims, id))
      && (Has(claims, id) ==> Content(IndexOf(final)[id]) == Content(Get(claims, id)))
  {
    var final := L.Final(claims, requested);
    AtByIds(claims, final, id);
    IndexIsFirst(final, id);
  }

  lemma LockMovesOthers(w: World, ids: seq<string>, refused: set<string>, reason: string, at: string, id: string)
    requires DistinctPaths(w.claims) && L.Allowed(w.claims, w.store, refused, ids) && id !in ids
    ensures BaselinesOf(L.Approved(w.store, w.claims, L.Requested(ids), reason, at), id) == BaselinesOf(w.store, id)
  {
    var requested := L.Requested(ids);
    var final := L.Final(w.claims, requested);
    var cs := L.Chosen(final, requested, |final|);
    L.AllowedIsUnique(w.claims, w.store, refused, ids);
    L.ChosenSoFar(final, requested, |final|);
    hide L.Lockable, L.Chosen, L.Allowed, L.Final, Approve;
    forall i | 0 <= i < |cs| ensures cs[i].id != id { assert L.Takes(final, requested, |final|, cs[i]); }
    ApproveLeavesOthers(w.store, cs, IndexOf(final), reason, at, id);
  }

  lemma LockMovesRequested(w: World, ids: seq<string>, refused: set<string>, reason: string, at: string, id: string)
    requires DistinctPaths(w.claims) && L.Allowed(w.claims, w.store, refused, ids) && id in ids && Has(w.claims, id)
    ensures var final := L.Final(w.claims, L.Requested(ids));
      BaselinesOf(L.Approved(w.store, w.claims, L.Requested(ids), reason, at), id) ==
        BaselinesOf(w.store, id) + Read(Get(w.claims, id), IndexOf(final))
  {
    var requested := L.Requested(ids);
    var final := L.Final(w.claims, requested);
    var cs := L.Chosen(final, requested, |final|);
    L.AllowedIsUnique(w.claims, w.store, refused, ids);
    L.ChosenSoFar(final, requested, |final|);
    var k := At(w.claims, id);
    assert final[k].restsOn == Get(w.claims, id).restsOn && final[k].id == id;
    hide L.Lockable, L.Chosen, L.Allowed, L.Final, Approve;
    L.ChosenHolds(final, requested, |final|, k);
    var j :| 0 <= j < |cs| && cs[j] == final[k];
    ApproveRecords(w.store, cs, IndexOf(final), reason, at, j);
  }

  lemma RequestedIsThere(w: World, ids: seq<string>, refused: set<string>, id: string)
    requires L.Allowed(w.claims, w.store, refused, ids) && id in ids
    ensures Has(w.claims, id)
  {
    var i :| 0 <= i < |ids| && ids[i] == id;
    assert L.Admissible(w.claims, w.store, refused, ids[i]);
    IndexIsFirst(w.claims, id);
  }

  lemma LockMovesBaseline(w: World, e: Event, id: string, dep: string)
    requires DistinctPaths(w.claims) && e.LockSet? && L.Allowed(w.claims, w.store, e.refused, e.ids)
    requires e.landed > |w.claims|
    ensures BaselineAt(Step(w, e), id, dep) == MovedBy(w, e, id, dep, BaselineAt(w, id, dep))
  {
    hide L.Allowed, L.Approved, L.Final, L.Requested, At, Get, IndexOf;
    if id in e.ids {
      RequestedIsThere(w, e.ids, e.refused, id);
      LockMovesRequested(w, e.ids, e.refused, e.reason, e.at, id);
      FinalReads(w.claims, L.Requested(e.ids), dep);
    } else {
      LockMovesOthers(w, e.ids, e.refused, e.reason, e.at, id);
    }
  }

  lemma ConfirmMovesBaseline(w: World, e: Event, id: string, dep: string)
    requires e.Confirm? && ReauditRefusal(w, e.id, e.gated).None? && e.landed >= 2
    ensures BaselineAt(Step(w, e), id, dep) == MovedBy(w, e, id, dep, BaselineAt(w, id, dep))
  {
    IndexIsFirst(w.claims, dep);
    assert Step(w, e).store == Resigned(w, e.id, e.d, e.reason, e.at);
    var applied := Applied(Get(w.claims, e.id), e.d);
    assert dep in Read(applied, IndexOf(w.claims)) <==> dep in applied.restsOn && Has(w.claims, dep);
  }

  lemma StepMovesBaseline(w: World, e: Event, id: string, dep: string)
    requires DistinctPaths(w.claims)
    ensures BaselineAt(Step(w, e), id, dep) == MovedBy(w, e, id, dep, BaselineAt(w, id, dep))
  {
    if e.LockSet? && L.Allowed(w.claims, w.store, e.refused, e.ids) && e.landed > |w.claims| {
      LockMovesBaseline(w, e, id, dep);
    } else if e.Confirm? && ReauditRefusal(w, e.id, e.gated).None? && e.landed >= 2 {
      ConfirmMovesBaseline(w, e, id, dep);
    } else {
      assert BaselinesOf(Step(w, e).store, id) == BaselinesOf(w.store, id);
    }
  }

  lemma {:induction false} BaselineIsLastRead(w: World, run: seq<Event>, id: string, dep: string)
    requires DistinctPaths(w.claims) && w.store.baselines == map[]
    ensures BaselineAt(After(w, run), id, dep) == LastRead(w, run, id, dep)
  {
    if run == [] {
    } else {
      RunKeepsPaths(w, run[..|run| - 1]);
      BaselineIsLastRead(w, run[..|run| - 1], id, dep);
      StepMovesBaseline(After(w, run[..|run| - 1]), run[|run| - 1], id, dep);
    }
  }

  // ---- the same, event by event ----

  // Event k approved the claim resting on a dependency that exists.
  ghost predicate ReadsAt(w: World, run: seq<Event>, k: nat, id: string, dep: string)
    requires k < |run|
  {
    var was := After(w, run[..k]);
    Accepts(was, run[k], id) && Has(was.claims, id) && dep in Get(was.claims, id).restsOn && Has(was.claims, dep)
  }

  ghost predicate LastReadAt(w: World, run: seq<Event>, k: nat, n: nat, id: string, dep: string)
    requires n <= |run|
  {
    k < n && ReadsAt(w, run, k, id, dep) && forall m :: k < m < n ==> !ReadsAt(w, run, m, id, dep)
  }

  ghost function DepAt(w: World, run: seq<Event>, k: nat, dep: string): Option<ContentHash>
    requires k <= |run|
  {
    var was := After(w, run[..k]).claims;
    if Has(was, dep) then Some(Content(Get(was, dep))) else None
  }

  ghost predicate ReadsAsAt(w: World, run: seq<Event>, n: nat, id: string, dep: string, last: Option<ContentHash>)
    requires n <= |run|
  {
    && (last.Some? ==> exists k :: LastReadAt(w, run, k, n, id, dep))
    && (forall k :: LastReadAt(w, run, k, n, id, dep) ==> last.Some? && last == DepAt(w, run, k, dep))
  }

  lemma LastReadNext(w: World, run: seq<Event>, n: nat, id: string, dep: string)
    requires n < |run|
    ensures LastRead(w, run[..n + 1], id, dep) ==
      if ReadsAt(w, run, n, id, dep) then DepAt(w, run, n, dep) else LastRead(w, run[..n], id, dep)
    ensures ReadsAt(w, run, n, id, dep) ==> DepAt(w, run, n, dep).Some?
  {
    hide After, Accepts;
    assert run[..n + 1][..n] == run[..n];
  }

  lemma ReadsAsNext(w: World, run: seq<Event>, n: nat, id: string, dep: string, last: Option<ContentHash>)
    requires n < |run| && ReadsAsAt(w, run, n, id, dep, last)
    requires ReadsAt(w, run, n, id, dep) ==> DepAt(w, run, n, dep).Some?
    ensures ReadsAsAt(w, run, n + 1, id, dep, if ReadsAt(w, run, n, id, dep) then DepAt(w, run, n, dep) else last)
  {
    hide ReadsAt, DepAt;
    var next := n + 1;
    forall k: nat ensures LastReadAt(w, run, k, next, id, dep) <==>
      if ReadsAt(w, run, n, id, dep) then k == n else LastReadAt(w, run, k, n, id, dep)
    {
    }
    assert ReadsAt(w, run, n, id, dep) ==> LastReadAt(w, run, n, next, id, dep);
  }

  lemma {:induction false} LastReadIs(w: World, run: seq<Event>, n: nat, id: string, dep: string)
    requires n <= |run|
    ensures ReadsAsAt(w, run, n, id, dep, LastRead(w, run[..n], id, dep))
    decreases n
  {
    hide ReadsAt, DepAt;
    if n == 0 {
      assert run[..0] == [];
    } else {
      LastReadIs(w, run, n - 1, id, dep);
      LastReadNext(w, run, n - 1, id, dep);
      ReadsAsNext(w, run, n - 1, id, dep, LastRead(w, run[..n - 1], id, dep));
    }
  }

  // Over every run, a baseline is how the dependency read at the last event that approved
  // the claim resting on it; there is none when no event did.
  lemma BaselineWasReadAt(w: World, run: seq<Event>, id: string, dep: string)
    requires DistinctPaths(w.claims) && w.store.baselines == map[]
    ensures ReadsAsAt(w, run, |run|, id, dep, BaselineAt(After(w, run), id, dep))
  {
    assert run[..|run|] == run;
    BaselineIsLastRead(w, run, id, dep);
    LastReadIs(w, run, |run|, id, dep);
  }

  ghost predicate ChangedSince(now: World, dep: string, last: Option<ContentHash>) {
    last.Some? && Has(now.claims, dep) && last.value != Content(Get(now.claims, dep))
  }

  // A claim drifts exactly when a claim it rests on reads otherwise than when it was last
  // approved resting on it.
  lemma DriftsExactly(w: World, run: seq<Event>, c: Claim)
    requires DistinctPaths(w.claims) && w.store.baselines == map[]
    ensures var now := After(w, run);
      Drifts(c, now.claims, now.store) <==>
        exists i :: 0 <= i < |c.restsOn| && ChangedSince(now, c.restsOn[i], LastRead(w, run, c.id, c.restsOn[i]))
  {
    var now := After(w, run);
    forall i | 0 <= i < |c.restsOn|
      ensures DriftedFrom(c, now.claims, now.store, c.restsOn[i]) <==>
        ChangedSince(now, c.restsOn[i], LastRead(w, run, c.id, c.restsOn[i]))
    {
      BaselineIsLastRead(w, run, c.id, c.restsOn[i]);
    }
  }
}
