// A locked claim's review cycle over the three files it moves, the claim, the lock store
// and the flag store: unlock, flag, reaudit --confirm and check's reconcile
// (cmd/dossierx/main.go, cmd/dossierx/flag.go, internal/comments/pending.go).
module ClaimReview {
  import opened GoStd
  import opened ClaimModel

  type Flags = map<string, string>

  // claims is every claim file, in load order.
  datatype World = World(claims: seq<Claim>, store: Store, flags: Flags)

  datatype Code = Gated | NotFound | NotLocked | NotReviewPending | OnlyThreads | IntegrityFailed

  datatype Outcome = Refused(code: Code) | WriteFailed | Done

  // ---- finding and saving a claim ----

  // The first claim of an id, or the number of claims.
  function At(claims: seq<Claim>, id: string): (k: nat)
    ensures k <= |claims|
    ensures k < |claims| ==> claims[k].id == id
    ensures forall j :: 0 <= j < k ==> claims[j].id != id
  {
    if claims == [] then 0 else if claims[0].id == id then 0 else 1 + At(claims[1..], id)
  }

  predicate Has(claims: seq<Claim>, id: string) { At(claims, id) < |claims| }

  function Get(claims: seq<Claim>, id: string): (c: Claim)
    requires Has(claims, id)
    ensures c.id == id
  {
    claims[At(claims, id)]
  }

  // SaveClaim: the claim's own file, and no other.
  function Put(claims: seq<Claim>, c: Claim): seq<Claim> {
    if Has(claims, c.id) then claims[At(claims, c.id) := c] else claims
  }

  lemma {:induction false} IndexIsFirst(claims: seq<Claim>, id: string)
    ensures id in IndexOf(claims) <==> Has(claims, id)
    ensures Has(claims, id) ==> IndexOf(claims)[id] == Get(claims, id)
  {
    if claims == [] {
    } else {
      IndexIsFirst(claims[1..], id);
    }
  }

  lemma {:induction false} AtUpdated(claims: seq<Claim>, k: nat, c: Claim, id: string)
    requires k < |claims| && c.id == claims[k].id
    ensures At(claims[k := c], id) == At(claims, id)
  {
    var next := claims[k := c];
    if k == 0 {
      assert next[1..] == claims[1..];
    } else {
      assert next[1..] == claims[1..][k - 1 := c];
      AtUpdated(claims[1..], k - 1, c, id);
    }
  }

  lemma PutGet(claims: seq<Claim>, c: Claim, id: string)
    ensures Has(Put(claims, c), id) <==> Has(claims, id)
    ensures Has(claims, id) ==> Get(Put(claims, c), id) == if id == c.id then c else Get(claims, id)
  {
    if Has(claims, c.id) { AtUpdated(claims, At(claims, c.id), c, id); }
  }

  method FindClaim(claims: seq<Claim>, id: string) returns (found: Option<Claim>)
    ensures found == if Has(claims, id) then Some(Get(claims, id)) else None
  {
    for k := 0 to |claims|
      invariant forall j :: 0 <= j < k ==> claims[j].id != id
    {
      if claims[k].id == id {
        assert At(claims, id) == k;
        return Some(claims[k]);
      }
    }
    found := None;
  }

  // ---- the three triggers ----

  predicate DriftedFrom(c: Claim, claims: seq<Claim>, s: Store, dep: string) {
    && dep in c.restsOn && Has(claims, dep)
    && dep in BaselinesOf(s, c.id) && BaselinesOf(s, c.id)[dep] != Content(Get(claims, dep))
  }

  predicate Drifts(c: Claim, claims: seq<Claim>, s: Store) {
    exists i :: 0 <= i < |c.restsOn| && DriftedFrom(c, claims, s, c.restsOn[i])
  }

  // An unreadable store (None) reports no drift, an unreadable flag store no flag.
  predicate DriftsIn(c: Claim, claims: seq<Claim>, s: Option<Store>) { s.Some? && Drifts(c, claims, s.value) }

  predicate FlaggedIn(c: Claim, f: Option<Flags>) { f.Some? && c.id in f.value }

  predicate OughtPend(c: Claim, claims: seq<Claim>, s: Option<Store>, f: Option<Flags>) {
    DriftsIn(c, claims, s) || FlaggedIn(c, f) || c.threads > 0
  }

  method PendingTriggers(c: Claim, claims: seq<Claim>, s: Option<Store>, f: Option<Flags>)
    returns (drift: bool, flag: bool, open: nat)
    ensures drift <==> DriftsIn(c, claims, s)
    ensures flag <==> FlaggedIn(c, f)
    ensures open == c.threads
  {
    drift := false;
    if s.Some? {
      for i := 0 to |c.restsOn|
        invariant !drift
        invariant forall j :: 0 <= j < i ==> !DriftedFrom(c, claims, s.value, c.restsOn[j])
      {
        var dep := c.restsOn[i];
        var found := FindClaim(claims, dep);
        if found.None? { continue; }
        var baselines := BaselinesOf(s.value, c.id);
        if dep in baselines && baselines[dep] != Content(found.value) {
          drift := true;
          break;
        }
      }
    }
    flag := f.Some? && c.id in f.value;
    open := c.threads;
  }

  // ---- reconcile ----

  function Reconciled1(c: Claim, claims: seq<Claim>, s: Option<Store>, f: Option<Flags>): Claim {
    if c.status == Locked && OughtPend(c, claims, s, f) then c.(reviewPending := true) else c
  }

  // The first n claim files reconciled.
  function Reconciled(claims: seq<Claim>, s: Option<Store>, f: Option<Flags>, n: nat): (r: seq<Claim>)
    requires n <= |claims|
    ensures |r| == |claims|
    ensures forall k :: 0 <= k < n ==> r[k] == Reconciled1(claims[k], claims, s, f)
    ensures forall k :: n <= k < |claims| ==> r[k] == claims[k]
  {
    seq(|claims|, k requires 0 <= k < |claims| => if k < n then Reconciled1(claims[k], claims, s, f) else claims[k])
  }

  // The two agree but for review_pending.
  ghost predicate SameButPending(a: seq<Claim>, b: seq<Claim>) {
    |a| == |b| && forall k :: 0 <= k < |a| ==> a[k].(reviewPending := false) == b[k].(reviewPending := false)
  }

  lemma {:induction false} SameButPendingAt(a: seq<Claim>, b: seq<Claim>, id: string)
    requires SameButPending(a, b)
    ensures At(a, id) == At(b, id)
  {
    if a == [] {
    } else {
      assert a[0].(reviewPending := false).id == a[0].id && b[0].(reviewPending := false).id == b[0].id;
      SameButPendingAt(a[1..], b[1..], id);
    }
  }

  // review_pending feeds no trigger.
  lemma TriggersIgnorePending(c: Claim, d: Claim, a: seq<Claim>, b: seq<Claim>, s: Option<Store>, f: Option<Flags>)
    requires SameButPending(a, b) && c.(reviewPending := false) == d.(reviewPending := false)
    ensures OughtPend(c, a, s, f) <==> OughtPend(d, b, s, f)
  {
    assert c.id == d.id && c.restsOn == d.restsOn && c.threads == d.threads by {
      assert c.(reviewPending := false).id == c.id && d.(reviewPending := false).id == d.id;
      assert c.(reviewPending := false).restsOn == c.restsOn && d.(reviewPending := false).restsOn == d.restsOn;
      assert c.(reviewPending := false).threads == c.threads && d.(reviewPending := false).threads == d.threads;
    }
    if s.Some? {
      forall i | 0 <= i < |c.restsOn|
        ensures DriftedFrom(c, a, s.value, c.restsOn[i]) <==> DriftedFrom(d, b, s.value, d.restsOn[i])
      {
        SameButPendingAt(a, b, c.restsOn[i]);
      }
    }
  }

  // It only sets review_pending, leaves every locked claim with a trigger pending, and run
  // again it changes nothing.
  lemma ReconcileSettles(claims: seq<Claim>, s: Option<Store>, f: Option<Flags>)
    ensures var r := Reconciled(claims, s, f, |claims|);
      && SameButPending(claims, r)
      && (forall k :: 0 <= k < |claims| && claims[k].reviewPending ==> r[k].reviewPending)
      && (forall k :: 0 <= k < |r| && r[k].status == Locked && OughtPend(r[k], r, s, f) ==> r[k].reviewPending)
      && Reconciled(r, s, f, |r|) == r
  {
    var r := Reconciled(claims, s, f, |claims|);
    forall k | 0 <= k < |r| ensures OughtPend(r[k], r, s, f) <==> OughtPend(claims[k], claims, s, f) {
      TriggersIgnorePending(r[k], claims[k], r, claims, s, f);
    }
    assert Reconciled(r, s, f, |r|) == r;
  }

  // Exactly which files reconcile moves, and how: a claim is pending afterwards iff it was,
  // or it is locked and a claim it rests on left its baseline, a flag is parked, or a
  // thread is open. An unreadable store says nothing.
  lemma ReconcileExactly(claims: seq<Claim>, s: Option<Store>, f: Option<Flags>, n: nat)
    requires n <= |claims|
    ensures var r := Reconciled(claims, s, f, n);
      && SameButPending(claims, r)
      && forall k :: 0 <= k < |claims| ==>
           (r[k].reviewPending <==>
             || claims[k].reviewPending
             || (k < n && claims[k].status == Locked
                 && (MovedUnder(claims, s, claims[k]) || (f.Some? && claims[k].id in f.value)
                       || claims[k].threads > 0)))
  {
    forall k | 0 <= k < n ensures DriftsIn(claims[k], claims, s) <==> MovedUnder(claims, s, claims[k]) {
      DriftIsMoved(claims, s, claims[k]);
    }
  }

  // Some dependency of the claim is baselined, is there, and reads otherwise.
  ghost predicate MovedUnder(claims: seq<Claim>, s: Option<Store>, c: Claim) {
    s.Some? && c.id in s.value.baselines && exists k: nat :: MovedAt(claims, s.value.baselines[c.id], c, k)
  }

  ghost predicate MovedAt(claims: seq<Claim>, read: map<string, ContentHash>, c: Claim, k: nat) {
    && k < |claims| && FirstOfItsId(claims, k) && claims[k].id in c.restsOn && claims[k].id in read
    && read[claims[k].id] != ContentOf(claims[k].id, claims[k].restsOn, claims[k].body)
  }

  ghost predicate FirstOfItsId(claims: seq<Claim>, k: nat)
    requires k < |claims|
  {
    forall j :: 0 <= j < k ==> claims[j].id != claims[k].id
  }

  lemma DriftIsMoved(claims: seq<Claim>, s: Option<Store>, c: Claim)
    ensures DriftsIn(c, claims, s) <==> MovedUnder(claims, s, c)
  {
    if DriftsIn(c, claims, s) {
      var i :| 0 <= i < |c.restsOn| && DriftedFrom(c, claims, s.value, c.restsOn[i]);
      assert MovedAt(claims, s.value.baselines[c.id], c, At(claims, c.restsOn[i]));
    }
    if MovedUnder(claims, s, c) {
      var k: nat :| MovedAt(claims, s.value.baselines[c.id], c, k);
      FirstIsAt(claims, k);
      var i :| 0 <= i < |c.restsOn| && c.restsOn[i] == claims[k].id;
      assert DriftedFrom(c, claims, s.value, c.restsOn[i]);
    }
  }

  lemma FirstIsAt(claims: seq<Claim>, k: nat)
    requires k < |claims| && FirstOfItsId(claims, k)
    ensures At(claims, claims[k].id) == k
  {
    AtIsFirst(claims, claims[k].id, k);
  }

  lemma {:induction false} AtIsFirst(claims: seq<Claim>, id: string, k: nat)
    requires k < |claims| && claims[k].id == id && forall j :: 0 <= j < k ==> claims[j].id != id
    ensures At(claims, id) == k
  {
    if k == 0 {
    } else {
      AtIsFirst(claims[1..], id, k - 1);
    }
  }

  // ---- unlock ----

  ghost function UnlockRefusal(w: World, id: string, gated: bool): Option<Code> {
    if gated then Some(Gated) else if !Has(w.claims, id) then Some(NotFound) else None
  }

  function Drafted(c: Claim): Claim { c.(status := Draft, reviewPending := false) }

  // The flag, then the claim, then the record's release. A flag in a flag store that cannot
  // be read is warned about and stays.
  function UnlockWrites(w: World, id: string, flagsReadable: bool, landed: nat): World
    requires Has(w.claims, id)
  {
    World(if landed >= 2 then Put(w.claims, Drafted(Get(w.claims, id))) else w.claims,
          if landed >= 3 then Release(w.store, id) else w.store,
          if landed >= 1 && flagsReadable then w.flags - {id} else w.flags)
  }

  // ---- flag ----

  ghost function FlagRefusal(w: World, id: string, gated: bool): Option<Code> {
    if gated then Some(Gated)
    else if !Has(w.claims, id) then Some(NotFound)
    else if Get(w.claims, id).status != Locked then Some(NotLocked)
    else None
  }

  // The flag, then the claim.
  function FlagWrites(w: World, id: string, flag: string, landed: nat): World
    requires Has(w.claims, id)
  {
    w.(claims := if landed >= 2 then Put(w.claims, Get(w.claims, id).(reviewPending := true)) else w.claims,
       flags := if landed >= 1 then w.flags[id := flag] else w.flags)
  }

  // ---- reaudit --confirm ----

  // A standing record whose hash is not the file's.
  predicate Disputed(s: Store, c: Claim) { Standing(s, c.id) && s.ledger[c.id].hash != Signed(c) }

  ghost function ReauditRefusal(w: World, id: string, gated: bool): Option<Code> {
    if gated then Some(Gated)
    else if !Has(w.claims, id) then Some(NotFound)
    else
      var c := Get(w.claims, id);
      if c.status != Locked || !c.reviewPending then Some(NotReviewPending)
      else if !Drifts(c, w.claims, w.store) && id !in w.flags && c.threads > 0 then Some(OnlyThreads)
      else if Disputed(w.store, c) then Some(IntegrityFailed)
      else None
  }

  // ---- the refusals, gate by gate in the order they are tried ----

  ghost predicate IsFirst(claims: seq<Claim>, id: string, c: Claim) {
    exists k: nat :: k < |claims| && FirstOfItsId(claims, k) && claims[k] == c && c.id == id
  }

  lemma FirstIsGot(claims: seq<Claim>, id: string, c: Claim)
    requires IsFirst(claims, id, c)
    ensures Has(claims, id) && Get(claims, id) == c
  {
    var k: nat :| k < |claims| && FirstOfItsId(claims, k) && claims[k] == c && c.id == id;
    FirstIsAt(claims, k);
  }

  // A claim that is not there is refused by each command as not found, unless a gate ahead
  // of the claims refuses.
  lemma NoneIsNotFound(w: World, id: string, gated: bool)
    requires forall k :: 0 <= k < |w.claims| ==> w.claims[k].id != id
    ensures var refusal := FirstFailing([(Gated, !gated), (NotFound, false)]);
      UnlockRefusal(w, id, gated) == refusal && FlagRefusal(w, id, gated) == refusal
        && ReauditRefusal(w, id, gated) == refusal
  {
    assert !Has(w.claims, id);
    TwoGates((Gated, !gated), (NotFound, false));
  }

  lemma UnlockGates(w: World, id: string, gated: bool, c: Claim)
    requires IsFirst(w.claims, id, c)
    ensures UnlockRefusal(w, id, gated) == FirstFailing([(Gated, !gated)])
  {
    FirstIsGot(w.claims, id, c);
    GateCons((Gated, !gated), []);
  }

  lemma FlagGates(w: World, id: string, gated: bool, c: Claim)
    requires IsFirst(w.claims, id, c)
    ensures FlagRefusal(w, id, gated) == FirstFailing([(Gated, !gated), (NotLocked, c.status == Locked)])
  {
    FirstIsGot(w.claims, id, c);
    TwoGates((Gated, !gated), (NotLocked, c.status == Locked));
  }

  // A reaudit is for a locked, pending claim that more than a thread calls for review, and
  // that no standing record disagrees with.
  lemma ReauditGates(w: World, id: string, gated: bool, c: Claim)
    requires IsFirst(w.claims, id, c)
    ensures ReauditRefusal(w, id, gated) == FirstFailing([
      (Gated, !gated),
      (NotReviewPending, c.status == Locked && c.reviewPending),
      (OnlyThreads, c.threads == 0 || id in w.flags || MovedUnder(w.claims, Some(w.store), c)),
      (IntegrityFailed, id in w.store.ledger && !w.store.ledger[id].released ==>
                          w.store.ledger[id].hash == SignedOf(id, c.restsOn, c.body, c.meta))])
  {
    FirstIsGot(w.claims, id, c);
    DriftIsMoved(w.claims, Some(w.store), c);
    var signed := id in w.store.ledger && !w.store.ledger[id].released ==>
      w.store.ledger[id].hash == SignedOf(id, c.restsOn, c.body, c.meta);
    var moved := c.threads == 0 || id in w.flags || MovedUnder(w.claims, Some(w.store), c);
    FourGates((Gated, !gated), (NotReviewPending, c.status == Locked && c.reviewPending), (OnlyThreads, moved),
      (IntegrityFailed, signed));
  }

  // What the human confirmed: the resulting body, and the audit trail that records it.
  datatype Diff = Diff(body: string, meta: string)

  function Applied(c: Claim, d: Diff): Claim { c.(body := d.body, meta := d.meta) }

  function Resigned(w: World, id: string, d: Diff, reason: string, at: string): Store
    requires Has(w.claims, id)
  {
    var applied := Applied(Get(w.claims, id), d);
    RecordApproval(RefreshBaseline(w.store, applied, IndexOf(w.claims), at), applied, reason, at)
  }

  // The claim as it is written: its verdict recomputed with the drift and the flag gone.
  function Confirmed(w: World, id: string, d: Diff, reason: string, at: string): Claim
    requires Has(w.claims, id)
  {
    var applied := Applied(Get(w.claims, id), d);
    applied.(reviewPending := OughtPend(applied, w.claims, Some(Resigned(w, id, d, reason, at)), Some(w.flags - {id})))
  }

  // The claim, then the lock store, then the flag.
  function ReauditWrites(w: World, id: string, d: Diff, reason: string, at: string, landed: nat): World
    requires Has(w.claims, id)
  {
    World(if landed >= 1 then Put(w.claims, Confirmed(w, id, d, reason, at)) else w.claims,
          if landed >= 2 then Resigned(w, id, d, reason, at) else w.store,
          if landed >= 3 then w.flags - {id} else w.flags)
  }

  lemma RefreshedBaselines(w: World, id: string, d: Diff, reason: string, at: string, dep: string)
    requires Has(w.claims, id) && dep in Get(w.claims, id).restsOn && Has(w.claims, dep)
    ensures dep in BaselinesOf(Resigned(w, id, d, reason, at), id)
    ensures BaselinesOf(Resigned(w, id, d, reason, at), id)[dep] == Content(Get(w.claims, dep))
  {
    IndexIsFirst(w.claims, dep);
    var c := Get(w.claims, id);
    assert dep in Read(Applied(c, d), IndexOf(w.claims));
  }

  // A confirmed reaudit leaves review_pending exactly when an open thread remains.
  lemma ConfirmedPendsIffThreads(w: World, id: string, d: Diff, reason: string, at: string)
    requires Has(w.claims, id)
    ensures Confirmed(w, id, d, reason, at).reviewPending <==> Get(w.claims, id).threads > 0
  {
    var applied := Applied(Get(w.claims, id), d);
    forall i | 0 <= i < |applied.restsOn|
      ensures !DriftedFrom(applied, w.claims, Resigned(w, id, d, reason, at), applied.restsOn[i])
    {
      if Has(w.claims, applied.restsOn[i]) { RefreshedBaselines(w, id, d, reason, at, applied.restsOn[i]); }
    }
  }

  // And the next reconcile agrees, unless the claim rests on itself and its content
  // changed: it was baselined against itself as it read before.
  lemma ConfirmedStaysSettledIff(w: World, id: string, d: Diff, reason: string, at: string)
    requires Has(w.claims, id)
    ensures var now := ReauditWrites(w, id, d, reason, at, 3);
            var c := Get(w.claims, id);
      Has(now.claims, id) &&
      ((OughtPend(Get(now.claims, id), now.claims, Some(now.store), Some(now.flags)) <==> c.threads > 0)
       <==> c.threads > 0 || id !in c.restsOn || d.body == c.body)
  {
    var now := ReauditWrites(w, id, d, reason, at, 3);
    var c := Get(w.claims, id);
    PutGet(w.claims, Confirmed(w, id, d, reason, at), id);
    var saved := Get(now.claims, id);
    assert saved.restsOn == c.restsOn;
    forall i | 0 <= i < |c.restsOn|
      ensures DriftedFrom(saved, now.claims, now.store, c.restsOn[i]) <==> c.restsOn[i] == id && d.body != c.body
    {
      var dep := c.restsOn[i];
      PutGet(w.claims, Confirmed(w, id, d, reason, at), dep);
      if Has(w.claims, dep) { RefreshedBaselines(w, id, d, reason, at, dep); }
    }
  }

  // A locked claim that rests on itself, with no record of its own in the store: what an
  // edit outside the engine leaves, since a set lock refuses a claim that rests on itself.
  const SELF_RESTING := Claim("a", "a.yaml", Locked, true, 0, ["a"], "old", "")

  // No gate of a confirmed reaudit refuses it, and after the reaudit it reads as settled
  // but drifts from itself.
  lemma SelfRestingDriftsAgain(s: Store, f: Flags, reason: string, at: string)
    requires "a" !in s.ledger && "a" !in s.baselines
    ensures var w := World([SELF_RESTING], s, f);
            var now := ReauditWrites(w, "a", Diff("new", ""), reason, at, 3);
      && Has(w.claims, "a") && ReauditRefusal(w, "a", false).None?
      && Has(now.claims, "a") && !Get(now.claims, "a").reviewPending
      && OughtPend(Get(now.claims, "a"), now.claims, Some(now.store), Some(now.flags))
  {
    var w := World([SELF_RESTING], s, f);
    assert Has(w.claims, "a") && Get(w.claims, "a") == SELF_RESTING;
    assert "new"[0] != "old"[0] && SELF_RESTING.restsOn[0] == "a";
    ConfirmedPendsIffThreads(w, "a", Diff("new", ""), reason, at);
    ConfirmedStaysSettledIff(w, "a", Diff("new", ""), reason, at);
    PutGet(w.claims, Confirmed(w, "a", Diff("new", ""), reason, at), "a");
  }

  // ---- the commands ----

  class Project {
    var claims: seq<Claim>
    var store: Store
    var flags: Flags

    ghost function Now(): World reads this { World(claims, store, flags) }

    // SaveClaim, SaveClaimIfUnchanged: one atomic replacement, which may fail.
    method SaveClaim(c: Claim) returns (ok: bool)
      requires Has(claims, c.id)
      modifies `claims
      ensures claims == if ok then Put(old(claims), c) else old(claims)
    {
      ok := *;
      if !ok { return; }
      var k := 0;
      while claims[k].id != c.id
        invariant k < |claims| && k <= At(claims, c.id)
        decreases |claims| - k
      {
        k := k + 1;
      }
      assert At(claims, c.id) == k;
      claims := claims[k := c];
    }

    method SaveStore(s: Store) returns (ok: bool)
      modifies `store
      ensures store == if ok then s else old(store)
    {
      ok := *;
      if ok { store := s; }
    }

    method SaveFlags(f: Flags) returns (ok: bool)
      modifies `flags
      ensures flags == if ok then f else old(flags)
    {
      ok := *;
      if ok { flags := f; }
    }

    method Unlock(id: string, gated: bool, flagsReadable: bool) returns (o: Outcome, ghost landed: nat)
      modifies this
      ensures if UnlockRefusal(old(Now()), id, gated).Some?
              then o == Refused(UnlockRefusal(old(Now()), id, gated).value) && Now() == old(Now())
              else landed <= 3 && Now() == UnlockWrites(old(Now()), id, flagsReadable, landed)
                   && o == (if landed == 3 then Done else WriteFailed)
    {
      landed := 0;
      if gated { return Refused(Gated), 0; }
      var found := FindClaim(claims, id);
      if found.None? { return Refused(NotFound), 0; }
      if flagsReadable && id in flags {
        var cleared := SaveFlags(flags - {id});
        if !cleared { return WriteFailed, 0; }
      }
      assert flagsReadable ==> flags == old(flags) - {id};
      var released := Release(store, id);
      var saved := SaveClaim(found.value.(status := Draft, reviewPending := false));
      if !saved { return WriteFailed, 1; }
      saved := SaveStore(released);
      o, landed := if saved then Done else WriteFailed, if saved then 3 else 2;
    }

    method Flag(id: string, flag: string, gated: bool) returns (o: Outcome, ghost landed: nat)
      modifies `claims, `flags
      ensures if FlagRefusal(old(Now()), id, gated).Some?
              then o == Refused(FlagRefusal(old(Now()), id, gated).value) && Now() == old(Now())
              else landed <= 2 && o == (if landed == 2 then Done else WriteFailed)
                   && Now() == FlagWrites(old(Now()), id, flag, landed)
    {
      landed := 0;
      if gated { return Refused(Gated), 0; }
      var found := FindClaim(claims, id);
      if found.None? { return Refused(NotFound), 0; }
      var c := found.value;
      if c.status != Locked { return Refused(NotLocked), 0; }
      var saved := SaveFlags(flags[id := flag]);
      if !saved { return WriteFailed, 0; }
      saved := SaveClaim(c.(reviewPending := true));
      o, landed := if saved then Done else WriteFailed, if saved then 2 else 1;
    }

    // Every refusal of reaudit --confirm, before it writes.
    method ReauditGate(id: string, gated: bool) returns (refused: Option<Code>, c: Option<Claim>)
      ensures refused == ReauditRefusal(Now(), id, gated)
      ensures refused.None? ==> Has(claims, id) && c == Some(Get(claims, id))
    {
      c := None;
      if gated { return Some(Gated), None; }
      c := FindClaim(claims, id);
      if c.None? { return Some(NotFound), c; }
      if c.value.status != Locked || !c.value.reviewPending { return Some(NotReviewPending), c; }
      var drift, flag, open := PendingTriggers(c.value, claims, Some(store), Some(flags));
      if !drift && !flag && open > 0 { return Some(OnlyThreads), c; }
      if Standing(store, id) && store.ledger[id].hash != Signed(c.value) { return Some(IntegrityFailed), c; }
      refused := None;
    }

    method Reaudit(id: string, d: Diff, reason: string, at: string, gated: bool) returns (o: Outcome, ghost landed: nat)
      modifies this
      ensures if ReauditRefusal(old(Now()), id, gated).Some?
              then o == Refused(ReauditRefusal(old(Now()), id, gated).value) && Now() == old(Now())
              else Has(old(claims), id) && landed <= 3
                   && Now() == ReauditWrites(old(Now()), id, d, reason, at, landed)
                   && o == (if landed == 3 then Done else WriteFailed)
    {
      var refused, target := ReauditGate(id, gated);
      if refused.Some? { return Refused(refused.value), 0; }
      var applied := target.value.(body := d.body, meta := d.meta);
      var next := RefreshBaseline(store, applied, IndexOf(claims), at);
      next := RecordApproval(next, applied, reason, at);
      var left := flags - {id};
      var drift, flag, open := PendingTriggers(applied, claims, Some(next), Some(left));
      applied := applied.(reviewPending := drift || flag || open > 0);
      assert applied == Confirmed(Now(), id, d, reason, at) && next == Resigned(Now(), id, d, reason, at);
      var saved := SaveClaim(applied);
      if !saved { return WriteFailed, 0; }
      saved := SaveStore(next);
      if !saved { return WriteFailed, 1; }
      if id in flags {
        saved := SaveFlags(left);
        if !saved { return WriteFailed, 2; }
      }
      assert flags == left;
      o, landed := Done, 3;
    }

    // reconcileReviewPending, over what it could read of the two stores.
    method Reconcile(storeReadable: bool, flagsReadable: bool) returns (o: Outcome, ghost n: nat)
      modifies `claims
      ensures n <= |old(claims)|
      ensures var s := if storeReadable then Some(store) else None;
              var f := if flagsReadable then Some(flags) else None;
              claims == Reconciled(old(claims), s, f, n)
      ensures o == if n == |old(claims)| then Done else WriteFailed
    {
      var s := if storeReadable then Some(store) else None;
      var f := if flagsReadable then Some(flags) else None;
      var loaded := claims;
      for k := 0 to |loaded|
        invariant claims == Reconciled(loaded, s, f, k)
      {
        var c := loaded[k];
        var drift, flag, open := PendingTriggers(c, loaded, s, f);
        var pending := c.reviewPending || (c.status == Locked && (drift || flag || open > 0));
        if pending != c.reviewPending {
          var ok: bool := *;
          if !ok { return WriteFailed, k; }
          claims := claims[k := c.(reviewPending := true)];
        }
        assert claims == Reconciled(loaded, s, f, k + 1);
      }
      o, n := Done, |loaded|;
    }
  }
}
