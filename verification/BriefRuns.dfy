// Runs of brief edits, claim changes, lock, unlock and reaudit, each command free to stop
// after any of its writes: no draft ever holds a standing record, an interrupted command
// is finished by running it again, and no claim that moved is accepted unseen.
module BriefRuns {
  import opened GoStd
  import C = ClaimModel
  import opened BriefModel
  import opened BriefEvaluate
  import opened BriefRules
  import opened BriefLifecycle
  import LockHash

  datatype Event =
    | Edit(b: Brief)                   // an editor's save of a brief, its status line left alone
    | Create(b: Brief)
    | Remove(id: string)               // of a draft: a locked brief is unlocked first
    | ClaimsChange(claims: seq<C.Claim>)
    | Lock(id: string, g: Gates, at: string, reason: string, landed: nat)
    | Unlock(id: string, g: Gates, at: string, reason: string, landed: nat)
    | Confirm(id: string, g: Gates, at: string, reason: string, landed: nat)

  predicate SameFile(a: Brief, b: Brief) { a.path == b.path && a.status == b.status }

  ghost function Step(w: World, e: Event): World {
    match e
    case Edit(b) => if b.id in w.briefs && SameFile(b, w.briefs[b.id]) then w.(briefs := w.briefs[b.id := b]) else w
    case Create(b) =>
      if b.id !in w.briefs && b.status == C.Draft && Valid(w.(briefs := w.briefs[b.id := b]))
        then w.(briefs := w.briefs[b.id := b]) else w
    case Remove(id) => if id in w.briefs && w.briefs[id].status == C.Draft then w.(briefs := w.briefs - {id}) else w
    case ClaimsChange(claims) => w.(claims := claims)
    case Lock(id, g, at, reason, landed) =>
      if LockRefusal(w, id, g).None? then LockWrites(w, id, at, reason, landed) else w
    case Unlock(id, g, at, reason, landed) =>
      if UnlockRefusal(w, id, g).None? then UnlockWrites(w, id, at, reason, landed) else w
    case Confirm(id, g, at, reason, landed) =>
      if ReauditRefusal(w, id, g).None? then ReauditWrites(w, id, at, reason, landed) else w
  }

  ghost function After(w: World, run: seq<Event>): World {
    if run == [] then w else Step(After(w, run[..|run| - 1]), run[|run| - 1])
  }

  // No brief was ever locked.
  ghost predicate Fresh(w: World) {
    Valid(w) && w.store.briefs == map[] && forall id :: id in w.briefs ==> w.briefs[id].status == C.Draft
  }

  // ---- what every run keeps ----

  // A record's approved text is what its hash signs, and each baseline's receipt is that
  // claim as it read.
  ghost predicate RecordSound(r: BriefRecord) {
    && r.hash == LockHash.Of(r.approved.summary, r.approved.restsOn, r.approved.markdown)
    && r.receipts.Keys == r.baselines.Keys
    && forall c :: c in r.baselines ==> IsSnapshot(r.receipts[c], c, r.baselines[c])
  }

  ghost predicate Sound(w: World) {
    && Valid(w)
    && (forall id :: Stands(w, id) ==> id in w.briefs && w.briefs[id].status == C.Locked)
    && (forall id :: id in w.store.briefs ==> RecordSound(w.store.briefs[id]))
  }

  lemma ApprovalSound(b: Brief, claims: seq<C.Claim>, prev: Option<BriefRecord>, at: string, reason: string)
    requires prev.Some? ==> RecordSound(prev.value)
    ensures RecordSound(Approval(b, C.Latest(claims), prev, at, reason))
  {
    var index := C.Latest(claims);
    var r := Approval(b, index, prev, at, reason);
    assert r.receipts.Keys == r.baselines.Keys;
    forall c | c in r.baselines ensures IsSnapshot(r.receipts[c], c, r.baselines[c]) {
      if !Carried(prev, c) { C.LatestKeepsIds(claims, c); }
    }
  }

  lemma RereadSound(b: Brief, claims: seq<C.Claim>, r: BriefRecord, at: string, reason: string)
    requires RecordSound(r)
    ensures RecordSound(Reread(b, C.Latest(claims), r, at, reason))
  {
    ApprovalSound(b, claims, None, at, reason);
    var next, first := Reread(b, C.Latest(claims), r, at, reason), Approval(b, C.Latest(claims), None, at, reason);
    assert next.receipts == first.receipts && next.baselines == first.baselines;
  }

  lemma PutRecordSound(w: World, id: string, r: BriefRecord)
    requires Sound(w) && RecordSound(r)
    requires r.release.None? ==> id in w.briefs && w.briefs[id].status == C.Locked
    ensures Sound(PutRecord(w, id, r))
  {
  }

  lemma EditorKeepsSound(w: World, e: Event)
    requires Sound(w) && (e.Edit? || e.Create? || e.Remove? || e.ClaimsChange?)
    ensures Sound(Step(w, e))
  {
  }

  lemma LockedSound(w: World, id: string)
    requires Sound(w) && id in w.briefs
    ensures Sound(SetStatus(w, id, C.Locked))
  {
  }

  lemma LockKeepsSound(w: World, id: string, at: string, reason: string, landed: nat)
    requires Sound(w) && id in w.briefs
    ensures Sound(LockWrites(w, id, at, reason, landed))
  {
    var r := Approval(w.briefs[id], C.Latest(w.claims), RecordOf(w, id), at, reason);
    ApprovalSound(w.briefs[id], w.claims, RecordOf(w, id), at, reason);
    LockedSound(w, id);
    var filed := SetStatus(w, id, C.Locked);
    assert r.release.None? && filed.briefs[id].status == C.Locked;
    PutRecordSound(filed, id, r);
    hide Sound;
    assert LockWrites(w, id, at, reason, landed) ==
      if landed >= 2 then PutRecord(filed, id, r) else if landed == 1 then filed else w;
  }

  lemma ReleaseKeepsSound(w: World, id: string, at: string, reason: string)
    requires Sound(w) && id in w.briefs
    ensures var released := UnlockWrites(w, id, at, reason, 1);
      Sound(released) && !Stands(released, id) && released.briefs == w.briefs
  {
    if Stands(w, id) { PutRecordSound(w, id, w.store.briefs[id].(release := Some(Stamp(at, reason)))); }
  }

  lemma UnlockKeepsSound(w: World, id: string, at: string, reason: string, landed: nat)
    requires Sound(w) && id in w.briefs
    ensures Sound(UnlockWrites(w, id, at, reason, landed))
  {
    var released := UnlockWrites(w, id, at, reason, 1);
    ReleaseKeepsSound(w, id, at, reason);
    DraftSound(released, id);
    assert UnlockWrites(w, id, at, reason, landed) ==
      if landed >= 2 then SetStatus(released, id, C.Draft) else if landed == 1 then released else w;
  }

  lemma DraftSound(w: World, id: string)
    requires Sound(w) && id in w.briefs && !Stands(w, id)
    ensures Sound(SetStatus(w, id, C.Draft))
  {
  }

  lemma StepKeepsSound(w: World, e: Event)
    requires Sound(w)
    ensures Sound(Step(w, e))
  {
    hide Sound, LockRefusal, UnlockRefusal, ReauditRefusal, LockWrites, UnlockWrites, ReauditWrites;
    match e {
      case Lock(id, g, at, reason, landed) => if id in w.briefs { LockKeepsSound(w, id, at, reason, landed); }
      case Unlock(id, g, at, reason, landed) => if id in w.briefs { UnlockKeepsSound(w, id, at, reason, landed); }
      case Confirm(id, g, at, reason, landed) => if id in w.briefs { ReauditKeepsSound(w, id, at, reason, landed); }
      case _ => EditorKeepsSound(w, e);
    }
    LiveBriefs(w, e);
  }

  lemma ReauditKeepsSound(w: World, id: string, at: string, reason: string, landed: nat)
    requires Sound(w) && id in w.briefs
    ensures Sound(ReauditWrites(w, id, at, reason, landed))
  {
    if id in w.store.briefs {
      var r := Reread(w.briefs[id], C.Latest(w.claims), w.store.briefs[id], at, reason);
      RereadSound(w.briefs[id], w.claims, w.store.briefs[id], at, reason);
      assert r.release == w.store.briefs[id].release;
      assert r.release.None? ==> Stands(w, id);
      PutRecordSound(w, id, r);
    }
  }

  // A command that is not refused found its brief.
  lemma LiveBriefs(w: World, e: Event)
    ensures e.Lock? && LockRefusal(w, e.id, e.g).None? ==> e.id in w.briefs
    ensures e.Unlock? && UnlockRefusal(w, e.id, e.g).None? ==> e.id in w.briefs
    ensures e.Confirm? && ReauditRefusal(w, e.id, e.g).None? ==> e.id in w.briefs
  {
  }

  lemma {:induction false} RunsKeepSound(w: World, run: seq<Event>)
    requires Sound(w)
    ensures Sound(After(w, run))
  {
    if run == [] {
    } else {
      RunsKeepSound(w, run[..|run| - 1]);
      StepKeepsSound(After(w, run[..|run| - 1]), run[|run| - 1]);
    }
  }

  // Over every run, wherever each command stopped: a standing record's brief is there and
  // says locked, so no brief is ever draft with a standing record.
  lemma RunsStaySound(w: World, run: seq<Event>)
    requires Fresh(w)
    ensures Sound(After(w, run))
  {
    RunsKeepSound(w, run);
  }

  // So the two findings that mean tampering never appear on an honest run.
  lemma RunsNeverLookTampered(w: World, run: seq<Event>, id: string)
    requires Fresh(w)
    ensures var now := After(w, run);
      && (id in now.briefs ==>
            Raised(now.briefs[id], Some(now.store)) != Some(Finding(RULE_ORPHAN, now.briefs[id].path, "")))
      && (Stands(now, id) ==> id in now.briefs)
  {
    RunsStaySound(w, run);
  }

  // A locked and unedited brief reads as its record's retained approved text.
  lemma LockedReadsAsApproved(w: World, id: string)
    requires Sound(w) && id in w.briefs && StateOf(w.briefs[id], Some(w.store)) == IsLocked
    ensures var a := w.store.briefs[id].approved;
      a.summary == w.briefs[id].summary && a.markdown == w.briefs[id].body
        && multiset(a.restsOn) == multiset(w.briefs[id].restsOn)
  {
    var a, b := w.store.briefs[id].approved, w.briefs[id];
    LockHash.HashesAlike(a.summary, a.restsOn, a.markdown, b.summary, b.restsOn, b.body);
  }

  // The wording behind every baseline is always at hand: the record's own receipt.
  lemma WordingIsNeverLost(w: World, id: string, claim: string, wording: Option<string>)
    requires Sound(w) && id in w.store.briefs && claim in w.store.briefs[id].baselines
    requires WordingIs(wording, w.store, w.store.briefs[id], claim)
    ensures wording == Some(w.store.briefs[id].receipts[claim].body)
  {
    assert IsSnapshot(w.store.briefs[id].receipts[claim], claim, w.store.briefs[id].baselines[claim]);
  }

  // ---- a command stopped between its two writes, run again ----

  lemma LockRerunFinishes(w: World, id: string, g: Gates, at: string, reason: string, again: string, words: string)
    requires Sound(w) && LockRefusal(w, id, g).None?
    ensures var stopped := LockWrites(w, id, at, reason, 1);
      LockRefusal(stopped, id, g).None?
        && LockWrites(stopped, id, again, words, 2) == LockWrites(w, id, again, words, 2)
  {
    var stopped := LockWrites(w, id, at, reason, 1);
    assert HashOf(stopped.briefs[id]) == HashOf(w.briefs[id]);
    assert LockWrites(stopped, id, again, words, 2).briefs == LockWrites(w, id, again, words, 2).briefs;
  }

  // The record keeps the first run's release stamp; nothing else tells the two apart.
  lemma UnlockRerunFinishes(w: World, id: string, g: Gates, at: string, reason: string, again: string, words: string)
    requires UnlockRefusal(w, id, g).None?
    ensures var stopped := UnlockWrites(w, id, at, reason, 1);
      UnlockRefusal(stopped, id, g).None?
        && UnlockWrites(stopped, id, again, words, 2) == UnlockWrites(w, id, at, reason, 2)
  {
  }

  // Either command stopped between its writes is reported: the file says locked on no
  // standing record.
  lemma StoppedUnlockIsReported(w: World, id: string, g: Gates, at: string, reason: string)
    requires Sound(w) && UnlockRefusal(w, id, g).None?
    ensures var stopped := UnlockWrites(w, id, at, reason, 1);
      Raised(stopped.briefs[id], Some(stopped.store)) == Some(Finding(RULE_UNRECORDED, w.briefs[id].path, ""))
  {
    ReleaseKeepsSound(w, id, at, reason);
  }

  // A lock over an edited brief has no such state: the file said locked already.
  lemma StoppedLockIsReported(w: World, id: string, g: Gates, at: string, reason: string)
    requires Sound(w) && LockRefusal(w, id, g).None?
    ensures var stopped := LockWrites(w, id, at, reason, 1);
      Raised(stopped.briefs[id], Some(stopped.store)) ==
        Some(Finding(if Stands(w, id) then RULE_CONTENT_DRIFT else RULE_UNRECORDED, w.briefs[id].path, ""))
  {
    var stopped := LockWrites(w, id, at, reason, 1);
    assert stopped.store == w.store && stopped.briefs[id] == w.briefs[id].(status := C.Locked);
    assert HashOf(stopped.briefs[id]) == HashOf(w.briefs[id]);
  }

  // The lock rerun needs soundness: on a draft whose record still stands and agrees, a lock
  // stopped after its file write is refused when run again.
  lemma LockRerunNeedsSoundness(w: World, id: string, g: Gates, at: string, reason: string)
    requires Valid(w) && LockRefusal(w, id, g).None?
    ensures LockRefusal(LockWrites(w, id, at, reason, 1), id, g).None? <==>
      !(Stands(w, id) && Agrees(w.briefs[id], w.store.briefs[id]))
  {
    var stopped := LockWrites(w, id, at, reason, 1);
    assert HashOf(stopped.briefs[id]) == HashOf(w.briefs[id]);
  }

  // ---- what a baseline is ----

  // The event put a new approval of the brief on the record.
  ghost predicate Signs(w: World, e: Event, id: string) {
    e.Lock? && e.id == id && e.landed >= 2 && LockRefusal(w, id, e.g).None?
  }

  // The event recorded the human's yes to the claims as they read now.
  ghost predicate Rereads(w: World, e: Event, id: string) {
    e.Confirm? && e.id == id && e.landed >= 1 && ReauditRefusal(w, id, e.g).None?
  }

  ghost function ReadsNow(w: World, claim: string): Option<C.ContentHash> {
    if claim in C.Latest(w.claims) then Some(C.Content(C.Latest(w.claims)[claim])) else None
  }

  // What an event does to a baseline, told without the records.
  ghost function MovedBy(w: World, e: Event, id: string, claim: string, was: Option<C.ContentHash>)
    : Option<C.ContentHash>
  {
    if Rereads(w, e, id) then (if claim in w.briefs[id].restsOn then ReadsNow(w, claim) else None)
    else if !Signs(w, e, id) then was
    else if claim !in w.briefs[id].restsOn then None
    else if was.Some? then was
    else ReadsNow(w, claim)
  }

  // How the claim read when the brief was last read against it: at its first lock since it
  // was listed, or at the last confirmed reaudit. None if the brief's approval does not
  // list it.
  ghost function LastRead(w: World, run: seq<Event>, id: string, claim: string): Option<C.ContentHash> {
    if run == [] then None
    else MovedBy(After(w, run[..|run| - 1]), run[|run| - 1], id, claim, LastRead(w, run[..|run| - 1], id, claim))
  }

  function BaselineOf(w: World, id: string, claim: string): Option<C.ContentHash> {
    if id in w.store.briefs && claim in w.store.briefs[id].baselines
    then Some(w.store.briefs[id].baselines[claim]) else None
  }

  lemma LockMovesBaseline(w: World, id: string, at: string, reason: string, landed: nat, claim: string)
    requires id in w.briefs && landed >= 2
    ensures BaselineOf(LockWrites(w, id, at, reason, landed), id, claim) ==
      if claim !in w.briefs[id].restsOn then None
      else if BaselineOf(w, id, claim).Some? then BaselineOf(w, id, claim)
      else ReadsNow(w, claim)
  {
    assert LockWrites(w, id, at, reason, landed).store.briefs[id].baselines ==
           RelockHashes(w.briefs[id], C.Latest(w.claims), RecordOf(w, id));
  }

  lemma ConfirmMovesBaseline(w: World, id: string, at: string, reason: string, landed: nat, claim: string)
    requires id in w.briefs && id in w.store.briefs && landed >= 1
    ensures BaselineOf(ReauditWrites(w, id, at, reason, landed), id, claim) ==
      if claim in w.briefs[id].restsOn then ReadsNow(w, claim) else None
  {
    assert ReauditWrites(w, id, at, reason, landed).store.briefs[id].baselines ==
      Baselined(w.briefs[id], C.Latest(w.claims));
  }

  lemma UnlockKeepsBaseline(w: World, i: string, at: string, reason: string, landed: nat, id: string, claim: string)
    requires i in w.briefs
    ensures BaselineOf(UnlockWrites(w, i, at, reason, landed), id, claim) == BaselineOf(w, id, claim)
  {
  }

  lemma LockStepMoves(w: World, e: Event, id: string, claim: string)
    requires e.Lock?
    ensures BaselineOf(Step(w, e), id, claim) == MovedBy(w, e, id, claim, BaselineOf(w, id, claim))
  {
    var refused := LockRefusal(w, e.id, e.g);
    if refused.None? {
      if e.landed >= 2 && e.id == id {
        LockMovesBaseline(w, id, e.at, e.reason, e.landed, claim);
      } else {
        assert BaselineOf(LockWrites(w, e.id, e.at, e.reason, e.landed), id, claim) == BaselineOf(w, id, claim);
      }
    }
  }

  lemma ConfirmStepMoves(w: World, e: Event, id: string, claim: string)
    requires Valid(w) && e.Confirm?
    ensures BaselineOf(Step(w, e), id, claim) == MovedBy(w, e, id, claim, BaselineOf(w, id, claim))
  {
    var refused := ReauditRefusal(w, e.id, e.g);
    if refused.None? {
      assert e.id in w.store.briefs;
      if e.landed >= 1 && e.id == id {
        ConfirmMovesBaseline(w, id, e.at, e.reason, e.landed, claim);
      } else {
        assert BaselineOf(ReauditWrites(w, e.id, e.at, e.reason, e.landed), id, claim) == BaselineOf(w, id, claim);
      }
    }
  }

  lemma StepMovesBaseline(w: World, e: Event, id: string, claim: string)
    requires Valid(w)
    ensures BaselineOf(Step(w, e), id, claim) == MovedBy(w, e, id, claim, BaselineOf(w, id, claim))
  {
    if e.Lock? {
      LockStepMoves(w, e, id, claim);
    } else if e.Confirm? {
      ConfirmStepMoves(w, e, id, claim);
    } else if e.Unlock? {
      if UnlockRefusal(w, e.id, e.g).None? { UnlockKeepsBaseline(w, e.id, e.at, e.reason, e.landed, id, claim); }
    }
  }

  // Over every run, a record's baseline for a claim is how the claim read then.
  lemma {:induction false} BaselineIsLastRead(w: World, run: seq<Event>, id: string, claim: string)
    requires Fresh(w)
    ensures BaselineOf(After(w, run), id, claim) == LastRead(w, run, id, claim)
  {
    if run == [] {
    } else {
      RunsStaySound(w, run[..|run| - 1]);
      BaselineIsLastRead(w, run[..|run| - 1], id, claim);
      StepMovesBaseline(After(w, run[..|run| - 1]), run[|run| - 1], id, claim);
    }
  }

  // ---- the same, event by event ----

  ghost function Before(w: World, run: seq<Event>, k: nat): World
    requires k <= |run|
  {
    After(w, run[..k])
  }

  // Event k approved the brief, or its claims, with the claim on its list or without.
  ghost predicate Listing(w: World, run: seq<Event>, k: nat, id: string, claim: string)
    requires k < |run|
  {
    var was := Before(w, run, k);
    (Signs(was, run[k], id) || Rereads(was, run[k], id)) && claim in was.briefs[id].restsOn
  }

  ghost predicate Dropping(w: World, run: seq<Event>, k: nat, id: string, claim: string)
    requires k < |run|
  {
    var was := Before(w, run, k);
    (Signs(was, run[k], id) || Rereads(was, run[k], id)) && claim !in was.briefs[id].restsOn
  }

  // By event n the approval does not list the claim: each that did was followed by one that
  // does not.
  ghost predicate Unlisted(w: World, run: seq<Event>, n: nat, id: string, claim: string)
    requires n <= |run|
  {
    forall j :: 0 <= j < n && Listing(w, run, j, id, claim) ==> exists m :: j < m < n && Dropping(w, run, m, id, claim)
  }

  // The brief was last read against the claim at event k: a confirmed reaudit, or the first
  // lock since the claim was listed; and since then nothing reread or dropped it.
  ghost predicate LastReadAt(w: World, run: seq<Event>, k: nat, n: nat, id: string, claim: string)
    requires n <= |run|
  {
    && k < n && Listing(w, run, k, id, claim)
    && (Rereads(Before(w, run, k), run[k], id) || Unlisted(w, run, k, id, claim))
    && forall m :: k < m < n ==> !Rereads(Before(w, run, m), run[m], id) && !Dropping(w, run, m, id, claim)
  }

  // What an approval lists exists.
  lemma ListedReads(w: World, e: Event, id: string, claim: string)
    requires (Signs(w, e, id) || Rereads(w, e, id)) && claim in w.briefs[id].restsOn
    ensures ReadsNow(w, claim).Some?
  {
    if Signs(w, e, id) { NoneUnknown(w.briefs[id], C.Latest(w.claims), e.g.tree, None); }
  }

  lemma UnlistedNext(w: World, run: seq<Event>, n: nat, id: string, claim: string)
    requires n < |run|
    ensures Unlisted(w, run, n + 1, id, claim) <==>
      Dropping(w, run, n, id, claim) || (Unlisted(w, run, n, id, claim) && !Listing(w, run, n, id, claim))
  {
    hide Listing, Dropping;
    if Dropping(w, run, n, id, claim) {
      assert !Listing(w, run, n, id, claim) by { NotBoth(w, run, n, id, claim); }
    }
  }

  lemma NotBoth(w: World, run: seq<Event>, k: nat, id: string, claim: string)
    requires k < |run|
    ensures !(Listing(w, run, k, id, claim) && Dropping(w, run, k, id, claim))
  {
  }

  // One more event, told in these terms.
  lemma LastReadNext(w: World, run: seq<Event>, n: nat, id: string, claim: string)
    requires n < |run|
    ensures var was, e := Before(w, run, n), run[n];
            var last := LastRead(w, run[..n], id, claim);
      && LastRead(w, run[..n + 1], id, claim) ==
           (if Dropping(w, run, n, id, claim) then None
            else if Listing(w, run, n, id, claim) && (Rereads(was, e, id) || last.None?) then ReadsNow(was, claim)
            else last)
      && (Listing(w, run, n, id, claim) ==> ReadsNow(was, claim).Some?)
      && (Rereads(was, e, id) ==> Dropping(w, run, n, id, claim) || Listing(w, run, n, id, claim))
  {
    assert run[..n + 1][..n] == run[..n];
    if Listing(w, run, n, id, claim) { ListedReads(Before(w, run, n), run[n], id, claim); }
    hide Signs, Rereads, ReadsNow, After;
  }

  lemma LastReadAtNext(w: World, run: seq<Event>, k: nat, n: nat, id: string, claim: string)
    requires k <= n < |run|
    ensures LastReadAt(w, run, k, n + 1, id, claim) <==>
      if k < n then LastReadAt(w, run, k, n, id, claim) && !Rereads(Before(w, run, n), run[n], id)
        && !Dropping(w, run, n, id, claim)
      else Listing(w, run, n, id, claim) && (Rereads(Before(w, run, n), run[n], id) || Unlisted(w, run, n, id, claim))
  {
    hide Listing, Dropping, Unlisted, Rereads, Before;
  }

  lemma ReadIsEarlier(w: World, run: seq<Event>, k: nat, n: nat, id: string, claim: string)
    requires n <= |run| && LastReadAt(w, run, k, n, id, claim)
    ensures k < n
  {
  }

  lemma ReadIsListed(w: World, run: seq<Event>, k: nat, n: nat, id: string, claim: string)
    requires n <= |run| && LastReadAt(w, run, k, n, id, claim)
    ensures !Unlisted(w, run, n, id, claim)
  {
    hide Listing, Dropping, Rereads, Before;
  }

  // None exactly when the approval does not list the claim, and otherwise how the claim read
  // at the event the brief was last read against it.
  ghost predicate ReadsAsAt(w: World, run: seq<Event>, n: nat, id: string, claim: string, last: Option<C.ContentHash>)
    requires n <= |run|
  {
    && (last.None? <==> Unlisted(w, run, n, id, claim))
    && (last.Some? ==> exists k :: LastReadAt(w, run, k, n, id, claim))
    && (forall k :: LastReadAt(w, run, k, n, id, claim) ==> last == ReadsNow(Before(w, run, k), claim))
  }

  lemma ReadsAsStart(w: World, run: seq<Event>, id: string, claim: string)
    ensures ReadsAsAt(w, run, 0, id, claim, None)
  {
    hide Listing, Dropping, Rereads, Before;
  }

  lemma ReadHere(w: World, run: seq<Event>, n: nat, id: string, claim: string, last: Option<C.ContentHash>)
    requires n < |run| && Listing(w, run, n, id, claim) && !Dropping(w, run, n, id, claim)
    requires last == ReadsNow(Before(w, run, n), claim)
    requires (Rereads(Before(w, run, n), run[n], id) || Unlisted(w, run, n, id, claim))
      && !Unlisted(w, run, n + 1, id, claim) && last.Some?
    ensures ReadsAsAt(w, run, n + 1, id, claim, last)
  {
    hide LastReadAt, Listing, Dropping, Unlisted, Rereads, Before, ReadsNow;
    var next := n + 1;
    LastReadAtNext(w, run, n, n, id, claim);
    forall k: nat ensures LastReadAt(w, run, k, next, id, claim) ==> k == n {
      if LastReadAt(w, run, k, next, id, claim) {
        ReadIsEarlier(w, run, k, next, id, claim);
        LastReadAtNext(w, run, k, n, id, claim);
        if LastReadAt(w, run, k, n, id, claim) { ReadIsListed(w, run, k, n, id, claim); }
      }
    }
  }

  lemma DroppedHere(w: World, run: seq<Event>, n: nat, id: string, claim: string)
    requires n < |run| && !Listing(w, run, n, id, claim) && Dropping(w, run, n, id, claim)
    requires Unlisted(w, run, n + 1, id, claim)
    ensures ReadsAsAt(w, run, n + 1, id, claim, None)
  {
    hide LastReadAt, Listing, Dropping, Unlisted, Rereads, Before, ReadsNow;
    var next := n + 1;
    forall k: nat ensures !LastReadAt(w, run, k, next, id, claim) {
      if LastReadAt(w, run, k, next, id, claim) { ReadIsEarlier(w, run, k, next, id, claim); }
      if k <= n { LastReadAtNext(w, run, k, n, id, claim); }
    }
  }

  lemma KeptHere(w: World, run: seq<Event>, n: nat, id: string, claim: string, last: Option<C.ContentHash>)
    requires n < |run| && ReadsAsAt(w, run, n, id, claim, last)
    requires !Dropping(w, run, n, id, claim) && !Rereads(Before(w, run, n), run[n], id)
    requires Listing(w, run, n, id, claim) ==> last.Some?
    requires Unlisted(w, run, n + 1, id, claim) <==> Unlisted(w, run, n, id, claim)
    ensures ReadsAsAt(w, run, n + 1, id, claim, last)
  {
    hide LastReadAt, Listing, Dropping, Unlisted, Rereads, Before, ReadsNow;
    var next := n + 1;
    forall k: nat ensures LastReadAt(w, run, k, next, id, claim) <==> LastReadAt(w, run, k, n, id, claim) {
      if LastReadAt(w, run, k, next, id, claim) { ReadIsEarlier(w, run, k, next, id, claim); }
      if LastReadAt(w, run, k, n, id, claim) { ReadIsEarlier(w, run, k, n, id, claim); }
      if k <= n { LastReadAtNext(w, run, k, n, id, claim); }
    }
  }

  lemma {:induction false} LastReadIs(w: World, run: seq<Event>, n: nat, id: string, claim: string)
    requires n <= |run|
    ensures ReadsAsAt(w, run, n, id, claim, LastRead(w, run[..n], id, claim))
    decreases n
  {
    if n == 0 {
      assert run[..0] == [];
      ReadsAsStart(w, run, id, claim);
    } else {
      var i := n - 1;
      var last := LastRead(w, run[..i], id, claim);
      LastReadIs(w, run, i, id, claim);
      LastReadNext(w, run, i, id, claim);
      UnlistedNext(w, run, i, id, claim);
      NotBoth(w, run, i, id, claim);
      LastReadStep(w, run, i, id, claim, last, LastRead(w, run[..n], id, claim));
    }
  }

  lemma LastReadStep(w: World, run: seq<Event>, i: nat, id: string, claim: string, last: Option<C.ContentHash>,
                     next: Option<C.ContentHash>)
    requires i < |run| && ReadsAsAt(w, run, i, id, claim, last)
    requires var drop, list := Dropping(w, run, i, id, claim), Listing(w, run, i, id, claim);
             var again := Rereads(Before(w, run, i), run[i], id);
      && next == (if drop then None
                  else if list && (again || last.None?) then ReadsNow(Before(w, run, i), claim)
                  else last)
      && (list ==> ReadsNow(Before(w, run, i), claim).Some?) && (again ==> drop || list) && !(list && drop)
      && (Unlisted(w, run, i + 1, id, claim) <==> drop || (Unlisted(w, run, i, id, claim) && !list))
    ensures ReadsAsAt(w, run, i + 1, id, claim, next)
  {
    hide LastReadAt, Listing, Dropping, Unlisted, Rereads, Before, ReadsNow;
    if Dropping(w, run, i, id, claim) {
      DroppedHere(w, run, i, id, claim);
    } else if Listing(w, run, i, id, claim) && (Rereads(Before(w, run, i), run[i], id) || last.None?) {
      ReadHere(w, run, i, id, claim, next);
    } else {
      KeptHere(w, run, i, id, claim, last);
    }
  }

  // So a record's baseline for a claim is how the claim read at one event of the run: the
  // last confirmed reaudit, or the first lock since the brief listed it.
  lemma BaselineWasReadAt(w: World, run: seq<Event>, id: string, claim: string)
    requires Fresh(w)
    ensures ReadsAsAt(w, run, |run|, id, claim, BaselineOf(After(w, run), id, claim))
  {
    assert run[..|run|] == run;
    BaselineIsLastRead(w, run, id, claim);
    LastReadIs(w, run, |run|, id, claim);
  }

  // The claim reads otherwise than it did at its last reading, or is gone.
  ghost predicate Moved(now: World, last: Option<C.ContentHash>, claim: string) {
    last.Some? && ReadsNow(now, claim) != last
  }

  lemma PendingByBaselines(now: World, id: string)
    requires Valid(now) && id in now.briefs
    ensures Pending(now.briefs[id], Some(now.store), C.Latest(now.claims)) <==>
      && now.briefs[id].status == C.Locked && Stands(now, id)
      && exists claim :: Moved(now, BaselineOf(now, id, claim), claim)
  {
    if Stands(now, id) {
      forall claim
        ensures Differs(now.store.briefs[id], C.Latest(now.claims), claim) <==>
          Moved(now, BaselineOf(now, id, claim), claim)
      {
      }
    }
  }

  // So a locked brief is review_pending exactly when some claim it was read against has
  // changed since, or is gone.
  lemma PendingExactly(w: World, run: seq<Event>, id: string)
    requires Fresh(w) && id in After(w, run).briefs
    ensures var now := After(w, run);
      Pending(now.briefs[id], Some(now.store), C.Latest(now.claims)) <==>
        && now.briefs[id].status == C.Locked && Stands(now, id)
        && exists claim :: Moved(now, LastRead(w, run, id, claim), claim)
  {
    RunsStaySound(w, run);
    var now := After(w, run);
    PendingByBaselines(now, id);
    if claim :| Moved(now, BaselineOf(now, id, claim), claim) {
      BaselineIsLastRead(w, run, id, claim);
      assert Moved(now, LastRead(w, run, id, claim), claim);
    }
    if claim :| Moved(now, LastRead(w, run, id, claim), claim) {
      BaselineIsLastRead(w, run, id, claim);
      assert Moved(now, BaselineOf(now, id, claim), claim);
    }
  }

  // Until a confirmed reaudit, no run of edits, unlocks and locks that keeps listing the
  // claim moves its baseline.
  lemma {:induction false} BaselineSurvives(w: World, run: seq<Event>, id: string, claim: string)
    requires Sound(w) && BaselineOf(w, id, claim).Some?
    requires forall k :: 0 <= k < |run| ==> !Rereads(After(w, run[..k]), run[k], id)
    requires forall k :: 0 <= k < |run| && Signs(After(w, run[..k]), run[k], id) ==>
      claim in After(w, run[..k]).briefs[id].restsOn
    ensures BaselineOf(After(w, run), id, claim) == BaselineOf(w, id, claim)
  {
    if run == [] {
    } else {
      var n := |run| - 1;
      var init := run[..n];
      forall k | 0 <= k < |init|
        ensures !Rereads(After(w, init[..k]), init[k], id)
        ensures Signs(After(w, init[..k]), init[k], id) ==> claim in After(w, init[..k]).briefs[id].restsOn
      {
        assert init[..k] == run[..k];
      }
      BaselineSurvives(w, init, id, claim);
      RunsKeepSound(w, init);
      StepMovesBaseline(After(w, init), run[n], id, claim);
      assert !Rereads(After(w, run[..n]), run[n], id);
    }
  }

  // A confirmed reaudit clears review_pending and leaves the approval as it was.
  lemma ConfirmClears(w: World, id: string, g: Gates, at: string, reason: string)
    requires Valid(w) && ReauditRefusal(w, id, g).None?
    ensures var now := ReauditWrites(w, id, at, reason, 1);
      && id in now.store.briefs && id in w.store.briefs
      && StateOf(now.briefs[id], Some(now.store)) == IsLocked
      && !Pending(now.briefs[id], Some(now.store), C.Latest(now.claims))
      && now.briefs == w.briefs
      && now.store.briefs[id].(baselines := w.store.briefs[id].baselines, receipts := w.store.briefs[id].receipts,
                               reaudits := w.store.briefs[id].reaudits) == w.store.briefs[id]
  {
    var now := ReauditWrites(w, id, at, reason, 1);
    forall claim ensures !Differs(now.store.briefs[id], C.Latest(now.claims), claim) {}
  }
}
