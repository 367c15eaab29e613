// The --dry-run previews of brief lock and brief reaudit (internal/cliout/dryrun.go,
// briefLockDryRun and briefReauditDryRun): a preview is blocked exactly when the run it
// previews refuses, and the first thing it names is what that run would say.
module BriefPreview {
  import opened GoStd
  import C = ClaimModel
  import opened BriefModel
  import opened BriefEvaluate
  import opened BriefRules
  import opened BriefLifecycle

  // The precondition names, and the one input a preview may lack.
  datatype Gate =
    | Reason | StoresAreTracked | BriefHasNoErrorFindings | NoOpenCommentThreads | StoreIsReadable | NotAlreadyLocked
    | PreLedgerGate | BriefIsLocked | BriefUnchangedSinceApproval | ReviewPending | RestsOnClaimsExist

  datatype Precondition = Precondition(name: Gate, ok: bool)

  class DryRun {
    var preconditions: seq<Precondition>
    var missing: seq<Gate>
    var blocked: bool

    ghost predicate Valid() reads this { blocked <==> missing != [] }

    // The first thing the preview names.
    function First(): Option<Gate> reads this { if missing == [] then None else Some(missing[0]) }

    constructor ()
      ensures Valid() && preconditions == [] && missing == []
    {
      preconditions, missing, blocked := [], [], false;
    }

    method Require(name: Gate, ok: bool)
      requires Valid()
      modifies this
      ensures Valid()
      ensures preconditions == old(preconditions) + [Precondition(name, ok)]
      ensures missing == old(missing) + (if ok then [] else [name])
      ensures First() == if old(First()).Some? || ok then old(First()) else Some(name)
    {
      preconditions := preconditions + [Precondition(name, ok)];
      if !ok { missing, blocked := missing + [name], true; }
    }

    method Lacking(what: Gate)
      requires Valid()
      modifies this
      ensures Valid()
      ensures preconditions == old(preconditions)
      ensures missing == old(missing) + [what]
      ensures First() == if old(First()).Some? then old(First()) else Some(what)
    {
      missing, blocked := missing + [what], true;
    }
  }

  // The precondition a refusal fails.
  function LockGateName(c: Code): Option<Gate> {
    match c
    case MissingReason => Some(Reason)
    case StoreGitignored => Some(StoresAreTracked)
    case LintFailed => Some(BriefHasNoErrorFindings)
    case CommentOpen => Some(NoOpenCommentThreads)
    case StoreUnreadable => Some(StoreIsReadable)
    case AlreadyLocked => Some(NotAlreadyLocked)
    case PreLedger => Some(PreLedgerGate)
    case _ => None
  }

  function ReauditGateName(c: Code): Option<Gate> {
    match c
    case MissingReason => Some(Reason)
    case StoreGitignored => Some(StoresAreTracked)
    case NotLocked => Some(BriefIsLocked)
    case IntegrityFailed => Some(BriefUnchangedSinceApproval)
    case CommentOpen => Some(NoOpenCommentThreads)
    case NotReviewPending => Some(ReviewPending)
    case WrongState => Some(RestsOnClaimsExist)
    case PreLedger => Some(PreLedgerGate)
    case _ => None
  }

  function Named(refusal: Option<Code>, name: Code -> Option<Gate>): Option<Gate> {
    if refusal.Some? then name(refusal.value) else None
  }

  // The first gate of the lock preview to fail. The two that read the store are skipped
  // when it does not load.
  function FirstLockGate(g: Gates, clean: bool, threads: nat, already: bool, preLedger: bool): Option<Gate> {
    if !g.hasReason then Some(Reason)
    else if !g.tracked then Some(StoresAreTracked)
    else if !clean then Some(BriefHasNoErrorFindings)
    else if threads > 0 then Some(NoOpenCommentThreads)
    else if !g.storeReadable then Some(StoreIsReadable)
    else if already then Some(NotAlreadyLocked)
    else if preLedger then Some(PreLedgerGate)
    else None
  }

  method LockReport(g: Gates, clean: bool, threads: nat, already: bool, preLedger: bool) returns (dr: DryRun)
    ensures fresh(dr) && dr.Valid() && dr.First() == FirstLockGate(g, clean, threads, already, preLedger)
  {
    dr := new DryRun();
    if !g.hasReason { dr.Lacking(Reason); }
    dr.Require(StoresAreTracked, g.tracked);
    dr.Require(BriefHasNoErrorFindings, clean);
    dr.Require(NoOpenCommentThreads, threads == 0);
    dr.Require(StoreIsReadable, g.storeReadable);
    if g.storeReadable {
      dr.Require(NotAlreadyLocked, !already);
      dr.Require(PreLedgerGate, !preLedger);
    }
  }

  lemma LockGatesAgree(g: Gates, clean: bool, threads: nat, already: bool, preLedger: bool)
    requires g.hasReason && g.tracked
    ensures FirstLockGate(g, clean, threads, already, preLedger) ==
      Named(LockCode(g, clean, threads, already, preLedger), LockGateName)
  {
  }

  // The gates of briefLockDryRun.
  method LockGates(p: Project, all: seq<Brief>, b: Brief, g: Gates, prev: Option<BriefRecord>) returns (dr: DryRun)
    requires DistinctBriefs(all) && ProperPaths(all) && b in all && b.id in p.briefs && p.briefs[b.id] == b
    requires g.storeReadable ==> prev == RecordOf(p.Now(), b.id)
    ensures fresh(dr) && dr.Valid() && dr.First() == Named(LockRefusal(p.Now(), b.id, g), LockGateName)
  {
    ghost var refusal := LockRefusal(p.Now(), b.id, g);
    var errors := ErrorFindings(all, g.tree, b, p.claims);
    var already := AlreadySigned(b, prev);
    var locked := p.AnyLocked();
    assert g.storeReadable ==> (already <==> StateOf(b, Some(p.store)) == IsLocked);
    assert g.hasReason && g.tracked ==> refusal == LockCode(g, errors == [], b.threads, already, g.preLedger && locked);
    if g.hasReason && g.tracked { LockGatesAgree(g, errors == [], b.threads, already, g.preLedger && locked); }
    dr := LockReport(g, errors == [], b.threads, already, g.preLedger && locked);
  }

  // briefLockDryRun over a project that holds the brief, and the baselines it proposes.
  method LockDryRun(p: Project, all: seq<Brief>, b: Brief, g: Gates)
    returns (dr: DryRun, proposed: map<string, C.ContentHash>, carried: seq<string>)
    requires DistinctBriefs(all) && ProperPaths(all) && b in all && b.id in p.briefs && p.briefs[b.id] == b
    ensures fresh(dr) && dr.Valid()
    ensures dr.blocked <==> LockRefusal(p.Now(), b.id, g).Some?
    ensures dr.First() == Named(LockRefusal(p.Now(), b.id, g), LockGateName)
    ensures g.storeReadable ==> proposed == RelockHashes(b, C.Latest(p.claims), RecordOf(p.Now(), b.id))
    ensures g.storeReadable ==> forall id :: id in carried <==> id in b.restsOn && BaselineKept(p.Now(), b.id, id)
  {
    var prev := if g.storeReadable && b.id in p.store.briefs then Some(p.store.briefs[b.id]) else None;
    dr := LockGates(p, all, b, g, prev);
    var receipts, unknown;
    proposed, receipts, carried, unknown := RelockBaselines(b, p.claims, prev);
    EveryLockCodeIsNamed(p.Now(), b.id, g);
  }

  lemma EveryLockCodeIsNamed(w: World, id: string, g: Gates)
    requires id in w.briefs
    ensures Named(LockRefusal(w, id, g), LockGateName).Some? <==> LockRefusal(w, id, g).Some?
  {
  }

  ghost predicate BaselineKept(w: World, id: string, claim: string) { Carried(RecordOf(w, id), claim) }

  method AlreadySigned(b: Brief, prev: Option<BriefRecord>) returns (already: bool)
    ensures already <==> b.status == C.Locked && prev.Some? && prev.value.release.None? && Agrees(b, prev.value)
  {
    if b.status != C.Locked || prev.None? || prev.value.release.Some? { return false; }
    var moved := ContentMoved(b, prev.value);
    already := moved == {};
  }

  function FirstReauditGate(g: Gates, v: Review, threads: nat, known: bool, preLedger: bool): Option<Gate> {
    if !g.hasReason then Some(Reason)
    else if !g.tracked then Some(StoresAreTracked)
    else if v.state != IsLocked && v.state != IsEdited then Some(BriefIsLocked)
    else if v.state == IsEdited then Some(BriefUnchangedSinceApproval)
    else if threads > 0 then Some(NoOpenCommentThreads)
    else if !v.pending then Some(ReviewPending)
    else if !known then Some(RestsOnClaimsExist)
    else if preLedger then Some(PreLedgerGate)
    else None
  }

  method ReauditReport(g: Gates, v: Review, threads: nat, known: bool, preLedger: bool) returns (dr: DryRun)
    ensures fresh(dr) && dr.Valid() && dr.First() == FirstReauditGate(g, v, threads, known, preLedger)
  {
    dr := new DryRun();
    if !g.hasReason { dr.Lacking(Reason); }
    dr.Require(StoresAreTracked, g.tracked);
    dr.Require(BriefIsLocked, v.state == IsLocked || v.state == IsEdited);
    dr.Require(BriefUnchangedSinceApproval, v.state != IsEdited);
    dr.Require(NoOpenCommentThreads, threads == 0);
    dr.Require(ReviewPending, v.pending);
    dr.Require(RestsOnClaimsExist, known);
    dr.Require(PreLedgerGate, !preLedger);
  }

  lemma ReauditGatesAgree(g: Gates, v: Review, threads: nat, known: bool, preLedger: bool)
    requires g.hasReason && g.tracked
    ensures FirstReauditGate(g, v, threads, known, preLedger)
            == Named(ReauditCode(v.state, threads, v.pending, known, preLedger), ReauditGateName)
  {
  }

  // briefReauditDryRun. Its caller has already failed on a store that does not load.
  method ReauditDryRun(p: Project, all: seq<Brief>, b: Brief, g: Gates) returns (dr: DryRun)
    requires BriefLifecycle.Valid(p.Now()) && DistinctBriefs(all) && b in all && g.storeReadable
    requires b.id in p.briefs && p.briefs[b.id] == b
    ensures fresh(dr) && dr.Valid()
    ensures dr.blocked <==> ReauditRefusal(p.Now(), b.id, g).Some?
    ensures dr.First() == Named(ReauditRefusal(p.Now(), b.id, g), ReauditGateName)
  {
    hide Pending, StateOf, AllExist;
    var v := p.ReviewOf(all, b);
    var known := p.NoUnknown(b);
    var locked := p.AnyLocked();
    if g.hasReason && g.tracked { ReauditGatesAgree(g, v, b.threads, known, g.preLedger && locked); }
    dr := ReauditReport(g, v, b.threads, known, g.preLedger && locked);
  }
}
