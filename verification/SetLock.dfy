// `claim lock` over a set of claims (cmd/dossierx/lock_policy.go): every claim file, then
// the lock store, with a rollback that replays what was written. Any write may fail, and
// an editor may save any claim file the command has not yet written.
module SetLock {
  import opened GoStd
  import opened ClaimModel
  import T = ProposalToken

  const STORE_FILE := "lock-store.json"
  const DIGEST_FILE := "comment-digest.json"

  datatype Refusal = NoProposal | WrongProposal(how: T.Mismatch) | Policy | Unread

  datatype Outcome =
    | Refused(why: Refusal)                // nothing was written
    | Done
    | Restored                             // a write failed; prior state restored
    // a write failed and so did part of the recovery: claims not put back, stores not rewritten
    | Incomplete(missed: seq<string>, storeOk: bool, digestOk: bool)

  // What "recovery incomplete for ..." lists.
  function Failures(o: Outcome): seq<string>
    requires o.Incomplete?
  {
    o.missed + (if o.storeOk then [] else [STORE_FILE]) + (if o.digestOk then [] else [DIGEST_FILE])
  }

  // ---- the policy gate (internal/lock/policy.go), on what it reads of a request ----

  function CountId(claims: seq<Claim>, id: string): nat {
    if claims == [] then 0 else (if claims[0].id == id then 1 else 0) + CountId(claims[1..], id)
  }

  // One claim of that id (the ambiguous lint names a shared one), draft, no standing
  // record, no open thread, and no other refusal.
  predicate Admissible(claims: seq<Claim>, store: Store, refused: set<string>, id: string) {
    && CountId(claims, id) == 1
    && id in IndexOf(claims) && IndexOf(claims)[id].status == Draft && IndexOf(claims)[id].threads == 0
    && !Standing(store, id) && id !in refused
  }

  predicate Allowed(claims: seq<Claim>, store: Store, refused: set<string>, ids: seq<string>) {
    forall i :: 0 <= i < |ids| ==> Admissible(claims, store, refused, ids[i])
  }

  lemma {:induction false} CountIdOnce(claims: seq<Claim>, id: string, i: nat, j: nat)
    requires i < j < |claims| && claims[i].id == id && claims[j].id == id
    ensures CountId(claims, id) >= 2
  {
    if i == 0 { CountIdSome(claims[1..], id, j - 1); } else { CountIdOnce(claims[1..], id, i - 1, j - 1); }
  }

  lemma {:induction false} CountIdSome(claims: seq<Claim>, id: string, j: nat)
    requires j < |claims| && claims[j].id == id
    ensures CountId(claims, id) >= 1
  {
    if j == 0 {
    } else {
      CountIdSome(claims[1..], id, j - 1);
    }
  }

  lemma {:induction false} IndexFinds(claims: seq<Claim>, id: string)
    requires id in IndexOf(claims)
    ensures IndexOf(claims)[id] in claims && IndexOf(claims)[id].id == id
  {
    if claims[0].id == id {
    } else {
      IndexFinds(claims[1..], id);
    }
  }

  lemma {:induction false} CountIdOne(claims: seq<Claim>, id: string, k: nat)
    requires k < |claims| && claims[k].id == id
    requires forall j :: 0 <= j < |claims| && claims[j].id == id ==> j == k
    ensures CountId(claims, id) == 1
  {
    if k == 0 {
      forall j | 0 <= j < |claims[1..]| ensures claims[1..][j].id != id { assert claims[j + 1].id != id; }
      CountIdNone(claims[1..], id);
    } else {
      forall j | 0 <= j < |claims[1..]| && claims[1..][j].id == id ensures j == k - 1 { assert claims[j + 1].id == id; }
      CountIdOne(claims[1..], id, k - 1);
    }
  }

  lemma {:induction false} CountIdNone(claims: seq<Claim>, id: string)
    requires forall j :: 0 <= j < |claims| ==> claims[j].id != id
    ensures CountId(claims, id) == 0
  {
    if claims == [] {
    } else {
      forall j | 0 <= j < |claims[1..]| ensures claims[1..][j].id != id { assert claims[j + 1].id != id; }
      CountIdNone(claims[1..], id);
    }
  }

  lemma {:induction false} IndexHas(claims: seq<Claim>, k: nat)
    requires k < |claims|
    ensures claims[k].id in IndexOf(claims)
  {
    if k == 0 {
    } else {
      IndexHas(claims[1..], k - 1);
    }
  }

  // The one claim of an id, with no open thread, is a draft.
  ghost predicate SoleDraft(claims: seq<Claim>, id: string) {
    exists k :: 0 <= k < |claims| && claims[k].id == id && claims[k].status == Draft && claims[k].threads == 0
      && forall j :: 0 <= j < |claims| && claims[j].id == id ==> j == k
  }

  lemma AdmissibleClaim(claims: seq<Claim>, id: string)
    ensures SoleDraft(claims, id) <==>
      CountId(claims, id) == 1 && id in IndexOf(claims) && IndexOf(claims)[id].status == Draft
        && IndexOf(claims)[id].threads == 0
  {
    if id in IndexOf(claims) {
      IndexFinds(claims, id);
      var i :| 0 <= i < |claims| && claims[i] == IndexOf(claims)[id];
      if CountId(claims, id) == 1 {
        forall j | 0 <= j < |claims| && claims[j].id == id ensures j == i {
          if j != i { CountIdOnce(claims, id, if i < j then i else j, if i < j then j else i); }
        }
      }
      if SoleDraft(claims, id) { CountIdOne(claims, id, i); }
    } else if k :| 0 <= k < |claims| && claims[k].id == id {
      IndexHas(claims, k);
    }
  }

  // A request is allowed exactly when each of its ids is carried by one claim and no other,
  // that claim is a draft without open threads, no approval of it stands, and nothing else
  // refuses it.
  lemma AllowedIff(claims: seq<Claim>, store: Store, refused: set<string>, ids: seq<string>)
    ensures Allowed(claims, store, refused, ids) <==>
      forall i :: 0 <= i < |ids| ==>
        && SoleDraft(claims, ids[i]) && ids[i] !in refused
        && (ids[i] in store.ledger ==> store.ledger[ids[i]].released)
  {
    hide SoleDraft, CountId, IndexOf;
    forall i | 0 <= i < |ids|
      ensures Admissible(claims, store, refused, ids[i]) <==>
        SoleDraft(claims, ids[i]) && ids[i] !in refused && (ids[i] in store.ledger ==> store.ledger[ids[i]].released)
    {
      AdmissibleClaim(claims, ids[i]);
    }
  }

  // What a lock takes: drafts, each alone with its id, undisputed and not yet approved.
  lemma AllowedClaims(claims: seq<Claim>, store: Store, refused: set<string>, ids: seq<string>)
    requires Allowed(claims, store, refused, ids)
    ensures forall k :: 0 <= k < |claims| && claims[k].id in Requested(ids) ==>
      && claims[k].status == Draft && claims[k].threads == 0 && claims[k].id !in refused
      && (claims[k].id in store.ledger ==> store.ledger[claims[k].id].released)
  {
    AllowedIff(claims, store, refused, ids);
    forall k | 0 <= k < |claims| && claims[k].id in Requested(ids)
      ensures claims[k].status == Draft && claims[k].threads == 0 && claims[k].id !in refused
      ensures claims[k].id in store.ledger ==> store.ledger[claims[k].id].released
    {
      var i :| 0 <= i < |ids| && ids[i] == claims[k].id;
      assert SoleDraft(claims, ids[i]);
    }
  }

  // An allowed request names draft claims, one each.
  lemma AllowedIsUnique(claims: seq<Claim>, store: Store, refused: set<string>, ids: seq<string>)
    requires Allowed(claims, store, refused, ids)
    ensures Lockable(claims, Requested(ids))
  {
    forall i, j | 0 <= i < |claims| && 0 <= j < |claims| && i != j && claims[i].id in Requested(ids)
      ensures claims[i].id != claims[j].id
    {
      var n :| 0 <= n < |ids| && ids[n] == claims[i].id;
      assert Admissible(claims, store, refused, ids[n]);
      if claims[i].id == claims[j].id { CountIdOnce(claims, ids[n], if i < j then i else j, if i < j then j else i); }
    }
    forall i | 0 <= i < |claims| && claims[i].id in Requested(ids) ensures claims[i].status == Draft {
      var n :| 0 <= n < |ids| && ids[n] == claims[i].id;
      assert Admissible(claims, store, refused, ids[n]);
      IndexFinds(claims, ids[n]);
      var k :| 0 <= k < |claims| && claims[k] == IndexOf(claims)[ids[n]];
      assert k == i;
    }
  }

  // ---- the proposal gate ----

  // SHA-256 in hex, of a text and of what ContentHash reads.
  datatype Hash = Hash(sha: string -> string, hex: T.Hex)

  ghost function ProposalRefusal(h: Hash, claims: seq<Claim>, ids: seq<string>, proposal: string): Option<Refusal> {
    if proposal == "" then Some(NoProposal)
    else if proposal != T.Token(h.sha, Latest(claims), h.hex, ids)
      then Some(WrongProposal(T.ProposalMismatch(proposal, ids)))
    else None
  }

  method ProposalGate(h: Hash, claims: seq<Claim>, ids: seq<string>, proposal: string)
    returns (refused: Option<Refusal>)
    ensures refused == ProposalRefusal(h, claims, ids, proposal)
    ensures refused.Some? ==> refused.value.NoProposal? || refused.value.WrongProposal?
  {
    var snapshot := T.Snapshot(h.sha, claims, h.hex, ids);
    if proposal == "" { return Some(NoProposal); }
    refused := if proposal != snapshot then Some(WrongProposal(T.ProposalMismatch(proposal, ids))) else None;
  }

  // The gate opens for one proposal, the token of what would be locked; without a proposal
  // it says so, and to any other it says what does not match.
  lemma OnlyTheTokenPasses(h: Hash, claims: seq<Claim>, ids: seq<string>, proposal: string)
    ensures var token := T.Token(h.sha, Latest(claims), h.hex, ids);
      && token != ""
      && (ProposalRefusal(h, claims, ids, proposal).None? <==> proposal == token)
      && (ProposalRefusal(h, claims, ids, proposal) == Some(NoProposal) <==> proposal == "")
      && (proposal != "" && proposal != token ==>
            ProposalRefusal(h, claims, ids, proposal) == Some(WrongProposal(T.ProposalMismatch(proposal, ids))))
  {
  }

  lemma {:induction false} LatestHas(claims: seq<Claim>, k: nat)
    requires k < |claims|
    ensures claims[k].id in Latest(claims)
  {
    if k == |claims| - 1 {
    } else {
      LatestHas(claims[..|claims| - 1], k);
    }
  }

  // Where an id names one claim, both indexes find it.
  lemma IndexesAgree(claims: seq<Claim>, id: string)
    requires CountId(claims, id) == 1 && id in IndexOf(claims)
    ensures id in Latest(claims) && Latest(claims)[id] == IndexOf(claims)[id]
  {
    IndexFinds(claims, id);
    var i :| 0 <= i < |claims| && claims[i] == IndexOf(claims)[id];
    LatestHas(claims, i);
    T.LatestIsOne(claims, id);
    var j :| 0 <= j < |claims| && claims[j] == Latest(claims)[id];
    if i != j { CountIdOnce(claims, id, if i < j then i else j, if i < j then j else i); }
  }

  // What is known of the two hashes: injective, and hex digits.
  ghost predicate Hashes(h: Hash) {
    && (forall x, y :: h.sha(x) == h.sha(y) ==> x == y)
    && (forall c, d :: h.hex(c) == h.hex(d) ==> c == d)
    && T.HexHashes(h.hex)
  }

  // A request the claim grammar allows: non-empty ids of one line, without commas.
  ghost predicate ProperRequest(claims: seq<Claim>, ids: seq<string>) {
    && T.OneLineIds(Latest(claims), ids) && T.IsBytes(T.Requested(ids)) && T.Plain(ids)
  }

  // What a lock takes is what was shown. A token built over an earlier state passes the
  // gate only for the same ids, with every claim in their closure reading as it did then;
  // so each claim an allowed lock signs has the content the human saw.
  lemma LocksWhatWasShown(h: Hash, shown: seq<Claim>, asked: seq<string>, claims: seq<Claim>, ids: seq<string>,
                          proposal: string)
    requires Hashes(h) && ProperRequest(shown, asked) && ProperRequest(claims, ids)
    requires proposal == T.Token(h.sha, Latest(shown), h.hex, asked)
    requires ProposalRefusal(h, claims, ids, proposal).None?
    ensures multiset(asked) == multiset(ids)
    ensures T.Closure(Latest(shown), asked) == T.Closure(Latest(claims), ids)
    ensures forall x :: x in T.Closure(Latest(claims), ids) ==>
      T.ContentAt(Latest(shown), x) == T.ContentAt(Latest(claims), x)
    ensures forall store, refused, i | 0 <= i < |ids| && Admissible(claims, store, refused, ids[i]) ::
      ids[i] in Latest(shown) && Content(Latest(shown)[ids[i]]) == Content(IndexOf(claims)[ids[i]])
  {
    var was, now := Latest(shown), Latest(claims);
    T.TokenBinds(h.sha, was, asked, now, ids, h.hex);
    SameIds(asked, ids);
    forall x | x in T.Closure(now, ids) ensures T.ContentAt(was, x) == T.ContentAt(now, x) {
      assert h.hex(T.ContentAt(was, x)) == h.hex(T.ContentAt(now, x));
    }
    forall store, refused, i | 0 <= i < |ids| && Admissible(claims, store, refused, ids[i])
      ensures ids[i] in was && Content(was[ids[i]]) == Content(IndexOf(claims)[ids[i]])
    {
      IndexesAgree(claims, ids[i]);
      RequestedAreShown(shown, claims, ids, i);
    }
  }

  lemma SameIds(a: seq<string>, b: seq<string>)
    requires T.Plain(a) && T.Plain(b) && T.Requested(a) == T.Requested(b)
    ensures multiset(a) == multiset(b)
  {
    SortStringsCanonical(a, b);
    T.PlainSorted(a);
    T.PlainSorted(b);
    T.JoinInjective(SortStrings(a), SortStrings(b));
  }

  lemma RequestedAreShown(shown: seq<Claim>, claims: seq<Claim>, ids: seq<string>, i: nat)
    requires i < |ids| && ids[i] != "" && ids[i] in Latest(claims)
    requires forall x :: x in T.Closure(Latest(claims), ids) ==>
      T.ContentAt(Latest(shown), x) == T.ContentAt(Latest(claims), x)
    ensures ids[i] in Latest(shown) && Content(Latest(shown)[ids[i]]) == Content(Latest(claims)[ids[i]])
  {
    T.ReachesSelf(Latest(claims), ids[i]);
    T.ClosureIsReachable(Latest(claims), ids, ids[i]);
    LatestKeepsIds(claims, ids[i]);
    assert Content(Latest(claims)[ids[i]]).id == ids[i];
  }

  // ---- what success writes ----

  function Requested(ids: seq<string>): set<string> { set i | 0 <= i < |ids| :: ids[i] }

  function Final(claims: seq<Claim>, requested: set<string>): (r: seq<Claim>)
    ensures |r| == |claims|
    ensures forall k :: 0 <= k < |r| ==> r[k] == if claims[k].id in requested then LockClaim(claims[k]) else claims[k]
  {
    seq(|claims|, k requires 0 <= k < |claims| => if claims[k].id in requested then LockClaim(claims[k]) else claims[k])
  }

  // The requested claims among the first n, in load order.
  function Chosen(claims: seq<Claim>, requested: set<string>, n: nat): seq<Claim>
    requires n <= |claims|
  {
    if n == 0 then []
    else Chosen(claims, requested, n - 1) + (if claims[n - 1].id in requested then [claims[n - 1]] else [])
  }

  // The store a successful lock saves.
  function Approved(s: Store, claims: seq<Claim>, requested: set<string>, reason: string, at: string): Store {
    var final := Final(claims, requested);
    Approve(s, Chosen(final, requested, |final|), IndexOf(final), reason, at)
  }

  // ---- the rollback, on values ----

  ghost predicate Distinct(written: seq<Claim>) {
    forall i, j :: 0 <= i < j < |written| ==> written[i].path != written[j].path && written[i].id != written[j].id
  }

  ghost predicate Writes(written: seq<Claim>, path: string) {
    exists i :: 0 <= i < |written| && written[i].path == path
  }

  function Paths(written: seq<Claim>): set<string> { set i | 0 <= i < |written| :: written[i].path }

  // Two file maps alike but for some paths.
  ghost predicate Agree(files: map<string, Claim>, untouched: map<string, Claim>, ours: set<string>) {
    forall p :: p !in ours ==> SameAt(files, untouched, p)
  }

  // The written claims read as locked, and their drafts are what no command would have moved.
  ghost predicate Wrote(files: map<string, Claim>, untouched: map<string, Claim>, written: seq<Claim>) {
    && Distinct(written)
    && (forall i :: 0 <= i < |written| ==> written[i].status == Draft)
    && (forall i :: 0 <= i < |written| ==> Reads(files, written[i].path, LockClaim(written[i])))
    && (forall i :: 0 <= i < |written| ==> Reads(untouched, written[i].path, written[i]))
    && Agree(files, untouched, Paths(written))
  }

  lemma WroteNext(files: map<string, Claim>, untouched: map<string, Claim>, written: seq<Claim>, c: Claim)
    requires Wrote(files, untouched, written) && Distinct(written + [c]) && c.status == Draft && Reads(files, c.path, c)
    ensures Wrote(files[c.path := LockClaim(c)], untouched, written + [c])
  {
    PathsGrow(written, c);
    var w, next := written + [c], files[c.path := LockClaim(c)];
    hide Paths, Distinct;
    assert SameAt(files, untouched, c.path);
    forall i | 0 <= i < |w|
      ensures w[i].status == Draft && Reads(next, w[i].path, LockClaim(w[i])) && Reads(untouched, w[i].path, w[i])
    {
      if i < |written| {
        assert w[i] == written[i] && w[i].path in Paths(written);
        assert Reads(files, written[i].path, LockClaim(written[i]));
      }
    }
    forall p | p !in Paths(w) ensures SameAt(next, untouched, p) { assert SameAt(files, untouched, p); }
  }

  lemma PathsGrow(written: seq<Claim>, c: Claim)
    requires Distinct(written + [c])
    ensures Paths(written + [c]) == Paths(written) + {c.path} && c.path !in Paths(written)
    ensures forall i :: 0 <= i < |written| ==> written[i].path in Paths(written)
  {
    var w := written + [c];
    assert w[|written|] == c;
    forall i | 0 <= i < |written| ensures written[i].path != c.path { assert w[i] == written[i]; }
    forall p | p in Paths(written) ensures p in Paths(w) {
      var i :| 0 <= i < |written| && written[i].path == p;
      assert w[i].path == p;
    }
  }

  predicate Reads(files: map<string, Claim>, path: string, c: Claim) { path in files && files[path] == c }

  ghost predicate SameAt(a: map<string, Claim>, b: map<string, Claim>, p: string) {
    (p in a <==> p in b) && (p in a ==> a[p] == b[p])
  }

  lemma SameEverywhere(a: map<string, Claim>, b: map<string, Claim>)
    requires forall p :: SameAt(a, b, p)
    ensures a == b
  {
    forall p ensures p in a <==> p in b { assert SameAt(a, b, p); }
    assert a.Keys == b.Keys;
    forall p | p in a ensures a[p] == b[p] { assert SameAt(a, b, p); }
  }

  // The rollback has tried the first n written claims; failures names those it missed.
  ghost predicate TriedBack(before: map<string, Claim>, files: map<string, Claim>, written: seq<Claim>, n: nat,
                            failures: seq<string>) {
    && (forall p :: !Writes(written, p) ==> SameAt(files, before, p))
    && (forall i :: 0 <= i < |written| ==> Reads(files, written[i].path,
          if i >= n || written[i].id in failures then LockClaim(written[i]) else written[i]))
    && (forall k :: 0 <= k < |failures| ==> NamesOne(written, failures[k], n))
  }

  ghost predicate NamesOne(written: seq<Claim>, id: string, n: nat) {
    exists i :: 0 <= i < n && i < |written| && written[i].id == id
  }

  lemma TryBack(before: map<string, Claim>, files: map<string, Claim>, written: seq<Claim>, n: nat,
                failures: seq<string>, ok: bool)
    requires Distinct(written) && n < |written| && TriedBack(before, files, written, n, failures)
    ensures TriedBack(before, if ok then files[written[n].path := written[n]] else files, written, n + 1,
                      if ok then failures else failures + [written[n].id])
  {
    var w := written[n];
    forall k | 0 <= k < |failures| ensures failures[k] != w.id {
      assert NamesOne(written, failures[k], n);
    }
    var failures' := if ok then failures else failures + [w.id];
    forall i | 0 <= i < n ensures written[i].id in failures' <==> written[i].id in failures {}
    forall k | 0 <= k < |failures'| ensures NamesOne(written, failures'[k], n + 1) {
      if k < |failures| {
        assert NamesOne(written, failures[k], n);
      } else {
        assert written[n].id == failures'[k];
      }
    }
    assert Writes(written, w.path);
  }

  // ---- the project on disk ----

  class Project {
    var files: map<string, Claim>              // by path
    var store: Option<Store>                   // None: no store file
    var digests: Option<map<string, string>>   // the comment digest store beside it
    // What the claim files would be had no command run: the captured state plus the editor.
    ghost var untouched: map<string, Claim>
    ghost var failed: bool          // a forward step failed: a read, a claim save, the store save, a fault
    ghost var broken: seq<string>   // the restores that failed, in order

    ghost predicate AgreeOutside(ours: set<string>) reads `files, `untouched { Agree(files, untouched, ours) }

    // The editor saves or deletes a file of its choosing, outside those just written.
    method EditorTurn(written: seq<Claim>)
      requires WroteAll(written)
      modifies `files, `untouched
      ensures WroteAll(written)
    {
      var path: string, gone: bool, claim: Claim := *, *, *;
      if path in Paths(written) { return; }
      if gone {
        files, untouched := files - {path}, untouched - {path};
      } else {
        files, untouched := files[path := claim], untouched[path := claim];
      }
      forall i | 0 <= i < |written|
        ensures Reads(files, written[i].path, LockClaim(written[i])) && Reads(untouched, written[i].path, written[i])
      {
        assert Reads(old(files), written[i].path, LockClaim(written[i]))
          && Reads(old(untouched), written[i].path, written[i]);
        assert written[i].path in Paths(written);
      }
    }

    // One turn of the write loop.
    method WriteOne(written: seq<Claim>, c: Claim) returns (ok: bool)
      requires WroteAll(written) && Distinct(written + [c]) && c.status == Draft
      modifies `files, `failed
      ensures failed == (old(failed) || !ok)
      ensures WroteAll(if ok then written + [c] else written)
    {
      ok := SaveIfUnchanged(LockClaim(c), c);
      if ok {
        WroteNext(old(files), untouched, written, c);
      }
    }

    // A read, or the fault seam, that may fail.
    method Check() returns (ok: bool)
      modifies `failed
      ensures failed == (old(failed) || !ok)
    {
      ok := *;
      failed := failed || !ok;
    }

    // SaveClaimIfUnchanged: an atomic replacement, refused if the file is not the captured one.
    method SaveIfUnchanged(c: Claim, token: Claim) returns (ok: bool)
      modifies `files, `failed
      ensures ok ==> c.path in old(files) && old(files[c.path]) == token && files == old(files)[c.path := c]
      ensures !ok ==> files == old(files)
      ensures failed == (old(failed) || !ok)
    {
      ok := *;
      if !ok || c.path !in files || files[c.path] != token {
        failed := true;
        return false;
      }
      files := files[c.path := c];
    }

    // The rollback's save: the token is taken just before, so only the I/O can fail.
    method PutBack(c: Claim) returns (ok: bool)
      modifies `files, `broken
      ensures files == if ok then old(files)[c.path := c] else old(files)
      ensures broken == if ok then old(broken) else old(broken) + [c.id]
    {
      ok := *;
      if ok { files := files[c.path := c]; } else { broken := broken + [c.id]; }
    }

    // RecordApproval's best-effort write of the comment digest.
    method RecordDigest(id: string)
      modifies `digests
    {
      var landed: bool, value: string := *, *;
      if landed { digests := Some((if digests.Some? then digests.value else map[])[id := value]); }
    }

    method SaveStore(s: Store) returns (ok: bool)
      modifies `store, `digests, `failed
      ensures store == if ok then Some(s) else old(store)
      ensures failed == (old(failed) || !ok)
    {
      ok := *;
      if !ok {
        failed := true;
        return;
      }
      var first := store.None?;
      store := Some(s);
      if first && digests.None? {
        var landed: bool := *;
        if landed { digests := Some(map[]); }
      }
    }

    method RestoreStore(raw: Option<Store>) returns (ok: bool)
      modifies `store, `broken
      ensures store == if ok then raw else old(store)
      ensures broken == if ok then old(broken) else old(broken) + [STORE_FILE]
    {
      ok := *;
      if ok { store := raw; } else { broken := broken + [STORE_FILE]; }
    }

    method RestoreDigests(raw: Option<map<string, string>>) returns (ok: bool)
      modifies `digests, `broken
      ensures digests == if ok then raw else old(digests)
      ensures broken == if ok then old(broken) else old(broken) + [DIGEST_FILE]
    {
      ok := *;
      if ok { digests := raw; } else { broken := broken + [DIGEST_FILE]; }
    }

    // One turn of the rollback's loop.
    method TryOne(ghost before: map<string, Claim>, written: seq<Claim>, n: nat, missed: seq<string>)
      returns (r: seq<string>)
      requires Distinct(written) && n < |written| && TriedBack(before, files, written, n, missed)
      modifies `files, `broken
      ensures TriedBack(before, files, written, n + 1, r)
      ensures missed <= r && broken == old(broken) + r[|missed|..]
    {
      TryBack(before, files, written, n, missed, true);
      TryBack(before, files, written, n, missed, false);
      var ok := PutBack(written[n]);
      r := if ok then missed else missed + [written[n].id];
    }

    // The rollback's loop: each claim written is put back or missed.
    method PutAllBack(written: seq<Claim>) returns (missed: seq<string>)
      requires Distinct(written)
      requires forall i :: 0 <= i < |written| ==> Reads(files, written[i].path, LockClaim(written[i]))
      modifies `files, `broken
      ensures broken == old(broken) + missed
      ensures TriedBack(old(files), files, written, |written|, missed)
    {
      missed := [];
      for n := 0 to |written|
        invariant TriedBack(old(files), files, written, n, missed) && broken == old(broken) + missed
      {
        missed := TryOne(old(files), written, n, missed);
      }
    }

    // The rollback closure: the claims, then both stores.
    method Rollback(written: seq<Claim>, storeRaw: Option<Store>, digestRaw: Option<map<string, string>>)
      returns (missed: seq<string>, storeOk: bool, digestOk: bool)
      requires Distinct(written)
      requires forall i :: 0 <= i < |written| ==> Reads(files, written[i].path, LockClaim(written[i]))
      modifies `files, `store, `digests, `broken
      ensures broken == old(broken) + Failures(Incomplete(missed, storeOk, digestOk))
      ensures TriedBack(old(files), files, written, |written|, missed)
      ensures store == (if storeOk then storeRaw else old(store))
      ensures digests == (if digestOk then digestRaw else old(digests))
    {
      missed := PutAllBack(written);
      storeOk := RestoreStore(storeRaw);
      digestOk := RestoreDigests(digestRaw);
    }

    ghost predicate Loaded(claims: seq<Claim>) reads `files {
      && (forall k :: 0 <= k < |claims| ==> claims[k].path in files && files[claims[k].path] == claims[k])
      && (forall i, j :: 0 <= i < j < |claims| ==> claims[i].path != claims[j].path)
    }

    ghost predicate WroteAll(written: seq<Claim>) reads `files, `untouched { Wrote(files, untouched, written) }

    // After a failed lock: each claim written reads as it did, or is named; every other
    // file is as the editor left it.
    ghost predicate Recovered(written: seq<Claim>, o: Outcome) reads `files, `untouched {
      && (o.Restored? ==> files == untouched)
      && (o.Incomplete? ==>
            && AgreeOutside(Paths(written))
            && forall i :: 0 <= i < |written| ==>
                 && Reads(files, written[i].path,
                          if written[i].id in o.missed then LockClaim(written[i]) else written[i])
                 && (written[i].id in o.missed <==> !Reads(files, written[i].path, written[i])))
    }

    method GiveUp(written: seq<Claim>, storeRaw: Option<Store>, digestRaw: Option<map<string, string>>)
      returns (outcome: Outcome)
      requires WroteAll(written) && storeRaw == store
      modifies `files, `store, `digests, `broken
      ensures if broken == old(broken) then outcome.Restored?
        else outcome.Incomplete? && broken == old(broken) + Failures(outcome)
      ensures Recovered(written, outcome)
      ensures store == storeRaw
      ensures outcome.Restored? || outcome.digestOk ==> digests == digestRaw
    {
      var missed, storeOk, digestOk := Rollback(written, storeRaw, digestRaw);
      outcome := if missed == [] && storeOk && digestOk then Restored else Incomplete(missed, storeOk, digestOk);
      forall p | p !in Paths(written) ensures SameAt(files, old(files), p) {
        assert !Writes(written, p);
      }
      if outcome.Restored? {
        forall p ensures SameAt(files, untouched, p) {
          if p in Paths(written) {
            var i :| 0 <= i < |written| && written[i].path == p;
            assert Reads(old(untouched), written[i].path, written[i]);
            assert Reads(files, written[i].path, written[i]);
          }
        }
        SameEverywhere(files, untouched);
      }
    }

    lemma WroteNothing(claims: seq<Claim>, requested: set<string>)
      requires untouched == files
      ensures WroteAll([]) && Chosen(claims, requested, 0) == []
    {
    }

    // One turn of the loop over the claims: the editor's, then the claim's if it is requested.
    method WriteTurn(claims: seq<Claim>, requested: set<string>, k: nat, written: seq<Claim>)
      returns (next: seq<Claim>, ok: bool)
      requires k < |claims| && Lockable(claims, requested) && !failed
      requires forall i, j :: 0 <= i < j < |claims| ==> claims[i].path != claims[j].path
      requires WroteAll(written) && written == Chosen(claims, requested, k)
      modifies `files, `untouched, `failed
      ensures failed == !ok && WroteAll(next)
      ensures next == Chosen(claims, requested, k + 1) || (!ok && next == written)
    {
      hide Distinct, WroteAll, Lockable, Chosen;
      EditorTurn(written);
      NextChosen(claims, requested, k);
      assert written + [] == written;
      if claims[k].id !in requested { return written, true; }
      ok := WriteOne(written, claims[k]);
      if !ok { return written, false; }
      next := written + [claims[k]];
      ok := Check();
    }

    // The write loop. On failure, written (the requested claims among the first n) is what
    // a rollback has to put back.
    method WriteClaims(claims: seq<Claim>, requested: set<string>) returns (written: seq<Claim>, ok: bool, ghost n: nat)
      requires Loaded(claims) && untouched == files && Lockable(claims, requested) && !failed
      modifies `files, `untouched, `failed
      ensures failed == !ok
      ensures WroteAll(written) && n <= |claims| && written == Chosen(claims, requested, n)
      ensures ok ==> n == |claims|
    {
      written, n := [], 0;
      WroteNothing(claims, requested);
      assert forall i, j :: 0 <= i < j < |claims| ==> claims[i].path != claims[j].path;
      hide Distinct, WroteAll, Lockable, Loaded, Chosen;
      for k := 0 to |claims|
        invariant n == k && written == Chosen(claims, requested, k) && WroteAll(written) && !failed
      {
        written, ok := WriteTurn(claims, requested, k, written);
        n := if written == Chosen(claims, requested, k + 1) then k + 1 else k;
        if !ok { return; }
      }
      ok := true;
    }

    // Records every requested claim in the loaded store; nothing is on disk yet but the
    // comment digests.
    method ApproveAll(loaded: Store, claims: seq<Claim>, requested: set<string>, reason: string, at: string)
      returns (next: Store)
      modifies `digests
      ensures next == Approved(loaded, claims, requested, reason, at)
    {
      var final := Final(claims, requested);
      next := loaded;
      for k := 0 to |final|
        invariant next == Approve(loaded, Chosen(final, requested, k), IndexOf(final), reason, at)
      {
        ghost var before, cs := Chosen(final, requested, k), Chosen(final, requested, k + 1);
        if final[k].id !in requested { assert cs == before; continue; }
        assert cs == before + [final[k]] && cs[..|cs| - 1] == before;
        next := RecordApproval(RefreshBaseline(next, final[k], IndexOf(final), at), final[k], reason, at);
        RecordDigest(final[k].id);
      }
    }

    // The writes of a set lock: the claims, their approvals, the store.
    method WriteSet(claims: seq<Claim>, requested: set<string>, loaded: Store, reason: string, at: string)
      returns (outcome: Outcome)
      requires Loaded(claims) && Lockable(claims, requested) && untouched == files && !failed && broken == []
      modifies this
      ensures !outcome.Refused? && (outcome.Done? <==> !failed)
      ensures outcome.Incomplete? <==> broken != []
      ensures outcome.Incomplete? ==> Failures(outcome) == broken
      ensures outcome.Restored? ==> files == untouched && store == old(store) && digests == old(digests)
      ensures outcome.Incomplete? ==> store == old(store)
      ensures outcome.Incomplete? && outcome.digestOk ==> digests == old(digests)
      ensures outcome.Incomplete? ==> exists n :: 0 <= n <= |claims| && Recovered(Chosen(claims, requested, n), outcome)
      ensures outcome.Done? ==> WroteAll(Chosen(claims, requested, |claims|))
      ensures outcome.Done? ==> store == Some(Approved(loaded, claims, requested, reason, at))
      ensures outcome.Done? ==> forall k :: 0 <= k < |claims| && claims[k].id in requested ==>
        && claims[k].path in files && files[claims[k].path] == claims[k].(status := Locked, reviewPending := false)
        && claims[k].path in untouched && untouched[claims[k].path] == claims[k]
      ensures outcome.Done? ==> forall p ::
        (forall k :: 0 <= k < |claims| && claims[k].id in requested ==> claims[k].path != p) ==>
          SameAt(files, untouched, p)
    {
      hide Chosen, Approved, Distinct, Lockable, Loaded, Failures;
      var storeRaw, digestRaw := store, digests;
      var written, ok, n := WriteClaims(claims, requested);
      if !ok {
        outcome := GiveUp(written, storeRaw, digestRaw);
        return;
      }
      WroteRequested(files, untouched, claims, requested);
      var next := ApproveAll(loaded, claims, requested, reason, at);
      ok := Check();
      if !ok {
        outcome := GiveUp(written, storeRaw, digestRaw);
        return;
      }
      ok := SaveStore(next);
      if !ok {
        outcome := GiveUp(written, storeRaw, digestRaw);
        return;
      }
      outcome := Done;
    }

    // runPolicySetLock, from the proposal gate on; ids is the request as the policy
    // evaluator normalises it.
    method LockSet(h: Hash, claims: seq<Claim>, ids: seq<string>, proposal: string, refused: set<string>,
                   reason: string, at: string)
      returns (outcome: Outcome)
      requires Loaded(claims) && untouched == files && !failed && broken == []
      modifies this
      ensures outcome.Done? <==>
        ProposalRefusal(h, claims, ids, proposal).None? && Allowed(claims, LoadedStore(old(store)), refused, ids)
          && !failed
      ensures outcome.Done? ==> forall k :: 0 <= k < |claims| && claims[k].id in Requested(ids) ==>
        && claims[k].status == Draft && claims[k].threads == 0 && claims[k].id !in refused
        && (old(store).Some? && claims[k].id in old(store).value.ledger ==>
              old(store).value.ledger[claims[k].id].released)
      ensures ProposalRefusal(h, claims, ids, proposal).Some? ==>
        outcome == Refused(ProposalRefusal(h, claims, ids, proposal).value)
      ensures ProposalRefusal(h, claims, ids, proposal).None? ==>
        !Allowed(claims, LoadedStore(old(store)), refused, ids) ==> outcome == Refused(Policy)
      ensures outcome == Refused(Unread) ==> failed
      ensures outcome.Incomplete? <==> broken != []
      ensures outcome.Incomplete? ==> Failures(outcome) == broken
      ensures outcome.Refused? ==> files == untouched == old(files) && store == old(store) && digests == old(digests)
      ensures outcome.Restored? ==> files == untouched && store == old(store) && digests == old(digests)
      ensures outcome.Incomplete? ==> store == old(store)
      ensures outcome.Incomplete? && outcome.digestOk ==> digests == old(digests)
      ensures outcome.Incomplete? ==>
        exists n :: 0 <= n <= |claims| && Recovered(Chosen(claims, Requested(ids), n), outcome)
      ensures outcome.Done? ==> WroteAll(Chosen(claims, Requested(ids), |claims|))
      ensures outcome.Done? ==> forall k :: 0 <= k < |claims| && claims[k].id in Requested(ids) ==>
        && claims[k].path in files && files[claims[k].path] == claims[k].(status := Locked, reviewPending := false)
        && claims[k].path in untouched && untouched[claims[k].path] == claims[k]
      ensures outcome.Done? ==> forall p ::
        (forall k :: 0 <= k < |claims| && claims[k].id in Requested(ids) ==> claims[k].path != p) ==>
          SameAt(files, untouched, p)
      ensures outcome.Done? ==>
        store == Some(Approved(if old(store).Some? then old(store).value else Store(map[], map[], map[]),
                               claims, Requested(ids), reason, at))
    {
      hide Chosen, Approved, WroteAll, Recovered, ProposalRefusal, Admissible, Lockable, Loaded, Requested, Failures,
           Allowed;
      var loaded := LoadedStore(store);
      var unread := ProposalGate(h, claims, ids, proposal);
      if unread.Some? { return Refused(unread.value); }
      if !Allowed(claims, loaded, refused, ids) { return Refused(Policy); }
      AllowedIsUnique(claims, loaded, refused, ids);
      AllowedClaims(claims, loaded, refused, ids);
      var captured := Check();
      if !captured { return Refused(Unread); }
      outcome := WriteSet(claims, Requested(ids), loaded, reason, at);
    }
  }

  // One draft claim of each requested id.
  ghost predicate Lockable(claims: seq<Claim>, requested: set<string>) {
    && (forall i, j :: 0 <= i < |claims| && 0 <= j < |claims| && i != j && claims[i].id in requested ==>
          claims[i].id != claims[j].id)
    && (forall i :: 0 <= i < |claims| && claims[i].id in requested ==> claims[i].status == Draft)
  }

  // A requested claim joins those written: a draft, of a path and an id of its own.
  lemma NextChosen(claims: seq<Claim>, requested: set<string>, k: nat)
    requires Lockable(claims, requested) && k < |claims|
    requires forall i, j :: 0 <= i < j < |claims| ==> claims[i].path != claims[j].path
    ensures Chosen(claims, requested, k + 1) ==
      Chosen(claims, requested, k) + (if claims[k].id in requested then [claims[k]] else [])
    ensures claims[k].id in requested ==>
      claims[k].status == Draft && Distinct(Chosen(claims, requested, k) + [claims[k]])
  {
    ChosenSoFar(claims, requested, k + 1);
  }

  // The files after a whole write loop: the requested claims locked and settled, each
  // otherwise as loaded, and every other file as the editor left it.
  lemma WroteRequested(files: map<string, Claim>, untouched: map<string, Claim>, claims: seq<Claim>,
                       requested: set<string>)
    requires Wrote(files, untouched, Chosen(claims, requested, |claims|))
    ensures forall k :: 0 <= k < |claims| && claims[k].id in requested ==>
      && claims[k].path in files && files[claims[k].path] == claims[k].(status := Locked, reviewPending := false)
      && claims[k].path in untouched && untouched[claims[k].path] == claims[k]
    ensures forall p :: (forall k :: 0 <= k < |claims| && claims[k].id in requested ==> claims[k].path != p) ==>
      SameAt(files, untouched, p)
  {
    var cs := Chosen(claims, requested, |claims|);
    forall k | 0 <= k < |claims| && claims[k].id in requested
      ensures Reads(files, claims[k].path, LockClaim(claims[k])) && Reads(untouched, claims[k].path, claims[k])
    {
      ChosenHolds(claims, requested, |claims|, k);
      var i :| 0 <= i < |cs| && cs[i] == claims[k];
      assert Reads(files, cs[i].path, LockClaim(cs[i])) && Reads(untouched, cs[i].path, cs[i]);
    }
    forall p | forall k :: 0 <= k < |claims| && claims[k].id in requested ==> claims[k].path != p
      ensures SameAt(files, untouched, p)
    {
      if p in Paths(cs) {
        var i :| 0 <= i < |cs| && cs[i].path == p;
        ChosenTakes(claims, requested, |claims|, i);
      }
    }
  }

  lemma {:induction false} ChosenTakes(claims: seq<Claim>, requested: set<string>, n: nat, i: nat)
    requires n <= |claims| && i < |Chosen(claims, requested, n)|
    ensures Takes(claims, requested, n, Chosen(claims, requested, n)[i])
  {
    if n == 0 {
    } else {
      var before := Chosen(claims, requested, n - 1);
      if i < |before| {
        ChosenTakes(claims, requested, n - 1, i);
        var j :| 0 <= j < n - 1 && before[i] == claims[j] && claims[j].id in requested;
      } else {
        assert Chosen(claims, requested, n)[i] == claims[n - 1];
      }
    }
  }

  ghost predicate Takes(claims: seq<Claim>, requested: set<string>, k: nat, c: Claim)
    requires k <= |claims|
  {
    exists j :: 0 <= j < k && c == claims[j] && claims[j].id in requested
  }

  // Requested claims, each taken once.
  lemma {:induction false} ChosenSoFar(claims: seq<Claim>, requested: set<string>, k: nat)
    requires k <= |claims|
    requires forall i, j :: 0 <= i < |claims| && 0 <= j < |claims| && i != j && claims[i].id in requested ==>
      claims[i].id != claims[j].id
    requires forall i, j :: 0 <= i < j < |claims| ==> claims[i].path != claims[j].path
    ensures var w := Chosen(claims, requested, k);
      Distinct(w) && forall i :: 0 <= i < |w| ==> Takes(claims, requested, k, w[i])
  {
    if k == 0 {
    } else {
      ChosenSoFar(claims, requested, k - 1);
      var w0, w := Chosen(claims, requested, k - 1), Chosen(claims, requested, k);
      forall i | 0 <= i < |w|
        ensures Takes(claims, requested, k, w[i])
        ensures i < |w0| && |w0| < |w| ==> w[i].path != w[|w0|].path && w[i].id != w[|w0|].id
      {
        if i < |w0| {
          assert Takes(claims, requested, k - 1, w0[i]);
          var j :| 0 <= j < k - 1 && w0[i] == claims[j] && claims[j].id in requested;
        } else {
          assert w[i] == claims[k - 1];
        }
      }
    }
  }

  // What success records: exactly the requested ids, each signing the claim as locked.
  lemma SuccessRecordsExactly(s: Store, claims: seq<Claim>, ids: seq<string>, reason: string, at: string, id: string)
    requires Lockable(claims, Requested(ids))
    requires forall i, j :: 0 <= i < j < |claims| ==> claims[i].path != claims[j].path
    ensures var done := Approved(s, claims, Requested(ids), reason, at);
      && (forall k :: 0 <= k < |claims| && claims[k].id == id && id in Requested(ids) ==>
            id in done.ledger && done.ledger[id] == LedgerRecord(Signed(claims[k]), at, reason, false))
      && (id !in Requested(ids) ==>
            (id in done.ledger <==> id in s.ledger) && (id in s.ledger ==> done.ledger[id] == s.ledger[id]))
  {
    var requested := Requested(ids);
    var final := Final(claims, requested);
    var cs := Chosen(final, requested, |final|);
    ChosenSoFar(final, requested, |final|);
    if id !in requested {
      forall i | 0 <= i < |cs| ensures cs[i].id != id { assert Takes(final, requested, |final|, cs[i]); }
      ApproveLeavesOthers(s, cs, IndexOf(final), reason, at, id);
    }
    forall k | 0 <= k < |claims| && claims[k].id == id && id in requested
      ensures var done := Approved(s, claims, requested, reason, at);
              id in done.ledger && done.ledger[id] == LedgerRecord(Signed(claims[k]), at, reason, false)
    {
      ChosenHolds(final, requested, |final|, k);
      var i :| 0 <= i < |cs| && cs[i] == final[k];
      ApproveRecords(s, cs, IndexOf(final), reason, at, i);
    }
  }

  lemma {:induction false} ChosenHolds(claims: seq<Claim>, requested: set<string>, n: nat, k: nat)
    requires k < n <= |claims| && claims[k].id in requested
    ensures claims[k] in Chosen(claims, requested, n)
  {
    if k == n - 1 {
    } else {
      ChosenHolds(claims, requested, n - 1, k);
    }
  }

  function LoadedStore(store: Option<Store>): Store { if store.Some? then store.value else EMPTY_STORE }
}
