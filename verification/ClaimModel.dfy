// Claims, the lock ledger and the dependency baselines, as the claim commands see them
// (internal/model, internal/lock).
module ClaimModel {
  import opened GoStd

  datatype Status = Draft | Locked

  // threads counts the open comment threads. body stands for everything ContentHash reads
  // besides the id and rests_on; meta for what only LockedClaimHash signs (audit notes,
  // sources, order). status, reviewPending and threads are in neither hash.
  datatype Claim = Claim(id: string, path: string, status: Status, reviewPending: bool, threads: nat,
                         restsOn: seq<string>, body: string, meta: string)

  // Both hashes, as injective functions of what they read.
  datatype ContentHash = ContentOf(id: string, restsOn: seq<string>, body: string)
  datatype SignedHash = SignedOf(id: string, restsOn: seq<string>, body: string, meta: string)

  function Content(c: Claim): ContentHash { ContentOf(c.id, c.restsOn, c.body) }
  function Signed(c: Claim): SignedHash { SignedOf(c.id, c.restsOn, c.body, c.meta) }

  datatype LedgerRecord = LedgerRecord(hash: SignedHash, at: string, reason: string, released: bool)

  datatype Store = Store(ledger: map<string, LedgerRecord>, baselines: map<string, map<string, ContentHash>>,
                         lockedAt: map<string, string>)

  const EMPTY_STORE := Store(map[], map[], map[])

  predicate Standing(s: Store, id: string) { id in s.ledger && !s.ledger[id].released }

  type Index = map<string, Claim>

  // What findByID finds: the first claim of each id.
  function IndexOf(claims: seq<Claim>): Index {
    if claims == [] then map[] else IndexOf(claims[1..])[claims[0].id := claims[0]]
  }

  // The index a map built in load order leaves: the last claim of each id.
  function Latest(claims: seq<Claim>): Index {
    if claims == [] then map[] else Latest(claims[..|claims| - 1])[claims[|claims| - 1].id := claims[|claims| - 1]]
  }

  lemma {:induction false} LatestKeepsIds(claims: seq<Claim>, id: string)
    requires id in Latest(claims)
    ensures Latest(claims)[id].id == id
  {
    if claims[|claims| - 1].id != id { LatestKeepsIds(claims[..|claims| - 1], id); }
  }

  lemma {:induction false} LatestHolds(claims: seq<Claim>, id: string)
    ensures id in Latest(claims) <==> exists k :: 0 <= k < |claims| && claims[k].id == id
  {
    if claims == [] {
    } else {
      var n := |claims| - 1;
      LatestHolds(claims[..n], id);
      if exists k :: 0 <= k < n && claims[k].id == id {
        var k :| 0 <= k < n && claims[k].id == id;
        assert claims[..n][k].id == id;
      }
      if id in Latest(claims) && claims[n].id != id {
        var k :| 0 <= k < n && claims[..n][k].id == id;
        assert claims[k].id == id;
      }
    }
  }

  method IndexClaims(claims: seq<Claim>) returns (byID: Index)
    ensures byID == Latest(claims)
  {
    byID := map[];
    for k := 0 to |claims|
      invariant byID == Latest(claims[..k])
    {
      byID := byID[claims[k].id := claims[k]];
      assert claims[..k + 1][..k] == claims[..k];
    }
    assert claims[..|claims|] == claims;
  }

  // ---- lock.Lock's transition, lock.RefreshBaseline, lock.RecordApproval ----

  function LockClaim(c: Claim): Claim { c.(status := Locked, reviewPending := false) }

  function BaselinesOf(s: Store, id: string): map<string, ContentHash> {
    if id in s.baselines then s.baselines[id] else map[]
  }

  // The dependencies a claim is baselined against, as they read now.
  function Read(c: Claim, index: Index): map<string, ContentHash> {
    map d | d in c.restsOn && d in index :: Content(index[d])
  }

  function RefreshBaseline(s: Store, c: Claim, index: Index, at: string): Store {
    var now := Read(c, index);
    s.(baselines := if now == map[] then s.baselines else s.baselines[c.id := BaselinesOf(s, c.id) + now],
       lockedAt := s.lockedAt[c.id := at])
  }

  // A claim none of whose dependencies is there gains no baselines.
  lemma NothingReadNothingBaselined(s: Store, c: Claim, index: Index, at: string)
    requires forall d :: d in c.restsOn ==> d !in index
    ensures RefreshBaseline(s, c, index, at).baselines == s.baselines
  {
    assert Read(c, index) == map[];
  }

  function RecordApproval(s: Store, c: Claim, reason: string, at: string): Store {
    s.(ledger := s.ledger[c.id := LedgerRecord(Signed(c), at, reason, false)])
  }

  // The approval half of a set lock: baseline, then record, claim by claim.
  function Approve(s: Store, cs: seq<Claim>, index: Index, reason: string, at: string): Store {
    if cs == [] then s
    else
      var c := cs[|cs| - 1];
      var before := Approve(s, cs[..|cs| - 1], index, reason, at);
      RecordApproval(RefreshBaseline(before, c, index, at), c, reason, at)
  }

  // Records and baselines change for the approved claims and no other.
  lemma {:induction false} ApproveLeavesOthers(s: Store, cs: seq<Claim>, index: Index, reason: string, at: string,
                                               id: string)
    requires forall k :: 0 <= k < |cs| ==> cs[k].id != id
    ensures var done := Approve(s, cs, index, reason, at);
      && (id in done.ledger <==> id in s.ledger) && (id in s.ledger ==> done.ledger[id] == s.ledger[id])
      && BaselinesOf(done, id) == BaselinesOf(s, id)
  {
    if cs == [] {
    } else {
      ApproveLeavesOthers(s, cs[..|cs| - 1], index, reason, at, id);
    }
  }

  // Each approved claim's record signs it as it is written, and its baselines are its
  // dependencies as they read now.
  lemma {:induction false} ApproveRecords(s: Store, cs: seq<Claim>, index: Index, reason: string, at: string, k: nat)
    requires k < |cs| && forall i, j :: 0 <= i < j < |cs| ==> cs[i].id != cs[j].id
    ensures var done := Approve(s, cs, index, reason, at);
      && cs[k].id in done.ledger && done.ledger[cs[k].id] == LedgerRecord(Signed(cs[k]), at, reason, false)
      && BaselinesOf(done, cs[k].id) == BaselinesOf(s, cs[k].id) + Read(cs[k], index)
  {
    var n := |cs| - 1;
    var init := cs[..n];
    if k < n {
      ApproveRecords(s, init, index, reason, at, k);
    } else {
      ApproveLeavesOthers(s, init, index, reason, at, cs[n].id);
    }
  }

  ghost predicate Among(cs: seq<Claim>, id: string) { exists k :: 0 <= k < |cs| && cs[k].id == id }

  // The time of a claim's last lock moves for the approved claims and no other.
  lemma {:induction false} ApproveStamps(s: Store, cs: seq<Claim>, index: Index, reason: string, at: string, id: string)
    ensures var done := Approve(s, cs, index, reason, at);
      if Among(cs, id) then id in done.lockedAt && done.lockedAt[id] == at
      else (id in done.lockedAt <==> id in s.lockedAt) && (id in s.lockedAt ==> done.lockedAt[id] == s.lockedAt[id])
  {
    if cs == [] {
    } else {
      var n := |cs| - 1;
      var init := cs[..n];
      ApproveStamps(s, init, index, reason, at, id);
      AmongLast(cs, id);
      hide Read, Signed, Among;
    }
  }

  lemma AmongLast(cs: seq<Claim>, id: string)
    requires cs != []
    ensures Among(cs, id) <==> Among(cs[..|cs| - 1], id) || cs[|cs| - 1].id == id
  {
    var init := cs[..|cs| - 1];
    if k :| 0 <= k < |cs| && cs[k].id == id { assert k < |init| ==> init[k].id == id; }
    if k :| 0 <= k < |init| && init[k].id == id { assert cs[k].id == id; }
  }

  function Release(s: Store, id: string): Store {
    if id in s.ledger then s.(ledger := s.ledger[id := s.ledger[id].(released := true)]) else s
  }
}
