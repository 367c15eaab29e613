// A brief, its approval record, and the baselines a record keeps of the claims the brief
// rests on (internal/briefs, internal/lock/briefs.go).
module BriefModel {
  import opened GoStd
  import C = ClaimModel
  import LockHash

  // What the lock lifecycle reads of a brief. restsOn holds distinct ids; images holds the
  // digest of each present image; threads counts the open comment threads.
  datatype Brief = Brief(id: string, path: string, status: C.Status, summary: string, restsOn: seq<string>,
                         body: string, images: map<string, string>, threads: nat)

  datatype Approved = Approved(summary: string, restsOn: seq<string>, markdown: string)

  datatype Reaudit = Reaudit(at: string, reason: string, claims: set<string>)

  datatype Stamp = Stamp(at: string, reason: string)

  datatype BriefRecord = BriefRecord(path: string, hash: Digest, at: string, reason: string, approved: Approved,
                                     images: map<string, string>, baselines: map<string, C.ContentHash>,
                                     receipts: map<string, C.Claim>, reaudits: seq<Reaudit>, release: Option<Stamp>)

  // elsewhere is every claim snapshot the store keeps outside the brief records.
  datatype BriefStore = BriefStore(briefs: map<string, BriefRecord>, elsewhere: seq<C.Claim>)

  type Index = C.Index

  function HashOf(b: Brief): Digest { LockHash.Of(b.summary, b.restsOn, b.body) }

  // ---- what a lock baselines ----

  // A receipt is the claim as it read, without the path it was read from.
  function Receipt(c: C.Claim): C.Claim { c.(path := "") }

  function Carried(prev: Option<BriefRecord>, id: string): bool { prev.Some? && id in prev.value.baselines }

  function RelockHashes(b: Brief, index: Index, prev: Option<BriefRecord>): map<string, C.ContentHash> {
    map id | id in b.restsOn && (Carried(prev, id) || id in index) ::
      if Carried(prev, id) then prev.value.baselines[id] else C.Content(index[id])
  }

  function RelockReceipts(b: Brief, index: Index, prev: Option<BriefRecord>): Index {
    map id | id in b.restsOn && (if Carried(prev, id) then id in prev.value.receipts else id in index) ::
      if Carried(prev, id) then prev.value.receipts[id] else Receipt(index[id])
  }

  function Baselined(b: Brief, index: Index): map<string, C.ContentHash> { RelockHashes(b, index, None) }

  // Every rests_on claim as it reads now, and the ids no claim carries.
  method Baselines(b: Brief, claims: seq<C.Claim>)
    returns (hashes: map<string, C.ContentHash>, receipts: Index, unknown: seq<string>)
    ensures hashes == Baselined(b, C.Latest(claims)) && receipts == RelockReceipts(b, C.Latest(claims), None)
    ensures forall id :: id in unknown <==> id in b.restsOn && id !in C.Latest(claims)
  {
    var byID := C.IndexClaims(claims);
    hashes, receipts, unknown := map[], map[], [];
    for i := 0 to |b.restsOn|
      invariant hashes == map id | id in b.restsOn[..i] && id in byID :: C.Content(byID[id])
      invariant receipts == map id | id in b.restsOn[..i] && id in byID :: Receipt(byID[id])
      invariant forall id :: id in unknown <==> id in b.restsOn[..i] && id !in byID
    {
      var id := b.restsOn[i];
      assert b.restsOn[..i + 1] == b.restsOn[..i] + [id];
      if id !in byID {
        unknown := unknown + [id];
      } else {
        var c := byID[id].(path := "");
        hashes, receipts := hashes[id := C.Content(c)], receipts[id := c];
      }
    }
    assert b.restsOn[..|b.restsOn|] == b.restsOn;
  }

  // After the ids `done`, taken from a record r over what the claims read.
  ghost predicate CarriedSoFar(b: Brief, index: Index, r: BriefRecord, done: seq<string>,
                               hashes: map<string, C.ContentHash>, receipts: Index, carried: seq<string>) {
    && (forall id :: id in carried <==> id in done && id in r.baselines)
    && (forall id :: id in hashes <==> (id in b.restsOn && id in index) || (id in done && id in r.baselines))
    && (forall id :: id in hashes ==>
          hashes[id] == if id in done && id in r.baselines then r.baselines[id] else C.Content(index[id]))
    && (forall id :: id in receipts <==>
          if id in done && id in r.baselines then id in r.receipts else id in b.restsOn && id in index)
    && (forall id :: id in receipts ==>
          receipts[id] == if id in done && id in r.baselines then r.receipts[id] else Receipt(index[id]))
  }

  lemma CarryStep(b: Brief, index: Index, r: BriefRecord, done: seq<string>, id: string,
                  hashes: map<string, C.ContentHash>, receipts: Index, carried: seq<string>)
    requires CarriedSoFar(b, index, r, done, hashes, receipts, carried)
    ensures id in r.baselines ==>
      CarriedSoFar(b, index, r, done + [id], hashes[id := r.baselines[id]],
                   if id in r.receipts then receipts[id := r.receipts[id]] else receipts - {id}, carried + [id])
    ensures id !in r.baselines ==> CarriedSoFar(b, index, r, done + [id], hashes, receipts, carried)
  {
  }

  lemma CarryAll(b: Brief, index: Index, r: BriefRecord, hashes: map<string, C.ContentHash>, receipts: Index,
                 carried: seq<string>)
    requires CarriedSoFar(b, index, r, b.restsOn, hashes, receipts, carried)
    ensures hashes == RelockHashes(b, index, Some(r)) && receipts == RelockReceipts(b, index, Some(r))
  {
    var h, c := RelockHashes(b, index, Some(r)), RelockReceipts(b, index, Some(r));
    assert h.Keys == hashes.Keys;
    assert c.Keys == receipts.Keys;
  }

  // What a lock over an earlier record, standing or released, records: the baselines it
  // holds for ids still listed, the claims as they read now for ids newly listed, and
  // nothing for an id no longer listed.
  method RelockBaselines(b: Brief, claims: seq<C.Claim>, prev: Option<BriefRecord>)
    returns (hashes: map<string, C.ContentHash>, receipts: Index, carried: seq<string>, unknown: seq<string>)
    ensures hashes == RelockHashes(b, C.Latest(claims), prev)
    ensures receipts == RelockReceipts(b, C.Latest(claims), prev)
    ensures forall id :: id in carried <==> id in b.restsOn && Carried(prev, id)
    ensures forall id :: id in unknown <==> id in b.restsOn && id !in C.Latest(claims) && !Carried(prev, id)
  {
    var all: seq<string>;
    hashes, receipts, all := Baselines(b, claims);
    if prev.None? { return hashes, receipts, [], all; }
    hashes, receipts, carried := CarryForward(b, claims, prev.value, hashes, receipts);
    unknown := StillUnknown(all, prev.value);
  }

  method CarryForward(b: Brief, claims: seq<C.Claim>, r: BriefRecord, hashes0: map<string, C.ContentHash>,
                      receipts0: Index)
    returns (hashes: map<string, C.ContentHash>, receipts: Index, carried: seq<string>)
    requires hashes0 == Baselined(b, C.Latest(claims)) && receipts0 == RelockReceipts(b, C.Latest(claims), None)
    ensures hashes == RelockHashes(b, C.Latest(claims), Some(r))
    ensures receipts == RelockReceipts(b, C.Latest(claims), Some(r))
    ensures forall id :: id in carried <==> id in b.restsOn && id in r.baselines
  {
    hashes, receipts, carried := hashes0, receipts0, [];
    for i := 0 to |b.restsOn|
      invariant CarriedSoFar(b, C.Latest(claims), r, b.restsOn[..i], hashes, receipts, carried)
    {
      var id := b.restsOn[i];
      assert b.restsOn[..i + 1] == b.restsOn[..i] + [id];
      CarryStep(b, C.Latest(claims), r, b.restsOn[..i], id, hashes, receipts, carried);
      if id in r.baselines {
        hashes := hashes[id := r.baselines[id]];
        receipts := if id in r.receipts then receipts[id := r.receipts[id]] else receipts - {id};
        carried := carried + [id];
      }
    }
    assert b.restsOn[..|b.restsOn|] == b.restsOn;
    CarryAll(b, C.Latest(claims), r, hashes, receipts, carried);
  }

  // A carried claim that is gone is not unknown to the lock.
  method StillUnknown(all: seq<string>, r: BriefRecord) returns (unknown: seq<string>)
    ensures forall id :: id in unknown <==> id in all && id !in r.baselines
  {
    unknown := [];
    for i := 0 to |all|
      invariant forall id :: id in unknown <==> id in all[..i] && id !in r.baselines
    {
      assert all[..i + 1] == all[..i] + [all[i]];
      if all[i] !in r.baselines { unknown := unknown + [all[i]]; }
    }
    assert all[..|all|] == all;
  }
}
