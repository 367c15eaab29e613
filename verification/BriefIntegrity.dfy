// What the four integrity findings of a brief's lock detect, between them.
module BriefIntegrity {
  import opened GoStd
  import C = ClaimModel
  import opened BriefModel
  import opened BriefEvaluate
  import LockHash

  // `check` raises no integrity finding about the briefs.
  ghost predicate Clean(briefs: seq<Brief>, s: Option<BriefStore>, dir: string) {
    forall f :: !RaisedByOne(f, briefs, s) && !IsAbandoned(f, briefs, s, dir)
  }

  // Sound and complete: no finding iff every draft is unapproved, every locked brief is as
  // its standing record signed it, and every standing record's brief is there.
  lemma CleanIff(briefs: seq<Brief>, s: Option<BriefStore>, dir: string)
    ensures Clean(briefs, s, dir) <==>
      && (forall k :: 0 <= k < |briefs| ==>
            if briefs[k].status == C.Draft then !Standing(s, briefs[k].id)
            else Standing(s, briefs[k].id) && Agrees(briefs[k], s.value.briefs[briefs[k].id]))
      && (forall id :: Standing(s, id) ==> Present(briefs, id))
  {
    if Clean(briefs, s, dir) {
      forall k | 0 <= k < |briefs| ensures Raised(briefs[k], s).None? {
        if Raised(briefs[k], s).Some? { assert RaisedByOne(Raised(briefs[k], s).value, briefs, s); }
      }
      forall id | Standing(s, id) ensures Present(briefs, id) {
        if !Present(briefs, id) { assert IsAbandoned(AbandonedAt(dir, id, s.value.briefs[id]), briefs, s, dir); }
      }
    }
  }

  ghost predicate SignsAlike(a: Brief, b: Brief) {
    a.summary == b.summary && a.body == b.body && multiset(a.restsOn) == multiset(b.restsOn) && a.images == b.images
  }

  ghost predicate LockedAs(briefs: seq<Brief>, b: Brief) {
    exists k :: 0 <= k < |briefs| && briefs[k].id == b.id && briefs[k].status == C.Locked && SignsAlike(briefs[k], b)
  }

  ghost predicate LockedThere(briefs: seq<Brief>, id: string) {
    exists k :: 0 <= k < |briefs| && briefs[k].id == id && briefs[k].status == C.Locked
  }

  // From a clean project, an edit to the briefs alone stays unreported exactly when every
  // locked brief is still there, locked, with the same summary, body, rests_on set and
  // images, and no other brief has become locked.
  lemma TreeEditDetected(before: seq<Brief>, after: seq<Brief>, s: Option<BriefStore>, dir: string)
    requires DistinctBriefs(before) && DistinctBriefs(after) && Clean(before, s, dir)
    ensures Clean(after, s, dir) <==>
      && (forall k :: 0 <= k < |before| && before[k].status == C.Locked ==> LockedAs(after, before[k]))
      && (forall k :: 0 <= k < |after| && after[k].status == C.Locked ==> LockedThere(before, after[k].id))
  {
    CleanIff(before, s, dir);
    CleanIff(after, s, dir);
    if Clean(after, s, dir) {
      forall k | 0 <= k < |before| && before[k].status == C.Locked ensures LockedAs(after, before[k]) {
        assert Present(after, before[k].id);
        var j :| 0 <= j < |after| && after[j].id == before[k].id;
        LockHash.HashesAlike(before[k].summary, before[k].restsOn, before[k].body, after[j].summary, after[j].restsOn,
          after[j].body);
        assert SignsAlike(after[j], before[k]);
      }
      forall k | 0 <= k < |after| && after[k].status == C.Locked ensures LockedThere(before, after[k].id) {
        assert Present(before, after[k].id);
        var j :| 0 <= j < |before| && before[j].id == after[k].id;
        assert before[j].status == C.Locked;
      }
    }
    if && (forall k :: 0 <= k < |before| && before[k].status == C.Locked ==> LockedAs(after, before[k]))
       && (forall k :: 0 <= k < |after| && after[k].status == C.Locked ==> LockedThere(before, after[k].id)) {
      UndisturbedIsClean(before, after, s, dir);
    }
  }

  lemma UndisturbedIsClean(before: seq<Brief>, after: seq<Brief>, s: Option<BriefStore>, dir: string)
    requires DistinctBriefs(before) && DistinctBriefs(after) && Clean(before, s, dir)
    requires forall k :: 0 <= k < |before| && before[k].status == C.Locked ==> LockedAs(after, before[k])
    requires forall k :: 0 <= k < |after| && after[k].status == C.Locked ==> LockedThere(before, after[k].id)
    ensures Clean(after, s, dir)
  {
    CleanIff(before, s, dir);
    forall id | Standing(s, id) ensures LockedThere(after, id) {
      assert Present(before, id);
      var j :| 0 <= j < |before| && before[j].id == id;
      assert LockedAs(after, before[j]);
    }
    forall k | 0 <= k < |after| && after[k].status == C.Draft ensures !Standing(s, after[k].id) {
      assert Standing(s, after[k].id) ==> LockedThere(after, after[k].id);
    }
    forall k | 0 <= k < |after| && after[k].status == C.Locked
      ensures Standing(s, after[k].id) && Agrees(after[k], s.value.briefs[after[k].id])
    {
      StillAgrees(before, after, s, k);
    }
    forall id | Standing(s, id) ensures Present(after, id) { assert LockedThere(after, id); }
    CleanIff(after, s, dir);
  }

  lemma StillAgrees(before: seq<Brief>, after: seq<Brief>, s: Option<BriefStore>, k: nat)
    requires DistinctBriefs(before) && DistinctBriefs(after) && k < |after| && after[k].status == C.Locked
    requires forall j :: 0 <= j < |before| && before[j].status == C.Locked ==>
               Standing(s, before[j].id) && Agrees(before[j], s.value.briefs[before[j].id])
                 && LockedAs(after, before[j])
    requires LockedThere(before, after[k].id)
    ensures Standing(s, after[k].id) && Agrees(after[k], s.value.briefs[after[k].id])
  {
    var j :| 0 <= j < |before| && before[j].id == after[k].id && before[j].status == C.Locked;
    var i :| 0 <= i < |after| && after[i].id == before[j].id && after[i].status == C.Locked
      && SignsAlike(after[i], before[j]);
    assert i == k;
    LockHash.HashesAlike(before[j].summary, before[j].restsOn, before[j].body, after[k].summary, after[k].restsOn,
      after[k].body);
  }

  // From a clean project, an edit to the store alone stays unreported exactly when the
  // same records stand, each with the hash and images it had.
  lemma StoreEditDetected(briefs: seq<Brief>, s: Option<BriefStore>, t: Option<BriefStore>, dir: string)
    requires DistinctBriefs(briefs) && Clean(briefs, s, dir)
    ensures Clean(briefs, t, dir) <==>
      forall id :: (Standing(s, id) <==> Standing(t, id))
        && (Standing(s, id) && Standing(t, id) ==>
              s.value.briefs[id].hash == t.value.briefs[id].hash
                && s.value.briefs[id].images == t.value.briefs[id].images)
  {
    CleanIff(briefs, s, dir);
    CleanIff(briefs, t, dir);
    if Clean(briefs, t, dir) {
      forall id
        ensures Standing(s, id) <==> Standing(t, id)
        ensures Standing(s, id) && Standing(t, id) ==>
                  s.value.briefs[id].hash == t.value.briefs[id].hash
                    && s.value.briefs[id].images == t.value.briefs[id].images
      {
        if Standing(s, id) || Standing(t, id) {
          assert Present(briefs, id);
          var k :| 0 <= k < |briefs| && briefs[k].id == id;
          assert briefs[k].status == C.Locked;
        }
      }
    }
  }

  // With the store unreadable, a project is clean only if it locks no brief.
  lemma UnreadableStoreIsReported(briefs: seq<Brief>, dir: string)
    ensures Clean(briefs, None, dir) <==> forall k :: 0 <= k < |briefs| ==> briefs[k].status == C.Draft
  {
    CleanIff(briefs, None, dir);
  }
}
