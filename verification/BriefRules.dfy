// The error findings a brief lock refuses on (internal/briefs/rules.go, and
// briefErrorFindings and findingsAbout in cmd/dossierx).
module BriefRules {
  import opened GoStd
  import C = ClaimModel
  import opened BriefModel
  import opened BriefEvaluate

  const RULE_UNKNOWN := "brief-rests-on-unknown"

  // where is the path of a file, or of a folder or the tree ending in "/".
  datatype LintFinding = LintFinding(rule: string, where: string, about: string, warning: bool)

  predicate HasSuffix(s: string, suffix: string) { |suffix| <= |s| && s[|s| - |suffix|..] == suffix }

  predicate About(where: string, path: string) { where == path || (HasSuffix(where, "/") && where <= path) }

  // A brief's own error finding, or one on its folder or the tree, or an id no claim carries.
  predicate HasErrors(b: Brief, index: Index, tree: seq<LintFinding>) {
    || (exists k :: 0 <= k < |tree| && IsErrorAbout(tree[k], b.path))
    || (exists i :: 0 <= i < |b.restsOn| && b.restsOn[i] !in index)
  }

  predicate IsErrorAbout(f: LintFinding, path: string) { !f.warning && About(f.where, path) }

  ghost predicate ProperPaths(briefs: seq<Brief>) {
    forall k :: 0 <= k < |briefs| ==> !HasSuffix(briefs[k].path, "/")
  }

  // The ids an evaluation stands in for, by brief path: those a standing record baselines.
  type StoodIn = map<string, set<string>>

  ghost predicate IsUnknown(f: LintFinding, b: Brief, index: Index, stood: StoodIn, n: nat) {
    exists i :: 0 <= i < n && i < |b.restsOn| && b.restsOn[i] !in index
      && !(b.path in stood && b.restsOn[i] in stood[b.path])
      && f == LintFinding(RULE_UNKNOWN, b.path, b.restsOn[i], false)
  }

  method KnownIds(claims: seq<C.Claim>) returns (known: set<string>)
    ensures known == C.Latest(claims).Keys
  {
    known := {};
    for k := 0 to |claims|
      invariant known == C.Latest(claims[..k]).Keys
    {
      known := known + {claims[k].id};
      assert claims[..k + 1][..k] == claims[..k];
    }
    assert claims[..|claims|] == claims;
  }

  // brief-rests-on-unknown over the whole set.
  method RestsOnUnknown(briefs: seq<Brief>, claims: seq<C.Claim>, stood: StoodIn) returns (out: seq<LintFinding>)
    ensures forall f :: f in out <==>
      exists k :: 0 <= k < |briefs| && IsUnknown(f, briefs[k], C.Latest(claims), stood, |briefs[k].restsOn|)
  {
    var known := KnownIds(claims);
    out := [];
    for k := 0 to |briefs|
      invariant forall f :: f in out <==>
        exists j :: 0 <= j < k && IsUnknown(f, briefs[j], C.Latest(claims), stood, |briefs[j].restsOn|)
    {
      var b := briefs[k];
      var own := [];
      for i := 0 to |b.restsOn|
        invariant forall f :: f in own <==> IsUnknown(f, b, C.Latest(claims), stood, i)
      {
        var id := b.restsOn[i];
        if id !in known && !(b.path in stood && id in stood[b.path]) {
          own := own + [LintFinding(RULE_UNKNOWN, b.path, id, false)];
        }
      }
      out := out + own;
    }
  }

  method FindingsAbout(fs: seq<LintFinding>, path: string) returns (out: seq<LintFinding>)
    ensures forall f :: f in out <==> f in fs && About(f.where, path)
  {
    out := [];
    for k := 0 to |fs|
      invariant forall f :: f in out <==> f in fs[..k] && About(f.where, path)
    {
      assert fs[..k + 1] == fs[..k] + [fs[k]];
      if About(fs[k].where, path) { out := out + [fs[k]]; }
    }
    assert fs[..|fs|] == fs;
  }

  // tree is what discovery, the frontmatter and the caps raised.
  method ErrorFindings(briefs: seq<Brief>, tree: seq<LintFinding>, b: Brief, claims: seq<C.Claim>)
    returns (out: seq<LintFinding>)
    requires DistinctBriefs(briefs) && ProperPaths(briefs) && b in briefs
    ensures out == [] <==> !HasErrors(b, C.Latest(claims), tree)
  {
    var unknown := RestsOnUnknown(briefs, claims, map[]);
    var mine := FindingsAbout(tree + unknown, b.path);
    out := [];
    for k := 0 to |mine|
      invariant forall f :: f in out <==> f in mine[..k] && !f.warning
    {
      assert mine[..k + 1] == mine[..k] + [mine[k]];
      if !mine[k].warning { out := out + [mine[k]]; }
    }
    assert mine[..|mine|] == mine;
    ErrorsAreOwn(briefs, tree, b, claims, unknown, out);
  }

  lemma ErrorsAreOwn(briefs: seq<Brief>, tree: seq<LintFinding>, b: Brief, claims: seq<C.Claim>,
                     unknown: seq<LintFinding>, out: seq<LintFinding>)
    requires DistinctBriefs(briefs) && ProperPaths(briefs) && b in briefs
    requires forall f :: f in unknown <==>
      exists k :: 0 <= k < |briefs| && IsUnknown(f, briefs[k], C.Latest(claims), map[], |briefs[k].restsOn|)
    requires forall f :: f in out <==> f in tree + unknown && About(f.where, b.path) && !f.warning
    ensures out == [] <==> !HasErrors(b, C.Latest(claims), tree)
  {
    var index := C.Latest(claims);
    if out != [] {
      var f := out[0];
      assert f in out;
      if f in tree {
        var k :| 0 <= k < |tree| && tree[k] == f;
        assert IsErrorAbout(tree[k], b.path);
      } else {
        var k :| 0 <= k < |briefs| && IsUnknown(f, briefs[k], index, map[], |briefs[k].restsOn|);
        var j :| 0 <= j < |briefs| && briefs[j] == b;
        assert f.where == briefs[k].path == b.path;
        assert k == j;
      }
    }
    if HasErrors(b, index, tree) {
      if k :| 0 <= k < |tree| && IsErrorAbout(tree[k], b.path) {
        assert tree[k] in out;
      } else {
        var i :| 0 <= i < |b.restsOn| && b.restsOn[i] !in index;
        var f := LintFinding(RULE_UNKNOWN, b.path, b.restsOn[i], false);
        var j :| 0 <= j < |briefs| && briefs[j] == b;
        assert IsUnknown(f, briefs[j], index, map[], |briefs[j].restsOn|);
        assert f in unknown;
        assert f in out;
      }
    }
  }
}
