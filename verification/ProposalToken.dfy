// The proposal token a set lock demands (cmd/dossierx/lock_policy.go): the closure walk
// over a possibly cyclic rests_on graph, what the token hashes, and how a stale or
// misdirected token is told apart.
module ProposalToken {
  import opened GoStd
  import opened ClaimModel

  type Graph = Index

  // ContentHash in hex.
  type Hex = ContentHash -> string

  function Deps(g: Graph, id: string): seq<string> {
    if id in g then g[id].restsOn else []
  }

  // What byID[id] holds: a missing id reads as the empty claim.
  function ContentAt(g: Graph, id: string): ContentHash {
    if id in g then Content(g[id]) else ContentOf("", [], "")
  }

  function HashOf(g: Graph, hex: Hex, id: string): string { hex(ContentAt(g, id)) }

  // ---- reachability ----

  ghost predicate IsPath(g: Graph, p: seq<string>) {
    p != [] && forall i :: 0 <= i < |p| - 1 ==> p[i] in g && p[i + 1] in g[p[i]].restsOn
  }

  ghost predicate Reaches(g: Graph, from: string, to: string) {
    exists p :: IsPath(g, p) && p[0] == from && p[|p| - 1] == to
  }

  ghost predicate Reached(g: Graph, ids: seq<string>, x: string) {
    exists i :: 0 <= i < |ids| && Reaches(g, ids[i], x)
  }

  // Every id the walk could meet: requested ids and rests_on entries, known or not.
  function Universe(g: Graph, ids: seq<string>): set<string> {
    (set i | 0 <= i < |ids| :: ids[i]) + (set k, d | k in g && d in g[k].restsOn :: d)
  }

  ghost function Closure(g: Graph, ids: seq<string>): set<string> {
    set x | x in Universe(g, ids) && Reached(g, ids, x)
  }

  ghost predicate Closed(g: Graph, s: set<string>, open: set<string>) {
    forall x, d :: x in s - open && d in Deps(g, x) ==> d in s
  }

  lemma ReachesSelf(g: Graph, x: string)
    ensures Reaches(g, x, x)
  {
    assert IsPath(g, [x]);
  }

  lemma ReachesThrough(g: Graph, x: string, d: string, y: string)
    requires d in Deps(g, x) && Reaches(g, d, y)
    ensures Reaches(g, x, y)
  {
    var p :| IsPath(g, p) && p[0] == d && p[|p| - 1] == y;
    var q := [x] + p;
    assert forall i :: 0 < i < |q| - 1 ==> q[i + 1] == p[i] && q[i] == p[i - 1];
    assert IsPath(g, q);
  }

  // A set closed under rests_on that holds the start of a path holds all of it.
  lemma {:induction false} ClosedHoldsPath(g: Graph, s: set<string>, p: seq<string>)
    requires Closed(g, s, {}) && IsPath(g, p) && p[0] in s
    ensures p[|p| - 1] in s
    decreases |p|
  {
    if |p| <= 1 {
    } else {
      assert p[1] in Deps(g, p[0]);
      assert IsPath(g, p[1..]);
      ClosedHoldsPath(g, s, p[1..]);
    }
  }

  // ---- the walk ----

  class Walk {
    const byID: Graph
    ghost const universe: set<string>
    var seen: set<string>

    constructor (claims: seq<Claim>, ghost ids: seq<string>)
      ensures byID == Latest(claims) && seen == {} && universe == Universe(Latest(claims), ids)
    {
      byID, universe, seen := Latest(claims), Universe(Latest(claims), ids), {};
    }

    // The recursive closure: returns at once on an id already seen, so a cycle ends.
    method Visit(id: string)
      requires id in universe && seen <= universe
      requires forall x, d :: d in Deps(byID, x) ==> d in universe
      modifies this
      ensures old(seen) <= seen <= universe && id in seen
      ensures Closed(byID, seen, old(seen))
      ensures forall x :: x in seen - old(seen) ==> Reaches(byID, id, x)
      decreases universe - seen
    {
      if id in seen { return; }
      seen := seen + {id};
      if id !in byID {
        ReachesSelf(byID, id);
        return;
      }
      var deps := byID[id].restsOn;
      ReachesSelf(byID, id);
      for i := 0 to |deps|
        invariant old(seen) + {id} <= seen <= universe
        invariant Closed(byID, seen, old(seen) + {id})
        invariant forall j :: 0 <= j < i ==> deps[j] in seen
        invariant forall x :: x in seen - old(seen) ==> Reaches(byID, id, x)
      {
        ghost var before := seen;
        assert deps[i] in Deps(byID, id);
        Visit(deps[i]);
        forall x | x in seen - before ensures Reaches(byID, id, x) {
          ReachesThrough(byID, id, deps[i], x);
        }
      }
    }
  }

  // Both walks: visit every requested id from an empty `seen`.
  method WalkAll(claims: seq<Claim>, ids: seq<string>) returns (seen: set<string>)
    ensures seen == Closure(Latest(claims), ids)
  {
    var g := Latest(claims);
    var w := new Walk(claims, ids);
    forall x, d | d in Deps(g, x) ensures d in Universe(g, ids) {
      assert x in g && d in g[x].restsOn;
    }
    for i := 0 to |ids|
      invariant w.seen <= w.universe && Closed(g, w.seen, {})
      invariant forall j :: 0 <= j < i ==> ids[j] in w.seen
      invariant forall x :: x in w.seen ==> Reached(g, ids, x)
    {
      ghost var before := w.seen;
      w.Visit(ids[i]);
      forall x | x in w.seen ensures Reached(g, ids, x) {
        if x !in before { assert Reaches(g, ids[i], x); }
      }
    }
    seen := w.seen;
    forall x | Reached(g, ids, x) ensures x in seen {
      var i :| 0 <= i < |ids| && Reaches(g, ids[i], x);
      var p :| IsPath(g, p) && p[0] == ids[i] && p[|p| - 1] == x;
      ClosedHoldsPath(g, seen, p);
    }
  }

  // Every reached id, and no other, is in the closure.
  lemma ClosureIsReachable(g: Graph, ids: seq<string>, x: string)
    ensures x in Closure(g, ids) <==> Reached(g, ids, x)
  {
    if Reached(g, ids, x) {
      var i :| 0 <= i < |ids| && Reaches(g, ids[i], x);
      var p :| IsPath(g, p) && p[0] == ids[i] && p[|p| - 1] == x;
      if |p| > 1 {
        var y := p[|p| - 2];
        assert p[|p| - 2 + 1] in Deps(g, y);
        assert y in g && x in g[y].restsOn;
      }
    }
  }

  // ---- the hashed text and the token ----

  function Lines(g: Graph, hex: Hex, ids: seq<string>): string {
    if ids == [] then ""
    else (ids[0] + ("=" + HashOf(g, hex, ids[0])) + "\n") + Lines(g, hex, ids[1..])
  }

  function Requested(ids: seq<string>): string { Join(SortStrings(ids), ",") }

  ghost function Preimage(g: Graph, hex: Hex, ids: seq<string>): string {
    ("requested=" + Requested(ids)) + "\n" + Lines(g, hex, KeyOrder(Closure(g, ids)))
  }

  ghost function Token(sha: string -> string, g: Graph, hex: Hex, ids: seq<string>): string {
    "v2:" + (QueryEscape(Requested(ids)) + (":" + sha(Preimage(g, hex, ids))))
  }

  // policySnapshot. `sha` is SHA-256 in hex.
  method Snapshot(sha: string -> string, claims: seq<Claim>, hex: Hex, ids: seq<string>) returns (token: string)
    ensures token == Token(sha, Latest(claims), hex, ids)
  {
    hide Latest, Closure, KeyOrder, QueryEscape, Requested;
    var g := Latest(claims);
    var seen := WalkAll(claims, ids);
    var ordered := SortedKeys(seen);
    var h := "requested=" + Requested(ids) + "\n";
    ghost var start := h;
    for i := 0 to |ordered|
      invariant h + Lines(g, hex, ordered[i..]) == start + Lines(g, hex, ordered)
    {
      LinesStep(g, hex, ordered, i, h);
      h := h + (ordered[i] + ("=" + HashOf(g, hex, ordered[i])) + "\n");
    }
    assert h + "" == h;
    token := "v2:" + (QueryEscape(Requested(ids)) + (":" + sha(h)));
  }

  // The token itself, for one claim that rests on nothing.
  lemma TokenOfOne(sha: string -> string, c: Claim, hex: Hex)
    requires c.restsOn == []
    ensures Token(sha, map[c.id := c], hex, [c.id]) ==
      "v2:" + (QueryEscape(c.id) + (":" + sha(("requested=" + c.id) + "\n" + (c.id + ("=" + hex(Content(c))) + "\n"))))
  {
    var g, ids := map[c.id := c], [c.id];
    assert SortStrings(ids) == ids by { assert ids[1..] == []; }
    ClosureOfOne(g, c.id);
    OneKey(c.id);
    OneLine(g, hex, c.id);
    hide Lines, Closure, KeyOrder, SortStrings;
  }

  lemma OneLine(g: Graph, hex: Hex, id: string)
    ensures Lines(g, hex, [id]) == id + ("=" + HashOf(g, hex, id)) + "\n"
  {
    assert [id][1..] == [];
    var line := id + ("=" + HashOf(g, hex, id)) + "\n";
    assert line + "" == line;
  }

  lemma ClosureOfOne(g: Graph, id: string)
    requires Deps(g, id) == []
    ensures Closure(g, [id]) == {id}
  {
    forall x ensures x in Closure(g, [id]) <==> x == id {
      ReachesSelf(g, id);
      ClosureIsReachable(g, [id], x);
      if i :| 0 <= i < |[id]| && Reaches(g, [id][i], x) { ReachesOnlySelf(g, id, x); }
      assert Reaches(g, [id][0], id);
    }
  }

  lemma ReachesOnlySelf(g: Graph, id: string, x: string)
    requires Reaches(g, id, x) && Deps(g, id) == []
    ensures x == id
  {
    var p :| IsPath(g, p) && p[0] == id && p[|p| - 1] == x;
    if |p| > 1 {
      FirstStep(g, p);
      assert false;
    }
  }

  lemma FirstStep(g: Graph, p: seq<string>)
    requires IsPath(g, p) && |p| > 1
    ensures p[1] in Deps(g, p[0])
  {
    assert p[0 + 1] in Deps(g, p[0]);
  }

  lemma OneKey(id: string)
    ensures KeyOrder({id}) == [id]
  {
    var ids := KeyOrder({id});
    KeyOrderLists({id});
    assert multiset(ids) == multiset({id}) == multiset([id]);
    MultisetSize(ids, [id]);
    assert id in ids;
  }

  lemma LinesStep(g: Graph, hex: Hex, ids: seq<string>, i: nat, h: string)
    requires i < |ids|
    ensures h + Lines(g, hex, ids[i..])
         == (h + (ids[i] + ("=" + HashOf(g, hex, ids[i])) + "\n")) + Lines(g, hex, ids[i + 1..])
  {
    assert ids[i..][1..] == ids[i + 1..];
  }

  // reviewedPolicyClaims: what the human is shown, id by id with its hash.
  method Reviewed(claims: seq<Claim>, hex: Hex, ids: seq<string>) returns (shown: seq<(string, string)>)
    ensures var ordered := KeyOrder(Closure(Latest(claims), ids));
            |shown| == |ordered|
            && forall k :: 0 <= k < |shown| ==> shown[k] == (ordered[k], HashOf(Latest(claims), hex, ordered[k]))
  {
    hide Latest, Closure, KeyOrder, HashOf;
    var seen := WalkAll(claims, ids);
    var ordered := SortedKeys(seen);
    shown := [];
    for i := 0 to |ordered|
      invariant |shown| == i
      invariant forall k :: 0 <= k < i ==> shown[k] == (ordered[k], HashOf(Latest(claims), hex, ordered[k]))
    {
      shown := shown + [(ordered[i], HashOf(Latest(claims), hex, ordered[i]))];
    }
  }

  // ---- url.QueryEscape and its inverse ----

  predicate Unreserved(c: char) {
    'a' <= c <= 'z' || 'A' <= c <= 'Z' || '0' <= c <= '9' || c in "-_.~"
  }

  function HexDigit(d: nat): char
    requires d < 16
  {
    "0123456789ABCDEF"[d]
  }

  // One byte as QueryEscape writes it.
  function EscapeByte(c: char): string {
    if Unreserved(c) then [c]
    else if c == ' ' then "+"
    else ['%', HexDigit(c as int / 16 % 16), HexDigit(c as int % 16)]
  }

  // The bytes that stand for themselves, the blank, and the rest as two upper-case digits.
  lemma EscapesExactly(c: char)
    ensures EscapeByte(c) == [c] <==>
      || 'a' <= c <= 'z' || 'A' <= c <= 'Z' || '0' <= c <= '9' || c == '-' || c == '_' || c == '.' || c == '~'
    ensures EscapeByte(' ') == "+"
    ensures EscapeByte(c) == [c] || c == ' ' || (|EscapeByte(c)| == 3 && EscapeByte(c)[0] == '%')
  {
  }

  function QueryEscape(s: string): string {
    if s == "" then "" else EscapeByte(s[0]) + QueryEscape(s[1..])
  }

  function QueryUnescape(s: string): Option<string> {
    if s == "" then Some("")
    else if s[0] == '%' then
      if |s| < 3 then None
      else match (HexValue(s[1]), HexValue(s[2]), QueryUnescape(s[3..]))
        case (Some(hi), Some(lo), Some(rest)) => Some([(16 * hi + lo) as char] + rest)
        case _ => None
    else
      match QueryUnescape(s[1..])
      case Some(rest) => Some([if s[0] == '+' then ' ' else s[0]] + rest)
      case None => None
  }

  predicate IsBytes(s: string) { forall i :: 0 <= i < |s| ==> s[i] as int < 256 }

  lemma HexRoundTrip(d: nat)
    requires d < 16
    ensures HexValue(HexDigit(d)) == Some(d) && HexDigit(d) != ':'
  {}

  lemma UnescapeByte(c: char, rest: string)
    requires c as int < 256
    ensures QueryUnescape(EscapeByte(c) + rest) ==
      match QueryUnescape(rest) case Some(t) => Some([c] + t) case None => None
    ensures ':' !in EscapeByte(c)
  {
    var hi, lo := c as int / 16 % 16, c as int % 16;
    HexRoundTrip(hi);
    HexRoundTrip(lo);
    assert 16 * hi + lo == c as int;
    hide HexDigit, HexValue, Unreserved;
    var t := EscapeByte(c) + rest;
    if Unreserved(c) || c == ' ' {
      assert t[0] == EscapeByte(c)[0] && t[1..] == rest;
    } else {
      assert t[0] == '%' && t[1] == HexDigit(hi) && t[2] == HexDigit(lo) && t[3..] == rest;
    }
  }

  lemma {:induction false} UnescapeEscape(s: string)
    requires IsBytes(s)
    ensures QueryUnescape(QueryEscape(s)) == Some(s)
    ensures forall i :: 0 <= i < |QueryEscape(s)| ==> QueryEscape(s)[i] != ':'
  {
    if s == "" {
    } else {
      UnescapeEscape(s[1..]);
      UnescapeByte(s[0], QueryEscape(s[1..]));
      assert s == [s[0]] + s[1..];
    }
  }

  // ---- telling a wrong token apart ----

  datatype Mismatch = Invalid | WrongRequest | Stale

  // proposalMismatch, on strings.SplitN(proposal, ":", 3).
  function ProposalMismatch(proposal: string, requested: seq<string>): Mismatch {
    match IndexFrom(proposal, ":", 0)
    case None => Invalid
    case Some(i) =>
      match IndexFrom(proposal, ":", i + 1)
      case None => Invalid
      case Some(j) =>
        if proposal[..i] != "v2" || proposal[j + 1..] == "" then Invalid
        else
          match QueryUnescape(proposal[i + 1..j])
          case None => Invalid
          case Some(ids) => if ids != Requested(requested) then WrongRequest else Stale
  }

  lemma SplitToken(escaped: string, digest: string)
    requires forall i :: 0 <= i < |escaped| ==> escaped[i] != ':'
    ensures var token := "v2:" + (escaped + (":" + digest));
            IndexFrom(token, ":", 0) == Some(2) && IndexFrom(token, ":", 3) == Some(3 + |escaped|)
            && token[..2] == "v2" && token[3..3 + |escaped|] == escaped && token[3 + |escaped| + 1..] == digest
  {
    var token := "v2:" + (escaped + (":" + digest));
    assert token[2] == ':' && token[3 + |escaped|] == ':';
    assert OccursAt(token, ":", 2) && OccursAt(token, ":", 3 + |escaped|);
    forall i: nat | i < 2 || 3 <= i < 3 + |escaped| ensures !OccursAt(token, ":", i) {
      assert i >= 3 ==> token[i] == escaped[i - 3];
      assert token[i..i + 1] == [token[i]];
    }
  }

  // A percent sign at i opens two hexadecimal digits.
  predicate Opens(s: string, i: nat) {
    i < |s| && s[i] == '%' ==> i + 2 < |s| && HexValue(s[i + 1]).Some? && HexValue(s[i + 2]).Some?
  }

  // Where text can be unescaped: every percent sign opens two hexadecimal digits.
  lemma {:induction false} UnescapesIff(s: string)
    ensures QueryUnescape(s).Some? <==> forall i: nat :: i < |s| ==> Opens(s, i)
  {
    if s == "" {
    } else if s[0] != '%' {
      UnescapesIff(s[1..]);
      OpensShift(s, 1);
      assert Opens(s, 0);
    } else if |s| >= 3 && HexValue(s[1]).Some? && HexValue(s[2]).Some? {
      UnescapesIff(s[3..]);
      OpensShift(s, 3);
      assert Opens(s, 0) && s[1] != '%' && s[2] != '%';
    } else {
      assert !Opens(s, 0);
    }
  }

  // Past the first k characters as in the rest.
  lemma OpensShift(s: string, k: nat)
    requires k <= |s|
    ensures (forall i: nat :: k <= i < |s| ==> Opens(s, i)) <==> forall i: nat :: i < |s[k..]| ==> Opens(s[k..], i)
  {
    forall i: nat | k <= i < |s| ensures Opens(s, i) <==> Opens(s[k..], i - k) {}
    if forall i: nat :: k <= i < |s| ==> Opens(s, i) {
      forall i: nat | i < |s[k..]| ensures Opens(s[k..], i) { assert Opens(s, k + i); }
    }
  }

  // A proposal in the engine's form: the version, a request, and something after it.
  ghost predicate Carries(proposal: string, request: string, digest: string) {
    ':' !in request && digest != "" && proposal == "v2:" + (request + (":" + digest))
  }

  // Any proposal at all: invalid exactly when it is not in that form or its request does
  // not unescape; and otherwise told apart by the request alone.
  lemma MismatchOfAny(proposal: string, requested: seq<string>)
    ensures ProposalMismatch(proposal, requested) != Invalid <==>
      exists request, digest :: Carries(proposal, request, digest) && QueryUnescape(request).Some?
    ensures forall request, digest :: Carries(proposal, request, digest) && QueryUnescape(request).Some? ==>
      (ProposalMismatch(proposal, requested) == WrongRequest <==> QueryUnescape(request).value != Requested(requested))
  {
    forall request, digest | Carries(proposal, request, digest)
      ensures ProposalMismatch(proposal, requested) ==
        match QueryUnescape(request)
        case None => Invalid
        case Some(ids) => if ids != Requested(requested) then WrongRequest else Stale
    {
      SplitToken(request, digest);
    }
    if ProposalMismatch(proposal, requested) != Invalid { ValidIsCarried(proposal, requested); }
  }

  lemma ValidIsCarried(proposal: string, requested: seq<string>)
    requires ProposalMismatch(proposal, requested) != Invalid
    ensures exists request, digest :: Carries(proposal, request, digest) && QueryUnescape(request).Some?
  {
    hide QueryUnescape, Requested;
    var i := IndexFrom(proposal, ":", 0).value;
    var j := IndexFrom(proposal, ":", i + 1).value;
    var request, digest := proposal[i + 1..j], proposal[j + 1..];
    assert proposal[..i] == "v2" && digest != "" && QueryUnescape(request).Some?;
    hide IndexFrom, ProposalMismatch;
    NoColonBetween(proposal, i + 1, j);
    Pieces(proposal, i, j);
    assert Carries(proposal, request, digest);
  }

  lemma NoColonBetween(s: string, from: nat, to: nat)
    requires from <= to <= |s| && forall k: nat :: from <= k < to ==> !OccursAt(s, ":", k)
    ensures ':' !in s[from..to]
  {
    forall k: nat | from <= k < to ensures s[k] != ':' {
      assert !OccursAt(s, ":", k);
      assert s[k..k + 1] == [s[k]];
    }
  }

  lemma Pieces(s: string, i: nat, j: nat)
    requires i < j < |s| && s[..i] == "v2" && s[i..i + 1] == ":" && s[j..j + 1] == ":"
    ensures s == "v2:" + (s[i + 1..j] + (":" + s[j + 1..]))
  {
    assert s == s[..i] + (s[i..i + 1] + (s[i + 1..j] + (s[j..j + 1] + s[j + 1..])));
    assert "v2" + (":" + (s[i + 1..j] + (":" + s[j + 1..]))) == "v2:" + (s[i + 1..j] + (":" + s[j + 1..]));
  }

  // A token the engine built, put to any request: never "invalid", and "wrong request"
  // exactly when the two requests read differently as a sorted comma list.
  lemma MismatchExact(sha: string -> string, g: Graph, hex: Hex, built: seq<string>, asked: seq<string>)
    requires IsBytes(Requested(built)) && forall x :: sha(x) != ""
    ensures ProposalMismatch(Token(sha, g, hex, built), asked)
         == if Requested(built) != Requested(asked) then WrongRequest else Stale
  {
    UnescapeEscape(Requested(built));
    SplitToken(QueryEscape(Requested(built)), sha(Preimage(g, hex, built)));
  }

  // ---- commas ----

  predicate Plain(ids: seq<string>) {
    forall i :: 0 <= i < |ids| ==> ids[i] != "" && ',' !in ids[i]
  }

  // Two strings agree up to their first separator.
  lemma {:induction false} SplitAtFirst(a: string, b: string, x: string, y: string, sep: char)
    requires sep !in a && sep !in b && a + [sep] + x == b + [sep] + y
    ensures a == b && x == y
  {
    var s, t := a + [sep] + x, b + [sep] + y;
    assert s[|a|] == sep && t[|b|] == sep;
    assert forall i :: 0 <= i < |a| ==> s[i] == a[i] != sep;
    assert forall i :: 0 <= i < |b| ==> t[i] == b[i] != sep;
    assert |a| == |b|;
    assert a == s[..|a|] && b == t[..|b|];
    assert x == s[|a| + 1..] && y == t[|b| + 1..];
  }

  lemma {:induction false} JoinInjective(a: seq<string>, b: seq<string>)
    requires Plain(a) && Plain(b) && Join(a, ",") == Join(b, ",")
    ensures a == b
  {
    JoinHoldsComma(a);
    JoinHoldsComma(b);
    if |a| <= 1 {
    } else {
      assert Join(a, ",") == a[0] + [','] + Join(a[1..], ",");
      assert Join(b, ",") == b[0] + [','] + Join(b[1..], ",");
      SplitAtFirst(a[0], b[0], Join(a[1..], ","), Join(b[1..], ","), ',');
      JoinInjective(a[1..], b[1..]);
      assert a == [a[0]] + a[1..] && b == [b[0]] + b[1..];
    }
  }

  lemma JoinHoldsComma(a: seq<string>)
    requires Plain(a)
    ensures ',' in Join(a, ",") <==> |a| > 1
    ensures Join(a, ",") == "" <==> a == []
  {
    if |a| > 1 { assert Join(a, ",")[|a[0]|] == ','; }
  }

  lemma PlainSorted(ids: seq<string>)
    requires Plain(ids)
    ensures Plain(SortStrings(ids))
  {
    var r := SortStrings(ids);
    forall i | 0 <= i < |r| ensures r[i] != "" && ',' !in r[i] {
      assert r[i] in multiset(ids);
    }
  }

  // For ids the claim grammar allows, "wrong request" means a different set of ids.
  lemma MismatchNamesTheRequest(sha: string -> string, g: Graph, hex: Hex, built: seq<string>, asked: seq<string>)
    requires IsBytes(Requested(built)) && forall x :: sha(x) != ""
    requires Plain(built) && Plain(asked)
    ensures ProposalMismatch(Token(sha, g, hex, built), asked) == WrongRequest <==> multiset(built) != multiset(asked)
  {
    MismatchExact(sha, g, hex, built, asked);
    SortStringsCanonical(built, asked);
    PlainSorted(built);
    PlainSorted(asked);
    if Requested(built) == Requested(asked) { JoinInjective(SortStrings(built), SortStrings(asked)); }
  }

  // ---- the request as the policy evaluator normalises it (internal/lock/policy.go) ----

  ghost predicate Distinct(s: seq<string>) {
    forall i, j :: 0 <= i < j < |s| ==> s[i] != s[j]
  }

  function Elements(s: seq<string>): set<string> { set i | 0 <= i < |s| :: s[i] }

  lemma ElementsAppend(s: seq<string>, x: string)
    ensures Elements(s + [x]) == Elements(s) + {x}
  {
    forall y | y in Elements(s) + {x} ensures y in Elements(s + [x]) {
      if y == x { assert (s + [x])[|s|] == x; }
      else { var i :| 0 <= i < |s| && s[i] == y; assert (s + [x])[i] == y; }
    }
  }

  // uniqueIDs: empty ids and repeats dropped, the rest sorted.
  method UniqueIds(values: seq<string>) returns (ids: seq<string>)
    ensures SortedStrings(ids) && Distinct(ids) && Elements(ids) == Elements(values) - {""}
  {
    var seen, out := {}, [];
    for i := 0 to |values|
      invariant Distinct(out) && Elements(out) == seen == Elements(values[..i]) - {""}
    {
      assert values[..i + 1] == values[..i] + [values[i]];
      ElementsAppend(values[..i], values[i]);
      if values[i] == "" || values[i] in seen { continue; }
      assert forall k :: 0 <= k < |out| ==> out[k] in seen;
      seen := seen + {values[i]};
      ElementsAppend(out, values[i]);
      out := out + [values[i]];
    }
    assert values[..|values|] == values;
    ids := SortStrings(out);
    SortStringsSorted(out);
    SameMultisetFacts(out, ids);
  }

  lemma SameMultisetFacts(a: seq<string>, b: seq<string>)
    requires multiset(a) == multiset(b)
    ensures Elements(a) == Elements(b)
    ensures Distinct(a) ==> Distinct(b)
  {
    forall x ensures x in Elements(a) <==> x in Elements(b) {
      assert x in multiset(a) <==> x in multiset(b);
    }
    if Distinct(a) {
      forall i, j | 0 <= i < j < |b| ensures b[i] != b[j] {
        DistinctCounts(a, b[j]);
        assert b == b[..j] + [b[j]] + b[j + 1..];
        assert multiset(b)[b[j]] >= multiset(b[..j])[b[j]] + 1;
        assert b[..j][i] == b[i] && b[i] in multiset(b[..j]);
      }
    }
  }

  lemma {:induction false} DistinctCounts(a: seq<string>, x: string)
    requires Distinct(a)
    ensures multiset(a)[x] == if x in a then 1 else 0
  {
    if a == [] {
    } else {
      DistinctCounts(a[1..], x);
      assert a == [a[0]] + a[1..];
    }
  }

  lemma NormalFormIsUnique(a: seq<string>, b: seq<string>)
    requires SortedStrings(a) && SortedStrings(b) && Distinct(a) && Distinct(b) && Elements(a) == Elements(b)
    ensures a == b
  {
    forall x ensures multiset(a)[x] == multiset(b)[x] {
      DistinctCounts(a, x);
      DistinctCounts(b, x);
      assert x in a <==> x in Elements(a);
      assert x in b <==> x in Elements(b);
    }
    SortedIsUnique(a, b);
  }

  // Put to two normalised requests, "wrong request" means a different set of claims was
  // asked for: listing an id twice, or in another place, is the same request.
  lemma MismatchMeansAnotherSet(sha: string -> string, g: Graph, hex: Hex, built: seq<string>, asked: seq<string>)
    requires IsBytes(Requested(built)) && forall x :: sha(x) != ""
    requires Plain(built) && SortedStrings(built) && Distinct(built)
    requires Plain(asked) && SortedStrings(asked) && Distinct(asked)
    ensures ProposalMismatch(Token(sha, g, hex, built), asked) == WrongRequest <==> Elements(built) != Elements(asked)
  {
    MismatchNamesTheRequest(sha, g, hex, built, asked);
    if Elements(built) == Elements(asked) {
      NormalFormIsUnique(built, asked);
    } else if multiset(built) == multiset(asked) {
      SameMultisetFacts(built, asked);
    }
  }

  // A comma inside an id is what the condition rules out: this pair of requests differs
  // and is told "stale".
  lemma CommaHidesTheRequest()
    ensures multiset(["a,b"]) != multiset(["a", "b"]) && Requested(["a,b"]) == Requested(["a", "b"])
  {
    var ab := ["a", "b"];
    assert ab[1..] == ["b"];
    assert ["b"][1..] == [];
    assert SortBy(["b"], StrLe) == ["b"];
    assert SortStrings(ab) == InsertBy("a", ["b"], StrLe) == ab;
    assert Join(["b"], ",") == "b";
    assert Join(ab, ",") == "a" + "," + "b" == "a,b";
    assert ["a,b"][1..] == [];
    assert SortBy(["a,b"], StrLe) == ["a,b"];
    assert "a,b" in multiset(["a,b"]) && "a,b" !in multiset(ab);
  }

  // ---- what a token binds ----

  // Hex digests hold neither the separator of a line nor its end.
  ghost predicate HexHashes(hex: Hex) {
    forall c :: '=' !in hex(c) && '\n' !in hex(c)
  }

  ghost predicate OneLineIds(g: Graph, ids: seq<string>) {
    forall x :: x in Universe(g, ids) ==> '\n' !in x
  }

  // The reading of a request the human gave a yes to: the request, and for each id in
  // its closure the hash shown.
  ghost predicate SameReading(g: Graph, hex: Hex, ids: seq<string>, g': Graph, ids': seq<string>) {
    && Requested(ids) == Requested(ids')
    && Closure(g, ids) == Closure(g', ids')
    && forall x :: x in Closure(g, ids) ==> HashOf(g, hex, x) == HashOf(g', hex, x)
  }

  lemma LastEquals(a: string, b: string, h: string, k: string)
    requires '=' !in h && '=' !in k && a + ("=" + h) == b + ("=" + k)
    ensures a == b && h == k
  {
    var s, t := a + ("=" + h), b + ("=" + k);
    assert s[|a|] == '=' && t[|b|] == '=';
    assert forall i :: |a| < i < |s| ==> s[i] == h[i - |a| - 1] != '=';
    assert forall i :: |b| < i < |t| ==> t[i] == k[i - |b| - 1] != '=';
    assert |a| == |b|;
    assert a == s[..|a|] && b == t[..|b|] && h == s[|a| + 1..] && k == t[|b| + 1..];
  }

  lemma {:induction false} LinesInjective(g: Graph, g': Graph, hex: Hex, a: seq<string>, b: seq<string>)
    requires HexHashes(hex)
    requires forall i :: 0 <= i < |a| ==> '\n' !in a[i]
    requires forall i :: 0 <= i < |b| ==> '\n' !in b[i]
    requires Lines(g, hex, a) == Lines(g', hex, b)
    ensures a == b && forall x :: x in a ==> HashOf(g, hex, x) == HashOf(g', hex, x)
  {
    if a == [] || b == [] {
    } else {
      var h, k := HashOf(g, hex, a[0]), HashOf(g', hex, b[0]);
      SplitAtFirst(a[0] + ("=" + h), b[0] + ("=" + k), Lines(g, hex, a[1..]), Lines(g', hex, b[1..]), '\n');
      LastEquals(a[0], b[0], h, k);
      LinesInjective(g, g', hex, a[1..], b[1..]);
      assert a == [a[0]] + a[1..] && b == [b[0]] + b[1..];
    }
  }

  lemma {:induction false} LinesAgree(g: Graph, g': Graph, hex: Hex, a: seq<string>)
    requires forall x :: x in a ==> HashOf(g, hex, x) == HashOf(g', hex, x)
    ensures Lines(g, hex, a) == Lines(g', hex, a)
  {
    if a == [] {
    } else {
      assert a[0] in a && forall x :: x in a[1..] ==> x in a;
      LinesAgree(g, g', hex, a[1..]);
    }
  }

  lemma {:induction false} NewlineInJoin(ids: seq<string>)
    requires forall i :: 0 <= i < |ids| ==> '\n' !in ids[i]
    ensures '\n' !in Join(ids, ",")
  {
    if |ids| <= 1 {
    } else {
      NewlineInJoin(ids[1..]);
    }
  }

  lemma RequestedHasNoNewline(g: Graph, ids: seq<string>)
    requires OneLineIds(g, ids)
    ensures '\n' !in "requested=" + Requested(ids)
  {
    var r := SortStrings(ids);
    forall i | 0 <= i < |r| ensures '\n' !in r[i] {
      assert r[i] in multiset(ids);
      var k :| 0 <= k < |ids| && ids[k] == r[i];
      assert r[i] in Universe(g, ids);
    }
    NewlineInJoin(r);
  }

  lemma PreimageBinds(g: Graph, ids: seq<string>, g': Graph, ids': seq<string>, hex: Hex)
    requires HexHashes(hex) && OneLineIds(g, ids) && OneLineIds(g', ids')
    ensures Preimage(g, hex, ids) == Preimage(g', hex, ids') <==> SameReading(g, hex, ids, g', ids')
  {
    if Preimage(g, hex, ids) == Preimage(g', hex, ids') { PreimageTellsReading(g, ids, g', ids', hex); }
    if SameReading(g, hex, ids, g', ids') {
      KeyOrderLists(Closure(g, ids));
      LinesAgree(g, g', hex, KeyOrder(Closure(g, ids)));
    }
  }

  lemma PreimageTellsReading(g: Graph, ids: seq<string>, g': Graph, ids': seq<string>, hex: Hex)
    requires HexHashes(hex) && OneLineIds(g, ids) && OneLineIds(g', ids')
    requires Preimage(g, hex, ids) == Preimage(g', hex, ids')
    ensures SameReading(g, hex, ids, g', ids')
  {
    hide Lines, Requested, KeyOrder, Latest, OneLineIds;
    var o, o' := KeyOrder(Closure(g, ids)), KeyOrder(Closure(g', ids'));
    KeyOrderLists(Closure(g, ids));
    KeyOrderLists(Closure(g', ids'));
    OneLineList(g, ids, o);
    OneLineList(g', ids', o');
    RequestedHasNoNewline(g, ids);
    RequestedHasNoNewline(g', ids');
    TextTellsReading(g, Requested(ids), o, g', Requested(ids'), o', hex);
  }

  lemma TextTellsReading(g: Graph, r: string, o: seq<string>, g': Graph, r': string, o': seq<string>, hex: Hex)
    requires HexHashes(hex)
    requires forall i :: 0 <= i < |o| ==> '\n' !in o[i]
    requires forall i :: 0 <= i < |o'| ==> '\n' !in o'[i]
    requires '\n' !in "requested=" + r && '\n' !in "requested=" + r'
    requires ("requested=" + r) + "\n" + Lines(g, hex, o) == ("requested=" + r') + "\n" + Lines(g', hex, o')
    ensures r == r' && o == o' && forall x :: x in o ==> HashOf(g, hex, x) == HashOf(g', hex, x)
  {
    var t, t' := "requested=" + r, "requested=" + r';
    SplitAtFirst(t, t', Lines(g, hex, o), Lines(g', hex, o'), '\n');
    assert r == t[10..] && r' == t'[10..];
    LinesInjective(g, g', hex, o, o');
  }

  lemma OneLineList(g: Graph, ids: seq<string>, o: seq<string>)
    requires OneLineIds(g, ids)
    requires forall x :: x in o ==> x in Closure(g, ids)
    ensures forall i :: 0 <= i < |o| ==> '\n' !in o[i]
  {
    forall i | 0 <= i < |o| ensures '\n' !in o[i] {
      assert o[i] in Closure(g, ids);
      assert o[i] in Universe(g, ids);
    }
  }

  // A token presented later is accepted exactly when the request and every hash in its
  // closure are the ones the human was shown.
  lemma TokenBinds(sha: string -> string, g: Graph, ids: seq<string>, g': Graph, ids': seq<string>, hex: Hex)
    requires forall x, y :: sha(x) == sha(y) ==> x == y
    requires HexHashes(hex) && OneLineIds(g, ids) && OneLineIds(g', ids')
    requires IsBytes(Requested(ids)) && IsBytes(Requested(ids'))
    ensures Token(sha, g, hex, ids) == Token(sha, g', hex, ids') <==> SameReading(g, hex, ids, g', ids')
  {
    PreimageBinds(g, ids, g', ids', hex);
    if Token(sha, g, hex, ids) == Token(sha, g', hex, ids') {
      UnescapeEscape(Requested(ids));
      UnescapeEscape(Requested(ids'));
      SplitToken(QueryEscape(Requested(ids)), sha(Preimage(g, hex, ids)));
      SplitToken(QueryEscape(Requested(ids')), sha(Preimage(g', hex, ids')));
    }
  }

  // ---- reordering ----

  lemma {:induction false} LatestLookup(claims: seq<Claim>, k: nat)
    requires k < |claims|
    requires forall i, j :: 0 <= i < j < |claims| ==> claims[i].id != claims[j].id
    ensures claims[k].id in Latest(claims) && Latest(claims)[claims[k].id] == claims[k]
  {
    if k == |claims| - 1 {
    } else {
      LatestLookup(claims[..|claims| - 1], k);
    }
  }

  lemma {:induction false} LatestIsOne(claims: seq<Claim>, id: string)
    requires id in Latest(claims)
    ensures Latest(claims)[id] in claims && Latest(claims)[id].id == id
  {
    var last := claims[|claims| - 1];
    if last.id == id {
    } else {
      LatestIsOne(claims[..|claims| - 1], id);
    }
  }

  // The same claims in another order, and the same ids in another order, give the same
  // token: nothing about the token depends on how the project or the request was listed.
  lemma TokenIgnoresOrder(sha: string -> string, claims: seq<Claim>, claims': seq<Claim>,
                          ids: seq<string>, ids': seq<string>, hex: Hex)
    requires multiset(claims) == multiset(claims') && multiset(ids) == multiset(ids')
    requires forall i, j :: 0 <= i < j < |claims| ==> claims[i].id != claims[j].id
    requires forall i, j :: 0 <= i < j < |claims'| ==> claims'[i].id != claims'[j].id
    ensures Token(sha, Latest(claims), hex, ids) == Token(sha, Latest(claims'), hex, ids')
  {
    LatestReordered(claims, claims');
    LatestReordered(claims', claims);
    assert Latest(claims) == Latest(claims');
    SortStringsCanonical(ids, ids');
    ReachedReordered(Latest(claims), ids, ids');
    ReachedReordered(Latest(claims), ids', ids);
    assert Closure(Latest(claims), ids) == Closure(Latest(claims), ids');
  }

  lemma LatestReordered(claims: seq<Claim>, claims': seq<Claim>)
    requires multiset(claims) == multiset(claims')
    requires forall i, j :: 0 <= i < j < |claims'| ==> claims'[i].id != claims'[j].id
    ensures forall id :: id in Latest(claims) ==> id in Latest(claims') && Latest(claims')[id] == Latest(claims)[id]
  {
    forall id | id in Latest(claims) ensures id in Latest(claims') && Latest(claims')[id] == Latest(claims)[id] {
      LatestIsOne(claims, id);
      assert Latest(claims)[id] in multiset(claims');
      var k :| 0 <= k < |claims'| && claims'[k] == Latest(claims)[id];
      LatestLookup(claims', k);
    }
  }

  lemma ReachedReordered(g: Graph, ids: seq<string>, ids': seq<string>)
    requires multiset(ids) == multiset(ids')
    ensures Closure(g, ids) <= Closure(g, ids')
  {
    forall x | x in Closure(g, ids) ensures x in Closure(g, ids') {
      var i :| 0 <= i < |ids| && Reaches(g, ids[i], x);
      assert ids[i] in multiset(ids');
      var k :| 0 <= k < |ids'| && ids'[k] == ids[i];
      ClosureIsReachable(g, ids', x);
    }
  }
}
