// The parts of Go's standard library the engine's algorithms lean on, as functions on
// values. A Go string is its bytes: a `string` here holds one byte per char, except in
// module Marks, whose source iterates runes.
module GoStd {

  datatype Option<+T> = None | Some(value: T)

  // SHA-256 as the injective function every use of it relies on: a digest is known only
  // by what was hashed.
  datatype Digest = Sha256(of: string)

  // ---- strings.Compare order ----

  // The bytewise order Go's `<=` and sort.Strings use on strings.
  predicate StrLe(a: string, b: string) {
    a == "" || (b != "" && (a[0] < b[0] || (a[0] == b[0] && StrLe(a[1..], b[1..]))))
  }

  // Go's strict `<`.
  predicate StrLt(a: string, b: string) {
    StrLe(a, b) && a != b
  }

  lemma {:induction false} StrLeTotal(a: string, b: string)
    ensures StrLe(a, b) || StrLe(b, a)
    ensures StrLe(a, a)
  {
    if a == "" {
    } else {
      StrLeTotal(a[1..], a[1..]);
      if b != "" { StrLeTotal(a[1..], b[1..]); }
    }
  }

  lemma {:induction false} StrLeAntisymmetric(a: string, b: string)
    requires StrLe(a, b) && StrLe(b, a)
    ensures a == b
  {
    if a == "" {
    } else {
      StrLeAntisymmetric(a[1..], b[1..]);
      assert a == [a[0]] + a[1..] && b == [b[0]] + b[1..];
    }
  }

  lemma {:induction false} StrLeTransitive(a: string, b: string, c: string)
    requires StrLe(a, b) && StrLe(b, c)
    ensures StrLe(a, c)
  {
    if a != "" && a[0] == b[0] && b[0] == c[0] { StrLeTransitive(a[1..], b[1..], c[1..]); }
  }

  // ---- sort.Slice by a total order ----

  ghost predicate IsOrder<T(!new)>(le: (T, T) -> bool) {
    && (forall a, b :: le(a, b) || le(b, a))
    && (forall a, b, c :: le(a, b) && le(b, c) ==> le(a, c))
  }

  ghost predicate SortedBy<T(!new)>(s: seq<T>, le: (T, T) -> bool) {
    forall i, j :: 0 <= i < j < |s| ==> le(s[i], s[j])
  }

  function InsertBy<T>(x: T, s: seq<T>, le: (T, T) -> bool): (r: seq<T>)
    ensures multiset(r) == multiset{x} + multiset(s)
  {
    if s == [] || le(x, s[0]) then
      [x] + s
    else
      assert s == [s[0]] + s[1..];
      [s[0]] + InsertBy(x, s[1..], le)
  }

  // A rearrangement of s; sorted for every order (see SortBySorted).
  function SortBy<T>(s: seq<T>, le: (T, T) -> bool): (r: seq<T>)
    ensures multiset(r) == multiset(s)
    ensures |r| == |s|
  {
    if s == [] then []
    else
      assert s == [s[0]] + s[1..];
      var r := InsertBy(s[0], SortBy(s[1..], le), le);
      MultisetSize(r, s);
      r
  }

  lemma MultisetSize<T>(a: seq<T>, b: seq<T>)
    requires multiset(a) == multiset(b)
    ensures |a| == |b|
  {
    assert |a| == |multiset(a)| == |multiset(b)| == |b|;
  }

  lemma {:induction false} InsertBySorted<T(!new)>(x: T, s: seq<T>, le: (T, T) -> bool)
    requires IsOrder(le) && SortedBy(s, le)
    ensures SortedBy(InsertBy(x, s, le), le)
  {
    if s != [] && !le(x, s[0]) {
      InsertBySorted(x, s[1..], le);
      var r := InsertBy(x, s[1..], le);
      forall j | 0 <= j < |r| ensures le(s[0], r[j]) {
        assert r[j] in multiset(r);
        assert r[j] == x || r[j] in multiset(s[1..]);
      }
    }
  }

  lemma {:induction false} SortBySorted<T(!new)>(s: seq<T>, le: (T, T) -> bool)
    requires IsOrder(le)
    ensures SortedBy(SortBy(s, le), le)
  {
    if s == [] {
    } else {
      SortBySorted(s[1..], le);
      InsertBySorted(s[0], SortBy(s[1..], le), le);
    }
  }

  // ---- sort.Strings ----

  ghost predicate SortedStrings(s: seq<string>) { SortedBy(s, StrLe) }

  // The one sorted rearrangement (see SortStringsSorted, SortedIsUnique).
  function SortStrings(s: seq<string>): (r: seq<string>)
    ensures multiset(r) == multiset(s) && |r| == |s|
  {
    SortBy(s, StrLe)
  }

  lemma StrLeIsOrder()
    ensures IsOrder(StrLe)
  {
    forall a: string, b: string ensures StrLe(a, b) || StrLe(b, a) { StrLeTotal(a, b); }
    forall a: string, b: string, c: string | StrLe(a, b) && StrLe(b, c) ensures StrLe(a, c) {
      StrLeTransitive(a, b, c);
    }
  }

  lemma SortStringsSorted(s: seq<string>)
    ensures SortedStrings(SortStrings(s))
  {
    StrLeIsOrder();
    SortBySorted(s, StrLe);
  }

  // The head of a sorted list is below every element of any rearrangement of it.
  lemma SortedHeadIsLeast(a: seq<string>, b: seq<string>, k: nat)
    requires SortedStrings(a) && multiset(a) == multiset(b) && k < |b|
    ensures a != [] && StrLe(a[0], b[k])
  {
    assert b[k] in multiset(a);
    var i :| 0 <= i < |a| && a[i] == b[k];
    StrLeTotal(a[0], a[0]);
  }

  lemma {:induction false} SortedIsUnique(a: seq<string>, b: seq<string>)
    requires SortedStrings(a) && SortedStrings(b) && multiset(a) == multiset(b)
    ensures a == b
  {
    MultisetSize(a, b);
    if a == [] {
    } else {
      SortedHeadIsLeast(a, b, 0);
      SortedHeadIsLeast(b, a, 0);
      StrLeAntisymmetric(a[0], b[0]);
      TailMultiset(a, b);
      SortedIsUnique(a[1..], b[1..]);
    }
  }

  lemma TailMultiset<T>(a: seq<T>, b: seq<T>)
    requires a != [] && b != [] && a[0] == b[0] && multiset(a) == multiset(b)
    ensures multiset(a[1..]) == multiset(b[1..])
    ensures a == [a[0]] + a[1..] && b == [b[0]] + b[1..]
  {
    assert a == [a[0]] + a[1..] && b == [b[0]] + b[1..];
    assert multiset(a[1..]) == multiset(a) - multiset{a[0]};
    assert multiset(b[1..]) == multiset(b) - multiset{b[0]};
  }

  // Sorting forgets exactly the order: two lists sort alike iff one rearranges the other.
  lemma SortStringsCanonical(a: seq<string>, b: seq<string>)
    ensures SortStrings(a) == SortStrings(b) <==> multiset(a) == multiset(b)
  {
    SortStringsSorted(a);
    SortStringsSorted(b);
    if multiset(a) == multiset(b) { SortedIsUnique(SortStrings(a), SortStrings(b)); }
  }

  // ---- a map's keys, sorted ----

  ghost function Listed(keys: set<string>): (r: seq<string>)
    ensures multiset(r) == multiset(keys)
  {
    if keys == {} then []
    else
      var k :| k in keys;
      assert multiset(keys) == multiset{k} + multiset(keys - {k});
      [k] + Listed(keys - {k})
  }

  ghost function KeyOrder(keys: set<string>): seq<string> { SortStrings(Listed(keys)) }

  // Whatever order the map is walked in, the sorted keys are the same.
  method SortedKeys(all: set<string>) returns (ids: seq<string>)
    ensures ids == KeyOrder(all)
  {
    ids := [];
    var keys := all;
    while keys != {}
      invariant keys <= all
      invariant multiset(ids) == multiset(all - keys)
      decreases |keys|
    {
      var id :| id in keys;
      assert all - (keys - {id}) == (all - keys) + {id};
      keys, ids := keys - {id}, ids + [id];
    }
    assert all - {} == all;
    SortStringsCanonical(ids, Listed(all));
    ids := SortStrings(ids);
  }

  // The key order lists each key once, in increasing order.
  lemma KeyOrderLists(keys: set<string>)
    ensures var ids := KeyOrder(keys);
      && (forall id :: id in ids <==> id in keys)
      && forall j, k :: 0 <= j < k < |ids| ==> StrLt(ids[j], ids[k])
  {
    var ids := KeyOrder(keys);
    SortStringsSorted(Listed(keys));
    forall id ensures id in ids <==> id in keys { assert id in multiset(ids) <==> id in multiset(keys); }
    forall j, k | 0 <= j < k < |ids| ensures ids[j] != ids[k] {
      assert multiset(ids)[ids[j]] <= 1;
      if ids[j] == ids[k] { Twice(ids, j, k); }
    }
  }

  lemma Twice(s: seq<string>, j: nat, k: nat)
    requires j < k < |s| && s[j] == s[k]
    ensures multiset(s)[s[j]] >= 2
  {
    assert s == s[..k] + s[k..];
    assert s[j] in s[..k] && s[k] in s[k..];
  }

  // ---- gates, tried in order ----

  // The name of the first gate that does not hold.
  function FirstFailing<C>(gates: seq<(C, bool)>): Option<C> {
    if gates == [] then None
    else if !gates[0].1 then Some(gates[0].0)
    else FirstFailing(gates[1..])
  }

  lemma GateCons<C>(gate: (C, bool), gates: seq<(C, bool)>)
    ensures FirstFailing([gate] + gates) == if !gate.1 then Some(gate.0) else FirstFailing(gates)
    ensures FirstFailing([gate]) == if !gate.1 then Some(gate.0) else None
  {
    assert ([gate] + gates)[1..] == gates;
    assert [gate][1..] == [] && FirstFailing<C>([]) == None;
  }

  lemma {:induction false} GatesThen<C>(a: seq<(C, bool)>, b: seq<(C, bool)>)
    ensures FirstFailing(a + b) == if FirstFailing(a).Some? then FirstFailing(a) else FirstFailing(b)
  {
    if a == [] {
      assert a + b == b;
    } else {
      assert a + b == [a[0]] + (a[1..] + b) && a == [a[0]] + a[1..];
      GatesThen(a[1..], b);
      GateCons(a[0], a[1..] + b);
      GateCons(a[0], a[1..]);
    }
  }

  lemma TwoGates<C>(a: (C, bool), b: (C, bool))
    ensures FirstFailing([a, b]) == if !a.1 then Some(a.0) else if !b.1 then Some(b.0) else None
  {
    assert [a, b] == [a] + [b];
    GateCons(a, [b]);
    GateCons(b, []);
  }

  lemma FourGates<C>(a: (C, bool), b: (C, bool), c: (C, bool), d: (C, bool))
    ensures FirstFailing([a, b, c, d]) ==
      if !a.1 then Some(a.0) else if !b.1 then Some(b.0) else if !c.1 then Some(c.0) else if !d.1 then Some(d.0)
        else None
  {
    assert [a, b, c, d] == [a] + [b, c, d] && [b, c, d] == [b] + [c, d];
    GateCons(a, [b, c, d]);
    GateCons(b, [c, d]);
    TwoGates(c, d);
  }

  // ---- strings.Join, strings.Index ----

  function Join(parts: seq<string>, sep: string): string {
    if parts == [] then ""
    else if |parts| == 1 then parts[0]
    else parts[0] + sep + Join(parts[1..], sep)
  }

  function Concat(parts: seq<string>): string {
    if parts == [] then "" else parts[0] + Concat(parts[1..])
  }

  lemma {:induction false} ConcatAppend(a: seq<string>, b: seq<string>)
    ensures Concat(a + b) == Concat(a) + Concat(b)
  {
    if a == [] {
      assert a + b == b;
    } else {
      ConcatAppend(a[1..], b);
      assert (a + b)[1..] == a[1..] + b;
    }
  }

  // s with each character replaced by its expansion.
  function Expand(s: string, f: char -> string): string {
    if s == "" then "" else f(s[0]) + Expand(s[1..], f)
  }

  lemma {:induction false} ExpandConcat(a: string, b: string, f: char -> string)
    ensures Expand(a + b, f) == Expand(a, f) + Expand(b, f)
  {
    if a == "" {
      assert a + b == b;
    } else {
      ExpandConcat(a[1..], b, f);
      assert (a + b)[1..] == a[1..] + b && (a + b)[0] == a[0];
    }
  }

  // A hexadecimal digit's value.
  function HexValue(c: char): Option<nat> {
    if '0' <= c <= '9' then Some((c - '0') as nat)
    else if 'A' <= c <= 'F' then Some((c - 'A') as nat + 10)
    else if 'a' <= c <= 'f' then Some((c - 'a') as nat + 10)
    else None
  }

  // sub occurs in s at offset i.
  predicate OccursAt(s: string, sub: string, i: nat) {
    i + |sub| <= |s| && s[i..i + |sub|] == sub
  }

  ghost predicate Contains(s: string, sub: string) {
    exists i: nat :: OccursAt(s, sub, i)
  }

  // strings.Index from offset `from`: the first occurrence.
  function IndexFrom(s: string, sub: string, from: nat): (r: Option<nat>)
    requires from <= |s|
    decreases |s| - from
    ensures r.Some? ==> from <= r.value && OccursAt(s, sub, r.value)
    ensures r.Some? ==> forall i: nat :: from <= i < r.value ==> !OccursAt(s, sub, i)
    ensures r.None? ==> forall i: nat :: from <= i ==> !OccursAt(s, sub, i)
  {
    if OccursAt(s, sub, from) then Some(from)
    else if from == |s| then None
    else IndexFrom(s, sub, from + 1)
  }
}
