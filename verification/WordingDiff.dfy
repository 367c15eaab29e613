// The line diff a brief reaudit prints (cmd/dossierx/brief_lock.go).
module WordingDiff {

  function Max(a: nat, b: nat): nat { if a >= b then a else b }

  // The value the table holds for two suffixes.
  function Lcs(was: seq<string>, now: seq<string>): nat
    decreases |was| + |now|
  {
    if was == [] || now == [] then 0
    else if was[0] == now[0] then Lcs(was[1..], now[1..]) + 1
    else Max(Lcs(was[1..], now), Lcs(was, now[1..]))
  }

  // The printed lines, branch by branch as the walk takes them.
  function Diff(was: seq<string>, now: seq<string>): seq<string>
    decreases |was| + |now|
  {
    if was == [] && now == [] then []
    else if was != [] && now != [] && was[0] == now[0] then
      ["  " + was[0]] + Diff(was[1..], now[1..])
    else if now != [] && (was == [] || Lcs(was, now[1..]) >= Lcs(was[1..], now)) then
      ["+ " + now[0]] + Diff(was, now[1..])
    else
      ["- " + was[0]] + Diff(was[1..], now)
  }

  // ---- what a reader does with the lines ----

  predicate IsMarked(line: string) {
    |line| >= 2 && line[0] in "+- " && line[1] == ' '
  }

  predicate AllMarked(lines: seq<string>) {
    forall k :: 0 <= k < |lines| ==> IsMarked(lines[k])
  }

  // Reading the lines whose mark is in `marks`, with their two-character prefix removed.
  function Read(lines: seq<string>, marks: string): seq<string>
    requires AllMarked(lines)
  {
    if lines == [] then []
    else if lines[0][0] in marks then [lines[0][2..]] + Read(lines[1..], marks)
    else Read(lines[1..], marks)
  }

  ghost predicate IsSubsequence(c: seq<string>, s: seq<string>) {
    c == [] || (s != [] && ((c[0] == s[0] && IsSubsequence(c[1..], s[1..])) || IsSubsequence(c, s[1..])))
  }

  // The diff is readable both ways: dropping the "+ " lines gives the old wording back,
  // dropping the "- " lines gives the new one.
  lemma {:induction false} DiffReadsBack(was: seq<string>, now: seq<string>)
    ensures AllMarked(Diff(was, now))
    ensures Read(Diff(was, now), " -") == was
    ensures Read(Diff(was, now), " +") == now
    ensures |Read(Diff(was, now), " ")| == Lcs(was, now)
    decreases |was| + |now|
  {
    if was == [] && now == [] {
    } else if was != [] && now != [] && was[0] == now[0] {
      DiffReadsBack(was[1..], now[1..]);
    } else if now != [] && (was == [] || Lcs(was, now[1..]) >= Lcs(was[1..], now)) {
      DiffReadsBack(was, now[1..]);
    } else {
      DiffReadsBack(was[1..], now);
    }
  }

  function Marked(mark: string, lines: seq<string>): seq<string> {
    seq(|lines|, k requires 0 <= k < |lines| => mark + lines[k])
  }

  // Where the wordings share nothing, what is added is printed before what is removed.
  lemma {:induction false} AddedComesFirst(was: seq<string>, now: seq<string>)
    requires forall i, j :: 0 <= i < |was| && 0 <= j < |now| ==> was[i] != now[j]
    ensures Lcs(was, now) == 0 && Diff(was, now) == Marked("+ ", now) + Marked("- ", was)
    decreases |was| + |now|
  {
    if was == [] && now == [] {
    } else if now != [] {
      AddedComesFirst(was, now[1..]);
      if was != [] {
        AddedComesFirst(was[1..], now);
        assert was[0] != now[0];
      }
      MarkedCons("+ ", now);
    } else {
      AddedComesFirst(was[1..], now);
      MarkedCons("- ", was);
    }
  }

  lemma MarkedCons(mark: string, lines: seq<string>)
    requires lines != []
    ensures Marked(mark, lines) == [mark + lines[0]] + Marked(mark, lines[1..])
  {
  }

  lemma {:induction false} SubsequenceTail(c: seq<string>, s: seq<string>)
    requires c != [] && IsSubsequence(c, s)
    ensures IsSubsequence(c[1..], s[1..])
  {
    if !(c[0] == s[0] && IsSubsequence(c[1..], s[1..])) {
      SubsequenceTail(c, s[1..]);
      SubsequenceGrow(c[1..], s[1..]);
    }
  }

  lemma {:induction false} SubsequenceGrow(c: seq<string>, s: seq<string>)
    requires s != [] && IsSubsequence(c, s[1..])
    ensures IsSubsequence(c, s)
  {}

  lemma {:induction false} LcsIsUpperBound(c: seq<string>, was: seq<string>, now: seq<string>)
    requires IsSubsequence(c, was) && IsSubsequence(c, now)
    ensures |c| <= Lcs(was, now)
    decreases |was| + |now|
  {
    if c == [] {
    } else if was[0] == now[0] {
      SubsequenceTail(c, was);
      SubsequenceTail(c, now);
      LcsIsUpperBound(c[1..], was[1..], now[1..]);
    } else if c[0] == was[0] {
      LcsIsUpperBound(c, was, now[1..]);
    } else {
      LcsIsUpperBound(c, was[1..], now);
    }
  }

  lemma {:induction false} KeptIsCommon(lines: seq<string>, side: string)
    requires AllMarked(lines)
    requires ' ' in side
    ensures IsSubsequence(Read(lines, " "), Read(lines, side))
  {
    if lines == [] {
    } else {
      KeptIsCommon(lines[1..], side);
    }
  }

  // Optimality: the kept lines are a common subsequence of the two wordings, and no
  // common subsequence is longer.
  lemma DiffIsOptimal(was: seq<string>, now: seq<string>)
    ensures AllMarked(Diff(was, now))
    ensures IsSubsequence(Read(Diff(was, now), " "), was)
    ensures IsSubsequence(Read(Diff(was, now), " "), now)
    ensures forall c :: IsSubsequence(c, was) && IsSubsequence(c, now) ==> |c| <= |Read(Diff(was, now), " ")|
  {
    DiffReadsBack(was, now);
    KeptIsCommon(Diff(was, now), " -");
    KeptIsCommon(Diff(was, now), " +");
    forall c | IsSubsequence(c, was) && IsSubsequence(c, now)
      ensures |c| <= |Read(Diff(was, now), " ")|
    {
      LcsIsUpperBound(c, was, now);
    }
  }

  // `out` is what the walk has printed once it stands at i in was and j in now.
  ghost predicate Printed(was: seq<string>, now: seq<string>, i: nat, j: nat, out: seq<string>)
    requires i <= |was| && j <= |now|
  {
    out + Diff(was[i..], now[j..]) == Diff(was, now)
  }

  // One turn of the walk, choosing its branch by the two table entries right and down.
  lemma WalkStep(was: seq<string>, now: seq<string>, i: nat, j: nat, out: seq<string>, right: nat, down: nat)
    requires i <= |was| && j <= |now| && (i < |was| || j < |now|)
    requires Printed(was, now, i, j, out)
    requires i < |was| && j < |now| ==> right == Lcs(was[i..], now[j + 1..]) && down == Lcs(was[i + 1..], now[j..])
    ensures
      if i < |was| && j < |now| && was[i] == now[j] then Printed(was, now, i + 1, j + 1, out + ["  " + was[i]])
      else if j < |now| && (i == |was| || right >= down) then Printed(was, now, i, j + 1, out + ["+ " + now[j]])
      else Printed(was, now, i + 1, j, out + ["- " + was[i]])
  {
    assert i < |was| ==> was[i..][1..] == was[i + 1..];
    assert j < |now| ==> now[j..][1..] == now[j + 1..];
    var rest := Diff(was[i..], now[j..]);
    assert out + rest == (out + [rest[0]]) + rest[1..];
  }

  lemma PrintedEnds(was: seq<string>, now: seq<string>, out: seq<string>)
    ensures Printed(was, now, 0, 0, [])
    ensures Printed(was, now, |was|, |now|, out) ==> out == Diff(was, now)
  {
    assert was[0..] == was && now[0..] == now && was[|was|..] == [] && now[|now|..] == [];
    assert [] + Diff(was, now) == Diff(was, now);
  }

  // The source's own form: fill the quadratic table from the end, then walk it.
  method Compute(was: seq<string>, now: seq<string>) returns (out: seq<string>)
    ensures out == Diff(was, now)
  {
    var lcs := FillTable(was, now);
    var n, m := |was|, |now|;
    out := [];
    var i, j := 0, 0;
    PrintedEnds(was, now, []);
    while i < n || j < m
      invariant 0 <= i <= n && 0 <= j <= m
      invariant Printed(was, now, i, j, out)
      invariant IsTable(lcs, was, now)
      decreases n - i + m - j
    {
      WalkStep(was, now, i, j, out,
        if i < n && j < m then lcs[i, j + 1] else 0, if i < n && j < m then lcs[i + 1, j] else 0);
      if i < n && j < m && was[i] == now[j] {
        out, i, j := out + ["  " + was[i]], i + 1, j + 1;
      } else if j < m && (i == n || lcs[i, j + 1] >= lcs[i + 1, j]) {
        out, j := out + ["+ " + now[j]], j + 1;
      } else {
        out, i := out + ["- " + was[i]], i + 1;
      }
    }
    PrintedEnds(was, now, out);
  }

  ghost predicate IsTable(lcs: array2<nat>, was: seq<string>, now: seq<string>)
    reads lcs
  {
    && lcs.Length0 == |was| + 1 && lcs.Length1 == |now| + 1
    && forall i, j :: 0 <= i <= |was| && 0 <= j <= |now| ==> lcs[i, j] == Lcs(was[i..], now[j..])
  }

  method FillTable(was: seq<string>, now: seq<string>) returns (lcs: array2<nat>)
    ensures fresh(lcs) && IsTable(lcs, was, now)
  {
    var n, m := |was|, |now|;
    lcs := new nat[n + 1, m + 1]((i, j) => 0);
    var i := n;
    while i > 0
      invariant 0 <= i <= n
      invariant forall a, b :: i <= a <= n && 0 <= b <= m ==> lcs[a, b] == Lcs(was[a..], now[b..])
      invariant forall a :: 0 <= a < i ==> lcs[a, m] == 0
    {
      i := i - 1;
      var j := m;
      while j > 0
        invariant 0 <= j <= m
        invariant forall a, b :: i < a <= n && 0 <= b <= m ==> lcs[a, b] == Lcs(was[a..], now[b..])
        invariant forall b :: j <= b <= m ==> lcs[i, b] == Lcs(was[i..], now[b..])
        invariant forall a :: 0 <= a < i ==> lcs[a, m] == 0
      {
        j := j - 1;
        assert was[i..][1..] == was[i + 1..] && now[j..][1..] == now[j + 1..];
        lcs[i, j] := if was[i] == now[j] then lcs[i + 1, j + 1] + 1
                     else Max(lcs[i + 1, j], lcs[i, j + 1]);
      }
    }
  }
}
