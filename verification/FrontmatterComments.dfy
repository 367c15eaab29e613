// SetComments (internal/briefs/write.go): it replaces the comments block and leaves every
// other key's lines, the body, and so the lock hash.
module FrontmatterComments {
  import opened GoStd
  import opened Frontmatter
  import opened FrontmatterRead
  import opened FrontmatterWrite

  // The encoded threads: a comments key and the lines under it, or nothing for no threads.
  ghost predicate IsCommentsBlock(block: seq<string>) {
    && (block != [] ==> IsKey(block[0], "comments"))
    && (forall k :: 1 <= k < |block| ==> !IsKeyLine(block[k]))
    && (forall k :: 0 <= k < |block| ==> IsLine(block[k]) && !IsFence(block[k]))
  }

  // The cut: from the comments line to the next key, or to the closing fence.
  function From(ls: seq<string>, end: nat): (r: nat)
    requires 1 <= end <= |ls|
    ensures 1 <= r <= end
  {
    FindKey(ls, end, "comments", 1)
  }

  function To(ls: seq<string>, end: nat): (r: nat)
    requires 1 <= end <= |ls|
    ensures From(ls, end) <= r <= end
  {
    if From(ls, end) == end then end else NextKey(ls, end, From(ls, end) + 1)
  }

  function Kept(ls: seq<string>, end: nat): seq<string>
    requires 1 <= end <= |ls|
  {
    ls[..From(ls, end)] + ls[To(ls, end)..end]
  }

  function CommentsLines(ls: seq<string>, end: nat, block: seq<string>): seq<string>
    requires 1 <= end <= |ls|
  {
    Kept(ls, end) + block + ls[end..]
  }

  // An encoded line in the file's line ending.
  function WithEol(l: string, eol: string): string {
    if l != "" && l[|l| - 1] == '\n' then l[..|l| - 1] + eol else l
  }

  // What the encoder (yaml.v3) makes of the threads, in LF lines.
  function BlockOf<T>(threads: seq<T>, encode: seq<T> -> seq<string>, eol: string): seq<string> {
    if threads == [] then []
    else
      var block := encode(threads);
      seq(|block|, k requires 0 <= k < |block| => WithEol(block[k], eol))
  }

  // The rewritten text, before it is verified.
  function CommentsText<T>(raw: string, threads: seq<T>, encode: seq<T> -> seq<string>, d: Decoder<T>): Option<string> {
    var ls := SplitLines(raw);
    match End(ls)
    case None => None
    case Some(end) =>
      if !d.yaml(Norms(ls)[1..end]) then None
      else Some(Concat(CommentsLines(ls, end, BlockOf(threads, encode, Eol(ls)))))
  }

  function CommentsRewrite<T(==)>(raw: string, threads: seq<T>, encode: seq<T> -> seq<string>, d: Decoder<T>): Rewrite {
    match CommentsText(raw, threads, encode, d)
    case None => NotRewritable
    case Some(after) => VerifyRewrite(raw, after, Read(after, d).comments == threads, d)
  }

  method SetComments<T(==)>(raw: string, threads: seq<T>, encode: seq<T> -> seq<string>, d: Decoder<T>)
    returns (r: Rewrite)
    ensures r == CommentsRewrite(raw, threads, encode, d)
  {
    hide Read, FindKey, NextKey, VerifyRewrite;
    var ls, close := Lines(raw);
    if close.None? { return NotRewritable; }
    var end := close.value;
    if !d.yaml(Norms(ls)[1..end]) { return NotRewritable; }
    var from, to := FindCut(ls, end);
    var kept := ls[..from] + ls[to..end];
    KeptAreLines(ls, end);
    var last := kept[|kept| - 1];
    if |kept| > 1 && (last == "" || last[|last| - 1] != '\n') {
      kept := kept[|kept| - 1 := last + Eol(ls)];
    }
    assert kept == Kept(ls, end);
    var block := [];
    if threads != [] {
      var encoded := encode(threads);
      block := seq(|encoded|, k requires 0 <= k < |encoded| => WithEol(encoded[k], Eol(ls)));
    }
    var after := Concat(kept + block + ls[end..]);
    r := VerifyRewrite(raw, after, Read(after, d).comments == threads, d);
  }

  // The two bounds of the cut.
  method FindCut(ls: seq<string>, end: nat) returns (from: nat, to: nat)
    requires 1 <= end <= |ls|
    ensures from == From(ls, end) && to == To(ls, end)
  {
    hide IsKeyLine, KeyOf;
    from := 1;
    while from < end && !IsKey(ls[from], "comments")
      invariant 1 <= from <= end && FindKey(ls, end, "comments", 1) == FindKey(ls, end, "comments", from)
    {
      from := from + 1;
    }
    to := from;
    if from < end {
      to := from + 1;
      while to < end && !IsKeyLine(ls[to])
        invariant from < to <= end && NextKey(ls, end, from + 1) == NextKey(ls, end, to)
      {
        to := to + 1;
      }
    }
  }

  // Each kept line has its line break, so none gains one.
  lemma KeptAreLines(ls: seq<string>, end: nat)
    requires WellSplit(ls) && 1 <= end < |ls|
    ensures forall k :: 0 <= k < |Kept(ls, end)| ==> IsLine(Kept(ls, end)[k])
  {
    hide IsLine, FindKey, NextKey, IsKeyLine;
    var i, n := From(ls, end), To(ls, end);
    forall k | 0 <= k < |Kept(ls, end)| ensures IsLine(Kept(ls, end)[k]) {
      assert Kept(ls, end)[k] == if k < i then ls[k] else ls[n + (k - i)];
    }
  }

  // One comments key at most, as a mapping has.
  ghost predicate OneComments(ls: seq<string>, end: nat)
    requires 1 <= end <= |ls|
  {
    forall k :: From(ls, end) < k < end ==> !IsKey(ls[k], "comments")
  }

  // The lines of the rewritten file, placed.
  ghost predicate Cut(ls: seq<string>, end: nat, i: nat, n: nat, block: seq<string>, out: seq<string>) {
    && 1 <= i <= n <= end < |ls| && |out| == i + (end - n) + |block| + |ls| - end
    && (forall k :: 0 <= k < i ==> out[k] == ls[k])
    && (forall k :: i <= k < i + (end - n) ==> out[k] == ls[k + (n - i)])
    && (forall k :: i + (end - n) <= k < i + (end - n) + |block| ==> out[k] == block[k - (i + (end - n))])
  }

  // Where each rewritten line came from.
  lemma Placed(ls: seq<string>, end: nat, block: seq<string>)
    requires 1 <= end < |ls|
    ensures var i, n := From(ls, end), To(ls, end); var out := CommentsLines(ls, end, block); var last := i + (end - n);
      && |out| == last + |block| + |ls| - end
      && (forall k :: 0 <= k < i ==> out[k] == ls[k])
      && (forall k :: i <= k < last ==> out[k] == ls[k + (n - i)])
      && (forall k :: last <= k < last + |block| ==> out[k] == block[k - last])
      && out[last + |block|..] == ls[end..]
      && out[last..last + |block|] == block
      && Cut(ls, end, i, n, block, out)
  {
    var i, n := From(ls, end), To(ls, end);
    var kept := ls[..i] + ls[n..end];
    var out := CommentsLines(ls, end, block);
    assert Kept(ls, end) == kept;
    hide From, To, Kept;
    assert out == kept + block + ls[end..];
    forall k | i <= k < |kept| ensures out[k] == ls[k + (n - i)] { assert kept[k] == ls[n..end][k - i]; }
  }

  // Before the closing fence there are whole lines and no other fence.
  lemma CommentsLinesAre(ls: seq<string>, end: nat, block: seq<string>, k: nat)
    requires WellSplit(ls) && End(ls) == Some(end) && IsCommentsBlock(block) && k < |Kept(ls, end)| + |block|
    ensures var out := CommentsLines(ls, end, block);
      k < |out| && IsLine(out[k]) && (1 <= k ==> !IsFence(out[k])) && (k == 0 ==> out[k] == ls[0])
  {
    hide IsLine, IsFence, IsKeyLine, FindKey, NextKey;
    var i, n := From(ls, end), To(ls, end);
    var out := CommentsLines(ls, end, block);
    assert out[k] == if k < i then ls[k] else if k < |Kept(ls, end)| then ls[k + (n - i)]
      else block[k - |Kept(ls, end)|];
  }

  // New whole lines up to the fence, and the old file from there on.
  lemma Refenced(ls: seq<string>, end: nat, out: seq<string>, close: nat)
    requires WellSplit(ls) && End(ls) == Some(end) && 1 <= close && |out| == close + |ls| - end
    requires out[close..] == ls[end..]
    requires forall k :: 0 <= k < close ==>
      IsLine(out[k]) && (1 <= k ==> !IsFence(out[k])) && (k == 0 ==> out[k] == ls[0])
    ensures WellSplit(out) && End(out) == Some(close) && Eol(out) == Eol(ls)
  {
    hide IsLine, IsFence, NoBreak;
    forall k | close <= k < |out| ensures out[k] == ls[end + (k - close)] { assert out[k] == out[close..][k - close]; }
    CloseIs(out, 1, close);
  }

  lemma CommentsSplit(ls: seq<string>, end: nat, block: seq<string>)
    requires WellSplit(ls) && End(ls) == Some(end) && IsCommentsBlock(block)
    ensures var out := CommentsLines(ls, end, block);
            var close := |Kept(ls, end)| + |block|;
      && WellSplit(out) && End(out) == Some(close) && out[close..] == ls[end..] && Eol(out) == Eol(ls)
  {
    hide IsLine, IsFence, IsKeyLine, NoBreak, FindKey, NextKey, IsCommentsBlock, WellSplit, End, Eol;
    var out := CommentsLines(ls, end, block);
    var close := |Kept(ls, end)| + |block|;
    assert 1 <= |Kept(ls, end)| && out[close..] == ls[end..] && |out| == close + |ls| - end;
    hide CommentsLines, Kept;
    forall k | 0 <= k < close ensures IsLine(out[k]) && (1 <= k ==> !IsFence(out[k])) && (k == 0 ==> out[k] == ls[0]) {
      CommentsLinesAre(ls, end, block, k);
    }
    Refenced(ls, end, out, close);
  }

  // The block's comments are the new ones.
  lemma CommentsReadBack(ls: seq<string>, end: nat, block: seq<string>)
    requires WellSplit(ls) && End(ls) == Some(end) && IsCommentsBlock(block) && OneComments(ls, end)
    ensures var out := CommentsLines(ls, end, block); var close := |Kept(ls, end)| + |block|;
      && From(out, close) == |Kept(ls, end)| && To(out, close) == close && OneComments(out, close)
      && Block(out, close, "comments") == block
  {
    hide IsKeyLine, KeyOf, IsLine, IsFence, CommentsLines, WellSplit;
    var out := CommentsLines(ls, end, block);
    var last := |Kept(ls, end)|;
    var close := last + |block|;
    Placed(ls, end, block);
    FindKeyIs(out, close, "comments", 1, last);
    if block != [] {
      forall k | last + 1 <= k < close ensures !IsKeyLine(out[k]) { assert out[k] == block[k - last]; }
      NextKeyIs(out, close, last + 1, close);
    }
  }

  // Threads set over threads: the last write wins.
  lemma CommentsLastWins(ls: seq<string>, end: nat, a: seq<string>, b: seq<string>)
    requires WellSplit(ls) && End(ls) == Some(end) && IsCommentsBlock(a) && OneComments(ls, end)
    ensures var out := CommentsLines(ls, end, a);
      End(out).Some? && CommentsLines(out, End(out).value, b) == CommentsLines(ls, end, b)
  {
    hide IsKeyLine, KeyOf, IsLine, IsFence, FindKey, NextKey, Block, IsCommentsBlock, OneComments, WellSplit;
    var out := CommentsLines(ls, end, a);
    var kept := Kept(ls, end);
    var close := |kept| + |a|;
    CommentsSplit(ls, end, a);
    CommentsReadBack(ls, end, a);
    Rebuilt(kept, a, ls[end..], out);
    assert Kept(out, close) == kept + [];
  }

  lemma Rebuilt(kept: seq<string>, a: seq<string>, tail: seq<string>, out: seq<string>)
    requires out == kept + a + tail
    ensures var close := |kept| + |a|;
      out[..|kept|] == kept && out[close..close] == [] && out[close..] == tail && kept + [] == kept
  {
  }

  // Every other key keeps its lines.
  lemma CommentsKeepBlocks(ls: seq<string>, end: nat, block: seq<string>, key: string)
    requires WellSplit(ls) && End(ls) == Some(end) && IsCommentsBlock(block) && OneComments(ls, end)
    requires key != "comments"
    ensures Block(CommentsLines(ls, end, block), |Kept(ls, end)| + |block|, key) == Block(ls, end, key)
  {
    hide IsKeyLine, KeyOf, IsLine, IsFence, CommentsLines, WellSplit;
    var i, n := From(ls, end), To(ls, end);
    var out := CommentsLines(ls, end, block);
    var last := |Kept(ls, end)|;
    var close := last + |block|;
    Placed(ls, end, block);
    var j := FindKey(ls, end, key, 1);
    if j == end {
      NotMoved(ls, end, block, key);
    } else if j < i {
      KeptBefore(ls, end, block, key);
    } else {
      KeptAfter(ls, end, block, key);
    }
  }

  lemma NotMoved(ls: seq<string>, end: nat, block: seq<string>, key: string)
    requires WellSplit(ls) && End(ls) == Some(end) && IsCommentsBlock(block) && key != "comments"
    requires FindKey(ls, end, key, 1) == end
    ensures FindKey(CommentsLines(ls, end, block), |Kept(ls, end)| + |block|, key, 1) == |Kept(ls, end)| + |block|
  {
    hide IsKeyLine, KeyOf, IsLine, IsFence, CommentsLines, WellSplit;
    var out, close := CommentsLines(ls, end, block), |Kept(ls, end)| + |block|;
    Placed(ls, end, block);
    FindKeyIs(out, close, key, 1, close);
  }

  lemma BlockBefore(ls: seq<string>, end: nat, i: nat, n: nat, block: seq<string>, out: seq<string>, key: string,
                    j: nat, x: nat)
    requires Cut(ls, end, i, n, block, out) && 1 <= j < x <= i
    requires IsKey(ls[j], key) && forall k :: 1 <= k < j ==> !IsKey(ls[k], key)
    requires forall k :: j < k < x ==> !IsKeyLine(ls[k])
    requires x < i ==> IsKeyLine(ls[x])
    requires x == i ==> (n < end ==> IsKeyLine(ls[n])) && (block != [] ==> IsKeyLine(block[0]))
    ensures Block(out, i + (end - n) + |block|, key) == ls[j..x]
  {
    hide IsKeyLine, KeyOf;
    var close := i + (end - n) + |block|;
    FindKeyIs(out, close, key, 1, j);
    NextKeyIs(out, close, j + 1, x);
    assert out[j..x] == ls[j..x];
  }

  lemma FindAfter(ls: seq<string>, end: nat, i: nat, n: nat, block: seq<string>, out: seq<string>, key: string, j: nat)
    requires Cut(ls, end, i, n, block, out) && n <= j < end
    requires IsKey(ls[j], key) && forall k :: 1 <= k < j ==> !IsKey(ls[k], key)
    ensures FindKey(out, i + (end - n) + |block|, key, 1) == j - (n - i)
  {
    hide IsKey;
    var d := n - i;
    forall k | 1 <= k < j - d ensures !IsKey(out[k], key) { assert out[k] == if k < i then ls[k] else ls[k + d]; }
    FindKeyIs(out, i + (end - n) + |block|, key, 1, j - d);
  }

  lemma NextAfter(ls: seq<string>, end: nat, i: nat, n: nat, block: seq<string>, out: seq<string>, j: nat, x: nat)
    requires Cut(ls, end, i, n, block, out) && n <= j < x <= end
    requires forall k :: j < k < x ==> !IsKeyLine(ls[k])
    requires x < end ==> IsKeyLine(ls[x])
    requires block != [] ==> IsKeyLine(block[0])
    ensures NextKey(out, i + (end - n) + |block|, j - (n - i) + 1) == x - (n - i)
    ensures out[j - (n - i)..x - (n - i)] == ls[j..x]
  {
    hide IsKeyLine;
    var close, d := i + (end - n) + |block|, n - i;
    forall k | j - d < k < x - d ensures !IsKeyLine(out[k]) { assert out[k] == ls[k + d]; }
    NextKeyIs(out, close, j - d + 1, x - d);
  }

  lemma BlockAfter(ls: seq<string>, end: nat, i: nat, n: nat, block: seq<string>, out: seq<string>, key: string, j: nat,
                   x: nat)
    requires Cut(ls, end, i, n, block, out) && n <= j < x <= end
    requires IsKey(ls[j], key) && forall k :: 1 <= k < j ==> !IsKey(ls[k], key)
    requires forall k :: j < k < x ==> !IsKeyLine(ls[k])
    requires x < end ==> IsKeyLine(ls[x])
    requires block != [] ==> IsKeyLine(block[0])
    ensures Block(out, i + (end - n) + |block|, key) == ls[j..x]
  {
    hide IsKeyLine, IsKey, Cut;
    assert i <= n <= end && |out| == i + (end - n) + |block| + |ls| - end by { CutBounds(ls, end, i, n, block, out); }
    FindAfter(ls, end, i, n, block, out, key, j);
    NextAfter(ls, end, i, n, block, out, j, x);
  }

  lemma CutBounds(ls: seq<string>, end: nat, i: nat, n: nat, block: seq<string>, out: seq<string>)
    requires Cut(ls, end, i, n, block, out)
    ensures 1 <= i <= n <= end < |ls| && |out| == i + (end - n) + |block| + |ls| - end
  {
  }

  lemma BlockIs(ls: seq<string>, end: nat, key: string)
    requires 1 <= end <= |ls|
    ensures var i := FindKey(ls, end, key, 1);
      Block(ls, end, key) == if i == end then [] else ls[i..NextKey(ls, end, i + 1)]
  {
  }

  lemma KeptBefore(ls: seq<string>, end: nat, block: seq<string>, key: string)
    requires 1 <= end < |ls| && IsCommentsBlock(block) && FindKey(ls, end, key, 1) < From(ls, end)
    ensures Block(CommentsLines(ls, end, block), |Kept(ls, end)| + |block|, key) == Block(ls, end, key)
  {
    hide IsKeyLine, KeyOf, IsLine, IsFence, CommentsLines, Block, Cut, FindKey, NextKey;
    var out := CommentsLines(ls, end, block);
    Placed(ls, end, block);
    BlockIs(ls, end, key);
    var j := FindKey(ls, end, key, 1);
    var x := NextKey(ls, end, j + 1);
    assert x <= From(ls, end);
    BlockBefore(ls, end, From(ls, end), To(ls, end), block, out, key, j, x);
  }

  lemma KeptAfter(ls: seq<string>, end: nat, block: seq<string>, key: string)
    requires 1 <= end < |ls| && IsCommentsBlock(block) && key != "comments"
    requires From(ls, end) <= FindKey(ls, end, key, 1) < end
    ensures Block(CommentsLines(ls, end, block), |Kept(ls, end)| + |block|, key) == Block(ls, end, key)
  {
    hide IsKeyLine, KeyOf, IsLine, IsFence, CommentsLines, Block, Cut, FindKey, NextKey;
    var out := CommentsLines(ls, end, block);
    Placed(ls, end, block);
    BlockIs(ls, end, key);
    var j := FindKey(ls, end, key, 1);
    assert To(ls, end) <= j;
    BlockAfter(ls, end, From(ls, end), To(ls, end), block, out, key, j, NextKey(ls, end, j + 1));
  }

  // ---- the rewrite, verified ----

  // The encoder's text in LF lines, which the decoder reads back.
  ghost predicate EncodesBack<T>(threads: seq<T>, encode: seq<T> -> seq<string>, d: Decoder<T>) {
    && d.comments([]) == []
    && (threads != [] ==> IsCommentsBlock(encode(threads)) && d.comments(encode(threads)) == threads)
    && (threads != [] ==> forall k :: 0 <= k < |encode(threads)| ==> Norm(encode(threads)[k]) == encode(threads)[k])
  }

  lemma WithEolReads(l: string, eol: string)
    requires IsLine(l) && Norm(l) == l && (eol == "\n" || eol == "\r\n")
    ensures var m := WithEol(l, eol); IsLine(m) && Norm(m) == l
  {
    var t := l[..|l| - 1];
    assert t + "\n" == l;
    if eol == "\r\n" { assert (t + eol)[..|t|] == t; }
  }

  lemma BlockReads<T>(threads: seq<T>, encode: seq<T> -> seq<string>, eol: string, d: Decoder<T>)
    requires EncodesBack(threads, encode, d) && (eol == "\n" || eol == "\r\n")
    ensures var block := BlockOf(threads, encode, eol); IsCommentsBlock(block) && d.comments(Norms(block)) == threads
  {
    hide IsLine, IsFence, IsKeyLine, KeyOf, Norm, WithEol;
    var block := BlockOf(threads, encode, eol);
    if threads == [] {
      assert Norms(block) == [];
    } else {
      var lf := encode(threads);
      forall k | 0 <= k < |block| ensures IsLine(block[k]) && Norm(block[k]) == lf[k] {
        WithEolReads(lf[k], eol);
      }
      forall k | 0 <= k < |block|
        ensures (IsFence(block[k]) <==> IsFence(lf[k])) && (IsKeyLine(block[k]) <==> IsKeyLine(lf[k]))
        ensures IsKeyLine(lf[k]) ==> KeyOf(block[k]) == KeyOf(lf[k])
      {
        NormKeeps(block[k]);
      }
      assert Norms(block) == lf;
    }
  }

  lemma EolIs(ls: seq<string>)
    requires ls != []
    ensures Eol(ls) == "\n" || Eol(ls) == "\r\n"
  {
  }

  lemma CommentsKeepContent(ls: seq<string>, end: nat, block: seq<string>)
    requires WellSplit(ls) && End(ls) == Some(end) && IsCommentsBlock(block) && OneComments(ls, end)
    ensures var out := CommentsLines(ls, end, block);
      && WellSplit(out) && End(out).Some? && KeepsContent(ls, end, out, End(out).value)
      && Block(out, End(out).value, "comments") == block
      && Block(out, End(out).value, "status") == Block(ls, end, "status")
  {
    hide IsKeyLine, KeyOf, IsLine, IsFence, WellSplit, Block, IsCommentsBlock, FindKey, NextKey, OneComments;
    CommentsSplit(ls, end, block);
    CommentsReadBack(ls, end, block);
    assert "status"[0] != "comments"[0] && "summary"[0] != "comments"[0] && "rests_on"[0] != "comments"[0];
    CommentsKeepBlocks(ls, end, block, "status");
    CommentsKeepBlocks(ls, end, block, "summary");
    CommentsKeepBlocks(ls, end, block, "rests_on");
  }

  // Over every file with at most one comments key: what SetComments writes holds the
  // threads, and signs and has its status as before; it is refused iff the reader finds no
  // block in the file, or finds another defect there.
  lemma SetCommentsReadsBack<T>(raw: string, threads: seq<T>, encode: seq<T> -> seq<string>, d: Decoder<T>)
    requires EncodesBack(threads, encode, d) && CommentsText(raw, threads, encode, d).Some?
    requires OneComments(SplitLines(raw), End(SplitLines(raw)).value)
    ensures var after := CommentsText(raw, threads, encode, d).value;
            var b, a := Read(raw, d), Read(after, d);
      && HasBlock(after) == HasBlock(raw)
      && (HasBlock(raw) ==>
            a.summary == b.summary && a.restsOn == b.restsOn && a.body == b.body && a.status == b.status)
      && (HasBlock(raw) ==> a.comments == threads && Signed(a) == Signed(b))
      && (CommentsRewrite(raw, threads, encode, d) == Rewritten(after) <==> HasBlock(raw) && a.sound)
      && (CommentsRewrite(raw, threads, encode, d) != Rewritten(after) ==>
            CommentsRewrite(raw, threads, encode, d) == NotRewritable)
  {
    hide SplitLines, Norms, ReadEnd, End, Concat, Block, CommentsLines, ReadLines, Read, KeepsContent, WellSplit,
         IsCommentsBlock, BlockOf;
    var ls := SplitLines(raw);
    var end := End(ls).value;
    var block := BlockOf(threads, encode, Eol(ls));
    SplitIsWell(raw);
    EolIs(ls);
    BlockReads(threads, encode, Eol(ls), d);
    CommentsKeepContent(ls, end, block);
    var out := CommentsLines(ls, end, block);
    SplitIsUnique(out);
    var after := Concat(out);
    ContentReadsAlike(raw, after, end, End(out).value, d);
    if HasBlock(raw) {
      EngineKeysRead(raw, end, d);
      EngineKeysRead(after, End(out).value, d);
      StatusFromBlock(ls, end, out, End(out).value);
    }
  }

  lemma StatusFromBlock(a: seq<string>, i: nat, b: seq<string>, j: nat)
    requires 1 <= i <= |a| && 1 <= j <= |b| && Block(a, i, "status") == Block(b, j, "status")
    ensures StatusRead(a, i) == StatusRead(b, j)
  {
    hide IsKeyLine, KeyOf, ScalarOf, IsStatus;
    var x, y := FindKey(a, i, "status", 1), FindKey(b, j, "status", 1);
    assert x == i <==> Block(a, i, "status") == [];
    assert y == j <==> Block(b, j, "status") == [];
    if x < i && y < j { assert a[x] == Block(a, i, "status")[0] == Block(b, j, "status")[0] == b[y]; }
  }
}
