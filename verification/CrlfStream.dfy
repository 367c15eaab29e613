// Line-ending normalisation of briefs and their .svg images (internal/briefs/briefs.go):
// the batch form, the streaming writer, and the digest each reader takes.
module CrlfStream {
  import opened GoStd

  // bytes.ReplaceAll(b, "\r\n", "\n"): leftmost, non-overlapping.
  function Normalize(s: string): string {
    if s == "" then ""
    else if OccursAt(s, "\r\n", 0) then "\n" + Normalize(s[2..])
    else [s[0]] + Normalize(s[1..])
  }

  // What core.autocrlf writes on checkout: CR before every LF.
  function Checkout(s: string): string {
    if s == "" then ""
    else if s[0] == '\n' then "\r\n" + Checkout(s[1..])
    else [s[0]] + Checkout(s[1..])
  }

  predicate EndsInCr(s: string) { s != "" && s[|s| - 1] == '\r' }

  lemma CrlfAtStart(s: string)
    ensures OccursAt(s, "\r\n", 0) <==> |s| >= 2 && s[0] == '\r' && s[1] == '\n'
    ensures OccursAt(s, "\r\r\n", 0) <==> |s| >= 3 && s[0] == '\r' && s[1] == '\r' && s[2] == '\n'
  {
    if |s| >= 2 { assert s[0..2] == [s[0], s[1]]; }
    if |s| >= 3 { assert s[0..3] == [s[0], s[1], s[2]]; }
  }

  // ---- Normalize seen one byte at a time, from the end ----

  lemma {:induction false} NormalizeLast(s: string)
    requires s != ""
    ensures Normalize(s) != "" && Normalize(s)[|Normalize(s)| - 1] == s[|s| - 1]
  {
    CrlfAtStart(s);
    if OccursAt(s, "\r\n", 0) {
      if |s| > 2 { NormalizeLast(s[2..]); }
    } else if |s| > 1 {
      NormalizeLast(s[1..]);
    }
  }

  // Normalize, one byte appended.
  function Snoc(t: string, cr: bool, b: char): string
    requires cr ==> t != ""
  {
    (if cr && b == '\n' then t[..|t| - 1] else t) + [b]
  }

  lemma {:induction false} NormalizeSnoc(s: string, b: char)
    ensures EndsInCr(s) ==> Normalize(s) != ""
    ensures Normalize(s + [b]) == Snoc(Normalize(s), EndsInCr(s), b)
  {
    CrlfAtStart(s);
    CrlfAtStart(s + [b]);
    if s == "" {
      assert [b][1..] == "" && s + [b] == [b];
    } else if |s| == 1 {
      var t := s + [b];
      assert t[2..] == "" && t[1..] == [b] && [b][1..] == "" && s[1..] == "";
      assert Normalize([b]) == [b] && Normalize(s) == s;
    } else {
      var k := if OccursAt(s, "\r\n", 0) then 2 else 1;
      NormalizeLast(s);
      if k < |s| { NormalizeLast(s[k..]); }
      NormalizeSnoc(s[k..], b);
      assert (s + [b])[k..] == s[k..] + [b] && (s + [b])[0] == s[0];
      assert k == |s| ==> s[k..] == "";
      var c := if k == 2 then "\n" else [s[0]];
      assert Normalize(s) == c + Normalize(s[k..]) && Normalize(s + [b]) == c + Normalize(s[k..] + [b]);
      hide Normalize;
      assert EndsInCr(s) <==> EndsInCr(s[k..]);
      SnocAfter(c, Normalize(s[k..]), EndsInCr(s), b);
    }
  }

  lemma SnocAfter(c: string, t: string, cr: bool, b: char)
    requires cr ==> t != ""
    ensures c + Snoc(t, cr, b) == Snoc(c + t, cr, b)
  {
    if cr { assert (c + t)[..|c + t| - 1] == c + t[..|t| - 1]; }
  }

  // What a stream has done with `fed`: everything is through but a CR it may still owe.
  ghost predicate Streamed(fed: string, through: string, cr: bool) {
    cr == EndsInCr(fed) && Normalize(fed) == through + (if cr then "\r" else "")
  }

  lemma StreamByte(fed: string, through: string, cr: bool, b: char)
    requires Streamed(fed, through, cr)
    ensures Streamed(fed + [b],
      through + (if cr && b != '\n' then "\r" else "") + (if b != '\r' then [b] else ""), b == '\r')
  {
    NormalizeSnoc(fed, b);
    if cr { NormalizeLast(fed); }
    assert cr ==> Normalize(fed)[..|Normalize(fed)| - 1] == through;
  }

  // ---- the streaming writer ----

  class CrlfWriter {
    var sink: string      // everything passed to the wrapped writer
    var cr: bool          // a CR ended the last chunk and is held back
    var n: nat            // bytes written through
    ghost var fed: string // everything passed to this writer

    ghost predicate Valid() reads this {
      n == |sink| && Streamed(fed, sink, cr)
    }

    constructor ()
      ensures Valid() && fed == "" && sink == ""
    {
      sink, cr, n, fed := "", false, 0, "";
    }

    method Write(p: string) returns (written: nat)
      requires Valid()
      modifies this
      ensures Valid() && fed == old(fed) + p && written == |p|
    {
      var out := "";
      ghost var at := fed;
      for i := 0 to |p|
        invariant sink == old(sink) && fed == old(fed) && n == old(n)
        invariant at == fed + p[..i]
        invariant Streamed(at, sink + out, cr)
      {
        var b := p[i];
        StreamByte(at, sink + out, cr, b);
        ghost var before := out;
        ghost var held := cr;
        if cr && b != '\n' { out := out + "\r"; }
        cr := b == '\r';
        if !cr { out := out + [b]; }
        assert sink + out == sink + before + (if held && b != '\n' then "\r" else "") + (if b != '\r' then [b] else "");
        at := at + [b];
      }
      assert p[..|p|] == p;
      n := n + |out|;
      sink := sink + out;
      fed := at;
      written := |p|;
    }

    // Writes a CR the input ended on. What the wrapped writer has then seen is the batch
    // form of everything fed, and n is its length.
    method Flush()
      requires Valid()
      modifies this
      ensures sink == Normalize(fed) && n == |Normalize(fed)| && fed == old(fed) && !cr
    {
      if !cr { return; }
      cr := false;
      n := n + 1;
      sink := sink + "\r";
    }
  }

  // ---- the two readers of an image ----

  // The working tree's reader: the file arrives in chunks of any size.
  method FileDigest(chunks: seq<string>, text: bool) returns (digest: Digest, n: nat)
    ensures var content := if text then Normalize(Concat(chunks)) else Concat(chunks);
            digest == Sha256(content) && n == |content|
  {
    if !text {
      var h := "";
      for i := 0 to |chunks|
        invariant h == Concat(chunks[..i])
      {
        ConcatAppend(chunks[..i], [chunks[i]]);
        assert chunks[..i + 1] == chunks[..i] + [chunks[i]] && Concat([chunks[i]]) == chunks[i] + "";
        h := h + chunks[i];
      }
      assert chunks[..|chunks|] == chunks;
      return Sha256(h), |h|;
    }
    var w := new CrlfWriter();
    for i := 0 to |chunks|
      invariant w.Valid() && fresh(w) && w.fed == Concat(chunks[..i])
    {
      ConcatAppend(chunks[..i], [chunks[i]]);
      assert chunks[..i + 1] == chunks[..i] + [chunks[i]] && Concat([chunks[i]]) == chunks[i] + "";
      var _ := w.Write(chunks[i]);
    }
    assert chunks[..|chunks|] == chunks;
    w.Flush();
    return Sha256(w.sink), w.n;
  }

  // One image file as a reader hands it over: hashed already, as bytes, or by size alone.
  datatype File = File(svg: bool, size: nat, data: Option<string>, hashed: Option<(Digest, nat)>)

  // imageContent: the digest and the length it is taken over.
  function ImageContent(f: File): (Option<Digest>, nat) {
    match f.hashed
    case Some((digest, size)) => (Some(digest), size)
    case None =>
      match f.data
      case None => (None, f.size)
      case Some(data) =>
        var content := if f.svg then Normalize(data) else data;
        (Some(Sha256(content)), |content|)
  }

  // The working tree's file, streamed in any chunks, and the index's file, held whole,
  // are one image to `brief lock` and to the image cap exactly when they agree up to
  // line endings (.svg) or byte for byte (the binary formats).
  method ReadersAgree(chunks: seq<string>, index: string, svg: bool) returns (worktree: File, staged: File)
    ensures worktree.svg == staged.svg == svg && staged.hashed == None && staged.data == Some(index)
    ensures ImageContent(worktree) == ImageContent(staged) <==>
      if svg then Normalize(Concat(chunks)) == Normalize(index) else Concat(chunks) == index
  {
    var digest, n := FileDigest(chunks, svg);
    worktree := File(svg, |Concat(chunks)|, None, Some((digest, n)));
    staged := File(svg, |index|, Some(index), None);
  }

  // ---- what normalisation forgets ----

  lemma {:induction false} NormalizeUndoesCheckout(s: string)
    ensures Normalize(Checkout(s)) == s
  {
    if s == "" {
    } else {
      NormalizeUndoesCheckout(s[1..]);
      if s[0] == '\n' {
        assert Checkout(s)[2..] == Checkout(s[1..]);
        assert OccursAt(Checkout(s), "\r\n", 0);
      } else {
        assert Checkout(s)[1..] == Checkout(s[1..]);
        CrlfAtStart(Checkout(s));
        assert Checkout(s[1..]) != "" ==> Checkout(s[1..])[0] != '\n';
      }
      assert s == [s[0]] + s[1..];
    }
  }

  lemma {:induction false} NormalizeFixpoint(s: string)
    ensures |Normalize(s)| <= |s|
    ensures Normalize(s) == s <==> !Contains(s, "\r\n")
  {
    if s == "" {
    } else if OccursAt(s, "\r\n", 0) {
      NormalizeFixpoint(s[2..]);
    } else {
      NormalizeFixpoint(s[1..]);
      assert s == [s[0]] + s[1..];
      assert Normalize(s) == s <==> Normalize(s[1..]) == s[1..];
      ContainsTail(s, "\r\n");
    }
  }

  lemma ContainsTail(s: string, sub: string)
    requires s != "" && !OccursAt(s, sub, 0)
    ensures Contains(s, sub) <==> Contains(s[1..], sub)
  {
    if i: nat :| OccursAt(s, sub, i) {
      assert s[1..][i - 1..i - 1 + |sub|] == s[i..i + |sub|];
      assert OccursAt(s[1..], sub, i - 1);
    }
    if i: nat :| OccursAt(s[1..], sub, i) {
      assert s[i + 1..i + 1 + |sub|] == s[1..][i..i + |sub|];
      assert OccursAt(s, sub, i + 1);
    }
  }

  // A checkout under core.autocrlf signs the image the index signs, for exactly the
  // index copies that hold no CRLF of their own.
  lemma CheckoutSignsTheSameImage(index: string)
    ensures Normalize(Checkout(index)) == Normalize(index) <==> !Contains(index, "\r\n")
  {
    NormalizeUndoesCheckout(index);
    NormalizeFixpoint(index);
  }

  // Normalising twice is normalising once for exactly the inputs without CR CR LF.
  lemma NormalizeTwice(s: string)
    ensures Normalize(Normalize(s)) == Normalize(s) <==> !Contains(s, "\r\r\n")
  {
    NormalizeFixpoint(Normalize(s));
    CrlfSurvives(s);
  }

  // The first byte out: LF when the input opens with LF or CR LF, else the input's own.
  lemma NormalizeHead(s: string)
    ensures s != "" ==> Normalize(s) != "" && Normalize(s)[0] == (if OccursAt(s, "\r\n", 0) then '\n' else s[0])
  {}

  lemma {:induction false} CrlfSurvives(s: string)
    ensures Contains(Normalize(s), "\r\n") <==> Contains(s, "\r\r\n")
  {
    CrlfAtStart(s);
    CrlfAtStart(Normalize(s));
    if s == "" {
    } else if OccursAt(s, "\r\n", 0) {
      CrlfSurvives(s[2..]);
      CrlfAtStart(s[1..]);
      assert s[1..][1..] == s[2..] && Normalize(s)[1..] == Normalize(s[2..]);
      ContainsTail(Normalize(s), "\r\n");
      ContainsTail(s, "\r\r\n");
      ContainsTail(s[1..], "\r\r\n");
    } else {
      CrlfSurvives(s[1..]);
      CrlfAtStart(s[1..]);
      NormalizeHead(s[1..]);
      assert Normalize(s)[1..] == Normalize(s[1..]);
      assert OccursAt(Normalize(s), "\r\n", 0) <==> OccursAt(s, "\r\r\n", 0);
      if !OccursAt(s, "\r\r\n", 0) {
        ContainsTail(s, "\r\r\n");
        ContainsTail(Normalize(s), "\r\n");
      }
    }
  }

  // The input that shows it is not idempotent.
  lemma NormalizeIsNotIdempotent()
    ensures Normalize(Normalize("\r\r\n")) != Normalize("\r\r\n")
  {
    assert OccursAt("\r\r\n", "\r\r\n", 0);
    NormalizeTwice("\r\r\n");
  }
}
