// Marking the changed words of a passage (internal/approvaledit/render.go) and of a
// claim field's YAML (internal/approvaledit/fields.go). Here a char is a rune.
module Marks {
  import opened GoStd

  datatype Op = Equal | Remove | Add

  datatype Part = Part(op: Op, text: string)

  // parts, when there are any, spell text (textdiff.MarkWords).
  datatype Hunk = Hunk(op: Op, text: string, parts: seq<Part>)

  const OPEN: char := '\U{E000}'
  const CLOSE: char := '\U{E001}'

  predicate SentinelFree(s: string) { OPEN !in s && CLOSE !in s }

  function TrimNewlines(s: string): string
  {
    if s != "" && s[|s| - 1] == '\n' then TrimNewlines(s[..|s| - 1]) else s
  }

  // ---- splitMarkableAt ----

  const MARKDOWN_EDGE := "*_~`[]()<>\"'\U{201C}\U{201D}\U{2018}\U{2019} \t\n\r"
  const YAML_EDGE := MARKDOWN_EDGE + "-:,"

  // The source asks about rune(b) for a BYTE b of the token, so only the one-byte members
  // of the edge set are ever found.
  predicate AtEdge(c: char, edge: string) { c as int < 128 && c in edge }

  function SkipEdge(s: string, edge: string): (k: nat)
    ensures k <= |s| && (forall i :: 0 <= i < k ==> AtEdge(s[i], edge)) && (k < |s| ==> !AtEdge(s[k], edge))
  {
    if s != "" && AtEdge(s[0], edge) then 1 + SkipEdge(s[1..], edge) else 0
  }

  // The three pieces a token divides into.
  ghost predicate IsSplit(token: string, edge: string, prefix: string, core: string, suffix: string) {
    && prefix + core + suffix == token
    && (forall i :: 0 <= i < |prefix| ==> AtEdge(prefix[i], edge))
    && (forall i :: 0 <= i < |suffix| ==> AtEdge(suffix[i], edge))
    && (core != "" ==> !AtEdge(core[0], edge) && !AtEdge(core[|core| - 1], edge))
    && (core == "" ==> suffix == "")
  }

  lemma SplitIsUnique(token: string, edge: string, p: string, c: string, s: string, p': string, c': string, s': string)
    requires IsSplit(token, edge, p, c, s) && IsSplit(token, edge, p', c', s')
    ensures p == p' && c == c' && s == s'
  {
    SplitEnds(token, edge, p, c, s);
    SplitEnds(token, edge, p', c', s');
    assert |p| == |p'|;
    var n := |token|;
    assert n - |s| == n - |s'|;
    assert p == token[..|p|] && p' == token[..|p'|];
    assert s == token[n - |s|..] && s' == token[n - |s'|..];
    assert c == token[|p|..n - |s|] && c' == token[|p'|..n - |s'|];
  }

  // Where the pieces of a split start and end, in terms of the token.
  lemma SplitEnds(token: string, edge: string, p: string, c: string, s: string)
    requires IsSplit(token, edge, p, c, s)
    ensures |p| + |c| + |s| == |token|
    ensures forall i :: 0 <= i < |p| ==> AtEdge(token[i], edge)
    ensures |p| < |token| ==> !AtEdge(token[|p|], edge) && c != ""
    ensures forall i :: |token| - |s| <= i < |token| ==> AtEdge(token[i], edge)
    ensures c != "" ==> !AtEdge(token[|token| - |s| - 1], edge)
    ensures c == "" ==> |p| == |token|
  {
    assert forall i :: 0 <= i < |p| ==> token[i] == p[i];
    assert forall i :: |token| - |s| <= i < |token| ==> token[i] == s[i - (|token| - |s|)];
    if c != "" {
      assert token[|p|] == c[0] && token[|token| - |s| - 1] == c[|c| - 1];
    }
  }

  function Split(token: string, edge: string): (string, string, string) {
    var k := SkipEdge(token, edge);
    var rest := token[k..];
    var m := |rest| - LastCore(rest, edge);
    (token[..k], rest[..|rest| - m], rest[|rest| - m..])
  }

  // The length of s without the edge characters it ends on.
  function LastCore(s: string, edge: string): (k: nat)
    ensures k <= |s| && (forall i :: k <= i < |s| ==> AtEdge(s[i], edge)) && (k > 0 ==> !AtEdge(s[k - 1], edge))
  {
    if s != "" && AtEdge(s[|s| - 1], edge) then LastCore(s[..|s| - 1], edge) else |s|
  }

  lemma SplitReassembles(token: string, edge: string)
    ensures var (p, c, s) := Split(token, edge); IsSplit(token, edge, p, c, s)
  {
    var k := SkipEdge(token, edge);
    var rest := token[k..];
    var m := LastCore(rest, edge);
    assert token[..k] + rest[..m] + rest[m..] == token;
    if rest != "" { assert rest[0] == token[k] && !AtEdge(rest[0], edge); }
  }

  // The source's two shrinking loops.
  method SplitMarkableAt(token: string, edge: string) returns (prefix: string, core: string, suffix: string)
    ensures (prefix, core, suffix) == Split(token, edge)
    ensures prefix + core + suffix == token
  {
    prefix, core, suffix := "", token, "";
    while core != "" && AtEdge(core[0], edge)
      invariant prefix + core == token
      invariant forall i :: 0 <= i < |prefix| ==> AtEdge(prefix[i], edge)
      decreases |core|
    {
      prefix, core := prefix + core[..1], core[1..];
    }
    while core != "" && AtEdge(core[|core| - 1], edge)
      invariant prefix + core + suffix == token
      invariant forall i :: 0 <= i < |suffix| ==> AtEdge(suffix[i], edge)
      invariant core != "" ==> !AtEdge(core[0], edge)
      invariant core == "" ==> suffix == ""
      decreases |core|
    {
      suffix, core := core[|core| - 1..] + suffix, core[..|core| - 1];
    }
    SplitReassembles(token, edge);
    var s := Split(token, edge);
    SplitIsUnique(token, edge, prefix, core, suffix, s.0, s.1, s.2);
  }

  // Curly quotes are listed in the edge set but stay inside the mark.
  lemma CurlyQuotesStay()
    ensures '\U{201C}' in MARKDOWN_EDGE && Split("\U{201C}no\U{201D}", MARKDOWN_EDGE).1 == "\U{201C}no\U{201D}"
  {}

  // The edges are these characters, in the claim fields' YAML three more, and no others.
  lemma EdgesAre(c: char)
    ensures AtEdge(c, MARKDOWN_EDGE) <==> c in "*_~`[]()<>\"' \t\n\r"
    ensures AtEdge(c, YAML_EDGE) <==> AtEdge(c, MARKDOWN_EDGE) || c == '-' || c == ':' || c == ','
  {
    assert YAML_EDGE == MARKDOWN_EDGE + "-:,";
  }

  // ---- substituteMarks ----

  function SpanOpen(op: Op): string {
    "<span class=\"claim-edit-word claim-edit-word--" + (if op == Add then "added" else "removed") + "\">"
  }

  const SPAN_CLOSE := "</span>"

  // An added word and a removed one are told apart by their class.
  lemma SpanClasses()
    ensures SpanOpen(Add) == "<span class=\"claim-edit-word claim-edit-word--added\">"
    ensures SpanOpen(Remove) == "<span class=\"claim-edit-word claim-edit-word--removed\">"
  {
  }

  // The scan from a state; None is the refusal.
  function Substitute(s: string, inTag: bool, inMark: bool, span: string): Option<string> {
    if s == "" then if inMark then None else Some("")
    else
      var c := s[0];
      if c == OPEN && (inTag || inMark) then None
      else if c == CLOSE && (inTag || !inMark) then None
      else
        var tag := if c == '<' then true else if c == '>' then false else inTag;
        var mark := if c == OPEN then true else if c == CLOSE then false else inMark;
        match Substitute(s[1..], tag, mark, span)
        case None => None
        case Some(rest) => Some((if c == OPEN then span else if c == CLOSE then SPAN_CLOSE else [c]) + rest)
  }

  method SubstituteMarks(rendered: string, op: Op) returns (out: string, ok: bool)
    ensures Substitute(rendered, false, false, SpanOpen(op)) == if ok then Some(out) else None
  {
    var span := SpanOpen(op);
    ghost var whole := Substitute(rendered, false, false, span);
    out := "";
    var inTag, inMark := false, false;
    assert rendered[0..] == rendered;
    assert whole.Some? ==> "" + whole.value == whole.value;
    for i := 0 to |rendered|
      invariant whole == match Substitute(rendered[i..], inTag, inMark, span)
                         case None => None case Some(rest) => Some(out + rest)
    {
      var r := rendered[i];
      assert rendered[i..][1..] == rendered[i + 1..];
      ghost var before := out;
      if r == '<' {
        inTag := true;
        out := out + [r];
      } else if r == '>' {
        inTag := false;
        out := out + [r];
      } else if r == OPEN {
        if inTag || inMark { return "", false; }
        inMark := true;
        out := out + span;
      } else if r == CLOSE {
        if inTag || !inMark { return "", false; }
        inMark := false;
        out := out + SPAN_CLOSE;
      } else {
        out := out + [r];
      }
      assert forall rest: string {:trigger out + rest} ::
        before + ((if r == OPEN then span else if r == CLOSE then SPAN_CLOSE else [r]) + rest) == out + rest;
    }
    if inMark { return "", false; }
    ok := true;
    assert out + "" == out;
  }

  // ---- the shape of marked-up text ----

  // Segments (gap, inner) woven with an opening and a closing string, then the tail.
  function Weave(segs: seq<(string, string)>, tail: string, open: string, close: string): string {
    if segs == [] then tail
    else segs[0].0 + (open + (segs[0].1 + (close + Weave(segs[1..], tail, open, close))))
  }

  // Whether a scan that starts inside a tag or not ends inside one.
  function TagAfter(s: string, inTag: bool): bool {
    if s == "" then inTag
    else TagAfter(s[1..], if s[0] == '<' then true else if s[0] == '>' then false else inTag)
  }

  // Every cut falls in text, outside any tag, and no sentinel is left in a piece.
  ghost predicate WellCut(segs: seq<(string, string)>, tail: string, inTag: bool) {
    if segs == [] then SentinelFree(tail)
    else
      && SentinelFree(segs[0].0) && SentinelFree(segs[0].1)
      && !TagAfter(segs[0].0, inTag) && !TagAfter(segs[0].1, false)
      && WellCut(segs[1..], tail, false)
  }

  // out is plain with n balanced, un-nested spans around stretches of it, each opened
  // and closed outside any tag.
  ghost predicate IsMarkedUp(out: string, plain: string, op: Op, n: nat) {
    exists segs, tail :: WellCut(segs, tail, false) && |segs| == n
      && plain == Weave(segs, tail, "", "") && out == Weave(segs, tail, SpanOpen(op), SPAN_CLOSE)
  }

  function Strip(s: string): string {
    if s == "" then "" else (if s[0] == OPEN || s[0] == CLOSE then "" else [s[0]]) + Strip(s[1..])
  }

  lemma {:induction false} ScanSegment(a: string, rest: string, inTag: bool, inMark: bool, span: string)
    requires SentinelFree(a)
    ensures Substitute(a + rest, inTag, inMark, span) ==
      match Substitute(rest, TagAfter(a, inTag), inMark, span) case None => None case Some(t) => Some(a + t)
  {
    if a == "" {
      assert a + rest == rest;
      match Substitute(rest, inTag, inMark, span) { case None => case Some(t) => assert a + t == t; }
    } else {
      var tag := if a[0] == '<' then true else if a[0] == '>' then false else inTag;
      assert (a + rest)[1..] == a[1..] + rest;
      ScanSegment(a[1..], rest, tag, inMark, span);
      match Substitute(rest, TagAfter(a, inTag), inMark, span) {
        case None =>
        case Some(t) => assert [a[0]] + (a[1..] + t) == a + t;
      }
    }
  }

  // A well-cut weave of sentinels is accepted, and becomes the weave of spans.
  lemma {:induction false} WeaveIsAccepted(segs: seq<(string, string)>, tail: string, inTag: bool, span: string)
    requires WellCut(segs, tail, inTag)
    ensures Substitute(Weave(segs, tail, [OPEN], [CLOSE]), inTag, false, span) ==
      Some(Weave(segs, tail, span, SPAN_CLOSE))
  {
    if segs == [] {
      ScanSegment(tail, "", inTag, false, span);
      assert tail + "" == tail;
    } else {
      var next := Weave(segs[1..], tail, [OPEN], [CLOSE]);
      WeaveIsAccepted(segs[1..], tail, false, span);
      var afterInner := [CLOSE] + next;
      assert afterInner[1..] == next;
      ScanSegment(segs[0].1, afterInner, false, true, span);
      var afterGap := [OPEN] + (segs[0].1 + afterInner);
      assert afterGap[1..] == segs[0].1 + afterInner;
      ScanSegment(segs[0].0, afterGap, inTag, false, span);
    }
  }

  // The first sentinel of s, or its end.
  function FirstSentinel(s: string): (k: nat)
    ensures k <= |s| && SentinelFree(s[..k]) && (k < |s| ==> s[k] == OPEN || s[k] == CLOSE)
  {
    if s == "" || s[0] == OPEN || s[0] == CLOSE then 0
    else
      var k := 1 + FirstSentinel(s[1..]);
      assert s[..k] == [s[0]] + s[1..][..k - 1];
      k
  }

  // Up to the first sentinel, which must then be an opening one met in text.
  lemma CutAtOpen(s: string, inTag: bool, span: string) returns (a: string, rest: string)
    requires Substitute(s, inTag, false, span).Some?
    ensures SentinelFree(a) && s == a + rest
    ensures rest != "" ==> rest[0] == OPEN && !TagAfter(a, inTag) && Substitute(rest[1..], false, true, span).Some?
  {
    var k := FirstSentinel(s);
    a, rest := s[..k], s[k..];
    ScanSegment(a, rest, inTag, false, span);
  }

  lemma CutAtClose(s: string, span: string) returns (a: string, rest: string)
    requires Substitute(s, false, true, span).Some?
    ensures SentinelFree(a) && !TagAfter(a, false)
    ensures s == a + ([CLOSE] + rest) && Substitute(rest, false, false, span).Some?
  {
    var k := FirstSentinel(s);
    a := s[..k];
    ScanSegment(a, s[k..], false, true, span);
    assert s == a + s[k..];
    rest := s[k..][1..];
  }

  // Whatever the scan accepts is a well-cut weave of sentinels.
  lemma {:induction false} AcceptedIsWeave(s: string, inTag: bool, span: string)
    returns (segs: seq<(string, string)>, tail: string)
    requires Substitute(s, inTag, false, span).Some?
    ensures WellCut(segs, tail, inTag) && s == Weave(segs, tail, [OPEN], [CLOSE])
    decreases |s|
  {
    var gap, marked := CutAtOpen(s, inTag, span);
    if marked == "" {
      segs, tail := [], gap;
      assert gap + "" == gap;
    } else {
      var inner, next := CutAtClose(marked[1..], span);
      assert marked == [OPEN] + marked[1..];
      var rest: seq<(string, string)>;
      rest, tail := AcceptedIsWeave(next, false, span);
      segs := [(gap, inner)] + rest;
      assert segs[1..] == rest;
    }
  }

  lemma {:induction false} StripConcat(a: string, b: string)
    ensures Strip(a + b) == Strip(a) + Strip(b)
  {
    if a == "" {
      assert a + b == b && "" + Strip(b) == Strip(b);
    } else {
      StripConcat(a[1..], b);
      assert (a + b)[1..] == a[1..] + b && (a + b)[0] == a[0];
      var front := if a[0] == OPEN || a[0] == CLOSE then "" else [a[0]];
      assert front + (Strip(a[1..]) + Strip(b)) == (front + Strip(a[1..])) + Strip(b);
    }
  }

  lemma {:induction false} StripFree(a: string)
    requires SentinelFree(a)
    ensures Strip(a) == a
  {
    if a == "" {
    } else {
      assert a[0] in a && SentinelFree(a[1..]);
      StripFree(a[1..]);
    }
  }

  lemma StripPiece(a: string, mark: char, rest: string)
    requires SentinelFree(a) && (mark == OPEN || mark == CLOSE)
    ensures Strip(a + ([mark] + rest)) == a + Strip(rest)
  {
    StripConcat(a, [mark] + rest);
    StripFree(a);
    assert ([mark] + rest)[1..] == rest;
  }

  // Removing the sentinels of a weave leaves its pieces, and there is one pair a segment.
  lemma {:induction false} StripWeave(segs: seq<(string, string)>, tail: string, inTag: bool)
    requires WellCut(segs, tail, inTag)
    ensures Strip(Weave(segs, tail, [OPEN], [CLOSE])) == Weave(segs, tail, "", "")
  {
    if segs == [] {
      StripFree(tail);
    } else {
      var next := Weave(segs[1..], tail, [OPEN], [CLOSE]);
      StripWeave(segs[1..], tail, false);
      StripPiece(segs[0].0, OPEN, segs[0].1 + ([CLOSE] + next));
      StripPiece(segs[0].1, CLOSE, next);
      var bare := Weave(segs[1..], tail, "", "");
      assert "" + (segs[0].1 + ("" + bare)) == segs[0].1 + bare;
    }
  }

  // How many opening sentinels a rendering carries.
  function CountOpen(s: string): nat { multiset(s)[OPEN] }

  lemma {:induction false} WeaveCount(segs: seq<(string, string)>, tail: string, inTag: bool)
    requires WellCut(segs, tail, inTag)
    ensures CountOpen(Weave(segs, tail, [OPEN], [CLOSE])) == |segs|
  {
    if segs == [] {
      assert OPEN !in multiset(tail);
    } else {
      var next := Weave(segs[1..], tail, [OPEN], [CLOSE]);
      WeaveCount(segs[1..], tail, false);
      var a, b := segs[0].0, segs[0].1;
      assert OPEN !in multiset(a) && OPEN !in multiset(b);
      assert multiset(a + ([OPEN] + (b + ([CLOSE] + next))))
          == multiset(a) + multiset([OPEN]) + multiset(b) + multiset([CLOSE]) + multiset(next);
    }
  }

  // ---- RenderPassageWith ----

  // The source with sentinels put around the core of each changed word.
  function MarkPart(p: Part, edge: string, esc: string -> string): string {
    var (prefix, core, suffix) := Split(p.text, edge);
    if p.op == Equal || core == "" then esc(p.text)
    else esc(prefix) + ([OPEN] + (esc(core) + ([CLOSE] + esc(suffix))))
  }

  function Marked(parts: seq<Part>, edge: string, esc: string -> string): string {
    if parts == [] then "" else MarkPart(parts[0], edge, esc) + Marked(parts[1..], edge, esc)
  }

  // The words a reader is told changed, in order.
  function Cores(parts: seq<Part>, edge: string): seq<string> {
    if parts == [] then []
    else
      var core := Split(parts[0].text, edge).1;
      (if parts[0].op == Equal || core == "" then [] else [core]) + Cores(parts[1..], edge)
  }

  function Plain(s: string): string { s }

  function WithMarks(h: Hunk, render: string -> string): string {
    render(TrimNewlines(Marked(h.parts, MARKDOWN_EDGE, Plain)))
  }

  function RenderPassage(h: Hunk, render: string -> string): (string, seq<string>) {
    var plain := render(TrimNewlines(h.text));
    var withMarks := WithMarks(h, render);
    if h.parts == [] || Strip(withMarks) != plain then (plain, [])
    else
      match Substitute(withMarks, false, false, SpanOpen(h.op))
      case None => (plain, [])
      case Some(out) => (out, Cores(h.parts, MARKDOWN_EDGE))
  }

  // The source's builder loop, shared by both clients.
  method BuildMarked(parts: seq<Part>, edge: string, esc: string -> string)
    returns (marked: string, changed: seq<string>)
    ensures marked == Marked(parts, edge, esc) && changed == Cores(parts, edge)
  {
    hide Marked, Cores;
    marked, changed := "", [];
    assert parts[0..] == parts && "" + Marked(parts, edge, esc) == Marked(parts, edge, esc)
      && [] + Cores(parts, edge) == Cores(parts, edge);
    for i := 0 to |parts|
      invariant marked + Marked(parts[i..], edge, esc) == Marked(parts, edge, esc)
      invariant changed + Cores(parts[i..], edge) == Cores(parts, edge)
    {
      var part := parts[i];
      BuildStep(parts, i, edge, esc, marked, changed);
      if part.op == Equal {
        marked := marked + esc(part.text);
      } else {
        var prefix, core, suffix := SplitMarkableAt(part.text, edge);
        if core == "" {
          marked := marked + esc(part.text);
        } else {
          marked := marked + (esc(prefix) + ([OPEN] + (esc(core) + ([CLOSE] + esc(suffix)))));
          changed := changed + [core];
        }
      }
    }
    assert parts[|parts|..] == [] && marked + "" == marked && changed + [] == changed;
    BuildNothing(edge, esc);
  }

  lemma BuildNothing(edge: string, esc: string -> string)
    ensures Marked([], edge, esc) == "" && Cores([], edge) == []
  {
  }

  lemma BuildStep(parts: seq<Part>, i: nat, edge: string, esc: string -> string, marked: string, changed: seq<string>)
    requires i < |parts|
    ensures marked + Marked(parts[i..], edge, esc)
         == (marked + MarkPart(parts[i], edge, esc)) + Marked(parts[i + 1..], edge, esc)
    ensures changed + Cores(parts[i..], edge)
         == (if parts[i].op == Equal || Split(parts[i].text, edge).1 == "" then changed
             else changed + [Split(parts[i].text, edge).1]) + Cores(parts[i + 1..], edge)
  {
    hide Split, MarkPart;
    assert parts[i..][1..] == parts[i + 1..] && parts[i..][0] == parts[i];
    var rest := Marked(parts[i + 1..], edge, esc);
    assert marked + (MarkPart(parts[i], edge, esc) + rest) == (marked + MarkPart(parts[i], edge, esc)) + rest;
  }

  method RenderPassageWith(h: Hunk, render: string -> string) returns (rendered: string, changed: seq<string>)
    ensures (rendered, changed) == RenderPassage(h, render)
  {
    var text := TrimNewlines(h.text);
    if |h.parts| == 0 { return render(text), []; }
    var marked, words := BuildMarked(h.parts, MARKDOWN_EDGE, Plain);
    var plain := render(text);
    var withMarks := render(TrimNewlines(marked));
    if Strip(withMarks) != plain { return plain, []; }
    var out, ok := SubstituteMarks(withMarks, h.op);
    if !ok { return plain, []; }
    return out, words;
  }

  // THE MARKS NEVER CHANGE THE PROSE, whatever the renderer does with the sentinels: the
  // passage is the plain render, or the plain render with one span per sentinel pair the
  // renderer carried through, each opened and closed in text.
  lemma MarksNeverChangeTheProse(h: Hunk, render: string -> string)
    ensures var (out, changed) := RenderPassage(h, render);
            var plain := render(TrimNewlines(h.text));
            || (out == plain && changed == [])
            || (changed == Cores(h.parts, MARKDOWN_EDGE)
                && IsMarkedUp(out, plain, h.op, CountOpen(render(TrimNewlines(Marked(h.parts, MARKDOWN_EDGE, Plain))))))
  {
    var plain, withMarks := render(TrimNewlines(h.text)), WithMarks(h, render);
    if h.parts != [] && Strip(withMarks) == plain && Substitute(withMarks, false, false, SpanOpen(h.op)).Some? {
      var segs, tail := AcceptedIsWeave(withMarks, false, SpanOpen(h.op));
      WeaveIsAccepted(segs, tail, false, SpanOpen(h.op));
      StripWeave(segs, tail, false);
      WeaveCount(segs, tail, false);
    }
  }

  // The marks are drawn exactly when the render, sentinels removed, is the plain render
  // and its sentinels pair up in text.
  lemma MarksAreDrawnIff(h: Hunk, render: string -> string)
    requires h.parts != [] && Cores(h.parts, MARKDOWN_EDGE) != []
    ensures RenderPassage(h, render).1 != [] <==>
      exists segs, tail :: WellCut(segs, tail, false)
        && render(TrimNewlines(Marked(h.parts, MARKDOWN_EDGE, Plain))) == Weave(segs, tail, [OPEN], [CLOSE])
        && render(TrimNewlines(h.text)) == Weave(segs, tail, "", "")
  {
    var plain, withMarks := render(TrimNewlines(h.text)), WithMarks(h, render);
    if RenderPassage(h, render).1 != [] {
      var segs, tail := AcceptedIsWeave(withMarks, false, SpanOpen(h.op));
      StripWeave(segs, tail, false);
    }
    if segs, tail :| WellCut(segs, tail, false) && withMarks == Weave(segs, tail, [OPEN], [CLOSE])
                     && plain == Weave(segs, tail, "", "") {
      WeaveIsAccepted(segs, tail, false, SpanOpen(h.op));
      StripWeave(segs, tail, false);
    }
  }

  lemma {:induction false} MarkedCount(parts: seq<Part>)
    requires SentinelFree(Texts(parts))
    ensures CountOpen(Marked(parts, MARKDOWN_EDGE, Plain)) == |Cores(parts, MARKDOWN_EDGE)|
  {
    if parts == [] {
    } else {
      TextsFree(parts);
      MarkedCount(parts[1..]);
      var (prefix, core, suffix) := Split(parts[0].text, MARKDOWN_EDGE);
      SplitReassembles(parts[0].text, MARKDOWN_EDGE);
      FreePieces(prefix, core, suffix);
      CountNone(parts[0].text);
      CountNone(prefix);
      CountNone(core);
      CountNone(suffix);
    }
  }

  lemma CountNone(s: string)
    requires SentinelFree(s)
    ensures CountOpen(s) == 0
  {
    assert OPEN !in multiset(s);
  }

  lemma {:induction false} TrimKeepsCount(s: string)
    ensures CountOpen(TrimNewlines(s)) == CountOpen(s)
  {
    if s != "" && s[|s| - 1] == '\n' {
      TrimKeepsCount(s[..|s| - 1]);
      assert s == s[..|s| - 1] + "\n";
    }
  }

  // With a renderer that carries each sentinel through, a drawn passage has exactly one
  // span per changed word.
  lemma OneSpanPerWord(h: Hunk, render: string -> string)
    requires Texts(h.parts) == h.text && SentinelFree(h.text)
    requires RenderPassage(h, render).1 != []
    requires var marked := TrimNewlines(Marked(h.parts, MARKDOWN_EDGE, Plain));
      CountOpen(render(marked)) == CountOpen(marked)
    ensures var (out, changed) := RenderPassage(h, render);
            IsMarkedUp(out, render(TrimNewlines(h.text)), h.op, |changed|)
  {
    MarksNeverChangeTheProse(h, render);
    TrimKeepsCount(Marked(h.parts, MARKDOWN_EDGE, Plain));
    MarkedCount(h.parts);
  }

  // ---- renderFieldHunk ----

  function EscapeChar(c: char): string {
    if c == '&' then "&amp;"
    else if c == '\'' then "&#39;"
    else if c == '<' then "&lt;"
    else if c == '>' then "&gt;"
    else if c == '"' then "&#34;"
    else [c]
  }

  function Escape(s: string): string { Expand(s, EscapeChar) }

  function RenderField(h: Hunk): (string, seq<string>) {
    var plain := Escape(TrimNewlines(h.text));
    if h.parts == [] then (plain, [])
    else
      match Substitute(TrimNewlines(Marked(h.parts, YAML_EDGE, Escape)), false, false, SpanOpen(h.op))
      case None => (plain, [])
      case Some(out) => (out, Cores(h.parts, YAML_EDGE))
  }

  method RenderFieldHunk(h: Hunk) returns (rendered: string, changed: seq<string>)
    ensures (rendered, changed) == RenderField(h)
  {
    var text := TrimNewlines(h.text);
    if |h.parts| == 0 { return Escape(text), []; }
    var marked, words := BuildMarked(h.parts, YAML_EDGE, Escape);
    var out, ok := SubstituteMarks(TrimNewlines(marked), h.op);
    if !ok { return Escape(text), []; }
    return out, words;
  }

  // html.EscapeString's five, and everything else as it is.
  lemma EscapesExactly(c: char)
    ensures EscapeChar('&') == "&amp;" && EscapeChar('<') == "&lt;" && EscapeChar('>') == "&gt;"
    ensures EscapeChar('\'') == "&#39;" && EscapeChar('"') == "&#34;"
    ensures c !in "&<>'\"" ==> EscapeChar(c) == [c]
  {
  }

  // A browser's reading of those five.
  function Unescape(s: string): string {
    if s == "" then ""
    else if OccursAt(s, "&amp;", 0) then "&" + Unescape(s[5..])
    else if OccursAt(s, "&lt;", 0) then "<" + Unescape(s[4..])
    else if OccursAt(s, "&gt;", 0) then ">" + Unescape(s[4..])
    else if OccursAt(s, "&#39;", 0) then "'" + Unescape(s[5..])
    else if OccursAt(s, "&#34;", 0) then "\"" + Unescape(s[5..])
    else [s[0]] + Unescape(s[1..])
  }

  lemma UnescapeOne(c: char, rest: string)
    ensures Unescape(EscapeChar(c) + rest) == [c] + Unescape(rest)
  {
    var s := EscapeChar(c) + rest;
    assert s[|EscapeChar(c)|..] == rest && s[..|EscapeChar(c)|] == EscapeChar(c);
    assert s[0] == EscapeChar(c)[0];
    forall e | e in {"&amp;", "&lt;", "&gt;", "&#39;", "&#34;"} && OccursAt(s, e, 0)
      ensures c in "&<>'\"" && s[1] == e[1] && s[2] == e[2]
    {
      assert s[0..|e|][0] == e[0] && s[0..|e|][1] == e[1] && s[0..|e|][2] == e[2];
    }
  }

  // What the field shows is what it holds.
  lemma {:induction false} EscapeReadsBack(s: string)
    ensures Unescape(Escape(s)) == s
  {
    if s == "" {
    } else {
      EscapeReadsBack(s[1..]);
      UnescapeOne(s[0], Escape(s[1..]));
      assert s == [s[0]] + s[1..];
    }
  }

  // The line breaks a text ends on, and nothing else, come off.
  lemma {:induction false} TrimTakesNewlines(s: string)
    ensures var t := TrimNewlines(s);
      && |t| <= |s| && t == s[..|t|] && (forall i :: |t| <= i < |s| ==> s[i] == '\n')
      && (t != "" ==> t[|t| - 1] != '\n')
  {
    if s == "" || s[|s| - 1] != '\n' {
    } else {
      TrimTakesNewlines(s[..|s| - 1]);
    }
  }

  // A field the word diff has nothing to say of is shown whole.
  lemma PlainFieldIsShown(h: Hunk)
    requires h.parts == []
    ensures RenderField(h) == (Escape(TrimNewlines(h.text)), [])
  {
  }

  lemma EscapeConcat(a: string, b: string)
    ensures Escape(a + b) == Escape(a) + Escape(b)
  {
    ExpandConcat(a, b, EscapeChar);
  }

  // No tag and no sentinel in the text.
  ghost predicate Tame(s: string) { SentinelFree(s) && '<' !in s && '>' !in s }

  lemma {:induction false} EscapeIsTame(a: string)
    requires SentinelFree(a)
    ensures Tame(Escape(a))
  {
    if a == "" {
    } else {
      assert a[0] in a && SentinelFree(a[1..]);
      EscapeIsTame(a[1..]);
    }
  }

  lemma {:induction false} EscapeEnds(a: string)
    requires a != ""
    ensures Escape(a) != "" && (Escape(a)[|Escape(a)| - 1] == '\n' <==> a[|a| - 1] == '\n')
  {
    if |a| == 1 {
      assert a[1..] == "" && Expand("", EscapeChar) == "";
      assert Escape(a) == EscapeChar(a[0]) + "" == EscapeChar(a[0]);
    } else {
      EscapeEnds(a[1..]);
    }
  }

  lemma {:induction false} NoTagNoChange(s: string, inTag: bool)
    requires '<' !in s && '>' !in s
    ensures TagAfter(s, inTag) == inTag
  {
    if s == "" {
    } else {
      NoTagNoChange(s[1..], inTag);
    }
  }

  lemma {:induction false} TrimSuffix(x: string, t: string)
    requires x == "" || x[|x| - 1] != '\n'
    ensures TrimNewlines(x + t) == x + TrimNewlines(t)
  {
    if t == "" {
      assert x + t == x;
    } else if t[|t| - 1] == '\n' {
      TrimSuffix(x, t[..|t| - 1]);
      assert (x + t)[..|x + t| - 1] == x + t[..|t| - 1];
    }
  }

  lemma EscapeNewline()
    ensures Escape("\n") == "\n"
  {
    assert "\n"[1..] == "" && Expand("", EscapeChar) == "";
  }

  lemma {:induction false} TrimEscape(s: string)
    ensures TrimNewlines(Escape(s)) == Escape(TrimNewlines(s))
  {
    if s == "" {
    } else {
      EscapeEnds(s);
      if s[|s| - 1] == '\n' {
        var t := s[..|s| - 1];
        TrimEscape(t);
        hide Expand, EscapeChar;
        assert s == t + "\n" && "\n"[1..] == "";
        EscapeConcat(t, "\n");
        EscapeNewline();
        assert Escape(s)[..|Escape(s)| - 1] == Escape(t);
      }
    }
  }

  function Texts(parts: seq<Part>): string {
    if parts == [] then "" else parts[0].text + Texts(parts[1..])
  }

  // The pieces of a marked field, with the gap before the first mark so far in `gap`.
  function FieldCut(parts: seq<Part>, gap: string): (seq<(string, string)>, string) {
    if parts == [] then ([], gap)
    else
      var (prefix, core, suffix) := Split(parts[0].text, YAML_EDGE);
      if parts[0].op == Equal || core == "" then FieldCut(parts[1..], gap + Escape(parts[0].text))
      else
        var (segs, tail) := FieldCut(parts[1..], Escape(suffix));
        ([(gap + Escape(prefix), Escape(core))] + segs, tail)
  }

  // What FieldCut promises of a marked field whose escaped text starts with `gap`.
  ghost predicate CutsField(parts: seq<Part>, gap: string, segs: seq<(string, string)>, tail: string) {
    && WellCut(segs, tail, false) && Tame(tail)
    && gap + Marked(parts, YAML_EDGE, Escape) == Weave(segs, tail, [OPEN], [CLOSE])
    && gap + Escape(Texts(parts)) == Weave(segs, tail, "", "")
    && InnersAre(segs, Cores(parts, YAML_EDGE))
  }

  ghost predicate InnersAre(segs: seq<(string, string)>, words: seq<string>) {
    |segs| == |words| && forall k :: 0 <= k < |segs| ==> segs[k].1 == Escape(words[k])
  }

  lemma {:induction false} FieldCutIsMarked(parts: seq<Part>, gap: string)
    requires SentinelFree(Texts(parts)) && Tame(gap)
    ensures CutsField(parts, gap, FieldCut(parts, gap).0, FieldCut(parts, gap).1)
    decreases |parts|
  {
    if parts == [] {
      assert gap + "" == gap && Expand("", EscapeChar) == "";
    } else {
      var (prefix, core, suffix) := Split(parts[0].text, YAML_EDGE);
      TextsFree(parts);
      if parts[0].op == Equal || core == "" {
        EscapeIsTame(parts[0].text);
        FieldCutIsMarked(parts[1..], gap + Escape(parts[0].text));
        FieldCutPlain(parts, gap, FieldCut(parts, gap).0, FieldCut(parts, gap).1);
      } else {
        SplitReassembles(parts[0].text, YAML_EDGE);
        FreePieces(prefix, core, suffix);
        EscapeIsTame(suffix);
        FieldCutIsMarked(parts[1..], Escape(suffix));
        FieldCutMark(parts, gap, FieldCut(parts[1..], Escape(suffix)).0, FieldCut(parts[1..], Escape(suffix)).1);
      }
    }
  }

  lemma TextsFree(parts: seq<Part>)
    requires parts != [] && SentinelFree(Texts(parts))
    ensures SentinelFree(parts[0].text) && SentinelFree(Texts(parts[1..]))
  {
    assert Texts(parts) == parts[0].text + Texts(parts[1..]);
  }

  lemma FreePieces(a: string, b: string, c: string)
    requires SentinelFree(a + b + c)
    ensures SentinelFree(a) && SentinelFree(b) && SentinelFree(c)
  {}

  // The step that only lengthens the gap.
  lemma FieldCutPlain(parts: seq<Part>, gap: string, segs: seq<(string, string)>, tail: string)
    requires parts != [] && (parts[0].op == Equal || Split(parts[0].text, YAML_EDGE).1 == "")
    requires CutsField(parts[1..], gap + Escape(parts[0].text), segs, tail)
    ensures CutsField(parts, gap, segs, tail)
  {
    var p, rest := parts[0], parts[1..];
    EscapeConcat(p.text, Texts(rest));
    Associate(gap, Escape(p.text), Marked(rest, YAML_EDGE, Escape));
    Associate(gap, Escape(p.text), Escape(Texts(rest)));
    assert [] + Cores(rest, YAML_EDGE) == Cores(rest, YAML_EDGE);
  }

  lemma Associate(a: string, b: string, c: string)
    ensures a + b + c == a + (b + c)
  {}

  // The step that adds a mark.
  lemma FieldCutMark(parts: seq<Part>, gap: string, segs: seq<(string, string)>, tail: string)
    requires parts != [] && SentinelFree(parts[0].text) && Tame(gap)
    requires parts[0].op != Equal && Split(parts[0].text, YAML_EDGE).1 != ""
    requires CutsField(parts[1..], Escape(Split(parts[0].text, YAML_EDGE).2), segs, tail)
    ensures var (prefix, core, suffix) := Split(parts[0].text, YAML_EDGE);
            CutsField(parts, gap, [(gap + Escape(prefix), Escape(core))] + segs, tail)
  {
    var (prefix, core, suffix) := Split(parts[0].text, YAML_EDGE);
    SplitReassembles(parts[0].text, YAML_EDGE);
    FreePieces(prefix, core, suffix);
    EscapeIsTame(prefix);
    EscapeIsTame(core);
    AddSegment(gap + Escape(prefix), Escape(core), segs, tail, Cores(parts[1..], YAML_EDGE), core);
    MarkedText(parts, gap, prefix, core, suffix);
    PlainText(parts, gap, prefix, core, suffix);
  }

  lemma AddSegment(a: string, b: string, segs: seq<(string, string)>, tail: string, words: seq<string>, core: string)
    requires Tame(a) && Tame(b) && b == Escape(core) && WellCut(segs, tail, false) && InnersAre(segs, words)
    ensures var all := [(a, b)] + segs;
      && WellCut(all, tail, false) && InnersAre(all, [core] + words)
      && forall open: string, close: string {:trigger Weave(all, tail, open, close)} ::
           Weave(all, tail, open, close) == a + (open + (b + (close + Weave(segs, tail, open, close))))
  {
    NoTagNoChange(a, false);
    NoTagNoChange(b, false);
    var all := [(a, b)] + segs;
    assert all[1..] == segs;
    assert forall k :: 0 < k < |all| ==> all[k] == segs[k - 1] && ([core] + words)[k] == words[k - 1];
  }

  lemma MarkedText(parts: seq<Part>, gap: string, prefix: string, core: string, suffix: string)
    requires parts != [] && parts[0].op != Equal && core != ""
    requires (prefix, core, suffix) == Split(parts[0].text, YAML_EDGE)
    ensures gap + Marked(parts, YAML_EDGE, Escape) == (gap + Escape(prefix))
      + ([OPEN] + (Escape(core) + ([CLOSE] + (Escape(suffix) + Marked(parts[1..], YAML_EDGE, Escape)))))
  {
    Regroup(gap, Escape(prefix), [OPEN], Escape(core), [CLOSE], Escape(suffix), Marked(parts[1..], YAML_EDGE, Escape));
  }

  lemma PlainText(parts: seq<Part>, gap: string, prefix: string, core: string, suffix: string)
    requires parts != [] && prefix + core + suffix == parts[0].text
    ensures gap + Escape(Texts(parts)) == (gap + Escape(prefix))
      + ("" + (Escape(core) + ("" + (Escape(suffix) + Escape(Texts(parts[1..]))))))
  {
    EscapeConcat(prefix + core + suffix, Texts(parts[1..]));
    EscapeConcat(prefix + core, suffix);
    EscapeConcat(prefix, core);
    Pieces(gap, Escape(prefix), Escape(core), Escape(suffix), Escape(Texts(parts[1..])));
  }

  lemma Pieces(gap: string, a: string, b: string, c: string, rest: string)
    ensures gap + (a + b + c + rest) == (gap + a) + ("" + (b + ("" + (c + rest))))
  {
    assert "" + (c + rest) == c + rest;
    assert "" + (b + (c + rest)) == b + (c + rest);
    assert a + b + c + rest == a + (b + (c + rest));
  }

  lemma Regroup(gap: string, a: string, open: string, b: string, close: string, c: string, rest: string)
    ensures gap + ((a + (open + (b + (close + c)))) + rest) == (gap + a) + (open + (b + (close + (c + rest))))
  {
    assert (a + (open + (b + (close + c)))) + rest == a + (open + (b + (close + (c + rest))));
  }

  lemma {:induction false} TrimWeave(segs: seq<(string, string)>, tail: string, open: string, close: string)
    requires segs != []
    requires var last := segs[|segs| - 1].1 + close; last != "" && last[|last| - 1] != '\n'
    ensures TrimNewlines(Weave(segs, tail, open, close)) == Weave(segs, TrimNewlines(tail), open, close)
  {
    var head := segs[0].0 + (open + (segs[0].1 + close));
    WeaveHead(segs, tail, open, close);
    WeaveHead(segs, TrimNewlines(tail), open, close);
    hide Weave;
    if |segs| == 1 {
      assert head[|head| - 1] == (segs[0].1 + close)[|segs[0].1 + close| - 1];
      TrimSuffix(head, tail);
      WeaveNone(tail, open, close);
      WeaveNone(TrimNewlines(tail), open, close);
    } else {
      TrimWeave(segs[1..], tail, open, close);
      TrimAfter(head, Weave(segs[1..], tail, open, close));
      WeaveKeepsText(segs[1..], tail, open, close);
    }
  }

  lemma WeaveHead(segs: seq<(string, string)>, tail: string, open: string, close: string)
    requires segs != []
    ensures Weave(segs, tail, open, close) ==
      (segs[0].0 + (open + (segs[0].1 + close))) + Weave(segs[1..], tail, open, close)
  {
    var rest := Weave(segs[1..], tail, open, close);
    assert segs[0].0 + (open + (segs[0].1 + (close + rest))) == (segs[0].0 + (open + (segs[0].1 + close))) + rest;
  }

  lemma WeaveNone(tail: string, open: string, close: string)
    ensures Weave([], tail, open, close) == tail
  {
  }

  // Trimming leaves a front part alone when something other than newlines follows it.
  lemma {:induction false} TrimAfter(x: string, t: string)
    ensures TrimNewlines(t) != "" ==> TrimNewlines(x + t) == x + TrimNewlines(t)
  {
    if t != "" && t[|t| - 1] == '\n' {
      TrimAfter(x, t[..|t| - 1]);
      assert (x + t)[..|x + t| - 1] == x + t[..|t| - 1];
    }
  }

  lemma WeaveKeepsText(segs: seq<(string, string)>, tail: string, open: string, close: string)
    requires segs != []
    requires var last := segs[|segs| - 1].1 + close; last != "" && last[|last| - 1] != '\n'
    ensures Weave(segs, TrimNewlines(tail), open, close) != ""
    decreases |segs|
  {
    if |segs| > 1 { WeaveKeepsText(segs[1..], tail, open, close); }
  }

  // out is plain with one span per word, in order, each around that word escaped.
  ghost predicate MarksExactly(out: string, plain: string, op: Op, words: seq<string>) {
    exists segs: seq<(string, string)>, tail: string ::
      && WellCut(segs, tail, false) && InnersAre(segs, words)
      && plain == Weave(segs, tail, "", "") && out == Weave(segs, tail, SpanOpen(op), SPAN_CLOSE)
  }

  // A field whose text holds no sentinel never needs the fallback: every changed word
  // gets its span, in order, around exactly its escaped text, and removing the spans
  // gives back the escaped field.
  lemma FieldMarksEveryWord(h: Hunk)
    requires h.parts != [] && Texts(h.parts) == h.text && SentinelFree(h.text)
    ensures RenderField(h).1 == Cores(h.parts, YAML_EDGE)
    ensures MarksExactly(RenderField(h).0, Escape(TrimNewlines(h.text)), h.op, Cores(h.parts, YAML_EDGE))
  {
    FieldCutIsMarked(h.parts, "");
    var (segs, tail) := FieldCut(h.parts, "");
    TrimField(h, segs, tail);
    WeaveIsAccepted(segs, TrimNewlines(tail), false, SpanOpen(h.op));
  }

  // Trimming the marked text and the plain text trims the same tail of both.
  lemma TrimField(h: Hunk, segs: seq<(string, string)>, tail: string)
    requires Texts(h.parts) == h.text && CutsField(h.parts, "", segs, tail)
    ensures WellCut(segs, TrimNewlines(tail), false)
    ensures TrimNewlines(Marked(h.parts, YAML_EDGE, Escape)) == Weave(segs, TrimNewlines(tail), [OPEN], [CLOSE])
    ensures Escape(TrimNewlines(h.text)) == Weave(segs, TrimNewlines(tail), "", "")
  {
    hide Marked, Escape, Weave, WellCut, TrimNewlines, Texts, Cores;
    assert "" + Marked(h.parts, YAML_EDGE, Escape) == Marked(h.parts, YAML_EDGE, Escape);
    assert "" + Escape(h.text) == Escape(h.text);
    TrimEscape(h.text);
    if segs == [] {
      WeaveNone(tail, [OPEN], [CLOSE]);
      WeaveNone(tail, "", "");
      WeaveNone(TrimNewlines(tail), [OPEN], [CLOSE]);
      WeaveNone(TrimNewlines(tail), "", "");
    } else {
      CoresEndInText(h.parts, |segs| - 1);
      TrimWeave(segs, tail, [OPEN], [CLOSE]);
      assert segs[|segs| - 1].1 + "" == segs[|segs| - 1].1;
      TrimWeave(segs, tail, "", "");
    }
    TrimIsPrefix(tail);
    WellCutTail(segs, tail, TrimNewlines(tail), false);
  }

  lemma {:induction false} TrimIsPrefix(s: string)
    ensures TrimNewlines(s) <= s
  {
    if s != "" && s[|s| - 1] == '\n' { TrimIsPrefix(s[..|s| - 1]); }
  }

  lemma {:induction false} WellCutTail(segs: seq<(string, string)>, tail: string, short: string, inTag: bool)
    requires WellCut(segs, tail, inTag) && short <= tail
    ensures WellCut(segs, short, inTag)
  {
    if segs == [] {
    } else {
      WellCutTail(segs[1..], tail, short, false);
    }
  }

  lemma {:induction false} CoresEndInText(parts: seq<Part>, k: nat)
    requires k < |Cores(parts, YAML_EDGE)|
    ensures var c := Escape(Cores(parts, YAML_EDGE)[k]); c != "" && c[|c| - 1] != '\n'
  {
    hide Split, Escape;
    var core := Split(parts[0].text, YAML_EDGE).1;
    if parts[0].op == Equal || core == "" {
      CoresEndInText(parts[1..], k);
    } else if k > 0 {
      assert Cores(parts, YAML_EDGE)[k] == Cores(parts[1..], YAML_EDGE)[k - 1];
      CoresEndInText(parts[1..], k - 1);
    } else {
      CoreEnds(parts[0].text);
      EscapeEnds(core);
    }
  }

  lemma CoreEnds(text: string)
    ensures var core := Split(text, YAML_EDGE).1; core != "" ==> core[|core| - 1] != '\n'
  {
    SplitReassembles(text, YAML_EDGE);
    assert '\n' in YAML_EDGE;
  }
}
