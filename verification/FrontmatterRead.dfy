// What reads a brief back (parseFrontmatter, internal/briefs/frontmatter.go), on the lines
// of the normalised file, against the lines its writer works on (internal/briefs/write.go).
module FrontmatterRead {
  import opened GoStd
  import opened Frontmatter
  import LockHash
  import Crlf = CrlfStream

  // ---- the writer's fences: strings.TrimRight(l, "\r\n") == "---" ----

  // The index of the first fence, from i on.
  function CloseAt(ls: seq<string>, i: nat): (r: Option<nat>)
    requires i <= |ls|
    decreases |ls| - i
    ensures r.Some? ==> i <= r.value < |ls| && IsFence(ls[r.value]) && forall k :: i <= k < r.value ==> !IsFence(ls[k])
    ensures r.None? ==> forall k :: i <= k < |ls| ==> !IsFence(ls[k])
  {
    if i == |ls| then None else if IsFence(ls[i]) then Some(i) else CloseAt(ls, i + 1)
  }

  // The closing fence of a file that opens with one.
  function End(ls: seq<string>): (r: Option<nat>)
    ensures r.Some? ==> 1 <= r.value < |ls|
  {
    if ls != [] && IsFence(ls[0]) then CloseAt(ls, 1) else None
  }

  lemma {:induction false} CloseIs(ls: seq<string>, i: nat, r: nat)
    requires i <= r < |ls| && IsFence(ls[r]) && forall k :: i <= k < r ==> !IsFence(ls[k])
    ensures CloseAt(ls, i) == Some(r)
    decreases r - i
  {
    if i == r {
    } else {
      CloseIs(ls, i + 1, r);
    }
  }

  // ---- the reader's fences: strings.TrimRight(l, "\n") == "---" ----

  function TrimLf(l: string): string {
    if l != "" && l[|l| - 1] == '\n' then TrimLf(l[..|l| - 1]) else l
  }

  predicate ReadsAsFence(l: string) { TrimLf(l) == "---" }

  function ReadCloseAt(ls: seq<string>, i: nat): (r: Option<nat>)
    requires i <= |ls|
    decreases |ls| - i
    ensures r.Some? ==> i <= r.value < |ls| && ReadsAsFence(ls[r.value])
    ensures r.Some? ==> forall k :: i <= k < r.value ==> !ReadsAsFence(ls[k])
    ensures r.None? ==> forall k :: i <= k < |ls| ==> !ReadsAsFence(ls[k])
  {
    if i == |ls| then None else if ReadsAsFence(ls[i]) then Some(i) else ReadCloseAt(ls, i + 1)
  }

  function ReadEnd(ls: seq<string>): (r: Option<nat>)
    ensures r.Some? ==> 1 <= r.value < |ls|
  {
    if ls != [] && ReadsAsFence(ls[0]) then ReadCloseAt(ls, 1) else None
  }

  lemma {:induction false} ReadCloseIs(ls: seq<string>, i: nat, r: nat)
    requires i <= r < |ls| && ReadsAsFence(ls[r]) && forall k :: i <= k < r ==> !ReadsAsFence(ls[k])
    ensures ReadCloseAt(ls, i) == Some(r)
    decreases r - i
  {
    if i == r {
    } else {
      ReadCloseIs(ls, i + 1, r);
    }
  }

  // ---- a line, normalised ----

  // A line with its CRLF as LF.
  function Norm(l: string): string {
    if |l| >= 2 && l[|l| - 2] == '\r' && l[|l| - 1] == '\n' then l[..|l| - 2] + "\n" else l
  }

  function Norms(ls: seq<string>): seq<string> { seq(|ls|, k requires 0 <= k < |ls| => Norm(ls[k])) }

  lemma NormFront(l: string)
    requires |l| > 2 || (|l| == 2 && l[0] != '\r')
    ensures Norm(l) == [l[0]] + Norm(l[1..])
  {
    if |l| > 2 && l[|l| - 2] == '\r' && l[|l| - 1] == '\n' {
      assert l[1..][..|l| - 3] == l[1..|l| - 2];
      assert l[..|l| - 2] == [l[0]] + l[1..|l| - 2];
    }
  }

  // A byte that begins no CRLF passes through.
  lemma NormalizeByte(c: char, rest: string)
    requires c == '\r' ==> rest != "" && rest[0] != '\n'
    ensures Crlf.Normalize([c] + rest) == [c] + Crlf.Normalize(rest)
  {
    Crlf.CrlfAtStart([c] + rest);
    assert ([c] + rest)[1..] == rest;
  }

  lemma NormalizeCrlf(rest: string)
    ensures Crlf.Normalize("\r\n" + rest) == "\n" + Crlf.Normalize(rest)
  {
    Crlf.CrlfAtStart("\r\n" + rest);
    assert ("\r\n" + rest)[2..] == rest;
  }

  lemma {:induction false} NormalizeLine(l: string, rest: string)
    requires IsLine(l)
    ensures Crlf.Normalize(l + rest) == Norm(l) + Crlf.Normalize(rest)
    decreases |l|
  {
    hide Crlf.Normalize;
    if |l| == 1 {
      assert l == ['\n'];
      NormalizeByte('\n', rest);
    } else if |l| == 2 && l[0] == '\r' {
      assert l == "\r\n" && l[..0] == "" && "" + "\n" == "\n";
      NormalizeCrlf(rest);
    } else {
      var tail := l[1..];
      assert l == [l[0]] + tail && l[0] != '\n' && (l[0] == '\r' ==> tail[0] != '\n');
      LineRest(l);
      NormalizeLine(tail, rest);
      NormFront(l);
      NormalizeByte(l[0], tail + rest);
      assert l + rest == [l[0]] + (tail + rest);
      hide Norm, IsLine;
      assert [l[0]] + (Norm(tail) + Crlf.Normalize(rest)) == ([l[0]] + Norm(tail)) + Crlf.Normalize(rest);
    }
  }

  lemma LineRest(l: string)
    requires IsLine(l) && |l| > 1
    ensures IsLine(l[1..])
  {
    assert l[1..][|l| - 2] == l[|l| - 1];
  }

  lemma {:induction false} NormalizeUnbroken(l: string)
    requires NoBreak(l)
    ensures Crlf.Normalize(l) == l && Norm(l) == l
  {
    Crlf.CrlfAtStart(l);
    if l == "" {
    } else {
      NormalizeUnbroken(l[1..]);
    }
  }

  lemma {:induction false} NormalizeLines(ls: seq<string>)
    requires WellSplit(ls)
    ensures Crlf.Normalize(Concat(ls)) == Concat(Norms(ls))
  {
    if |ls| == 1 {
      NormalizeUnbroken(ls[0]);
      assert ls[1..] == [] && Norms(ls)[1..] == [] && ls[0] + "" == ls[0];
    } else {
      NormalizeLines(ls[1..]);
      NormalizeLine(ls[0], Concat(ls[1..]));
      assert Norms(ls)[1..] == Norms(ls[1..]);
    }
  }

  lemma NormIsLine(l: string)
    ensures IsLine(l) ==> IsLine(Norm(l))
    ensures NoBreak(l) ==> NoBreak(Norm(l))
  {
  }

  lemma NormsSplit(ls: seq<string>)
    requires WellSplit(ls)
    ensures WellSplit(Norms(ls))
  {
    hide IsLine, NoBreak, Norm;
    forall k | 0 <= k < |ls| ensures IsLine(ls[k]) ==> IsLine(Norm(ls[k])) { NormIsLine(ls[k]); }
    NormIsLine(ls[|ls| - 1]);
  }

  // The lines parseFrontmatter splits: those of the normalised file.
  function ReadLines(raw: string): seq<string> { SplitLines(Crlf.Normalize(raw)) }

  // The reader normalises the whole file and splits, the writer splits: each of the
  // reader's lines is the writer's, normalised.
  lemma ReaderSeesTheLines(raw: string)
    ensures ReadLines(raw) == Norms(SplitLines(raw))
  {
    hide Norms, WellSplit, SplitLines, Concat;
    var ls := SplitLines(raw);
    SplitIsWell(raw);
    NormalizeLines(ls);
    NormsSplit(ls);
    SplitIsUnique(Norms(ls));
  }

  // ---- the two readings of a fence ----

  lemma TextOfNorm(l: string)
    ensures Text(Norm(l)) == Text(l)
  {
    if |l| >= 2 && l[|l| - 2] == '\r' && l[|l| - 1] == '\n' {
      var body := l[..|l| - 2];
      assert l[..|l| - 1][..|l| - 2] == body && (body + "\n")[..|body|] == body;
      assert Text(l) == Text(l[..|l| - 1]) == Text(body) == Text(body + "\n");
    }
  }

  lemma {:induction false} TrimLfThenText(l: string)
    ensures Text(TrimLf(l)) == Text(l)
  {
    if l != "" && l[|l| - 1] == '\n' { TrimLfThenText(l[..|l| - 1]); }
  }

  lemma DashesText()
    ensures Text("---") == "---"
  {
  }

  // Whatever the reader takes for a fence, the writer does.
  lemma ReaderFenceIsFence(l: string)
    ensures ReadsAsFence(Norm(l)) ==> IsFence(l)
  {
    TrimLfThenText(Norm(l));
    TextOfNorm(l);
    DashesText();
  }

  // "---" alone on its line, whatever the line ending.
  predicate Clean(l: string) { l == "---" || l == "---\n" || l == "---\r\n" }

  lemma TrimLine(l: string)
    requires IsLine(l) || NoBreak(l)
    ensures TrimLf(l) == if IsLine(l) then l[..|l| - 1] else l
  {
    if IsLine(l) {
      var t := l[..|l| - 1];
      if t != "" { assert t[|t| - 1] == l[|l| - 2]; }
      assert TrimLf(t) == t;
    }
  }

  lemma CleanIff(l: string)
    requires IsLine(l) || NoBreak(l)
    ensures ReadsAsFence(Norm(l)) <==> Clean(l)
  {
    NormIsLine(l);
    TrimLine(Norm(l));
    if IsLine(l) && |l| >= 2 && l[|l| - 2] == '\r' {
      var t := l[..|l| - 2];
      assert Norm(l)[..|Norm(l)| - 1] == t && l == t + "\r\n";
      hide Norm, TrimLf, IsLine;
      SameBeforeBreak(t, l, "\r\n");
    } else if IsLine(l) {
      var t := l[..|l| - 1];
      assert l == t + "\n" && (t != "" ==> t[|t| - 1] != '\r');
      hide Norm, TrimLf, IsLine;
      SameBeforeBreak(t, l, "\n");
    } else {
      assert Norm(l) == l && (forall k :: 0 <= k < |l| ==> l[k] != '\n');
      hide Norm, TrimLf, IsLine;
      SameBeforeBreak(l, l, "");
    }
  }

  // A text before one line break is three dashes iff the line is one of the three.
  lemma SameBeforeBreak(t: string, l: string, eol: string)
    requires l == t + eol && (eol == "\n" || eol == "\r\n" || (eol == "" && forall k :: 0 <= k < |l| ==> l[k] != '\n'))
    requires eol == "\n" && t != "" ==> t[|t| - 1] != '\r'
    ensures t == "---" <==> Clean(l)
  {
    var d := "---";
    if eol == "" {
      assert l == t && "---\n"[3] == '\n' && "---\r\n"[4] == '\n';
    } else if l == "---" || l == "---\n" || l == "---\r\n" {
      assert l[|l| - 1] == '\n' && t == l[..|l| - |eol|];
      assert l == "---\r\n" ==> l[3] == '\r' && (eol == "\n" ==> |t| == 4);
    }
  }

  // ---- the block, key by key ----

  // The first line of the block that carries the key, from i on, or the closing fence.
  function FindKey(ls: seq<string>, end: nat, key: string, i: nat): (r: nat)
    requires i <= end <= |ls|
    decreases end - i
    ensures i <= r <= end && (r < end ==> IsKey(ls[r], key))
    ensures forall k :: i <= k < r ==> !IsKey(ls[k], key)
  {
    if i == end || IsKey(ls[i], key) then i else FindKey(ls, end, key, i + 1)
  }

  // The next key line from i on, or the closing fence.
  function NextKey(ls: seq<string>, end: nat, i: nat): (r: nat)
    requires i <= end <= |ls|
    decreases end - i
    ensures i <= r <= end && (r < end ==> IsKeyLine(ls[r]))
    ensures forall k :: i <= k < r ==> !IsKeyLine(ls[k])
  {
    if i == end || IsKeyLine(ls[i]) then i else NextKey(ls, end, i + 1)
  }

  // A key's line and the lines that continue its value.
  function Block(ls: seq<string>, end: nat, key: string): seq<string>
    requires 1 <= end <= |ls|
  {
    var i := FindKey(ls, end, key, 1);
    if i == end then [] else ls[i..NextKey(ls, end, i + 1)]
  }

  lemma {:induction false} FindKeyIs(ls: seq<string>, end: nat, key: string, i: nat, r: nat)
    requires i <= r <= end <= |ls| && (r < end ==> IsKey(ls[r], key)) && forall k :: i <= k < r ==> !IsKey(ls[k], key)
    ensures FindKey(ls, end, key, i) == r
    decreases r - i
  {
    if i == r {
    } else {
      FindKeyIs(ls, end, key, i + 1, r);
    }
  }

  lemma {:induction false} NextKeyIs(ls: seq<string>, end: nat, i: nat, r: nat)
    requires i <= r <= end <= |ls| && (r < end ==> IsKeyLine(ls[r])) && forall k :: i <= k < r ==> !IsKeyLine(ls[k])
    ensures NextKey(ls, end, i) == r
    decreases r - i
  {
    if i == r {
    } else {
      NextKeyIs(ls, end, i + 1, r);
    }
  }

  // The status a reader takes: "" with no status line, None where it is not one word.
  function ReadStatus(ls: seq<string>, end: nat): Option<string>
    requires 1 <= end <= |ls|
  {
    var i := FindKey(ls, end, "status", 1);
    if i == end then Some("")
    else if ScalarOf(ls[i]).None? then None
    else Some(ScalarOf(ls[i]).value.value)
  }

  lemma NormKeeps(l: string)
    ensures (IsFence(Norm(l)) <==> IsFence(l)) && (IsKeyLine(Norm(l)) <==> IsKeyLine(l))
    ensures IsKeyLine(l) ==> KeyOf(Norm(l)) == KeyOf(l) && ScalarOf(Norm(l)) == ScalarOf(l)
  {
    TextOfNorm(l);
  }

  // ---- the reader's end against the writer's ----

  lemma {:induction false} FirstFence(ls: seq<string>, i: nat)
    requires i <= |ls|
    ensures CloseAt(Norms(ls), i) == CloseAt(ls, i)
    decreases |ls| - i
  {
    if i == |ls| {
    } else {
      NormKeeps(ls[i]);
      FirstFence(ls, i + 1);
    }
  }

  // The reader's fence is never before the writer's.
  lemma ReaderEndsLater(ls: seq<string>)
    ensures ReadEnd(Norms(ls)).Some? ==> End(ls).Some? && End(ls).value <= ReadEnd(Norms(ls)).value
  {
    hide IsFence, ReadsAsFence, Norm;
    if ReadEnd(Norms(ls)).Some? {
      ReaderFenceIsFence(ls[0]);
      ReaderFenceIsFence(ls[ReadEnd(Norms(ls)).value]);
    }
  }

  // Reader and writer take one fence for the end of the block exactly when both fences are
  // clean.
  lemma EndsAgreeIff(ls: seq<string>)
    requires WellSplit(ls)
    ensures ReadEnd(Norms(ls)) == End(ls) <==> (End(ls).Some? ==> Clean(ls[0]) && Clean(ls[End(ls).value]))
  {
    hide IsFence, ReadsAsFence, Norm, Clean, IsLine, NoBreak;
    ReaderEndsLater(ls);
    if End(ls).Some? {
      var end := End(ls).value;
      CleanIff(ls[0]);
      CleanIff(ls[end]);
      if Clean(ls[0]) && Clean(ls[end]) {
        forall k | 1 <= k < end ensures !ReadsAsFence(Norms(ls)[k]) { ReaderFenceIsFence(ls[k]); }
        ReadCloseIs(Norms(ls), 1, end);
      }
    }
  }

  lemma {:induction false} TwoLines(a: string, b: string, rest: seq<string>)
    requires IsLine(a) && IsLine(b) && WellSplit(rest)
    ensures WellSplit([a, b] + rest)
  {
    ConsWell(b, rest);
    ConsWell(a, [b] + rest);
    assert [a] + ([b] + rest) == [a, b] + rest;
  }

  lemma DirtyFences()
    ensures Text("---\r") == "---" && Text("---\r\r\n") == "---" && Text("---\n") == "---"
    ensures !Clean("---\r") && !Clean("---\r\r\n") && Text("summary: x\n") == "summary: x"
  {
    DashesText();
    assert "---\r"[..3] == "---" && "---\n"[..3] == "---" && "---\r\r\n"[..5] == "---\r\r";
    assert "---\r\r"[..4] == "---\r" && "summary: x\n"[..10] == "summary: x";
  }

  // A closing fence that ends the file in a bare CR: the writer closes the block there, the
  // reader reports a block that never closes.
  lemma BareCrNeverCloses()
    ensures var ls := ["---\n", "summary: x\n", "---\r"];
      WellSplit(ls) && End(ls) == Some(2) && ReadEnd(Norms(ls)) == None
  {
    var ls := ["---\n", "summary: x\n", "---\r"];
    DirtyFences();
    TwoLines("---\n", "summary: x\n", ["---\r"]);
    hide Clean, Norm, ReadsAsFence, TrimLf;
    EndsAgreeIff(ls);
    CleanIff("---\r");
    ReaderFenceIsFence(Norm("summary: x\n"));
    NormKeeps("summary: x\n");
  }

  // Two CRs before the line break of the opening fence: a block for the writer alone.
  lemma TwoCrsNeverOpen()
    ensures var ls := ["---\r\r\n", "---\n", ""];
      WellSplit(ls) && End(ls) == Some(1) && ReadEnd(Norms(ls)) == None
  {
    var ls := ["---\r\r\n", "---\n", ""];
    DirtyFences();
    TwoLines("---\r\r\n", "---\n", [""]);
    hide Clean, Norm, ReadsAsFence, TrimLf;
    CleanIff("---\r\r\n");
  }

  // Two CRs before the line break of the closing fence, and a clean one further on: the
  // reader's block is the longer.
  lemma TwoCrsCloseLate()
    ensures var ls := ["---\n", "---\r\r\n", "---\n", ""];
      WellSplit(ls) && End(ls) == Some(1) && ReadEnd(Norms(ls)) == Some(2)
  {
    var ls := ["---\n", "---\r\r\n", "---\n", ""];
    DirtyFences();
    ConsWell("---\n", [""]);
    TwoLines("---\n", "---\r\r\n", ["---\n", ""]);
    assert Clean("---\n");
    hide Clean, Norm, ReadsAsFence, TrimLf;
    CleanIff("---\n");
    CleanIff("---\r\r\n");
    ReadCloseIs(Norms(ls), 1, 2);
  }

  // ---- what the reader takes from a file ----

  // The parser of the block, yaml.v3 and the key rules of parseFrontmatter: whether lines
  // are a YAML mapping or nothing, whether a block raises no problem, and what the lines
  // of a key hold. A thread is known by how it serialises.
  datatype Decoder<T> = Decoder(yaml: seq<string> -> bool, sound: seq<string> -> bool, summary: seq<string> -> string,
                                restsOn: seq<string> -> seq<string>, comments: seq<string> -> seq<T>)

  datatype Reading<T> = Reading(summary: string, status: string, restsOn: seq<string>, comments: seq<T>,
                                body: string, sound: bool)

  const DRAFT := "draft"
  const LOCKED := "locked"

  predicate IsStatus(s: string) { s == DRAFT || s == LOCKED }

  // Where the keys end: the reader's fence, or a fence only the writer takes, which for
  // YAML begins another document.
  function KeysEnd(ls: seq<string>, end: nat): (r: nat)
    requires 1 <= end < |ls|
    ensures 1 <= r <= end
  {
    match CloseAt(ls, 1)
    case Some(k) => if k < end then k else end
    case None => end
  }

  function StatusRead(ls: seq<string>, end: nat): string
    requires 1 <= end <= |ls|
  {
    match ReadStatus(ls, end)
    case Some(s) => if IsStatus(s) then s else ""
    case None => ""
  }

  predicate StatusSound(ls: seq<string>, end: nat)
    requires 1 <= end <= |ls|
  {
    FindKey(ls, end, "status", 1) < end ==> StatusRead(ls, end) != ""
  }

  // The keys before one line and the body after another.
  function ReadAt<T>(ls: seq<string>, keys: nat, end: nat, d: Decoder<T>): Reading<T>
    requires 1 <= keys <= end < |ls|
  {
    Reading(d.summary(Block(ls, keys, "summary")), StatusRead(ls, keys), d.restsOn(Block(ls, keys, "rests_on")),
      d.comments(Block(ls, keys, "comments")), Concat(ls[end + 1..]), d.sound(ls[1..end]) && StatusSound(ls, keys))
  }

  // parseFrontmatter of the normalised file.
  function Read<T>(raw: string, d: Decoder<T>): Reading<T> {
    var ls := ReadLines(raw);
    match ReadEnd(ls)
    case None => Reading("", "", [], [], Concat(ls), false)
    case Some(end) => ReadAt(ls, KeysEnd(ls, end), end, d)
  }

  function Signed<T>(r: Reading<T>): Digest { LockHash.Of(r.summary, r.restsOn, r.body) }

  // ---- the reading, from the writer's lines ----

  lemma {:induction false} FindsAlike(ls: seq<string>, end: nat, key: string, i: nat)
    requires i <= end <= |ls|
    ensures FindKey(Norms(ls), end, key, i) == FindKey(ls, end, key, i)
    ensures NextKey(Norms(ls), end, i) == NextKey(ls, end, i)
    decreases end - i
  {
    hide IsKeyLine, KeyOf;
    if i == end {
    } else {
      NormKeeps(ls[i]);
      FindsAlike(ls, end, key, i + 1);
    }
  }

  lemma BlockNorms(ls: seq<string>, end: nat, key: string)
    requires 1 <= end <= |ls|
    ensures Block(Norms(ls), end, key) == Norms(Block(ls, end, key))
  {
    hide IsKeyLine, KeyOf, Norm;
    var i := FindKey(ls, end, key, 1);
    FindsAlike(ls, end, key, 1);
    if i < end { FindsAlike(ls, end, key, i + 1); }
  }

  lemma StatusNorms(ls: seq<string>, end: nat)
    requires 1 <= end <= |ls|
    ensures StatusRead(Norms(ls), end) == StatusRead(ls, end) && StatusSound(Norms(ls), end) == StatusSound(ls, end)
  {
    hide IsKeyLine, KeyOf, Norm, ScalarOf;
    var i := FindKey(ls, end, "status", 1);
    FindsAlike(ls, end, "status", 1);
    if i < end { NormKeeps(ls[i]); }
  }

  lemma KeysEndIs(ls: seq<string>)
    requires ReadEnd(Norms(ls)).Some?
    ensures End(ls).Some? && End(ls).value <= ReadEnd(Norms(ls)).value
    ensures KeysEnd(Norms(ls), ReadEnd(Norms(ls)).value) == End(ls).value
  {
    hide IsFence, ReadsAsFence, Norm;
    ReaderEndsLater(ls);
    FirstFence(ls, 1);
  }

  // What the reader takes from a file, over the writer's split: the keys up to the writer's
  // fence, the body from the reader's.
  lemma ReadIs<T>(raw: string, d: Decoder<T>)
    ensures var ls := Norms(SplitLines(raw));
            var end := End(SplitLines(raw));
      if ReadEnd(ls).None? then !Read(raw, d).sound
      else end.Some? && end.value <= ReadEnd(ls).value && Read(raw, d) == ReadAt(ls, end.value, ReadEnd(ls).value, d)
  {
    hide SplitLines, Norms, ReadLines, ReadEnd, End, KeysEnd, ReadAt, Concat;
    var ls := SplitLines(raw);
    ReaderSeesTheLines(raw);
    if ReadEnd(Norms(ls)).Some? { KeysEndIs(ls); }
  }

  // Lines rewritten before the writer's fence, the first apart: the reader's fence is where
  // it was and the body is the same.
  lemma ReadsAlike(ls: seq<string>, end: nat, out: seq<string>, close: nat)
    requires End(ls) == Some(end) && End(out) == Some(close) && out[0] == ls[0] && out[close..] == ls[end..]
    ensures ReadEnd(Norms(ls)).Some? <==> ReadEnd(Norms(out)).Some?
    ensures ReadEnd(Norms(ls)).Some? ==>
      Norms(out)[ReadEnd(Norms(out)).value..] == Norms(ls)[ReadEnd(Norms(ls)).value..]
  {
    hide IsFence, ReadsAsFence, Norm;
    forall k | 1 <= k < end ensures !ReadsAsFence(Norms(ls)[k]) { ReaderFenceIsFence(ls[k]); }
    forall k | 1 <= k < close ensures !ReadsAsFence(Norms(out)[k]) { ReaderFenceIsFence(out[k]); }
    NormsTail(ls, end);
    NormsTail(out, close);
    assert Norms(ls)[0] == Norms(out)[0];
    FencesAlike(Norms(ls), end, Norms(out), close);
  }

  lemma NormsTail(ls: seq<string>, i: nat)
    requires i <= |ls|
    ensures Norms(ls)[i..] == Norms(ls[i..])
  {
    hide Norm;
  }

  lemma {:induction false} ReadCloseTail(ls: seq<string>, i: nat, at: nat)
    requires i <= at <= |ls| && forall k :: i <= k < at ==> !ReadsAsFence(ls[k])
    ensures ReadCloseAt(ls, i) == ReadCloseAt(ls, at)
    decreases at - i
  {
    hide ReadsAsFence;
    if i == at {
    } else {
      ReadCloseTail(ls, i + 1, at);
    }
  }

  lemma {:induction false} ReadCloseShift(a: seq<string>, i: nat, b: seq<string>, j: nat)
    requires i <= |a| && j <= |b| && a[i..] == b[j..]
    ensures ReadCloseAt(a, i).Some? <==> ReadCloseAt(b, j).Some?
    ensures ReadCloseAt(a, i).Some? ==> a[ReadCloseAt(a, i).value..] == b[ReadCloseAt(b, j).value..]
    decreases |a| - i
  {
    hide ReadsAsFence;
    assert |a| - i == |b| - j;
    if i == |a| {
    } else {
      assert a[i] == a[i..][0] == b[j..][0] == b[j];
      assert a[i + 1..] == a[i..][1..] == b[j..][1..] == b[j + 1..];
      ReadCloseShift(a, i + 1, b, j + 1);
    }
  }

  lemma FencesAlike(a: seq<string>, i: nat, b: seq<string>, j: nat)
    requires 1 <= i <= |a| && 1 <= j <= |b| && a[0] == b[0] && a[i..] == b[j..]
    requires (forall k :: 1 <= k < i ==> !ReadsAsFence(a[k])) && (forall k :: 1 <= k < j ==> !ReadsAsFence(b[k]))
    ensures ReadEnd(a).Some? <==> ReadEnd(b).Some?
    ensures ReadEnd(a).Some? ==> a[ReadEnd(a).value..] == b[ReadEnd(b).value..]
  {
    hide ReadsAsFence, ReadCloseAt;
    ReadCloseTail(a, 1, i);
    ReadCloseTail(b, 1, j);
    ReadCloseShift(a, i, b, j);
  }

  // What the lock hash signs, line by line: the two keys' lines, and the file from the
  // closing fence on.
  ghost predicate KeepsContent(ls: seq<string>, end: nat, out: seq<string>, close: nat)
    requires 1 <= end < |ls| && 1 <= close < |out|
  {
    && Block(out, close, "summary") == Block(ls, end, "summary")
    && Block(out, close, "rests_on") == Block(ls, end, "rests_on")
    && out[0] == ls[0] && out[close..] == ls[end..]
  }

  predicate HasBlock(raw: string) { ReadEnd(ReadLines(raw)).Some? }

  // A rewrite that keeps those lines has a block for the reader iff the file had one, and
  // then everything signed reads as before.
  lemma ContentReadsAlike<T>(before: string, after: string, end: nat, close: nat, d: Decoder<T>)
    requires End(SplitLines(before)) == Some(end) && End(SplitLines(after)) == Some(close)
    requires KeepsContent(SplitLines(before), end, SplitLines(after), close)
    ensures HasBlock(before) <==> HasBlock(after)
    ensures !HasBlock(before) ==> !Read(after, d).sound
    ensures HasBlock(before) ==>
      var b, a := Read(before, d), Read(after, d);
      a.summary == b.summary && a.restsOn == b.restsOn && a.body == b.body && Signed(a) == Signed(b)
  {
    var ls, out := SplitLines(before), SplitLines(after);
    hide SplitLines, Norms, Read, ReadEnd, End, KeysEnd, Concat, Block, StatusRead, StatusSound, ReadLines, LockHash.Of;
    ReaderSeesTheLines(before);
    ReaderSeesTheLines(after);
    ReadsAlike(ls, end, out, close);
    ReadIs(before, d);
    ReadIs(after, d);
    BlockNorms(ls, end, "summary");
    BlockNorms(ls, end, "rests_on");
    BlockNorms(out, close, "summary");
    BlockNorms(out, close, "rests_on");
    if HasBlock(before) {
      var e, f := ReadEnd(Norms(ls)).value, ReadEnd(Norms(out)).value;
      TailsAlike(Norms(ls), e, Norms(out), f);
    }
  }

  lemma TailsAlike(a: seq<string>, i: nat, b: seq<string>, j: nat)
    requires i < |a| && j < |b| && a[i..] == b[j..]
    ensures a[i + 1..] == b[j + 1..]
  {
    assert a[i + 1..] == a[i..][1..] && b[j + 1..] == b[j..][1..];
  }

  // The two keys the engine owns, as the reader takes them.
  lemma EngineKeysRead<T>(raw: string, end: nat, d: Decoder<T>)
    requires End(SplitLines(raw)) == Some(end) && HasBlock(raw)
    ensures var ls := SplitLines(raw); var rl := ReadLines(raw);
      && Read(raw, d).status == StatusRead(ls, end)
      && Read(raw, d).comments == d.comments(Norms(Block(ls, end, "comments")))
      && Read(raw, d).sound == (d.sound(rl[1..ReadEnd(rl).value]) && StatusSound(ls, end))
  {
    hide SplitLines, Norms, Read, ReadEnd, End, KeysEnd, Concat, Block, StatusRead, StatusSound, ReadLines;
    ReaderSeesTheLines(raw);
    ReadIs(raw, d);
    BlockNorms(SplitLines(raw), end, "comments");
    StatusNorms(SplitLines(raw), end);
  }
}
