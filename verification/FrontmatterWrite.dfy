// SetStatus (internal/briefs/write.go): it changes its own line and no other, reads back as
// written, and leaves what the brief's lock hash signs.
module FrontmatterWrite {
  import opened GoStd
  import opened Frontmatter
  import opened FrontmatterRead
  import LockHash

  datatype Rewrite = Rewritten(text: string) | NotRewritable

  function Eol(ls: seq<string>): string
    requires ls != []
  {
    if |ls[0]| >= 2 && ls[0][|ls[0]| - 2] == '\r' && ls[0][|ls[0]| - 1] == '\n' then "\r\n" else "\n"
  }

  // frontmatterLines.
  method Lines(raw: string) returns (ls: seq<string>, end: Option<nat>)
    ensures ls == SplitLines(raw) && end == End(ls) && WellSplit(ls) && Concat(ls) == raw
  {
    ls := SplitLines(raw);
    SplitIsWell(raw);
    end := None;
    if !IsFence(ls[0]) { return; }
    for i := 1 to |ls|
      invariant forall k :: 1 <= k < i ==> !IsFence(ls[k])
      invariant CloseAt(ls, 1) == CloseAt(ls, i)
    {
      if IsFence(ls[i]) { return ls, Some(i); }
    }
  }

  // ---- SetStatus ----

  function StatusLine(status: string, eol: string): string { "status: " + status + eol }

  // The rewritten lines, and where the block then ends.
  function StatusLines(ls: seq<string>, end: nat, status: string): Option<seq<string>>
    requires 1 <= end < |ls|
  {
    var i := FindKey(ls, end, "status", 1);
    if i == end then Some(ls[..end] + [StatusLine(status, Eol(ls))] + ls[end..])
    else if ScalarOf(ls[i]).None? then None
    else Some(ls[i := Retoken(ls[i], ScalarOf(ls[i]).value, status)])
  }

  // The rewritten text, before it is verified.
  function StatusText<T>(raw: string, status: string, d: Decoder<T>): Option<string> {
    var ls := SplitLines(raw);
    match End(ls)
    case None => None
    case Some(end) =>
      if !d.yaml(Norms(ls)[1..end]) then None
      else
        match StatusLines(ls, end, status)
        case None => None
        case Some(out) => Some(Concat(out))
  }

  // verifyRewrite: the rewritten text raises no problem, signs as before, and reads as asked.
  function VerifyRewrite<T>(before: string, after: string, asked: bool, d: Decoder<T>): Rewrite {
    if !Read(after, d).sound then NotRewritable
    else if Signed(Read(before, d)) != Signed(Read(after, d)) then NotRewritable
    else if !asked then NotRewritable
    else Rewritten(after)
  }

  // What it lets through, over any two texts: no problem, the same summary and body and the
  // same set of claims rested on, and a reading as asked.
  lemma VerifiedIff<T>(before: string, after: string, asked: bool, d: Decoder<T>)
    ensures var b, a := Read(before, d), Read(after, d);
      VerifyRewrite(before, after, asked, d) == (
        if a.sound && a.summary == b.summary && a.body == b.body && multiset(a.restsOn) == multiset(b.restsOn) && asked
        then Rewritten(after) else NotRewritable)
  {
    hide Read;
    var b, a := Read(before, d), Read(after, d);
    LockHash.HashesAlike(b.summary, b.restsOn, b.body, a.summary, a.restsOn, a.body);
  }

  // Which files SetStatus gets as far as rewriting: those with a block that parses and a
  // status, if one is there, that is a single word.
  lemma RewritableIff<T>(raw: string, status: string, d: Decoder<T>)
    ensures var ls := SplitLines(raw);
      StatusText(raw, status, d).Some? <==>
        && End(ls).Some? && d.yaml(Norms(ls)[1..End(ls).value])
        && forall k :: 1 <= k < End(ls).value && FirstStatus(ls, k) ==> ScalarOf(ls[k]).Some?
  {
    hide IsKey, ScalarOf, SplitLines, Norms, End;
    var ls := SplitLines(raw);
    if End(ls).Some? {
      var i := FindKey(ls, End(ls).value, "status", 1);
      assert forall k :: 1 <= k < End(ls).value && FirstStatus(ls, k) ==> k == i;
      assert i < End(ls).value ==> FirstStatus(ls, i);
    }
  }

  ghost predicate FirstStatus(ls: seq<string>, k: nat)
    requires 1 <= k < |ls|
  {
    IsKey(ls[k], "status") && forall j :: 1 <= j < k ==> !IsKey(ls[j], "status")
  }

  // A status reads as asked when it is the one asked for; a draft may leave it unsaid.
  lemma StatusAskedIff<T>(r: Reading<T>, status: string)
    ensures StatusAsked(r, status) <==> r.status == status || (status == "draft" && r.status == "")
  {
  }

  predicate StatusAsked<T>(r: Reading<T>, status: string) { r.status == status || (r.status == "" && status == DRAFT) }

  function StatusRewrite<T>(raw: string, status: string, d: Decoder<T>): Rewrite {
    match StatusText(raw, status, d)
    case None => NotRewritable
    case Some(after) => VerifyRewrite(raw, after, StatusAsked(Read(after, d), status), d)
  }

  method SetStatus<T>(raw: string, status: string, d: Decoder<T>) returns (r: Rewrite)
    ensures r == StatusRewrite(raw, status, d)
  {
    hide Read, Signed, StatusAsked, IsKeyLine, KeyOf;
    var ls, close := Lines(raw);
    if close.None? { return NotRewritable; }
    var end := close.value;
    if !d.yaml(Norms(ls)[1..end]) { return NotRewritable; }
    var out := ls[..end] + [StatusLine(status, Eol(ls))] + ls[end..];
    for i := 1 to end
      invariant FindKey(ls, end, "status", 1) == FindKey(ls, end, "status", i)
      invariant out == ls[..end] + [StatusLine(status, Eol(ls))] + ls[end..]
    {
      if IsKey(ls[i], "status") {
        var c := ScalarOf(ls[i]);
        if c.None? { return NotRewritable; }
        out := ls[i := Retoken(ls[i], c.value, status)];
        break;
      }
    }
    assert StatusLines(ls, end, status) == Some(out);
    var after := Concat(out);
    r := VerifyRewrite(raw, after, StatusAsked(Read(after, d), status), d);
  }

  // ---- what SetStatus keeps ----

  lemma KeyLineIsNoFence(l: string)
    ensures IsKeyLine(l) ==> !IsFence(l)
  {
  }

  // The text "status: value" is a status key and its value.
  lemma StatusReads(t: string, status: string)
    requires IsWord(status) && t == "status: " + status
    ensures NameEnd(t, 0) == 6 && t[..6] == "status" && SkipSpaces(t, 7) == 8
    ensures ScalarAt(t, 8) == Some(Scalar(8, "", status))
    ensures t[6] == ':' && t[7] == ' ' && IsNameChar(t[|t| - 1])
  {
    var head := "status: ";
    forall k | 0 <= k < 6 ensures IsNameChar(t[k]) { assert t[k] == head[k]; }
    assert t[6] == ':' && t[7] == ' ' && t[8] == status[0];
    assert t[|t| - 1] == status[|status| - 1];
    NameEndIs(t, 0, 6);
    assert t[..6] == "status";
    SkipSpacesIs(t, 7, 8);
    assert t[8..|t|] == status;
    WordEnds(t, 8, status);
    SkipSpacesIs(t, |t|, |t|);
  }

  lemma StatusIsLine(status: string, eol: string)
    requires IsWord(status) && (eol == "\n" || eol == "\r\n")
    ensures IsLine(StatusLine(status, eol))
  {
    var l, head := StatusLine(status, eol), "status: ";
    forall k | 0 <= k < |l| - 1 ensures l[k] != '\n' {
      assert l[k] == if k < 8 then head[k] else if k < 8 + |status| then status[k - 8] else eol[k - 8 - |status|];
    }
  }

  // An inserted status line reads as one.
  lemma InsertedLine(status: string, eol: string)
    requires IsWord(status) && (eol == "\n" || eol == "\r\n")
    ensures var l := StatusLine(status, eol);
      IsLine(l) && IsKey(l, "status") && ScalarOf(l) == Some(Scalar(8, "", status))
  {
    var t := "status: " + status;
    assert StatusLine(status, eol) == t + eol;
    StatusReads(t, status);
    StatusIsLine(status, eol);
    TextOf(t, eol);
    hide Text, NameEnd, SkipSpaces, ScalarAt;
  }

  // Key lines of the same names in the same places.
  ghost predicate SameKeys(a: seq<string>, b: seq<string>) {
    |a| == |b| && forall k :: 0 <= k < |a| ==>
      (IsKeyLine(a[k]) <==> IsKeyLine(b[k])) && (IsKeyLine(a[k]) ==> KeyOf(a[k]) == KeyOf(b[k]))
  }

  lemma BlocksAlike(a: seq<string>, b: seq<string>, end: nat, at: nat, key: string)
    requires SameKeys(a, b) && 1 <= at < end <= |a| && IsKeyLine(a[at]) && KeyOf(a[at]) != key
    requires forall k :: 0 <= k < |a| && k != at ==> a[k] == b[k]
    ensures Block(a, end, key) == Block(b, end, key)
  {
    hide IsKeyLine, KeyOf, Text, NameEnd, ScalarAt, SkipSpaces, IsFence;
    var i := FindKey(a, end, key, 1);
    FindKeyIs(b, end, key, 1, i);
    if i < end {
      var n := NextKey(a, end, i + 1);
      NextKeyIs(b, end, i + 1, n);
      assert at < i || n <= at;
      assert forall k :: i <= k < n ==> a[k] == b[k];
      assert a[i..n] == b[i..n];
    }
  }

  lemma ReplacedReads(ls: seq<string>, end: nat, i: nat, m: string)
    requires End(ls) == Some(end) && 1 <= i < end && IsKeyLine(ls[i]) && IsKeyLine(m) && KeyOf(m) == KeyOf(ls[i])
    ensures var out := ls[i := m];
      End(out) == Some(end) && SameKeys(ls, out) && FindKey(out, end, KeyOf(m), 1) == FindKey(ls, end, KeyOf(m), 1)
  {
    var out := ls[i := m];
    KeyLineIsNoFence(m);
    CloseIs(out, 1, end);
    FindKeyIs(out, end, KeyOf(m), 1, FindKey(ls, end, KeyOf(m), 1));
  }

  predicate Replaces(ls: seq<string>, end: nat)
    requires 1 <= end < |ls|
  {
    FindKey(ls, end, "status", 1) < end && ScalarOf(ls[FindKey(ls, end, "status", 1)]).Some?
  }

  // A status value replaced: its line alone moves, and in it only the token.
  lemma StatusReplaced(ls: seq<string>, end: nat, status: string)
    requires WellSplit(ls) && End(ls) == Some(end) && IsWord(status) && Replaces(ls, end)
    ensures var i := FindKey(ls, end, "status", 1);
            var m := Retoken(ls[i], ScalarOf(ls[i]).value, status);
            var out := ls[i := m];
      && StatusLines(ls, end, status) == Some(out) && WellSplit(out) && End(out) == Some(end) && SameKeys(ls, out)
      && FindKey(out, end, "status", 1) == i && ScalarOf(m) == Some(ScalarOf(ls[i]).value.(value := status))
  {
    hide IsKeyLine, KeyOf, Text, NameEnd, ScalarAt, SkipSpaces, IsFence, Retoken;
    var i := FindKey(ls, end, "status", 1);
    Retokened(ls[i], status);
    RetokenedIsLine(ls[i], ScalarOf(ls[i]).value, status);
    ReplacedReads(ls, end, i, Retoken(ls[i], ScalarOf(ls[i]).value, status));
  }

  lemma ReplacedStatusReads(ls: seq<string>, end: nat, status: string)
    requires WellSplit(ls) && End(ls) == Some(end) && IsWord(status) && Replaces(ls, end)
    ensures var out := StatusLines(ls, end, status).value;
      && StatusLines(ls, end, status).Some? && WellSplit(out) && End(out) == Some(end) && Eol(out) == Eol(ls)
      && ReadStatus(out, end) == Some(status)
      && forall key :: key != "status" ==> Block(out, end, key) == Block(ls, end, key)
  {
    hide IsKeyLine, KeyOf, Text, NameEnd, ScalarAt, SkipSpaces, IsFence, Retoken;
    var i := FindKey(ls, end, "status", 1);
    StatusReplaced(ls, end, status);
    var out := StatusLines(ls, end, status).value;
    forall key | key != "status" ensures Block(out, end, key) == Block(ls, end, key)
    {
      BlocksAlike(ls, out, end, i, key);
    }
  }

  // Set back to what it read, the file is as it was.
  lemma StatusSetBack(ls: seq<string>, end: nat, status: string)
    requires WellSplit(ls) && End(ls) == Some(end) && IsWord(status) && Replaces(ls, end)
    ensures ReadStatus(ls, end).Some? && StatusLines(ls, end, status).Some?
    ensures StatusLines(StatusLines(ls, end, status).value, end, ReadStatus(ls, end).value) == Some(ls)
  {
    hide IsKeyLine, KeyOf, Text, NameEnd, ScalarAt, SkipSpaces, IsFence, Retoken, Token;
    var i := FindKey(ls, end, "status", 1);
    StatusReplaced(ls, end, status);
    Retokened(ls[i], status);
    var c := ScalarOf(ls[i]).value;
    var m := Retoken(ls[i], c, status);
    assert Retoken(m, c.(value := status), c.value) == ls[i];
    assert ls[i := m][i := ls[i]] == ls;
  }

  // Set to what it reads, it does not move.
  lemma StatusSetSame(ls: seq<string>, end: nat)
    requires WellSplit(ls) && End(ls) == Some(end) && Replaces(ls, end)
    ensures ReadStatus(ls, end).Some? && StatusLines(ls, end, ReadStatus(ls, end).value) == Some(ls)
  {
    hide IsKeyLine, KeyOf, Text, NameEnd, ScalarAt, SkipSpaces, IsFence, Retoken, Token;
    var i := FindKey(ls, end, "status", 1);
    var c := ScalarOf(ls[i]).value;
    TokenIn(Text(ls[i]), ValueAt(ls[i]));
    SameToken(ls[i], c);
    assert ls[i := ls[i]] == ls;
  }

  lemma SameToken(l: string, c: Scalar)
    requires c.at + |Token(c)| <= |Text(l)| && Text(l)[c.at..c.at + |Token(c)|] == Token(c)
    ensures c.at + |Token(c)| <= |l| && Retoken(l, c, c.value) == l
  {
    TextSplits(l);
    assert l[c.at..c.at + |Token(c)|] == Token(c);
  }

  lemma RetokenedIsLine(l: string, c: Scalar, status: string)
    requires IsLine(l) && IsKeyLine(l) && ScalarOf(l) == Some(c) && IsWord(status)
    ensures IsLine(Retoken(l, c, status))
  {
    hide ScalarAt, NameEnd, SkipSpaces, Ends;
    TokenIn(Text(l), ValueAt(l));
    TextSplits(l);
    var token := c.quote + status + c.quote;
    var end := c.at + |Token(c)|;
    TextShorter(l);
    TokenHasNoBreak(c, status);
    Spliced(l, c.at, end, token, Retoken(l, c, status));
    SplicedLine(l, c.at, end, token, Retoken(l, c, status));
  }

  lemma TextShorter(l: string)
    requires IsLine(l)
    ensures |Text(l)| < |l|
  {
  }

  lemma TokenHasNoBreak(c: Scalar, value: string)
    requires IsWord(value) && (c.quote == "" || (|c.quote| == 1 && (c.quote[0] == '"' || c.quote[0] == '\'')))
    ensures NoBreak(c.quote + value + c.quote)
  {
    var token := c.quote + value + c.quote;
    forall k | 0 <= k < |token| ensures token[k] != '\n' {
      if |c.quote| <= k < |c.quote| + |value| { assert token[k] == value[k - |c.quote|]; }
    }
  }

  lemma SplicedLine(l: string, at: nat, end: nat, token: string, m: string)
    requires IsLine(l) && at <= end < |l| && NoBreak(token) && m == l[..at] + token + l[end..]
    ensures IsLine(m)
  {
  }

  // A status line inserted before the closing fence.
  lemma StatusInserted(ls: seq<string>, end: nat, status: string)
    requires WellSplit(ls) && End(ls) == Some(end) && IsWord(status) && FindKey(ls, end, "status", 1) == end
    ensures var out := ls[..end] + [StatusLine(status, Eol(ls))] + ls[end..];
      && WellSplit(out) && End(out) == Some(end + 1) && Eol(out) == Eol(ls) && ReadStatus(out, end + 1) == Some(status)
      && (forall key :: key != "status" ==> Block(out, end + 1, key) == Block(ls, end, key))
  {
    hide IsKeyLine, KeyOf, Text, NameEnd, ScalarAt, SkipSpaces, IsFence;
    var l := StatusLine(status, Eol(ls));
    var out := ls[..end] + [l] + ls[end..];
    InsertedLine(status, Eol(ls));
    KeyLineIsNoFence(l);
    assert forall k :: 0 <= k < end ==> out[k] == ls[k];
    assert out[end] == l && forall k :: end < k < |out| ==> out[k] == ls[k - 1];
    CloseIs(out, 1, end + 1);
    FindKeyIs(out, end + 1, "status", 1, end);
    forall key | key != "status" ensures Block(out, end + 1, key) == Block(ls, end, key)
    {
      InsertedBlock(ls, out, end, l, key);
    }
  }

  lemma InsertedBlock(ls: seq<string>, out: seq<string>, end: nat, l: string, key: string)
    requires 1 <= end < |ls| && out == ls[..end] + [l] + ls[end..] && IsKeyLine(l) && KeyOf(l) != key
    ensures Block(out, end + 1, key) == Block(ls, end, key)
  {
    hide IsKeyLine, KeyOf, Text, NameEnd, ScalarAt, SkipSpaces, IsFence;
    var i := FindKey(ls, end, key, 1);
    if i == end {
      FindKeyIs(out, end + 1, key, 1, end + 1);
    } else {
      FindKeyIs(out, end + 1, key, 1, i);
      var n := NextKey(ls, end, i + 1);
      NextKeyIs(out, end + 1, i + 1, n);
      assert out[i..n] == ls[i..n];
    }
  }

  // ---- the rewrite, verified ----

  lemma StatusKeepsContent(ls: seq<string>, end: nat, status: string)
    requires WellSplit(ls) && End(ls) == Some(end) && IsWord(status) && StatusLines(ls, end, status).Some?
    ensures var out := StatusLines(ls, end, status).value;
      && WellSplit(out) && End(out).Some? && ReadStatus(out, End(out).value) == Some(status) && Eol(out) == Eol(ls)
      && KeepsContent(ls, end, out, End(out).value)
      && Block(out, End(out).value, "comments") == Block(ls, end, "comments")
  {
    hide IsKeyLine, KeyOf, ScalarAt, IsFence, IsLine, WellSplit, Eol, ReadStatus, Block, Retoken, StatusLine;
    var out := StatusLines(ls, end, status).value;
    assert "summary"[1] != "status"[1] && "rests_on"[0] != "status"[0] && "comments"[0] != "status"[0];
    if Replaces(ls, end) {
      ReplacedStatusReads(ls, end, status);
      assert out[end..] == ls[end..];
    } else {
      StatusInserted(ls, end, status);
      assert out[end + 1..] == ls[end..];
    }
  }

  lemma StatusIsWord(status: string)
    requires IsStatus(status)
    ensures IsWord(status) && status != ""
  {
  }

  // Over every file: what SetStatus writes signs as the file did, its threads read as they
  // did, and its status reads as asked, in whatever block the reader takes for the file's;
  // it is refused iff the reader finds no block in the file, or finds another defect there.
  lemma SetStatusReadsBack<T>(raw: string, status: string, d: Decoder<T>)
    requires IsStatus(status) && StatusText(raw, status, d).Some?
    ensures var after := StatusText(raw, status, d).value;
            var b, a, rl := Read(raw, d), Read(after, d), ReadLines(after);
      && HasBlock(after) == HasBlock(raw)
      && (HasBlock(raw) ==>
            a.summary == b.summary && a.restsOn == b.restsOn && a.body == b.body && a.comments == b.comments)
      && (HasBlock(raw) ==> a.status == status && Signed(a) == Signed(b))
      && (StatusRewrite(raw, status, d) == Rewritten(after) <==> HasBlock(raw) && d.sound(rl[1..ReadEnd(rl).value]))
      && (StatusRewrite(raw, status, d) != Rewritten(after) ==> StatusRewrite(raw, status, d) == NotRewritable)
  {
    hide SplitLines, Norms, ReadEnd, End, Concat, Block, StatusLines, ReadLines, Read, KeepsContent, WellSplit, IsWord,
         IsStatus, ReadStatus;
    var ls := SplitLines(raw);
    var end := End(ls).value;
    var out := StatusLines(ls, end, status).value;
    SplitIsWell(raw);
    StatusIsWord(status);
    StatusKeepsContent(ls, end, status);
    SplitIsUnique(out);
    var after := Concat(out);
    ContentReadsAlike(raw, after, end, End(out).value, d);
    if HasBlock(raw) {
      EngineKeysRead(raw, end, d);
      EngineKeysRead(after, End(out).value, d);
    }
  }
}
