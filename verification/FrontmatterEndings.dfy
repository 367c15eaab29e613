// The line endings of a rewritten brief, byte by byte (internal/briefs/write.go): a file
// all in CRLF stays so, and a file without CR gains none.
module FrontmatterEndings {
  import opened GoStd
  import opened Frontmatter
  import opened FrontmatterRead
  import opened FrontmatterWrite
  import opened FrontmatterComments

  // Every LF is the end of a CRLF.
  ghost predicate AllCrlf(s: string) { forall i :: 0 <= i < |s| && s[i] == '\n' ==> i > 0 && s[i - 1] == '\r' }

  ghost predicate NoCr(s: string) { forall i :: 0 <= i < |s| ==> s[i] != '\r' }

  predicate EndsCrlf(l: string) { |l| >= 2 && l[|l| - 2] == '\r' && l[|l| - 1] == '\n' }

  // ---- a file and its lines ----

  ghost predicate LinesCrlf(ls: seq<string>) { forall k :: 0 <= k < |ls| && IsLine(ls[k]) ==> EndsCrlf(ls[k]) }

  ghost predicate LinesNoCr(ls: seq<string>) { forall k :: 0 <= k < |ls| ==> NoCr(ls[k]) }

  lemma ConcatStart(a: string, b: string)
    ensures NoCr(a + b) <==> NoCr(a) && NoCr(b)
  {
    forall i | 0 <= i < |b| ensures (a + b)[|a| + i] == b[i] {}
    forall i | 0 <= i < |a| ensures (a + b)[i] == a[i] {}
  }

  lemma LineThenRest(l: string, rest: string)
    requires IsLine(l)
    ensures AllCrlf(l + rest) <==> EndsCrlf(l) && AllCrlf(rest)
  {
    var s, n := l + rest, |l|;
    assert s[n - 1] == '\n';
    forall i | 0 <= i < |rest| ensures s[n + i] == rest[i] {}
    if AllCrlf(s) {
      assert n - 1 > 0 && s[n - 2] == '\r';
      forall i | 0 <= i < |rest| && rest[i] == '\n' ensures i > 0 && rest[i - 1] == '\r' {
        assert s[n + i] == '\n' && s[n + i - 1] == '\r';
      }
    }
    if EndsCrlf(l) && AllCrlf(rest) {
      forall i | 0 <= i < |s| && s[i] == '\n' ensures i > 0 && s[i - 1] == '\r' {
        if i >= n { assert rest[i - n] == '\n'; }
      }
    }
  }

  lemma {:induction false} CrlfByLine(ls: seq<string>)
    requires WellSplit(ls)
    ensures AllCrlf(Concat(ls)) <==> LinesCrlf(ls)
  {
    if |ls| == 1 {
      assert ls[1..] == [] && Concat(ls) == ls[0] + "" == ls[0];
    } else {
      var rest := ls[1..];
      hide AllCrlf, IsLine, EndsCrlf, NoBreak;
      CrlfByLine(rest);
      LineThenRest(ls[0], Concat(rest));
      assert LinesCrlf(ls) <==> EndsCrlf(ls[0]) && LinesCrlf(rest) by { SplitLinesCrlf(ls); }
    }
  }

  lemma SplitLinesCrlf(ls: seq<string>)
    requires |ls| > 0 && IsLine(ls[0])
    ensures LinesCrlf(ls) <==> EndsCrlf(ls[0]) && LinesCrlf(ls[1..])
  {
    hide IsLine, EndsCrlf;
    forall k | 0 <= k < |ls[1..]| ensures ls[1..][k] == ls[k + 1] {}
    if LinesCrlf(ls) {
      forall k | 0 <= k < |ls[1..]| && IsLine(ls[1..][k]) ensures EndsCrlf(ls[1..][k]) { assert IsLine(ls[k + 1]); }
    }
    if EndsCrlf(ls[0]) && LinesCrlf(ls[1..]) {
      forall k | 0 <= k < |ls| && IsLine(ls[k]) ensures EndsCrlf(ls[k]) { if k > 0 { assert ls[1..][k - 1] == ls[k]; } }
    }
  }

  lemma {:induction false} NoCrByLine(ls: seq<string>)
    ensures NoCr(Concat(ls)) <==> LinesNoCr(ls)
  {
    if ls == [] {
    } else {
      hide NoCr;
      NoCrByLine(ls[1..]);
      ConcatStart(ls[0], Concat(ls[1..]));
      forall k | 0 <= k < |ls[1..]| ensures ls[1..][k] == ls[k + 1] {}
      if LinesNoCr(ls[1..]) && NoCr(ls[0]) {
        forall k | 0 <= k < |ls| ensures NoCr(ls[k]) { if k > 0 { assert ls[1..][k - 1] == ls[k]; } }
      }
    }
  }

  // The lines of a rewrite are lines of the file or new ones.
  ghost predicate MadeOf(out: seq<string>, ls: seq<string>, block: seq<string>) {
    forall k :: 0 <= k < |out| ==> out[k] in ls || out[k] in block
  }

  lemma LinesFrom(out: seq<string>, ls: seq<string>, block: seq<string>)
    requires MadeOf(out, ls, block)
    ensures LinesCrlf(ls) && LinesCrlf(block) ==> LinesCrlf(out)
    ensures LinesNoCr(ls) && LinesNoCr(block) ==> LinesNoCr(out)
  {
    hide IsLine, EndsCrlf, NoCr;
  }

  // The file's ending is that of its first line.
  lemma EolByLine(ls: seq<string>)
    requires WellSplit(ls) && |ls| > 1
    ensures LinesCrlf(ls) ==> Eol(ls) == "\r\n"
    ensures LinesNoCr(ls) ==> Eol(ls) == "\n"
  {
    assert IsLine(ls[0]);
  }

  // ---- SetStatus ----

  lemma StatusLineEnds(status: string, eol: string)
    requires IsWord(status)
    ensures eol == "\r\n" ==> EndsCrlf(StatusLine(status, eol))
    ensures eol == "\n" ==> NoCr(StatusLine(status, eol))
  {
    var l, head := StatusLine(status, eol), "status: ";
    if eol == "\r\n" { assert l[|l| - 2] == eol[0] && l[|l| - 1] == eol[1]; }
    if eol == "\n" {
      forall i | 0 <= i < |l| ensures l[i] != '\r' {
        assert l[i] == if i < 8 then head[i] else if i < 8 + |status| then status[i - 8] else eol[i - 8 - |status|];
      }
    }
  }

  // In a file of mixed endings the inserted line ends as the opening fence does.
  lemma InsertedEndsAsTheFence(ls: seq<string>, end: nat, status: string)
    requires 1 <= end < |ls| && IsWord(status) && FindKey(ls, end, "status", 1) == end
    ensures StatusLines(ls, end, status).Some? && |StatusLines(ls, end, status).value| > end
    ensures var l := StatusLines(ls, end, status).value[end];
      (EndsCrlf(ls[0]) ==> EndsCrlf(l)) && (!EndsCrlf(ls[0]) ==> NoCr(l))
  {
    hide FindKey;
    StatusLineEnds(status, Eol(ls));
  }

  // A line whose token was replaced ends as it did.
  lemma RetokenedEnds(l: string, status: string)
    requires IsLine(l) && IsKeyLine(l) && ScalarOf(l).Some? && IsWord(status)
    ensures var m := Retoken(l, ScalarOf(l).value, status);
      IsLine(m) && (EndsCrlf(l) ==> EndsCrlf(m)) && (NoCr(l) ==> NoCr(m))
  {
    hide ScalarAt, NameEnd, SkipSpaces, Ends, IsKeyLine, Text, ValueAt, IsLine, IsWord, EndsCrlf, NoCr, Token;
    var c := ScalarOf(l).value;
    RetokenedIsLine(l, c, status);
    TokenIn(Text(l), ValueAt(l));
    TokenNoCr(c, status);
    if EndsCrlf(l) { TextShorterYet(l); }
    SplicedEnds(l, c.at, c.at + |Token(c)|, c.quote + status + c.quote, |Text(l)|);
  }

  // New text in place of some of a line's own, before its line break.
  lemma SplicedEnds(l: string, at: nat, end: nat, token: string, n: nat)
    requires at <= end <= n <= |l| && (EndsCrlf(l) ==> n <= |l| - 2) && NoCr(token)
    ensures var m := l[..at] + token + l[end..]; (EndsCrlf(l) ==> EndsCrlf(m)) && (NoCr(l) ==> NoCr(m))
  {
    var m := l[..at] + token + l[end..];
    if EndsCrlf(l) { assert m[|m| - 2] == l[|l| - 2] && m[|m| - 1] == l[|l| - 1]; }
    if NoCr(l) {
      ConcatStart(l[..at] + token, l[end..]);
      ConcatStart(l[..at], token);
    }
  }

  lemma TextShorterYet(l: string)
    requires EndsCrlf(l)
    ensures |Text(l)| <= |l| - 2
  {
    var m := l[..|l| - 1];
    assert Text(l) == Text(m) && m[|m| - 1] == '\r' && Text(m) == Text(m[..|m| - 1]);
  }

  lemma TokenNoCr(c: Scalar, value: string)
    requires IsWord(value) && (c.quote == "" || (|c.quote| == 1 && (c.quote[0] == '"' || c.quote[0] == '\'')))
    ensures NoCr(c.quote + value + c.quote)
  {
    var token := c.quote + value + c.quote;
    forall k | 0 <= k < |token| ensures token[k] != '\r' {
      if |c.quote| <= k < |c.quote| + |value| { assert token[k] == value[k - |c.quote|]; }
    }
  }

  lemma StatusLinesFrom(ls: seq<string>, end: nat, status: string)
    requires WellSplit(ls) && End(ls) == Some(end) && IsWord(status) && StatusLines(ls, end, status).Some?
    ensures var out := StatusLines(ls, end, status).value;
      exists block :: MadeOf(out, ls, block) && (LinesCrlf(ls) ==> LinesCrlf(block))
        && (LinesNoCr(ls) ==> LinesNoCr(block))
  {
    hide IsKeyLine, KeyOf, Text, NameEnd, ScalarAt, SkipSpaces, IsFence, Retoken, StatusLine, EndsCrlf, NoCr, NoBreak,
         Eol;
    var i := FindKey(ls, end, "status", 1);
    var out := StatusLines(ls, end, status).value;
    if i == end {
      var block := [StatusLine(status, Eol(ls))];
      EolByLine(ls);
      StatusLineEnds(status, Eol(ls));
      assert MadeOf(out, ls, block);
    } else {
      var m := Retoken(ls[i], ScalarOf(ls[i]).value, status);
      assert IsLine(ls[i]);
      RetokenedEnds(ls[i], status);
      assert MadeOf(out, ls, [m]) && [m][0] == m;
      assert LinesCrlf(ls) ==> LinesCrlf([m]);
      assert LinesNoCr(ls) ==> LinesNoCr([m]);
    }
  }

  // Over every file: SetStatus writes a file all in CRLF for one all in CRLF, and one
  // without CR for one without.
  lemma SetStatusKeepsEndings<T>(raw: string, status: string, d: Decoder<T>)
    requires IsStatus(status) && StatusText(raw, status, d).Some?
    ensures AllCrlf(raw) ==> AllCrlf(StatusText(raw, status, d).value)
    ensures NoCr(raw) ==> NoCr(StatusText(raw, status, d).value)
  {
    hide SplitLines, Norms, End, StatusLines, WellSplit, AllCrlf, NoCr, LinesCrlf, LinesNoCr, Concat, MadeOf, IsWord;
    var ls := SplitLines(raw);
    var end := End(ls).value;
    SplitIsWell(raw);
    StatusIsWord(status);
    StatusKeepsContent(ls, end, status);
    var out := StatusLines(ls, end, status).value;
    StatusLinesFrom(ls, end, status);
    var block :| MadeOf(out, ls, block) && (LinesCrlf(ls) ==> LinesCrlf(block)) && (LinesNoCr(ls) ==> LinesNoCr(block));
    LinesFrom(out, ls, block);
    CrlfByLine(ls);
    CrlfByLine(out);
    NoCrByLine(ls);
    NoCrByLine(out);
  }

  // ---- SetComments ----

  lemma BlockEnds<T>(threads: seq<T>, encode: seq<T> -> seq<string>, eol: string)
    requires threads != [] ==> forall k :: 0 <= k < |encode(threads)| ==>
      IsLine(encode(threads)[k]) && NoCr(encode(threads)[k])
    ensures eol == "\r\n" ==> LinesCrlf(BlockOf(threads, encode, eol))
    ensures eol == "\n" ==> LinesNoCr(BlockOf(threads, encode, eol))
  {
    var block := BlockOf(threads, encode, eol);
    forall k | 0 <= k < |block|
      ensures eol == "\r\n" ==> EndsCrlf(block[k])
      ensures eol == "\n" ==> NoCr(block[k])
    {
      var l := encode(threads)[k];
      assert block[k] == l[..|l| - 1] + eol;
      if eol == "\n" { ConcatStart(l[..|l| - 1], eol); }
    }
  }

  // And so does SetComments, for threads the encoder writes in LF lines.
  lemma SetCommentsKeepsEndings<T>(raw: string, threads: seq<T>, encode: seq<T> -> seq<string>, d: Decoder<T>)
    requires EncodesBack(threads, encode, d) && CommentsText(raw, threads, encode, d).Some?
    requires threads != [] ==> forall k :: 0 <= k < |encode(threads)| ==> NoCr(encode(threads)[k])
    requires OneComments(SplitLines(raw), End(SplitLines(raw)).value)
    ensures AllCrlf(raw) ==> AllCrlf(CommentsText(raw, threads, encode, d).value)
    ensures NoCr(raw) ==> NoCr(CommentsText(raw, threads, encode, d).value)
  {
    var ls := SplitLines(raw);
    var end := End(ls).value;
    var block := BlockOf(threads, encode, Eol(ls));
    var out := CommentsLines(ls, end, block);
    assert threads != [] ==> forall k :: 0 <= k < |encode(threads)| ==> IsLine(encode(threads)[k]);
    SplitIsWell(raw);
    EolIs(ls);
    BlockReads(threads, encode, Eol(ls), d);
    BlockEnds(threads, encode, Eol(ls));
    CommentsKeepContent(ls, end, block);
    CommentsFrom(ls, end, block);
    EolByLine(ls);
    hide SplitLines, Norms, End, CommentsLines, WellSplit, AllCrlf, NoCr, LinesCrlf, LinesNoCr, Concat, MadeOf, BlockOf,
         Eol;
    LinesFrom(out, ls, block);
    CrlfByLine(ls);
    CrlfByLine(out);
    NoCrByLine(ls);
    NoCrByLine(out);
  }

  lemma CommentsFrom(ls: seq<string>, end: nat, block: seq<string>)
    requires 1 <= end < |ls|
    ensures MadeOf(CommentsLines(ls, end, block), ls, block)
  {
    hide FindKey, NextKey;
  }
}
