// The engine's two rewrites of a brief's file, its status line and its comments block
// (internal/briefs/write.go), against what reads the file back (frontmatter.go). The
// frontmatter block is modelled as top-level key lines, each followed by the lines that
// continue its value.
module Frontmatter {
  import opened GoStd

  // ---- strings.SplitAfter(s, "\n") ----

  function NewlineAt(s: string): (i: nat)
    ensures i <= |s| && (i < |s| ==> s[i] == '\n')
    ensures forall k :: 0 <= k < i ==> s[k] != '\n'
  {
    if s == "" then 0 else if s[0] == '\n' then 0 else 1 + NewlineAt(s[1..])
  }

  function SplitLines(s: string): seq<string> {
    var i := NewlineAt(s);
    if i == |s| then [s] else [s[..i + 1]] + SplitLines(s[i + 1..])
  }

  predicate IsLine(l: string) {
    l != "" && l[|l| - 1] == '\n' && forall k :: 0 <= k < |l| - 1 ==> l[k] != '\n'
  }

  predicate NoBreak(l: string) { forall k :: 0 <= k < |l| ==> l[k] != '\n' }

  // Every piece ends its line but the last, which has no line break.
  predicate WellSplit(ls: seq<string>) {
    ls != [] && (forall k :: 0 <= k < |ls| - 1 ==> IsLine(ls[k])) && NoBreak(ls[|ls| - 1])
  }

  lemma ConsWell(line: string, rest: seq<string>)
    requires IsLine(line) && WellSplit(rest)
    ensures WellSplit([line] + rest) && Concat([line] + rest) == line + Concat(rest)
  {
    assert ([line] + rest)[1..] == rest;
  }

  lemma {:induction false} SplitIsWell(s: string)
    ensures WellSplit(SplitLines(s)) && Concat(SplitLines(s)) == s
  {
    var i := NewlineAt(s);
    if i < |s| {
      SplitIsWell(s[i + 1..]);
      var line, rest := s[..i + 1], SplitLines(s[i + 1..]);
      assert SplitLines(s) == [line] + rest && IsLine(line);
      hide SplitLines, NewlineAt, IsLine, NoBreak, WellSplit, Concat;
      ConsWell(line, rest);
      assert s == line + s[i + 1..];
    } else {
      assert [s][1..] == [];
      assert s + "" == s;
    }
  }

  // Rewritten lines read back as the same lines.
  lemma {:induction false} SplitIsUnique(ls: seq<string>)
    requires WellSplit(ls)
    ensures SplitLines(Concat(ls)) == ls
  {
    var s := Concat(ls);
    if |ls| == 1 {
      assert ls[1..] == [] && s == ls[0] + "" == ls[0];
      assert NewlineAt(s) == |s|;
    } else {
      var l := ls[0];
      assert IsLine(ls[0]) && s == l + Concat(ls[1..]);
      forall k | 0 <= k < |l| - 1 ensures s[k] != '\n' { assert s[k] == l[k]; }
      assert s[|l| - 1] == '\n';
      assert NewlineAt(s) == |l| - 1;
      assert s[..|l|] == l && s[|l|..] == Concat(ls[1..]);
      SplitIsUnique(ls[1..]);
    }
  }

  // ---- lines ----

  // A line without its line break.
  function Text(l: string): (t: string)
    ensures |t| <= |l| && t == l[..|t|]
  {
    if l != "" && (l[|l| - 1] == '\n' || l[|l| - 1] == '\r') then Text(l[..|l| - 1]) else l
  }

  predicate IsFence(l: string) { Text(l) == "---" }

  predicate IsNameChar(c: char) { 'a' <= c <= 'z' || 'A' <= c <= 'Z' || '0' <= c <= '9' || c == '_' }

  function NameEnd(t: string, i: nat): (n: nat)
    requires i <= |t|
    decreases |t| - i
    ensures i <= n <= |t|
    ensures forall k :: i <= k < n ==> IsNameChar(t[k])
    ensures n < |t| ==> !IsNameChar(t[n])
  {
    if i < |t| && IsNameChar(t[i]) then NameEnd(t, i + 1) else i
  }

  // A top-level key line: a name at column one, a colon, and a space or nothing after it.
  predicate IsKeyLine(l: string) {
    var t := Text(l);
    var n := NameEnd(t, 0);
    0 < n < |t| && t[n] == ':' && (n + 1 == |t| || t[n + 1] == ' ')
  }

  function KeyOf(l: string): string
    requires IsKeyLine(l)
  {
    Text(l)[..NameEnd(Text(l), 0)]
  }

  predicate IsKey(l: string, key: string) { IsKeyLine(l) && KeyOf(l) == key }

  // ---- a one-line scalar ----

  function SkipSpaces(t: string, i: nat): (n: nat)
    requires i <= |t|
    decreases |t| - i
    ensures i <= n <= |t|
    ensures forall k :: i <= k < n ==> t[k] == ' '
    ensures n < |t| ==> t[n] != ' '
  {
    if i < |t| && t[i] == ' ' then SkipSpaces(t, i + 1) else i
  }

  // What follows a scalar on its line: nothing, or spaces and a comment.
  predicate Ends(t: string, i: nat)
    requires i <= |t|
  {
    var n := SkipSpaces(t, i);
    n == |t| || (n > i && t[n] == '#')
  }

  // The scalar's offset, its quote ("" for plain) and its value, a single word.
  datatype Scalar = Scalar(at: nat, quote: string, value: string)

  function Token(c: Scalar): string { c.quote + c.value + c.quote }

  // The scalar that starts at an offset of a text.
  function ScalarAt(t: string, at: nat): (r: Option<Scalar>)
    requires at <= |t|
    ensures r.Some? ==> r.value.at == at && at + |Token(r.value)| <= |t|
  {
    if at == |t| then None
    else if t[at] == '"' || t[at] == '\'' then
      var n := NameEnd(t, at + 1);
      if n < |t| && t[n] == t[at] && Ends(t, n + 1) then Some(Scalar(at, [t[at]], t[at + 1..n])) else None
    else
      var n := NameEnd(t, at);
      if n > at && Ends(t, n) then Some(Scalar(at, "", t[at..n])) else None
  }

  function ValueAt(l: string): (at: nat)
    requires IsKeyLine(l)
    ensures at <= |Text(l)|
  {
    SkipSpaces(Text(l), NameEnd(Text(l), 0) + 1)
  }

  function ScalarOf(l: string): Option<Scalar>
    requires IsKeyLine(l)
  {
    ScalarAt(Text(l), ValueAt(l))
  }

  function Retoken(l: string, c: Scalar, value: string): string
    requires c.at + |Token(c)| <= |l|
  {
    l[..c.at] + (c.quote + value + c.quote) + l[c.at + |Token(c)|..]
  }

  predicate IsWord(v: string) { v != "" && forall k :: 0 <= k < |v| ==> IsNameChar(v[k]) }

  predicate IsBreak(s: string) { forall k :: 0 <= k < |s| ==> s[k] == '\r' || s[k] == '\n' }

  lemma {:induction false} TextSplits(l: string)
    ensures var t := Text(l); l == t + l[|t|..] && IsBreak(l[|t|..])
    ensures var t := Text(l); t != "" ==> t[|t| - 1] != '\n' && t[|t| - 1] != '\r'
  {
    if l != "" && (l[|l| - 1] == '\n' || l[|l| - 1] == '\r') {
      TextSplits(l[..|l| - 1]);
      var t := Text(l);
      forall k | 0 <= k < |l[|t|..]| ensures l[|t|..][k] == '\r' || l[|t|..][k] == '\n' {
        if |t| + k < |l| - 1 { assert l[|t|..][k] == l[..|l| - 1][|t|..][k]; }
      }
    }
  }

  lemma {:induction false} TextOf(t: string, eol: string)
    requires IsBreak(eol) && (t != "" ==> t[|t| - 1] != '\n' && t[|t| - 1] != '\r')
    ensures Text(t + eol) == t
  {
    if eol == "" {
      assert t + eol == t;
    } else {
      var l := t + eol;
      assert l[|l| - 1] == eol[|eol| - 1];
      assert l[..|l| - 1] == t + eol[..|eol| - 1];
      TextOf(t, eol[..|eol| - 1]);
    }
  }

  // The first place a scan can stop is where it stops.
  lemma {:induction false} NameEndIs(t: string, i: nat, n: nat)
    requires i <= n <= |t| && (forall k :: i <= k < n ==> IsNameChar(t[k])) && (n < |t| ==> !IsNameChar(t[n]))
    ensures NameEnd(t, i) == n
    decreases n - i
  {
    if i == n {
    } else {
      NameEndIs(t, i + 1, n);
    }
  }

  lemma {:induction false} SkipSpacesIs(t: string, i: nat, n: nat)
    requires i <= n <= |t| && (forall k :: i <= k < n ==> t[k] == ' ') && (n < |t| ==> t[n] != ' ')
    ensures SkipSpaces(t, i) == n
    decreases n - i
  {
    if i == n {
    } else {
      SkipSpacesIs(t, i + 1, n);
    }
  }

  // What ends a scalar depends only on the text from there on.
  lemma EndsAlike(t: string, i: nat, u: string, j: nat)
    requires i <= |t| && j <= |u| && t[i..] == u[j..]
    ensures Ends(t, i) <==> Ends(u, j)
  {
    var n := SkipSpaces(t, i);
    var d := n - i;
    assert |t| - i == |u| - j;
    forall k | j <= k < j + d ensures u[k] == ' ' { assert u[k] == u[j..][k - j] == t[i..][k - j] == t[i + (k - j)]; }
    if n < |t| { assert u[j + d] == u[j..][d] == t[i..][d] == t[n]; }
    SkipSpacesIs(u, j, j + d);
  }

  // Two key lines alike up to the value, which starts in neither with a space.
  lemma SameHead(l: string, m: string)
    requires IsKeyLine(l)
    requires var t, u, at := Text(l), Text(m), ValueAt(l); at < |t| && at < |u| && t[..at] == u[..at] && u[at] != ' '
    ensures IsKeyLine(m) && KeyOf(m) == KeyOf(l) && ValueAt(m) == ValueAt(l)
  {
    var t, u, at := Text(l), Text(m), ValueAt(l);
    var n := NameEnd(t, 0);
    assert n + 1 < at by { assert t[n + 1] == ' '; }
    forall k | 0 <= k < at ensures t[k] == u[k] { assert t[..at][k] == u[..at][k]; }
    NameEndIs(u, 0, n);
    SkipSpacesIs(u, n + 1, at);
    assert u[..n] == t[..n];
  }

  lemma Spliced(t: string, at: nat, end: nat, mid: string, u: string)
    requires at <= end <= |t| && u == t[..at] + mid + t[end..]
    ensures |u| == at + |mid| + |t| - end && u[..at] == t[..at] && u[at + |mid|..] == t[end..]
    ensures forall k :: 0 <= k < |mid| ==> u[at + k] == mid[k]
    ensures end < |t| ==> at + |mid| < |u| && u[at + |mid|] == t[end]
    ensures u[at..at + |mid|] == mid
  {
  }

  lemma WordEnds(u: string, at: nat, value: string)
    requires IsWord(value) && at + |value| <= |u| && u[at..at + |value|] == value
    requires at + |value| < |u| ==> !IsNameChar(u[at + |value|])
    ensures NameEnd(u, at) == at + |value|
  {
    forall k | at <= k < at + |value| ensures IsNameChar(u[k]) { assert u[k] == u[at..at + |value|][k - at]; }
    NameEndIs(u, at, at + |value|);
  }

  lemma PlainAt(t: string, at: nat, value: string, u: string)
    requires at <= |t| && ScalarAt(t, at).Some? && ScalarAt(t, at).value.quote == "" && IsWord(value)
    requires u == t[..at] + value + t[NameEnd(t, at)..]
    ensures at < |u| && u[at] != ' ' && u[..at] == t[..at] && ScalarAt(u, at) == Some(Scalar(at, "", value))
  {
    var end := NameEnd(t, at);
    PlainEnds(t, at);
    hide Ends, NameEnd, ScalarAt, IsWord;
    Spliced(t, at, end, value, u);
    assert at + |value| < |u| ==> !IsNameChar(u[at + |value|]);
    WordFirst(u, at, value);
    WordEnds(u, at, value);
    EndsAlike(t, end, u, at + |value|);
    ReadsPlain(u, at, value);
  }

  lemma PlainEnds(t: string, at: nat)
    requires at <= |t| && ScalarAt(t, at).Some? && ScalarAt(t, at).value.quote == ""
    ensures Ends(t, NameEnd(t, at))
  {
  }

  lemma WordFirst(u: string, at: nat, value: string)
    requires IsWord(value) && at + |value| <= |u| && u[at..at + |value|] == value
    ensures u[at] == value[0] && IsNameChar(u[at])
  {
  }

  lemma ReadsPlain(u: string, at: nat, value: string)
    requires IsWord(value) && at + |value| <= |u| && u[at..at + |value|] == value && IsNameChar(u[at])
    requires NameEnd(u, at) == at + |value| && Ends(u, at + |value|)
    ensures ScalarAt(u, at) == Some(Scalar(at, "", value))
  {
  }

  lemma SplicedQuoted(t: string, at: nat, end: nat, value: string, u: string)
    requires at < end <= |t| && u == t[..at] + ([t[at]] + value + [t[at]]) + t[end..]
    ensures at + |value| + 2 <= |u| && u[at] == t[at] && u[at + 1 + |value|] == t[at] && u[..at] == t[..at]
    ensures u[at + 1..at + 1 + |value|] == value && u[at + |value| + 2..] == t[end..]
  {
    var token := [t[at]] + value + [t[at]];
    Spliced(t, at, end, token, u);
    assert u[at] == token[0] && u[at + (|value| + 1)] == token[|value| + 1];
    forall k | 0 <= k < |value| ensures u[at + 1 + k] == value[k] { assert u[at + (k + 1)] == token[k + 1]; }
    assert u[at + 1..at + 1 + |value|] == value;
  }

  lemma TokenIn(t: string, at: nat)
    requires at <= |t| && ScalarAt(t, at).Some?
    ensures var c := ScalarAt(t, at).value;
      && c.at == at && at + |Token(c)| <= |t| && t[at..at + |Token(c)|] == Token(c) && Token(c) != ""
      && (c.quote == "" ==> at + |Token(c)| == NameEnd(t, at))
      && (c.quote != "" ==> c.quote == [t[at]] && (t[at] == '"' || t[at] == '\''))
      && (c.quote != "" ==> at + |Token(c)| == NameEnd(t, at + 1) + 1 && Ends(t, NameEnd(t, at + 1) + 1))
  {
    var c := ScalarAt(t, at).value;
    if c.quote != "" {
      var n := NameEnd(t, at + 1);
      assert t[at..n + 1] == [t[at]] + t[at + 1..n] + [t[n]];
    } else {
      assert Token(c) == c.value;
    }
  }

  lemma QuotedAt(t: string, at: nat, q: char, end: nat, value: string, u: string)
    requires at < end <= |t| && t[at] == q && (q == '"' || q == '\'') && Ends(t, end) && IsWord(value)
    requires u == t[..at] + ([q] + value + [q]) + t[end..]
    ensures at < |u| && u[at] == q && u[..at] == t[..at] && ScalarAt(u, at) == Some(Scalar(at, [q], value))
  {
    hide Ends, IsWord, ScalarAt;
    SplicedQuoted(t, at, end, value, u);
    ReadsQuoted(t, end, u, at, value);
  }

  lemma ReadsQuoted(t: string, end: nat, u: string, at: nat, value: string)
    requires at + |value| + 2 <= |u| && (u[at] == '"' || u[at] == '\'') && u[at + 1 + |value|] == u[at]
    requires u[at + 1..at + 1 + |value|] == value && IsWord(value)
    requires end <= |t| && u[at + |value| + 2..] == t[end..] && Ends(t, end)
    ensures ScalarAt(u, at) == Some(Scalar(at, [u[at]], value))
  {
    hide Ends;
    WordEnds(u, at + 1, value);
    EndsAlike(t, end, u, at + |value| + 2);
  }

  lemma Unsplice(l: string, at: nat, was: string, now: string, m: string)
    requires at + |was| <= |l| && l[at..at + |was|] == was && m == l[..at] + now + l[at + |was|..]
    ensures m[..at] + was + m[at + |now|..] == l
  {
    assert m[..at] == l[..at] && m[at + |now|..] == l[at + |was|..];
  }

  lemma LastKept(t: string, end: nat, token: string, at: nat)
    requires at <= end <= |t| && token != "" && token[|token| - 1] != '\n' && token[|token| - 1] != '\r'
    requires t != "" ==> t[|t| - 1] != '\n' && t[|t| - 1] != '\r'
    ensures var u := t[..at] + token + t[end..]; u != "" && u[|u| - 1] != '\n' && u[|u| - 1] != '\r'
  {
  }

  lemma TokenReplaced(t: string, at: nat, value: string, u: string)
    requires at <= |t| && ScalarAt(t, at).Some? && IsWord(value)
    requires var c := ScalarAt(t, at).value;
      at + |Token(c)| <= |t| && u == t[..at] + (c.quote + value + c.quote) + t[at + |Token(c)|..]
    ensures at < |u| && u[at] != ' ' && u[..at] == t[..at]
    ensures ScalarAt(u, at) == Some(ScalarAt(t, at).value.(value := value))
  {
    TokenIn(t, at);
    var c := ScalarAt(t, at).value;
    if c.quote == "" {
      assert c.quote + value + c.quote == value;
      PlainAt(t, at, value, u);
    } else {
      QuotedAt(t, at, t[at], at + |Token(c)|, value, u);
    }
  }

  lemma Retext(l: string, at: nat, end: nat, token: string)
    requires at <= end <= |Text(l)| && token != "" && token[|token| - 1] != '\n' && token[|token| - 1] != '\r'
    ensures var m := l[..at] + token + l[end..];
      Text(m) == Text(l)[..at] + token + Text(l)[end..] && m == Text(m) + l[|Text(l)|..]
  {
    hide Text;
    var t := Text(l);
    TextSplits(l);
    Regrouped(l, t, at, end, token);
    LastKept(t, end, token, at);
    TextOf(t[..at] + token + t[end..], l[|t|..]);
  }

  lemma Regrouped(l: string, t: string, at: nat, end: nat, token: string)
    requires at <= end <= |t| <= |l| && t == l[..|t|]
    ensures l[..at] + token + l[end..] == (t[..at] + token + t[end..]) + l[|t|..]
  {
    assert l[end..] == t[end..] + l[|t|..] && l[..at] == t[..at];
    var a, b, c, d := t[..at], token, t[end..], l[|t|..];
    assert a + b + (c + d) == (a + b + c) + d;
  }

  lemma TokenLast(c: Scalar, value: string)
    requires IsWord(value) && (c.quote == "" || (|c.quote| == 1 && (c.quote[0] == '"' || c.quote[0] == '\'')))
    ensures var token := c.quote + value + c.quote;
      token != "" && token[|token| - 1] != '\n' && token[|token| - 1] != '\r'
  {
    var token := c.quote + value + c.quote;
    if c.quote == "" { assert token[|token| - 1] == value[|value| - 1]; }
  }

  // A key line's token replaced in place: the same key, quoted as it was, with the new
  // value; and replacing it back gives the line back.
  lemma Retokened(l: string, value: string)
    requires IsKeyLine(l) && ScalarOf(l).Some? && IsWord(value)
    ensures ScalarOf(l).value.at + |Token(ScalarOf(l).value)| <= |Text(l)|
    ensures var c := ScalarOf(l).value;
            var m := Retoken(l, c, value);
      && IsKeyLine(m) && KeyOf(m) == KeyOf(l) && ScalarOf(m) == Some(c.(value := value))
      && m == Text(m) + l[|Text(l)|..]
      && c.at + |Token(c.(value := value))| <= |m| && Retoken(m, c.(value := value), c.value) == l
  {
    hide ScalarAt, Text, NameEnd, SkipSpaces, IsKeyLine, KeyOf, ValueAt, IsWord, Ends;
    var c, t, at := ScalarOf(l).value, Text(l), ValueAt(l);
    TokenIn(t, at);
    RetokenedText(l, value);
    var m := Retoken(l, c, value);
    TokenReplaced(t, at, value, Text(m));
    SameHead(l, m);
    RetokenedBack(l, t, c, value);
  }

  lemma RetokenedText(l: string, value: string)
    requires IsKeyLine(l) && ScalarOf(l).Some? && IsWord(value)
    ensures var c, t := ScalarOf(l).value, Text(l);
            var m := Retoken(l, c, value);
      && c.at + |Token(c)| <= |t| && c.at == ValueAt(l)
      && Text(m) == t[..c.at] + (c.quote + value + c.quote) + t[c.at + |Token(c)|..] && m == Text(m) + l[|t|..]
  {
    hide ScalarAt, Text, NameEnd, SkipSpaces, IsKeyLine, ValueAt, IsWord, Ends;
    var c := ScalarOf(l).value;
    TokenIn(Text(l), ValueAt(l));
    TokenLast(c, value);
    Retext(l, c.at, c.at + |Token(c)|, c.quote + value + c.quote);
  }

  lemma RetokenedBack(l: string, t: string, c: Scalar, value: string)
    requires |t| <= |l| && t == l[..|t|] && c.at + |Token(c)| <= |t| && t[c.at..c.at + |Token(c)|] == Token(c)
    ensures var m := Retoken(l, c, value); var d := c.(value := value);
      c.at + |Token(d)| <= |m| && Retoken(m, d, c.value) == l
  {
    TokenOnLine(l, t, c.at, Token(c));
    Unsplice(l, c.at, Token(c), c.quote + value + c.quote, Retoken(l, c, value));
  }

  lemma TokenOnLine(l: string, t: string, at: nat, token: string)
    requires |t| <= |l| && t == l[..|t|] && at + |token| <= |t| && t[at..at + |token|] == token
    ensures l[at..at + |token|] == token
  {
  }
}
