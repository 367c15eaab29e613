// A string as encoding/json writes it with HTML escaping on (RFC 8259, section 7), and the
// catalog budget's count of it (internal/catalog/catalog.go, jsonQuotedUpperBound). A
// string is its bytes, one per char.
module JsonText {
  import opened GoStd

  // ---- UTF-8 ----

  predicate Within(s: string, i: nat, lo: char, hi: char) { i < |s| && lo <= s[i] <= hi }

  predicate Continues(s: string, i: nat) { Within(s, i, 0x80 as char, 0xBF as char) }

  // The bytes of the rune that starts at i, or 0 where utf8.DecodeRune finds none.
  function RuneBytes(s: string, i: nat): (n: nat)
    requires i < |s|
    ensures i + n <= |s| && n <= 4
  {
    var c := s[i] as int;
    if c < 0x80 then 1
    else if 0xC2 <= c <= 0xDF then (if Continues(s, i + 1) then 2 else 0)
    else if 0xE0 <= c <= 0xEF then
      var lo := if c == 0xE0 then 0xA0 as char else 0x80 as char;
      var hi := if c == 0xED then 0x9F as char else 0xBF as char;
      if Within(s, i + 1, lo, hi) && Continues(s, i + 2) then 3 else 0
    else if 0xF0 <= c <= 0xF4 then
      var lo := if c == 0xF0 then 0x90 as char else 0x80 as char;
      var hi := if c == 0xF4 then 0x8F as char else 0xBF as char;
      if Within(s, i + 1, lo, hi) && Continues(s, i + 2) && Continues(s, i + 3) then 4 else 0
    else 0
  }

  // U+2028 or U+2029 starts at i.
  predicate IsSeparator(s: string, i: nat) {
    i + 3 <= |s| && s[i] == 0xE2 as char && s[i + 1] == 0x80 as char
      && (s[i + 2] == 0xA8 as char || s[i + 2] == 0xA9 as char)
  }

  // ---- the encoder ----

  function Hex(d: nat): char
    requires d < 16
  {
    if d < 10 then '0' + d as char else 'a' + (d - 10) as char
  }

  function UnicodeEscape(code: nat): string
    requires code < 0x80
  {
    ['\\', 'u', '0', '0', Hex(code / 16), Hex(code % 16)]
  }

  function EscapeAscii(c: char): string
    requires c < 0x80 as char
  {
    if c == '\\' || c == '"' then ['\\', c]
    else if c == 8 as char then "\\b"
    else if c == 12 as char then "\\f"
    else if c == '\n' then "\\n"
    else if c == '\r' then "\\r"
    else if c == '\t' then "\\t"
    else if c == '<' || c == '>' || c == '&' || c < ' ' then UnicodeEscape(c as int)
    else [c]
  }

  // What the encoder writes for the rune, or the bad byte, at i, and the bytes it takes.
  function Piece(s: string, i: nat): string
    requires i < |s|
  {
    if s[i] < 0x80 as char then EscapeAscii(s[i])
    else if RuneBytes(s, i) == 0 then "\\ufffd"
    else if IsSeparator(s, i) then (if s[i + 2] == 0xA8 as char then "\\u2028" else "\\u2029")
    else s[i..i + RuneBytes(s, i)]
  }

  function Step(s: string, i: nat): (n: nat)
    requires i < |s|
    ensures 1 <= n && i + n <= |s|
  {
    if RuneBytes(s, i) == 0 then 1 else RuneBytes(s, i)
  }

  function Escape(s: string, i: nat): string
    requires i <= |s|
    decreases |s| - i
  {
    if i == |s| then "" else Piece(s, i) + Escape(s, i + Step(s, i))
  }

  function Quoted(s: string): string { "\"" + (Escape(s, 0) + "\"") }

  // What the count adds for the rune, or the bad byte, at i.
  function PieceCount(s: string, i: nat): nat
    requires i < |s|
  {
    var c := s[i];
    if c < 0x80 as char then
      if c == '\\' || c == '"' || c == 8 as char || c == 12 as char || c == '\n' || c == '\r' || c == '\t' then 2
      else if c == '<' || c == '>' || c == '&' || c < 0x20 as char then 6
      else 1
    else if RuneBytes(s, i) == 0 || IsSeparator(s, i) then 6
    else RuneBytes(s, i)
  }

  lemma PieceLength(s: string, i: nat)
    requires i < |s|
    ensures |Piece(s, i)| == PieceCount(s, i)
    ensures s[i] < 0x80 as char ==> Step(s, i) == 1
  {
  }

  // The count equals the encoder's length, byte for byte.
  method QuotedUpperBound(value: string) returns (n: nat)
    ensures n == |Quoted(value)|
  {
    n := 2;
    var i := 0;
    while i < |value|
      invariant i <= |value|
      invariant n + |Escape(value, i)| == |Quoted(value)|
      decreases |value| - i
    {
      PieceLength(value, i);
      assert |Escape(value, i)| == PieceCount(value, i) + |Escape(value, i + Step(value, i))|;
      var c := value[i];
      if c < 0x80 as char {
        if c == '\\' || c == '"' || c == 8 as char || c == 12 as char || c == '\n' || c == '\r' || c == '\t' {
          n := n + 2;
        } else if c == '<' || c == '>' || c == '&' {
          n := n + 6;
        } else if c < 0x20 as char {
          n := n + 6;
        } else {
          n := n + 1;
        }
        i := i + 1;
        continue;
      }
      var size := RuneBytes(value, i);
      if size == 0 {
        n := n + 6;
        i := i + 1;
        continue;
      }
      if IsSeparator(value, i) {
        n := n + 6;
      } else {
        n := n + size;
      }
      i := i + size;
    }
  }

  // At most six bytes out for each byte in, so the count of any string that fits in
  // memory fits in a uint64.
  lemma {:induction false} EscapeFits(s: string, i: nat)
    requires i <= |s|
    ensures |Escape(s, i)| <= 6 * (|s| - i)
    decreases |s| - i
  {
    if i == |s| {
    } else {
      PieceLength(s, i);
      EscapeFits(s, i + Step(s, i));
    }
  }

  lemma QuotedFits(s: string)
    requires 6 * |s| + 2 < 0x1_0000_0000_0000_0000
    ensures |Quoted(s)| < 0x1_0000_0000_0000_0000
  {
    EscapeFits(s, 0);
  }

  // ---- a decoder ----

  // The code of the \uXXXX that starts a text.
  function ReadCode(t: string): Option<nat>
    requires 6 <= |t|
  {
    match (HexValue(t[2]), HexValue(t[3]), HexValue(t[4]), HexValue(t[5]))
    case (Some(a), Some(b), Some(c), Some(d)) => Some(0x1000 * a + 0x100 * b + 16 * c + d)
    case _ => None
  }

  // A code below U+0080, or one of the codes of three UTF-8 bytes.
  function Utf8(code: nat): Option<string> {
    if code < 0x80 then Some([code as char])
    else if 0x800 <= code < 0xD800 || 0xE000 <= code < 0x10000 then
      Some([(0xE0 + code / 0x1000) as char, (0x80 + code / 0x40 % 0x40) as char, (0x80 + code % 0x40) as char])
    else None
  }

  function Unescape1(c: char): Option<char> {
    if c == '\\' || c == '"' then Some(c)
    else if c == 'b' then Some(8 as char)
    else if c == 'f' then Some(12 as char)
    else if c == 'n' then Some('\n')
    else if c == 'r' then Some('\r')
    else if c == 't' then Some('\t')
    else None
  }

  // The first token of a string literal's text: the bytes it stands for and its length. A
  // bare quote ends the literal and a bare control byte is not allowed in it.
  function Token(t: string): (r: Option<(string, nat)>)
    requires t != ""
    ensures r.Some? ==> 1 <= r.value.1 <= |t|
  {
    if t[0] == '"' || t[0] < ' ' then None
    else if t[0] != '\\' then Some(([t[0]], 1))
    else if |t| == 1 then None
    else if t[1] != 'u' then (var c := Unescape1(t[1]); if c.Some? then Some(([c.value], 2)) else None)
    else if |t| < 6 then None
    else
      var code := ReadCode(t);
      var bytes := if code.Some? then Utf8(code.value) else None;
      if bytes.Some? then Some((bytes.value, 6)) else None
  }

  // The string a literal's text stands for, up to its closing quote.
  function Unquote(t: string): Option<string> {
    if t == "" then None
    else if t == "\"" then Some("")
    else
      match Token(t)
      case None => None
      case Some((bytes, n)) =>
        match Unquote(t[n..])
        case None => None
        case Some(rest) => Some(bytes + rest)
  }

  const REPLACEMENT := [0xEF as char, 0xBF as char, 0xBD as char]

  // The bytes a reader gets back at i: the rune's own, or U+FFFD for a bad byte.
  function Meant(s: string, i: nat): string
    requires i < |s|
  {
    if RuneBytes(s, i) == 0 then REPLACEMENT else s[i..i + RuneBytes(s, i)]
  }

  // s with every bad byte replaced.
  function ToValid(s: string, i: nat): string
    requires i <= |s|
    decreases |s| - i
  {
    if i == |s| then "" else Meant(s, i) + ToValid(s, i + Step(s, i))
  }

  lemma RawByteBack(c: char, rest: string)
    requires c >= 0x80 as char && Unquote(rest).Some?
    ensures Unquote([c] + rest) == Some([c] + Unquote(rest).value)
  {
    var t := [c] + rest;
    assert t[0] == c && t[1..] == rest;
    assert Token(t) == Some(([c], 1));
  }

  lemma {:induction false} RawBytesBack(p: string, rest: string)
    requires forall k :: 0 <= k < |p| ==> p[k] >= 0x80 as char
    requires Unquote(rest).Some?
    ensures Unquote(p + rest) == Some(p + Unquote(rest).value)
  {
    hide Unquote;
    if p == "" {
      assert p + rest == rest;
      assert p + Unquote(rest).value == Unquote(rest).value;
    } else {
      var front, tail, back := [p[0]], p[1..], Unquote(rest).value;
      RawBytesBack(tail, rest);
      RawByteBack(p[0], tail + rest);
      assert p == front + tail;
      assert front + (tail + rest) == (front + tail) + rest && front + (tail + back) == (front + tail) + back;
    }
  }

  lemma TokenBack(piece: string, bytes: string, rest: string)
    requires piece != "" && Token(piece + rest) == Some((bytes, |piece|)) && piece[0] != '"' && Unquote(rest).Some?
    ensures Unquote(piece + rest) == Some(bytes + Unquote(rest).value)
  {
    assert (piece + rest)[|piece|..] == rest;
    assert (piece + rest)[0] == piece[0];
  }

  lemma AsciiToken(c: char, rest: string)
    requires c < 0x80 as char
    ensures Token(EscapeAscii(c) + rest) == Some(([c], |EscapeAscii(c)|))
    ensures EscapeAscii(c) != "" && EscapeAscii(c)[0] != '"'
  {
    var e := EscapeAscii(c);
    var t := e + rest;
    if |e| == 6 {
      assert t[0] == '\\' && t[1] == 'u' && t[2] == '0' && t[3] == '0' && t[4] == Hex(c as int / 16)
        && t[5] == Hex(c as int % 16);
      assert ReadCode(t) == Some(16 * (c as int / 16) + c as int % 16);
    } else {
      assert t[0] == e[0];
      if |e| == 2 { assert t[1] == e[1]; }
    }
  }

  lemma UnicodeToken(piece: string, code: nat, rest: string)
    requires (piece == "\\ufffd" && code == 0xFFFD) || (piece == "\\u2028" && code == 0x2028)
      || (piece == "\\u2029" && code == 0x2029)
    ensures Token(piece + rest) == Some((Utf8(code).value, 6))
  {
    var t := piece + rest;
    assert t[0] == '\\' && t[1] == 'u' && t[2] == piece[2] && t[3] == piece[3] && t[4] == piece[4] && t[5] == piece[5];
    assert ReadCode(t) == Some(code);
  }

  lemma SeparatorBytes(s: string, i: nat)
    requires IsSeparator(s, i)
    ensures RuneBytes(s, i) == 3 && Utf8(if s[i + 2] == 0xA8 as char then 0x2028 else 0x2029) == Some(s[i..i + 3])
  {
    assert s[i..i + 3] == [s[i], s[i + 1], s[i + 2]];
  }

  lemma UnicodePiece(piece: string, code: nat, rest: string)
    requires (piece == "\\ufffd" && code == 0xFFFD) || (piece == "\\u2028" && code == 0x2028)
      || (piece == "\\u2029" && code == 0x2029)
    requires Unquote(rest).Some?
    ensures Utf8(code).Some? && Unquote(piece + rest) == Some(Utf8(code).value + Unquote(rest).value)
  {
    UnicodeToken(piece, code, rest);
    TokenBack(piece, Utf8(code).value, rest);
  }

  lemma ReplacementIs()
    ensures Utf8(0xFFFD) == Some(REPLACEMENT)
  {
  }

  lemma PieceBack(s: string, i: nat, rest: string)
    requires i < |s| && Unquote(rest).Some?
    ensures Unquote(Piece(s, i) + rest) == Some(Meant(s, i) + Unquote(rest).value)
  {
    hide Unquote, Token, EscapeAscii, Utf8;
    if s[i] < 0x80 as char {
      AsciiToken(s[i], rest);
      TokenBack(Piece(s, i), [s[i]], rest);
      assert s[i..i + 1] == [s[i]];
    } else if RuneBytes(s, i) == 0 {
      ReplacementIs();
      UnicodePiece("\\ufffd", 0xFFFD, rest);
    } else if IsSeparator(s, i) {
      var code := if s[i + 2] == 0xA8 as char then 0x2028 else 0x2029;
      UnicodePiece(Piece(s, i), code, rest);
      SeparatorBytes(s, i);
    } else {
      RawBytesBack(s[i..i + RuneBytes(s, i)], rest);
    }
  }

  lemma {:induction false} EscapeBack(s: string, i: nat)
    requires i <= |s|
    ensures Unquote(Escape(s, i) + "\"") == Some(ToValid(s, i))
    decreases |s| - i
  {
    if i == |s| {
      assert Escape(s, i) + "\"" == "\"" && Unquote("\"") == Some("");
    } else {
      var next := i + Step(s, i);
      var front, tail := Piece(s, i), Escape(s, next);
      assert Escape(s, i) == front + tail && ToValid(s, i) == Meant(s, i) + ToValid(s, next);
      hide Unquote, Piece, Meant, Step, Escape, ToValid;
      EscapeBack(s, next);
      PieceBack(s, i, tail + "\"");
      assert (front + tail) + "\"" == front + (tail + "\"");
    }
  }

  // The encoder is right: its text reads back as the string, every byte that is not UTF-8
  // replaced, so nothing in it ends the literal early.
  lemma QuotedReadsBack(s: string)
    ensures Quoted(s)[0] == '"' && Unquote(Quoted(s)[1..]) == Some(ToValid(s, 0))
  {
    EscapeBack(s, 0);
    assert Quoted(s)[1..] == Escape(s, 0) + "\"";
  }
}
