// The hash a brief lock signs (internal/briefs/briefs.go): what goes into it, and a
// reader that gets it back out.
module LockHash {
  import opened GoStd

  // Go's %d for a length.
  function Decimal(n: nat): string {
    if n < 10 then [Digit(n)] else Decimal(n / 10) + [Digit(n % 10)]
  }

  function Digit(d: nat): char
    requires d < 10
  {
    '0' + d as char
  }

  predicate IsDigit(c: char) { '0' <= c <= '9' }

  // "%d:%s" of a string and its length.
  function Field(s: string): string { Decimal(|s|) + ":" + s }

  function IdLines(ids: seq<string>): string {
    if ids == [] then "" else "id=" + Field(ids[0]) + "\n" + IdLines(ids[1..])
  }

  const HEADER := "dossierx-brief-lock/v1\nsummary="

  // Every byte written to the hash.
  function Preimage(summary: string, restsOn: seq<string>, body: string): string {
    var ids := SortStrings(restsOn);
    HEADER + (Field(summary) + ("\nrests_on=" + (Decimal(|ids|) + ("\n" + (IdLines(ids) + Tail(body))))))
  }

  function Tail(body: string): string { "body=" + (Field(body) + "\n") }

  function Of(summary: string, restsOn: seq<string>, body: string): Digest {
    Sha256(Preimage(summary, restsOn, body))
  }

  // The bytes themselves, for a brief that rests on one claim.
  lemma PreimageOfOne(summary: string, id: string, body: string)
    ensures Preimage(summary, [id], body) ==
      HEADER + (Field(summary)
        + ("\nrests_on=" + ("1" + ("\n" + (("id=" + Field(id) + "\n") + ("body=" + (Field(body) + "\n")))))))
    ensures HEADER == "dossierx-brief-lock/v1\nsummary="
  {
    OneIdSorted(id);
    OneIdLine(id);
    assert Decimal(1) == "1";
    hide Decimal, IdLines, SortStrings, Field, HEADER;
  }

  lemma OneIdSorted(id: string)
    ensures SortStrings([id]) == [id]
  {
    assert [id][1..] == [];
  }

  lemma OneIdLine(id: string)
    ensures IdLines([id]) == "id=" + Field(id) + "\n"
  {
    assert [id][1..] == [];
    var line := "id=" + Field(id) + "\n";
    assert line + "" == line;
  }

  // The source's form: one write per field, one per id.
  method Compute(summary: string, restsOn: seq<string>, body: string) returns (digest: Digest)
    ensures digest == Of(summary, restsOn, body)
  {
    var ids := SortStrings(restsOn);
    var h := HEADER + Field(summary) + "\nrests_on=" + Decimal(|ids|) + "\n";
    Regroup(HEADER, Field(summary), "\nrests_on=", Decimal(|ids|), "\n", IdLines(ids) + Tail(body));
    for i := 0 to |ids|
      invariant h + (IdLines(ids[i..]) + Tail(body)) == Preimage(summary, restsOn, body)
    {
      IdLineStep(h, ids, i, Tail(body));
      h := h + ("id=" + Field(ids[i]) + "\n");
    }
    IdLinesEnd(ids, body);
    h := h + ("body=" + Field(body) + "\n");
    digest := Sha256(h);
  }

  lemma Regroup(a: string, b: string, c: string, d: string, e: string, rest: string)
    ensures a + b + c + d + e + rest == a + (b + (c + (d + (e + rest))))
  {
    assert d + e + rest == d + (e + rest);
    assert c + d + e + rest == c + (d + e + rest);
    assert b + c + d + e + rest == b + (c + d + e + rest);
    assert a + b + c + d + e + rest == a + (b + c + d + e + rest);
  }

  lemma IdLineStep(h: string, ids: seq<string>, i: nat, tail: string)
    requires i < |ids|
    ensures h + (IdLines(ids[i..]) + tail) == (h + ("id=" + Field(ids[i]) + "\n")) + (IdLines(ids[i + 1..]) + tail)
  {
    assert ids[i..][1..] == ids[i + 1..];
    var line := "id=" + Field(ids[i]) + "\n";
    assert IdLines(ids[i..]) + tail == line + (IdLines(ids[i + 1..]) + tail);
  }

  lemma IdLinesEnd(ids: seq<string>, body: string)
    ensures IdLines(ids[|ids|..]) + Tail(body) == "body=" + Field(body) + "\n"
  {
    assert "" + Tail(body) == Tail(body);
    assert "body=" + Field(body) + "\n" == Tail(body);
  }

  // ---- the reader ----

  // Reads a decimal number up to its terminator; `acc` is the value so far.
  function ReadNumber(s: string, end: char, acc: nat): Option<(nat, string)> {
    if s == "" then None
    else if IsDigit(s[0]) then ReadNumber(s[1..], end, 10 * acc + (s[0] - '0') as nat)
    else if s[0] == end then Some((acc, s[1..]))
    else None
  }

  function ReadField(s: string): Option<(string, string)> {
    match ReadNumber(s, ':', 0)
    case None => None
    case Some((n, rest)) => if n <= |rest| then Some((rest[..n], rest[n..])) else None
  }

  function ReadLiteral(s: string, literal: string): Option<string> {
    if |literal| <= |s| && s[..|literal|] == literal then Some(s[|literal|..]) else None
  }

  function ReadIds(s: string, count: nat): Option<(seq<string>, string)>
    decreases count
  {
    if count == 0 then Some(([], s))
    else
      match ReadLiteral(s, "id=")
      case None => None
      case Some(s1) =>
        match ReadField(s1)
        case None => None
        case Some((id, s2)) =>
          match ReadLiteral(s2, "\n")
          case None => None
          case Some(s3) =>
            match ReadIds(s3, count - 1)
            case None => None
            case Some((ids, rest)) => Some(([id] + ids, rest))
  }

  function Decode(s: string): Option<(string, seq<string>, string)> {
    match ReadLiteral(s, HEADER)
    case None => None
    case Some(s1) =>
      match ReadField(s1)
      case None => None
      case Some((summary, s2)) =>
        match ReadLiteral(s2, "\nrests_on=")
        case None => None
        case Some(s3) =>
          match ReadNumber(s3, '\n', 0)
          case None => None
          case Some((count, s4)) =>
            match ReadIds(s4, count)
            case None => None
            case Some((ids, s5)) =>
              match ReadLiteral(s5, "body=")
              case None => None
              case Some(s6) =>
                match ReadField(s6)
                case None => None
                case Some((body, s7)) => if s7 == "\n" then Some((summary, ids, body)) else None
  }

  // ---- the reader inverts the writer ----

  function Pow10(k: nat): nat { if k == 0 then 1 else 10 * Pow10(k - 1) }

  lemma {:induction false} ReadDecimal(n: nat, end: char, rest: string, acc: nat)
    requires !IsDigit(end)
    ensures ReadNumber(Decimal(n) + [end] + rest, end, acc) == Some((acc * Pow10(|Decimal(n)|) + n, rest))
    decreases n
  {
    ReadDigits(n, [end] + rest, end, acc);
    assert Decimal(n) + [end] + rest == Decimal(n) + ([end] + rest);
    assert ([end] + rest)[1..] == rest;
  }

  // The digits of n are read into the accumulator, whatever follows them.
  lemma {:induction false} ReadDigits(n: nat, rest: string, end: char, acc: nat)
    ensures ReadNumber(Decimal(n) + rest, end, acc) == ReadNumber(rest, end, acc * Pow10(|Decimal(n)|) + n)
    decreases n
  {
    if n < 10 {
      assert Pow10(1) == 10 * Pow10(0);
      assert (Decimal(n) + rest)[1..] == rest;
    } else {
      var d := [Digit(n % 10)] + rest;
      ReadDigits(n / 10, d, end, acc);
      assert Decimal(n) + rest == Decimal(n / 10) + d;
      assert d[1..] == rest;
      var high := acc * Pow10(|Decimal(n / 10)|);
      assert 10 * (high + n / 10) + n % 10 == acc * Pow10(|Decimal(n)|) + n by {
        assert Pow10(|Decimal(n)|) == 10 * Pow10(|Decimal(n / 10)|);
        assert acc * (10 * Pow10(|Decimal(n / 10)|)) == 10 * (acc * Pow10(|Decimal(n / 10)|));
      }
    }
  }

  lemma ReadFieldBack(x: string, rest: string)
    ensures ReadField(Field(x) + rest) == Some((x, rest))
  {
    ReadDecimal(|x|, ':', x + rest, 0);
    assert Field(x) + rest == Decimal(|x|) + [':'] + (x + rest);
    assert (x + rest)[..|x|] == x && (x + rest)[|x|..] == rest;
  }

  lemma ReadLiteralBack(literal: string, rest: string)
    ensures ReadLiteral(literal + rest, literal) == Some(rest)
  {}

  lemma {:induction false} ReadIdsBack(ids: seq<string>, rest: string)
    ensures ReadIds(IdLines(ids) + rest, |ids|) == Some((ids, rest))
  {
    hide Field, ReadField, ReadLiteral;
    if ids == [] {
      assert IdLines(ids) + rest == rest;
    } else {
      var tail := IdLines(ids[1..]) + rest;
      assert IdLines(ids) + rest == "id=" + (Field(ids[0]) + ("\n" + tail));
      ReadLiteralBack("id=", Field(ids[0]) + ("\n" + tail));
      ReadFieldBack(ids[0], "\n" + tail);
      ReadLiteralBack("\n", tail);
      ReadIdsBack(ids[1..], rest);
      assert ids == [ids[0]] + ids[1..];
    }
  }

  // Everything signed can be read back out of the bytes hashed, whatever the three
  // fields hold: colons, digits, newlines, lookalike lines.
  lemma DecodePreimage(summary: string, restsOn: seq<string>, body: string)
    ensures Decode(Preimage(summary, restsOn, body)) == Some((summary, SortStrings(restsOn), body))
  {
    var ids := SortStrings(restsOn);
    var s6 := Field(body) + "\n";
    var s4 := IdLines(ids) + Tail(body);
    var s3 := Decimal(|ids|) + ("\n" + s4);
    var s2 := "\nrests_on=" + s3;
    ReadLiteralBack(HEADER, Field(summary) + s2);
    ReadFieldBack(summary, s2);
    ReadLiteralBack("\nrests_on=", s3);
    assert s3 == Decimal(|ids|) + ['\n'] + s4;
    ReadDecimal(|ids|, '\n', s4, 0);
    ReadIdsBack(ids, Tail(body));
    ReadLiteralBack("body=", s6);
    ReadFieldBack(body, "\n");
  }

  // Two briefs hash alike exactly when they read alike: the same summary, the same body,
  // and the same rests_on ids in any order.
  lemma HashesAlike(s1: string, r1: seq<string>, b1: string, s2: string, r2: seq<string>, b2: string)
    ensures Of(s1, r1, b1) == Of(s2, r2, b2) <==> s1 == s2 && b1 == b2 && multiset(r1) == multiset(r2)
  {
    DecodePreimage(s1, r1, b1);
    DecodePreimage(s2, r2, b2);
    SortStringsCanonical(r1, r2);
  }
}
