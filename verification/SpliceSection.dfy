// Writing the skills section into AGENTS.md between two markers
// (cmd/dossierx/skills_embed.go).
module SpliceSection {
  import opened GoStd

  const BEGIN := "<!-- BEGIN dossierx skills -->"
  const END := "<!-- END dossierx skills -->"

  function TrimNewline(s: string): string {
    if s != "" && s[0] == '\n' then s[1..] else s
  }

  // What is put in front of a section appended to a text that holds none.
  function Lead(existing: string): string {
    if existing == "" then ""
    else if existing[|existing| - 1] == '\n' then existing + "\n"
    else existing + "\n\n"
  }

  // spliceAgentsSection.
  function Splice(existing: string, section: string): string {
    match IndexFrom(existing, BEGIN, 0)
    case None => Lead(existing) + section
    case Some(begin) =>
      match IndexFrom(existing, END, begin)
      case None => Lead(existing) + section
      case Some(end) => existing[..begin] + section + TrimNewline(existing[end + |END|..])
  }

  // A section as the exporter builds it: the markers on lines of their own, and nothing
  // that reads as the closing marker in between.
  ghost predicate IsSection(section: string, inner: string) {
    section == BEGIN + ("\n" + (inner + ("\n" + (END + "\n")))) && !Contains(inner, END)
  }

  ghost predicate HasSection(text: string, begin: nat, end: nat) {
    IndexFrom(text, BEGIN, 0) == Some(begin) && begin <= |text| && IndexFrom(text, END, begin) == Some(end)
  }

  // The malformed text: a BEGIN with no END after it.
  ghost predicate Unclosed(text: string) {
    var begin := IndexFrom(text, BEGIN, 0);
    begin.Some? && IndexFrom(text, END, begin.value).None?
  }

  // ---- where a marker can occur in a concatenation ----

  lemma IndexIsFirst(s: string, sub: string, from: nat, i: nat)
    requires from <= i <= |s| && OccursAt(s, sub, i)
    requires forall k: nat :: from <= k < i ==> !OccursAt(s, sub, k)
    ensures IndexFrom(s, sub, from) == Some(i)
  {}

  lemma OccursChars(s: string, sub: string, i: nat)
    ensures OccursAt(s, sub, i) <==> i + |sub| <= |s| && forall m :: i <= m < i + |sub| ==> s[m] == sub[m - i]
  {
    if i + |sub| <= |s| {
      assert |s[i..i + |sub|]| == |sub|;
      assert forall m :: i <= m < i + |sub| ==> s[m] == s[i..i + |sub|][m - i];
    }
  }

  lemma OccursInside(s: string, sub: string, i: nat, lo: nat, hi: nat)
    requires OccursAt(s, sub, i) && lo <= i && i + |sub| <= hi <= |s|
    ensures OccursAt(s[lo..hi], sub, i - lo)
  {
    OccursChars(s, sub, i);
    OccursChars(s[lo..hi], sub, i - lo);
  }

  lemma OccursWithin(s: string, sub: string, i: nat, lo: nat, hi: nat)
    requires lo <= hi <= |s| && OccursAt(s[lo..hi], sub, i)
    ensures OccursAt(s, sub, lo + i)
  {
    OccursChars(s[lo..hi], sub, i);
    assert forall m :: lo + i <= m < lo + i + |sub| ==> s[m] == s[lo..hi][m - lo];
    OccursChars(s, sub, lo + i);
  }

  // A marker has no newline in it, so it never straddles one.
  lemma NoStraddle(s: string, sub: string, i: nat, k: nat)
    requires OccursAt(s, sub, i) && '\n' !in sub && k < |s| && s[k] == '\n'
    ensures i + |sub| <= k || k < i
  {
    OccursChars(s, sub, i);
  }

  lemma MarkersAreLines()
    ensures '\n' !in BEGIN && '\n' !in END && |END| > 0 && |BEGIN| > 0
    ensures !Contains(BEGIN, END)
  {
    NoEndInBeginMarker();
  }

  // It would have to start at 0, 1 or 2.
  lemma NoEndInBeginMarker()
    ensures !Contains(BEGIN, END)
  {
    assert |BEGIN| == |END| + 2 && 5 < |END|;
    assert BEGIN[5] != END[5] && BEGIN[1] != END[0] && BEGIN[2] != END[0];
    hide BEGIN, END;
    forall i: nat ensures !OccursAt(BEGIN, END, i) {
      OccursChars(BEGIN, END, i);
      if i + |END| <= |BEGIN| { assert BEGIN[i] != END[0] || BEGIN[i + 5] != END[5]; }
    }
  }

  // A section's lines, by offset.
  lemma SectionLayout(section: string, inner: string)
    requires IsSection(section, inner)
    ensures var close := |section| - |END| - 2;
      && |BEGIN| < close && section[..|BEGIN|] == BEGIN && section[|BEGIN|] == '\n'
      && section[|BEGIN| + 1..close] == inner && section[close] == '\n' && section[close + 1..|section| - 1] == END
  {
    hide BEGIN, END, Contains;
  }

  lemma MovedSlice(text: string, pre: string, section: string, post: string, a: nat, b: nat)
    requires text == pre + section + post && a <= b <= |section|
    ensures |pre| + b <= |text| && text[|pre| + a..|pre| + b] == section[a..b]
  {
  }

  lemma MovedChar(text: string, pre: string, section: string, post: string, a: nat)
    requires text == pre + section + post && a < |section|
    ensures |pre| + a < |text| && text[|pre| + a] == section[a]
  {
  }

  // The same, in a text that holds the section.
  lemma LayoutIn(text: string, pre: string, section: string, inner: string, post: string)
    requires IsSection(section, inner) && text == pre + section + post
    ensures var open, close := |pre| + |BEGIN|, |pre| + |section| - |END| - 2;
      && |pre| <= open < close < |text| && text[open] == '\n' && text[close] == '\n'
      && text[|pre|..open] == BEGIN && text[open + 1..close] == inner && OccursAt(text, END, close + 1)
      && !Contains(inner, END)
  {
    var close := |section| - |END| - 2;
    SectionLayout(section, inner);
    assert !Contains(inner, END);
    hide IsSection, BEGIN, END;
    MovedSlice(text, pre, section, post, 0, |BEGIN|);
    MovedChar(text, pre, section, post, |BEGIN|);
    MovedSlice(text, pre, section, post, |BEGIN| + 1, close);
    MovedChar(text, pre, section, post, close);
    MovedSlice(text, pre, section, post, close + 1, |section| - 1);
  }

  // In pre + section + post the section's closing marker is the first END in the section.
  lemma EndIsFound(pre: string, section: string, inner: string, post: string, from: nat)
    requires IsSection(section, inner) && from <= |pre|
    requires forall k: nat :: from <= k < |pre| ==> !OccursAt(pre + section + post, END, k)
    ensures IndexFrom(pre + section + post, END, from) == Some(|pre| + |section| - |END| - 1)
  {
    var text := pre + section + post;
    hide IsSection, IndexFrom, Contains, OccursAt, BEGIN, END;
    LayoutIn(text, pre, section, inner, post);
    FirstEndFrom(text, |pre|, |pre| + |BEGIN|, |pre| + |section| - |END| - 2, inner, from);
  }

  lemma FirstEndFrom(text: string, start: nat, open: nat, close: nat, inner: string, from: nat)
    requires from <= start <= open < close < |text| && text[open] == '\n' && text[close] == '\n'
    requires text[start..open] == BEGIN && text[open + 1..close] == inner && !Contains(inner, END)
    requires OccursAt(text, END, close + 1) && forall k: nat :: from <= k < start ==> !OccursAt(text, END, k)
    ensures IndexFrom(text, END, from) == Some(close + 1)
  {
    hide BEGIN, END, Contains;
    forall k: nat | start <= k <= close ensures !OccursAt(text, END, k)
    {
      NoEndBefore(text, start, open, close, inner, k);
    }
    IndexIsFirst(text, END, from, close + 1);
  }

  // Between two newlines, and in a BEGIN before the first, there is no END.
  lemma NoEndBefore(text: string, start: nat, open: nat, close: nat, inner: string, k: nat)
    requires start <= open < close < |text| && start <= k <= close && text[open] == '\n' && text[close] == '\n'
    requires text[start..open] == BEGIN && text[open + 1..close] == inner && !Contains(inner, END)
    ensures !OccursAt(text, END, k)
  {
    MarkersAreLines();
    if OccursAt(text, END, k) {
      NoStraddle(text, END, k, open);
      NoStraddle(text, END, k, close);
      if k < open { OccursInside(text, END, k, start, open); }
      else { OccursInside(text, END, k, open + 1, close); }
    }
  }

  // With no BEGIN running into the section from before, its own is the first.
  lemma SectionIsFound(pre: string, section: string, inner: string, post: string)
    requires IsSection(section, inner)
    requires forall k: nat :: k < |pre| ==> !OccursAt(pre + section + post, BEGIN, k)
    ensures HasSection(pre + section + post, |pre|, |pre| + |section| - |END| - 1)
  {
    var text := pre + section + post;
    assert text[|pre|..|pre| + |section|] == section && section[..|BEGIN|] == BEGIN;
    OccursWithin(text, BEGIN, 0, |pre|, |pre| + |section|);
    IndexIsFirst(text, BEGIN, 0, |pre|);
    EndIsFound(pre, section, inner, post, |pre|);
  }

  // ---- what one splice leaves ----

  // The text around the section, before and after, as a splice leaves it.
  function Before(existing: string): string {
    match IndexFrom(existing, BEGIN, 0)
    case None => Lead(existing)
    case Some(begin) => if IndexFrom(existing, END, begin).None? then Lead(existing) else existing[..begin]
  }

  function After(existing: string): string {
    match IndexFrom(existing, BEGIN, 0)
    case None => ""
    case Some(begin) =>
      match IndexFrom(existing, END, begin)
      case None => ""
      case Some(end) => TrimNewline(existing[end + |END|..])
  }

  lemma SpliceShape(existing: string, section: string)
    ensures Splice(existing, section) == Before(existing) + section + After(existing)
  {
    assert Lead(existing) + section + "" == Lead(existing) + section;
  }

  // A well-formed text: no BEGIN marker at all, or an END after the first one.
  lemma NoMarkerRunsIn(existing: string, section: string, inner: string)
    requires IsSection(section, inner) && !Unclosed(existing)
    ensures forall k: nat :: k < |Before(existing)| ==>
      !OccursAt(Before(existing) + section + After(existing), BEGIN, k)
  {
    var pre, post := Before(existing), After(existing);
    var text := pre + section + post;
    assert section[..|BEGIN|] == BEGIN;
    forall k: nat | k < |pre| ensures !OccursAt(text, BEGIN, k) {
      match IndexFrom(existing, BEGIN, 0)
      case None => NoneBeforeAppended(existing, section + post, k);
      case Some(begin) => NoneBeforeReplaced(existing, section, post, begin, k);
    }
  }

  lemma NoneBeforeAppended(existing: string, rest: string, k: nat)
    requires IndexFrom(existing, BEGIN, 0).None? && k < |Lead(existing)|
    ensures !OccursAt(Lead(existing) + rest, BEGIN, k)
    ensures forall a: string, b: string :: rest == a + b ==> !OccursAt(Lead(existing) + a + b, BEGIN, k)
  {
    var pre := Lead(existing);
    var text, last := pre + rest, |pre| - 1;
    forall a: string, b: string | rest == a + b ensures pre + a + b == text { assert pre + (a + b) == pre + a + b; }
    if OccursAt(text, BEGIN, k) {
      MarkersAreLines();
      assert text[last] == '\n';
      NoStraddle(text, BEGIN, k, last);
      assert text[..last] == pre[..last];
      OccursInside(text, BEGIN, k, 0, last);
      NotInLead(existing, k);
    }
  }

  lemma NoneBeforeReplaced(existing: string, section: string, post: string, begin: nat, k: nat)
    requires IndexFrom(existing, BEGIN, 0) == Some(begin) && |BEGIN| <= |section| && section[..|BEGIN|] == BEGIN
    requires k < begin
    ensures !OccursAt(existing[..begin] + section + post, BEGIN, k)
  {
    SameHead(existing, section, post, begin);
    var text, end := existing[..begin] + section + post, begin + |BEGIN|;
    assert |BEGIN| > 0 && !OccursAt(existing, BEGIN, k);
    hide IndexFrom, BEGIN;
    if OccursAt(text, BEGIN, k) {
      OccursInside(text, BEGIN, k, 0, end);
      OccursWithin(existing, BEGIN, k, 0, end);
    }
  }

  // Up to the end of its BEGIN the text is as it was.
  lemma SameHead(existing: string, section: string, post: string, begin: nat)
    requires OccursAt(existing, BEGIN, begin) && |BEGIN| <= |section| && section[..|BEGIN|] == BEGIN
    ensures var text := existing[..begin] + section + post;
      begin + |BEGIN| <= |text| && text[0..begin + |BEGIN|] == existing[0..begin + |BEGIN|]
  {
    hide BEGIN;
    var text, end := existing[..begin] + section + post, begin + |BEGIN|;
    assert text[0..end] == existing[..begin] + section[..|BEGIN|];
    assert existing[0..end] == existing[..begin] + existing[begin..end];
  }

  lemma NotInLead(existing: string, k: nat)
    requires IndexFrom(existing, BEGIN, 0).None? && k + |BEGIN| <= |Lead(existing)| - 1
    ensures !OccursAt(Lead(existing)[..|Lead(existing)| - 1], BEGIN, k)
  {
    var lead := Lead(existing);
    if OccursAt(lead[..|lead| - 1], BEGIN, k) {
      MarkersAreLines();
      assert lead[..|lead| - 1] == lead[0..|lead| - 1];
      OccursWithin(lead, BEGIN, k, 0, |lead| - 1);
      if k + |BEGIN| > |existing| {
        assert lead[|existing|] == '\n';
        NoStraddle(lead, BEGIN, k, |existing|);
      }
      assert lead[..|existing|] == existing;
      OccursInside(lead, BEGIN, k, 0, |existing|);
    }
  }

  // Running the export again changes nothing, for exactly the texts that do not hold a
  // BEGIN left unclosed.
  lemma SpliceIdempotentIff(existing: string, section: string, inner: string)
    requires IsSection(section, inner)
    ensures Splice(Splice(existing, section), section) == Splice(existing, section) <==> !Unclosed(existing)
  {
    hide Splice, IsSection, Unclosed;
    if Unclosed(existing) {
      UnclosedShrinks(existing, section, inner);
    } else {
      ClosedIsStable(existing, section, inner);
    }
  }

  lemma ClosedIsStable(existing: string, section: string, inner: string)
    requires IsSection(section, inner) && !Unclosed(existing)
    ensures Splice(Splice(existing, section), section) == Splice(existing, section)
  {
    hide Before, After, Unclosed, IndexFrom;
    var pre, post := Before(existing), After(existing);
    var once := pre + section + post;
    SpliceShape(existing, section);
    NoMarkerRunsIn(existing, section, inner);
    SectionIsFound(pre, section, inner, post);
    var end := |pre| + |section| - |END| - 1;
    SectionEnds(section, inner);
    hide IsSection;
    SplicesAt(once, section, |pre|, end);
    assert once[..|pre|] == pre;
    assert once[end + |END|..] == section[|section| - 1..] + post == "\n" + post;
    assert ("\n" + post)[1..] == post;
  }

  lemma SectionEnds(section: string, inner: string)
    requires IsSection(section, inner)
    ensures |section| > |END| && section[|section| - 1..] == "\n"
  {
  }

  lemma SplicesAt(text: string, section: string, begin: nat, end: nat)
    requires HasSection(text, begin, end)
    ensures end + |END| <= |text| && Splice(text, section) == text[..begin] + section + TrimNewline(text[end + |END|..])
  {
    hide IndexFrom;
  }

  // The other family: the second run replaces everything from the stale BEGIN on, the rest
  // of the text with it.
  lemma UnclosedShrinks(existing: string, section: string, inner: string)
    requires IsSection(section, inner) && Unclosed(existing)
    ensures var begin := IndexFrom(existing, BEGIN, 0).value;
      begin + |BEGIN| <= |existing| && Splice(Splice(existing, section), section) == existing[..begin] + section
    ensures |Splice(Splice(existing, section), section)| < |Splice(existing, section)|
  {
    var begin := IndexFrom(existing, BEGIN, 0).value;
    var lead := Lead(existing);
    var once := lead + section;
    assert IndexFrom(existing, BEGIN, 0) == Some(begin);
    hide BEGIN, END, IndexFrom, IsSection, Lead, OccursAt, Unclosed, Splice;
    StaleBeginIsFound(existing, section, begin);
    assert once + "" == once;
    forall k: nat | begin <= k < |lead| ensures !OccursAt(once, END, k) {
      if OccursAt(once, END, k) { NoEndInLead(existing, section, begin, k); }
    }
    EndIsFound(lead, section, inner, "", begin);
    Swallowed(existing, section, inner, begin);
  }

  lemma Swallowed(existing: string, section: string, inner: string, begin: nat)
    requires IsSection(section, inner) && Unclosed(existing) && IndexFrom(existing, BEGIN, 0) == Some(begin)
    requires begin <= |existing|
    requires HasSection(Lead(existing) + section, begin, |Lead(existing)| + |section| - |END| - 1)
    ensures begin + |BEGIN| <= |existing| && Splice(Splice(existing, section), section) == existing[..begin] + section
    ensures |Splice(Splice(existing, section), section)| < |Splice(existing, section)|
  {
    hide IsSection, IndexFrom, Unclosed, HasSection, Lead, Splice, BEGIN, END;
    UnclosedIsAppended(existing, section);
    SectionEnds(section, inner);
    var lead := Lead(existing);
    var once := lead + section;
    var end := |lead| + |section| - |END| - 1;
    SplicesAt(once, section, begin, end);
    assert once[end + |END|..] == section[|section| - 1..] == "\n";
    assert once[..begin] == lead[..begin] == existing[..begin];
    assert TrimNewline("\n") == "";
    assert existing[..begin] + section + "" == existing[..begin] + section;
  }

  lemma UnclosedIsAppended(existing: string, section: string)
    requires Unclosed(existing)
    ensures Splice(existing, section) == Lead(existing) + section
    ensures |existing| < |Lead(existing)| && Lead(existing)[..|existing|] == existing
    ensures IndexFrom(existing, BEGIN, 0).value + |BEGIN| <= |existing|
  {
    assert |BEGIN| > 0;
    hide IndexFrom, BEGIN, END;
  }

  lemma StaleBeginIsFound(existing: string, section: string, begin: nat)
    requires IndexFrom(existing, BEGIN, 0) == Some(begin)
    ensures IndexFrom(Lead(existing) + section, BEGIN, 0) == Some(begin)
    ensures begin + |BEGIN| <= |existing| <= |Lead(existing)|
  {
    var once := Lead(existing) + section;
    assert once[0..|existing|] == existing;
    OccursWithin(once, BEGIN, begin, 0, |existing|);
    forall k: nat | k < begin ensures !OccursAt(once, BEGIN, k) {
      if OccursAt(once, BEGIN, k) { OccursInside(once, BEGIN, k, 0, |existing|); }
    }
    IndexIsFirst(once, BEGIN, 0, begin);
  }

  lemma UnclosedIsNotEmpty(existing: string)
    requires Unclosed(existing)
    ensures existing != ""
  {
    assert |BEGIN| > 0;
    hide BEGIN, END;
  }

  lemma LeadBreaks(existing: string)
    requires existing != ""
    ensures var lead := Lead(existing);
      && |existing| < |lead| <= |existing| + 2 && lead[0..|existing|] == existing
      && |lead| >= 2 && lead[|lead| - 1] == '\n' && lead[|lead| - 2] == '\n'
  {
  }

  lemma NoEndInLead(existing: string, section: string, begin: nat, k: nat)
    requires Unclosed(existing) && IndexFrom(existing, BEGIN, 0) == Some(begin)
    requires begin <= k && OccursAt(Lead(existing) + section, END, k)
    ensures k >= |Lead(existing)|
  {
    MarkersAreLines();
    var lead := Lead(existing);
    var once := lead + section;
    UnclosedIsNotEmpty(existing);
    LeadBreaks(existing);
    hide BEGIN, END, IndexFrom, Lead;
    assert once[|lead| - 1] == lead[|lead| - 1] && once[|lead| - 2] == lead[|lead| - 2];
    assert once[0..|existing|] == lead[0..|existing|] == existing;
    NoStraddle(once, END, k, |lead| - 1);
    NoStraddle(once, END, k, |lead| - 2);
    if k + |END| <= |existing| { OccursInside(once, END, k, 0, |existing|); }
  }

  // ---- locality ----

  // A marker opens with the one '<' it has, so two of them never overlap.
  lemma MarkersAreBorderFree()
    ensures |BEGIN| > 0 && |END| > 0 && BEGIN[0] == END[0] == '<'
    ensures forall m :: 1 <= m < |BEGIN| ==> BEGIN[m] != '<'
    ensures forall m :: 1 <= m < |END| ==> END[m] != '<'
    ensures 5 < |END| < |BEGIN| && BEGIN[5] != END[5]
  {
  }

  lemma NoOverlap(s: string, sub: string, i: nat, k: nat)
    requires OccursAt(s, sub, i) && k < |s| && s[k] == '<' && forall m :: 1 <= m < |sub| ==> sub[m] != '<'
    ensures k <= i || i + |sub| <= k
  {
    OccursChars(s, sub, i);
  }

  // The first BEGIN of a text is the one its first part does not hold.
  lemma FirstBegin(pre: string, rest: string)
    requires !Contains(pre, BEGIN)
    ensures IndexFrom(pre + BEGIN + rest, BEGIN, 0) == Some(|pre|)
  {
    var text := pre + BEGIN + rest;
    MarkersAreBorderFree();
    assert text[|pre|..|pre| + |BEGIN|] == BEGIN;
    assert text[|pre|] == BEGIN[0];
    hide BEGIN;
    forall k: nat | k < |pre| ensures !OccursAt(text, BEGIN, k) {
      if OccursAt(text, BEGIN, k) {
        NoOverlap(text, BEGIN, k, |pre|);
        assert text[0..|pre|] == pre;
        OccursInside(text, BEGIN, k, 0, |pre|);
      }
    }
    IndexIsFirst(text, BEGIN, 0, |pre|);
  }

  lemma NoEndInBegin(text: string, at: nat, k: nat)
    requires at + |BEGIN| <= |text| && text[at..at + |BEGIN|] == BEGIN && at <= k < at + |BEGIN|
    ensures !OccursAt(text, END, k)
  {
    MarkersAreBorderFree();
    OccursChars(text, END, k);
    assert text[k] == text[at..at + |BEGIN|][k - at];
    assert text[at + 5] == text[at..at + |BEGIN|][5];
  }

  // No END starts in the BEGIN, nor in the text after it up to the END there is.
  lemma FirstEnd(pre: string, mid: string, post: string)
    requires !Contains(mid, END)
    ensures IndexFrom(pre + BEGIN + mid + END + post, END, |pre|) == Some(|pre| + |BEGIN| + |mid|)
  {
    var text := pre + BEGIN + mid + END + post;
    var open, end := |pre| + |BEGIN|, |pre| + |BEGIN| + |mid|;
    MarkersAreBorderFree();
    assert text[end..end + |END|] == END && text[end] == END[0];
    assert text[|pre|..open] == BEGIN && text[open..end] == mid;
    forall k: nat | |pre| <= k < end ensures !OccursAt(text, END, k) {
      if k < open {
        NoEndInBegin(text, |pre|, k);
      } else if OccursAt(text, END, k) {
        NoOverlap(text, END, k, end);
        OccursInside(text, END, k, open, end);
      }
    }
    IndexIsFirst(text, END, |pre|, end);
  }

  // Whatever comes before the first BEGIN and after the first END past it is kept, but for
  // one newline the section itself supplies.
  lemma SectionIsReplacedInPlace(pre: string, mid: string, post: string, section: string)
    requires !Contains(pre, BEGIN) && !Contains(mid, END)
    ensures Splice(pre + BEGIN + mid + END + "\n" + post, section) == pre + section + post
    ensures (post == "" || post[0] != '\n') ==> Splice(pre + BEGIN + mid + END + post, section) == pre + section + post
  {
    ReplacedInPlace(pre, mid, "\n" + post, section);
    ReplacedInPlace(pre, mid, post, section);
    assert pre + BEGIN + mid + END + ("\n" + post) == pre + BEGIN + mid + END + "\n" + post;
    assert TrimNewline("\n" + post) == post;
  }

  lemma ReplacedInPlace(pre: string, mid: string, post: string, section: string)
    requires !Contains(pre, BEGIN) && !Contains(mid, END)
    ensures Splice(pre + BEGIN + mid + END + post, section) == pre + section + TrimNewline(post)
  {
    var text := pre + BEGIN + mid + END + post;
    assert text == pre + BEGIN + (mid + END + post);
    FirstBegin(pre, mid + END + post);
    FirstEnd(pre, mid, post);
    hide BEGIN, END, IndexFrom, Contains;
    assert text[..|pre|] == pre && text[|pre| + |BEGIN| + |mid| + |END|..] == post;
  }

  // Every text with a section is made of such parts.
  lemma SectionHasParts(existing: string, begin: nat, end: nat)
    requires HasSection(existing, begin, end)
    ensures begin + |BEGIN| <= end && end + |END| <= |existing|
    ensures var pre, mid, post := existing[..begin], existing[begin + |BEGIN|..end], existing[end + |END|..];
      existing == pre + BEGIN + mid + END + post && !Contains(pre, BEGIN) && !Contains(mid, END)
  {
    NoEndInside(existing, begin, end);
    var open, close := begin + |BEGIN|, end + |END|;
    assert existing[begin..open] == BEGIN && existing[end..close] == END;
    hide BEGIN, END;
    if k: nat :| OccursAt(existing[..begin], BEGIN, k) {
      assert existing[..begin] == existing[0..begin];
      OccursWithin(existing, BEGIN, k, 0, begin);
    }
    if k: nat :| OccursAt(existing[open..end], END, k) { OccursWithin(existing, END, k, open, end); }
    FiveParts(existing, begin, open, end, close);
  }

  lemma NoEndInside(existing: string, begin: nat, end: nat)
    requires HasSection(existing, begin, end)
    ensures begin + |BEGIN| <= end && end + |END| <= |existing|
  {
    if end < begin + |BEGIN| { NoEndInBegin(existing, begin, end); }
  }

  lemma FiveParts(s: string, a: nat, b: nat, c: nat, d: nat)
    requires a <= b <= c <= d <= |s|
    ensures s == s[..a] + s[a..b] + s[b..c] + s[c..d] + s[d..]
  {
  }

  // A text with no section is kept whole, in front, with a blank line between.
  lemma SectionIsAppended(existing: string, section: string)
    requires forall begin: nat, end: nat :: !HasSection(existing, begin, end)
    ensures Splice(existing, section) == Lead(existing) + section
    ensures existing <= Lead(existing) && |Lead(existing)| <= |existing| + 2
    ensures forall k :: |existing| <= k < |Lead(existing)| ==> Lead(existing)[k] == '\n'
    ensures existing == "" ==> Lead(existing) == ""
    ensures existing != "" ==> Lead(existing) == existing + if existing[|existing| - 1] == '\n' then "\n" else "\n\n"
  {
    var b := IndexFrom(existing, BEGIN, 0);
    if b.Some? {
      var e := IndexFrom(existing, END, b.value);
      if e.Some? { assert HasSection(existing, b.value, e.value); }
    }
  }
}
