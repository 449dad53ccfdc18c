/** Turning local plain text into HTML: finding what to link, splicing in anchors, wrapping paragraphs. */
module Formatter {
  import opened Wrappers
  import opened Sorting
  import opened Text

  datatype Mention = Mention(username: string, acct: string, url: string)

  /** A part of the text, and the HTML to show in its place. */
  datatype Span = Span(start: nat, end: nat, html: string)

  const LINK_DISPLAY_MAX: nat := 30

  predicate InBounds(text: string, spans: seq<Span>) {
    forall i :: 0 <= i < |spans| ==> spans[i].start < spans[i].end <= |text|
  }

  /** Where the scheme and a leading `www.` end. */
  function PrefixEnd(url: string): (end: nat)
    ensures end <= |url|
  {
    var schemeEnd := match Find(url, "://", 0) case None => 0 case Some(i) => i + 3;
    if OccursAt(url, "www.", schemeEnd) then schemeEnd + 4 else schemeEnd
  }

  /** A link is cut by its length in bytes; cutting inside a character panics. */
  predicate Cuttable(url: string) {
    Bytes(url[PrefixEnd(url)..]) > LINK_DISPLAY_MAX ==> Boundary(url[PrefixEnd(url)..], LINK_DISPLAY_MAX).Some?
  }

  /** Cutting panics exactly if a character straddles the thirtieth byte behind the prefix. */
  lemma {:induction false} PanicsIffStraddled(url: string)
    ensures !Cuttable(url) <==> exists i: nat :: Straddles(url[PrefixEnd(url)..], i, LINK_DISPLAY_MAX)
  {
    var rest := url[PrefixEnd(url)..];
    if Bytes(rest) >= LINK_DISPLAY_MAX {
      NoBoundaryIffStraddled(rest, LINK_DISPLAY_MAX);
      assert rest[..|rest|] == rest;
    } else {
      forall i: nat
        ensures !Straddles(rest, i, LINK_DISPLAY_MAX)
      {
        if i < |rest| {
          BytesMonotone(rest, i + 1, |rest|);
          assert rest[..|rest|] == rest;
        }
      }
    }
  }

  /** In particular, it never panics on a url of one-byte characters. */
  lemma {:induction false} AsciiIsCuttable(url: string)
    requires forall i :: 0 <= i < |url| ==> Width(url[i]) == 1
    ensures Cuttable(url)
  {
    var rest := url[PrefixEnd(url)..];
    if Bytes(rest) > LINK_DISPLAY_MAX {
      AsciiBoundary(rest, LINK_DISPLAY_MAX);
    }
  }

  /** It does panic on some urls, such as a long path of two-byte characters at an odd offset. */
  lemma {:induction false} SomeUrlPanics() returns (url: string)
    ensures OccursAt(url, "http://", 0) && !Cuttable(url)
  {
    var rest := "a" + seq(15, _ => '\U{E9}');
    url := "http://" + rest;
    assert OccursAt(url, "://", 4);
    forall j | 0 <= j < 4
      ensures !OccursAt(url, "://", j)
    {
      assert url[j] != ':';
      assert j + 3 <= |url| ==> url[j..j + 3][0] == url[j];
    }
    assert Find(url, "://", 0) == Some(4);
    assert url[7..] == rest;
    assert url[7..11][0] == 'a';
    assert PrefixEnd(url) == 7;
    OddBytes(rest, 14);
    OddBytes(rest, 15);
    assert Straddles(rest, 15, LINK_DISPLAY_MAX);
    PanicsIffStraddled(url);
  }

  lemma {:induction false} OddBytes(rest: string, i: nat)
    requires rest == "a" + seq(15, _ => '\U{E9}') && i <= 15
    ensures Bytes(rest[..i + 1]) == 2 * i + 1
  {
    if i == 0 {
      assert rest[..1] == "a" && rest[..1][..0] == "";
    } else {
      OddBytes(rest, i - 1);
      assert rest[..i + 1][..i] == rest[..i];
    }
  }

  /** The invisible prefix, the displayed part, and the invisible rest of a link. */
  function LinkParts(url: string): (parts: (string, string, string))
    requires Cuttable(url)
  {
    var prefix, rest := url[..PrefixEnd(url)], url[PrefixEnd(url)..];
    if Bytes(rest) > LINK_DISPLAY_MAX then
      var cut := Boundary(rest, LINK_DISPLAY_MAX).value;
      (prefix, rest[..cut], rest[cut..])
    else (prefix, rest, "")
  }

  /** A tag, given what stands between its angle brackets. */
  function Markup(inner: string): string {
    "<" + inner + ">"
  }

  const HREF := "a href=\""
  const TARGET := "\" target=\"_blank\""
  const REL := " rel=\"nofollow noopener noreferrer\""
  const TRANSLATE := " translate=\"no\""
  const INVISIBLE := "span class=\"invisible\""
  const ELLIPSIS := "span class=\"ellipsis\""
  const WHOLE := "span class=\"\""

  /** Some text in a span of its own. */
  function Part(tag: string, s: string): string {
    Markup(tag) + Escaped(s) + Markup("/span")
  }

  function ShortenedLink(url: string): string
    requires Cuttable(url)
  {
    var parts := LinkParts(url);
    Markup(HREF + EscapedAttr(url) + (TARGET + REL + TRANSLATE))
    + (Part(INVISIBLE, parts.0)
       + (Part(if parts.2 == "" then WHOLE else ELLIPSIS, parts.1)
          + (Part(INVISIBLE, parts.2) + Markup("/a"))))
  }

  /** Shortening hides parts of a link but loses none: the three texts decode to the url, and 30 bytes at most are shown. */
  lemma {:induction false} LinkPartsAreWhole(url: string)
    requires Cuttable(url)
    ensures LinkParts(url).0 + LinkParts(url).1 + LinkParts(url).2 == url
    ensures Decoded(Escaped(LinkParts(url).0) + Escaped(LinkParts(url).1) + Escaped(LinkParts(url).2)) == url
    ensures Bytes(LinkParts(url).1) <= LINK_DISPLAY_MAX
    ensures LinkParts(url).2 != "" ==> Bytes(LinkParts(url).1) == LINK_DISPLAY_MAX
  {
    PartsOfLink(url);
    hide Escaped, Decoded, LinkParts;
    var (prefix, display, suffix) := LinkParts(url);
    EscapedConcat(prefix, display);
    EscapedConcat(prefix + display, suffix);
    DecodeEscaped(url);
  }

  /** What is hidden in front is the scheme, and a `www.` behind it. */
  lemma {:induction false} HiddenPrefix(scheme: string, rest: string)
    requires ':' !in scheme && Cuttable(scheme + "://" + rest)
    ensures LinkParts(scheme + "://" + rest).0 == scheme + "://" + if "www." <= rest then "www." else ""
  {
    var url := scheme + "://" + rest;
    hide Find, Boundary, Bytes;
    assert url[|scheme|..|scheme| + 3] == "://";
    assert OccursAt(url, "://", |scheme|);
    forall j | 0 <= j < |scheme|
      ensures !OccursAt(url, "://", j)
    {
      assert j + 3 <= |url| ==> url[j..j + 3][0] == scheme[j];
      assert scheme[j] in scheme;
    }
    assert Find(url, "://", 0) == Some(|scheme|);
    var schemeEnd := |scheme| + 3;
    assert url[schemeEnd..] == rest && url[..schemeEnd] == scheme + "://";
    assert OccursAt(url, "www.", schemeEnd) <==> "www." <= rest by {
      assert |rest| >= 4 ==> url[schemeEnd..schemeEnd + 4] == rest[..4];
    }
    if "www." <= rest {
      assert url[..schemeEnd + 4] == scheme + "://" + "www.";
    }
  }

  lemma PartsOfLink(url: string)
    requires Cuttable(url)
    ensures LinkParts(url).0 + LinkParts(url).1 + LinkParts(url).2 == url
    ensures Bytes(LinkParts(url).1) <= LINK_DISPLAY_MAX
    ensures LinkParts(url).2 != "" ==> Bytes(LinkParts(url).1) == LINK_DISPLAY_MAX
  {
    hide Bytes, Boundary, PrefixEnd;
    var end := PrefixEnd(url);
    var rest := url[end..];
    assert url == url[..end] + rest;
    if Bytes(rest) > LINK_DISPLAY_MAX {
      var cut := Boundary(rest, LINK_DISPLAY_MAX).value;
      assert rest == rest[..cut] + rest[cut..];
      assert url == url[..end] + (rest[..cut] + rest[cut..]);
    } else {
      assert rest == rest + "";
    }
  }

  const CARD := "span class=\"h-card\" translate=\"no\""
  const MENTION := "\" class=\"u-url mention\""

  /** A sigil and a name in a span, at the end of an anchor. */
  function Handle(sigil: string, name: string): string {
    sigil + Markup("span") + Escaped(name) + Markup("/span") + Markup("/a")
  }

  function MentionHtml(m: Mention): string {
    Markup(CARD) + Markup(HREF + EscapedAttr(m.url) + MENTION) + (Handle("@", m.acct) + Markup("/span"))
  }

  const HASHTAG := "\" class=\"mention hashtag\" rel=\"tag\""

  function TagAddress(name: string, instanceDomain: string): string {
    "https://" + instanceDomain + "/tags/" + EscapedAttr(name)
  }

  function TagHtml(name: string, instanceDomain: string): string {
    Markup(HREF + TagAddress(name, instanceDomain) + HASHTAG) + Handle("#", name)
  }

  /** The second part of `acct` split at `@`, if there is one. */
  function DomainOf(acct: string): Option<string> {
    match Find(acct, "@", 0)
    case None => None
    case Some(i) =>
      match Find(acct, "@", i + 1)
      case None => Some(acct[i + 1..])
      case Some(j) => Some(acct[i + 1..j])
  }

  /** No word character, and no sigil that would join on, touches the match from outside. */
  predicate StandsAlone(text: string, start: nat, end: nat, alphanumeric: char -> bool)
    requires start <= end <= |text|
  {
    && !(start > 0 && (alphanumeric(text[start - 1]) || text[start - 1] in "_@#"))
    && !(end < |text| && (alphanumeric(text[end]) || text[end] in "_@"))
  }

  /** The stand-alone matches of a needle, scanning on from the end of each match. */
  function WordMatches(text: string, needle: string, html: string, from: nat, alphanumeric: char -> bool): seq<Span>
    requires from <= |text| && |needle| >= 2
    decreases |text| - from
  {
    match Find(text, needle, from)
    case None => []
    case Some(start) =>
      var end := start + |needle|;
      (if StandsAlone(text, start, end, alphanumeric) then [Span(start, end, html)] else [])
      + WordMatches(text, needle, html, end, alphanumeric)
  }

  function AllWordMatches(text: string, needle: string, html: string, alphanumeric: char -> bool): seq<Span> {
    if |needle| < 2 then [] else WordMatches(text, needle, html, 0, alphanumeric)
  }

  /** `push_word_matches`. */
  method PushWordMatches(text: string, needle: string, html: string, spans: seq<Span>, alphanumeric: char -> bool)
    returns (pushed: seq<Span>)
    ensures pushed == spans + AllWordMatches(text, needle, html, alphanumeric)
  {
    hide WordMatches, Find;
    pushed := spans;
    if |needle| < 2 {
      return;
    }
    var searchFrom := 0;
    var found := Find(text, needle, searchFrom);
    while found.Some?
      invariant searchFrom <= |text|
      invariant found == Find(text, needle, searchFrom)
      invariant pushed + WordMatches(text, needle, html, searchFrom, alphanumeric)
             == spans + WordMatches(text, needle, html, 0, alphanumeric)
      decreases |text| - searchFrom
    {
      var start := found.value;
      var end := start + |needle|;
      var precededByWord := start > 0 && (alphanumeric(text[start - 1]) || text[start - 1] in "_@#");
      var followedByWord := end < |text| && (alphanumeric(text[end]) || text[end] in "_@");
      NextWordMatch(text, needle, html, searchFrom, alphanumeric, pushed, start);
      if !precededByWord && !followedByWord {
        pushed := pushed + [Span(start, end, html)];
      }
      searchFrom := end;
      found := Find(text, needle, searchFrom);
    }
    NoWordMatch(text, needle, html, searchFrom, alphanumeric);
  }

  lemma NextWordMatch(text: string, needle: string, html: string, from: nat, alphanumeric: char -> bool, pushed: seq<Span>, start: nat)
    requires from <= |text| && |needle| >= 2 && Find(text, needle, from) == Some(start)
    ensures pushed + WordMatches(text, needle, html, from, alphanumeric)
         == (if StandsAlone(text, start, start + |needle|, alphanumeric) then pushed + [Span(start, start + |needle|, html)] else pushed)
            + WordMatches(text, needle, html, start + |needle|, alphanumeric)
  {
  }

  lemma NoWordMatch(text: string, needle: string, html: string, from: nat, alphanumeric: char -> bool)
    requires from <= |text| && |needle| >= 2 && Find(text, needle, from) == None
    ensures WordMatches(text, needle, html, from, alphanumeric) == []
  {
  }

  /** Every match is a stand-alone occurrence. */
  lemma {:induction false} WordMatchesAreWords(text: string, needle: string, html: string, from: nat, alphanumeric: char -> bool)
    requires from <= |text| && |needle| >= 2
    ensures forall s :: s in WordMatches(text, needle, html, from, alphanumeric) ==>
              && from <= s.start < s.end <= |text| && s.html == html && s.end == s.start + |needle|
              && OccursAt(text, needle, s.start) && StandsAlone(text, s.start, s.end, alphanumeric)
    decreases |text| - from
  {
    match Find(text, needle, from)
    case None =>
    case Some(start) => WordMatchesAreWords(text, needle, html, start + |needle|, alphanumeric);
  }

  /** Every stand-alone occurrence is matched, unless it begins inside an earlier occurrence. */
  lemma {:induction false} WordsAreMatched(text: string, needle: string, html: string, from: nat, alphanumeric: char -> bool, i: nat)
    requires from <= i && i + |needle| <= |text| && |needle| >= 2
    requires OccursAt(text, needle, i) && StandsAlone(text, i, i + |needle|, alphanumeric)
    ensures Span(i, i + |needle|, html) in WordMatches(text, needle, html, from, alphanumeric)
         || exists j: nat :: from <= j < i < j + |needle| && OccursAt(text, needle, j)
    decreases |text| - from
  {
    hide StandsAlone;
    match Find(text, needle, from)
    case None =>
    case Some(start) =>
      if start + |needle| <= i {
        WordsAreMatched(text, needle, html, start + |needle|, alphanumeric, i);
      } else if start < i {
        assert OccursAt(text, needle, start);
      }
  }

  /** Spans by start, and of those with the same start the longest first. */
  function Earlier(): (Span, Span) -> bool {
    (a: Span, b: Span) => a.start < b.start || (a.start == b.start && a.end > b.end)
  }

  /** Greedily keeps each span that begins at or after the end of the last one kept. */
  function NonOverlapping(spans: seq<Span>): (kept: seq<Span>)
  {
    if spans == [] then []
    else
      var n := |spans| - 1;
      var before := NonOverlapping(spans[..n]);
      if before == [] || spans[n].start >= before[|before| - 1].end then before + [spans[n]] else before
  }

  ghost predicate Disjoint(spans: seq<Span>) {
    forall i, j :: 0 <= i < j < |spans| ==> spans[i].end <= spans[j].start
  }

  function Accepted(spans: seq<Span>): seq<Span> {
    NonOverlapping(StableSort(spans, Earlier()))
  }

  method KeepNonOverlapping(sorted: seq<Span>) returns (kept: seq<Span>)
    ensures kept == NonOverlapping(sorted)
  {
    kept := [];
    for i := 0 to |sorted|
      invariant kept == NonOverlapping(sorted[..i])
    {
      assert sorted[..i + 1][..i] == sorted[..i];
      if kept == [] || sorted[i].start >= kept[|kept| - 1].end {
        kept := kept + [sorted[i]];
      }
    }
    assert sorted[..|sorted|] == sorted;
  }

  lemma {:induction false} KeptSpans(text: string, spans: seq<Span>)
    requires InBounds(text, spans)
    ensures Disjoint(NonOverlapping(spans)) && InBounds(text, NonOverlapping(spans))
    ensures forall s :: s in NonOverlapping(spans) ==> s in spans
  {
    if spans != [] {
      var n := |spans| - 1;
      KeptSpans(text, spans[..n]);
      assert spans == spans[..n] + [spans[n]];
      if NonOverlapping(spans) != NonOverlapping(spans[..n]) {
        DisjointAppend(text, NonOverlapping(spans[..n]), spans[n]);
      }
    }
  }

  lemma DisjointAppend(text: string, kept: seq<Span>, s: Span)
    requires Disjoint(kept) && InBounds(text, kept) && s.start < s.end <= |text|
    requires kept != [] ==> kept[|kept| - 1].end <= s.start
    ensures Disjoint(kept + [s]) && InBounds(text, kept + [s])
  {
  }

  /** `a` covers the beginning of `s`. */
  predicate Blocks(a: Span, s: Span) {
    a.start <= s.start < a.end
  }

  lemma {:induction false} DroppedSpans(spans: seq<Span>, s: Span)
    requires Sorted(spans, Earlier())
    requires s in spans && s !in NonOverlapping(spans)
    ensures exists a :: a in NonOverlapping(spans) && Blocks(a, s)
  {
    var n := |spans| - 1;
    assert spans == spans[..n] + [spans[n]];
    var before := NonOverlapping(spans[..n]);
    if s in spans[..n] {
      DroppedSpans(spans[..n], s);
    } else {
      var last := before[|before| - 1];
      KeptFrom(spans[..n], |before| - 1);
      assert last in spans[..n];
      var i :| 0 <= i < n && spans[i] == last;
      assert !Earlier()(spans[n], spans[i]);
      assert Blocks(last, s);
    }
  }

  lemma {:induction false} KeptFrom(spans: seq<Span>, i: nat)
    requires i < |NonOverlapping(spans)|
    ensures NonOverlapping(spans)[i] in spans
  {
    var n := |spans| - 1;
    assert spans == spans[..n] + [spans[n]];
    if i < |NonOverlapping(spans[..n])| {
      KeptFrom(spans[..n], i);
    }
  }

  /**
    * The spans that become anchors are in bounds, in order and disjoint; and each span that does not begins inside
    * one that does and that starts no later.
    */
  lemma {:induction false} AcceptedSpans(text: string, spans: seq<Span>)
    requires InBounds(text, spans)
    ensures InBounds(text, Accepted(spans)) && Disjoint(Accepted(spans))
    ensures forall s :: s in Accepted(spans) ==> s in spans
    ensures forall s :: s in spans && s !in Accepted(spans) ==> exists a :: a in Accepted(spans) && Blocks(a, s)
  {
    var sorted := StableSort(spans, Earlier());
    SortKeepsElements(spans, Earlier());
    SortSorts(spans, Earlier());
    forall i | 0 <= i < |sorted|
      ensures sorted[i].start < sorted[i].end <= |text|
    {
      assert sorted[i] in spans;
    }
    KeptSpans(text, sorted);
    forall s | s in spans && s !in Accepted(spans)
      ensures exists a :: a in Accepted(spans) && Blocks(a, s)
    {
      assert s in sorted;
      DroppedSpans(sorted, s);
    }
  }

  /** Where splicing goes on after the given spans. */
  function EndOf(spans: seq<Span>): nat {
    if spans == [] then 0 else spans[|spans| - 1].end
  }

  ghost predicate Spliceable(text: string, spans: seq<Span>) {
    InBounds(text, spans) && Disjoint(spans)
  }

  /** The output up to the end of the last span: escaped gaps and anchors in turn. */
  function Spliced(text: string, spans: seq<Span>): string
    requires Spliceable(text, spans)
  {
    if spans == [] then ""
    else
      var n := |spans| - 1;
      GapInBounds(text, spans);
      Spliced(text, spans[..n]) + Escaped(text[EndOf(spans[..n])..spans[n].start]) + spans[n].html
  }

  lemma GapInBounds(text: string, spans: seq<Span>)
    requires Spliceable(text, spans) && spans != []
    ensures Spliceable(text, spans[..|spans| - 1])
    ensures EndOf(spans[..|spans| - 1]) <= spans[|spans| - 1].start <= |text|
  {
  }

  lemma EndInBounds(text: string, spans: seq<Span>)
    requires Spliceable(text, spans)
    ensures EndOf(spans) <= |text|
  {
  }

  function Linked(text: string, spans: seq<Span>): string
    requires Spliceable(text, spans)
  {
    EndInBounds(text, spans);
    Spliced(text, spans) + Escaped(text[EndOf(spans)..])
  }

  /** The same spans, with nothing shown in their place. */
  function Blank(spans: seq<Span>): (blank: seq<Span>)
    ensures |blank| == |spans|
    ensures forall i :: 0 <= i < |spans| ==> blank[i] == spans[i].(html := "")
  {
    seq(|spans|, i requires 0 <= i < |spans| => spans[i].(html := ""))
  }

  lemma BlankIsSpliceable(text: string, spans: seq<Span>)
    requires Spliceable(text, spans)
    ensures Spliceable(text, Blank(spans)) && EndOf(Blank(spans)) == EndOf(spans)
  {
  }

  lemma {:induction false} BlankLeavesGaps(text: string, spans: seq<Span>)
    requires Spliceable(text, spans) && Spliceable(text, Blank(spans))
    ensures Spliced(text, Blank(spans)) == Gaps(text, spans)
  {
    if spans != [] {
      hide Escaped;
      var n := |spans| - 1;
      assert Blank(spans)[..n] == Blank(spans[..n]);
      GapInBounds(text, spans);
      BlankIsSpliceable(text, spans[..n]);
      BlankLeavesGaps(text, spans[..n]);
    }
  }

  /** The escaped text between the spans. */
  function Gaps(text: string, spans: seq<Span>): string
    requires Spliceable(text, spans)
  {
    if spans == [] then ""
    else
      var n := |spans| - 1;
      GapInBounds(text, spans);
      Gaps(text, spans[..n]) + Escaped(text[EndOf(spans[..n])..spans[n].start])
  }

  predicate Covered(spans: seq<Span>, i: nat) {
    exists j :: 0 <= j < |spans| && spans[j].start <= i < spans[j].end
  }

  /** The first `n` characters of the text without those under a span. */
  function Uncovered(text: string, spans: seq<Span>, n: nat): string
    requires n <= |text|
  {
    if n == 0 then "" else Uncovered(text, spans, n - 1) + if Covered(spans, n - 1) then "" else [text[n - 1]]
  }

  lemma {:induction false} UncoveredGap(text: string, spans: seq<Span>, from: nat, to: nat)
    requires from <= to <= |text|
    requires forall i :: from <= i < to ==> !Covered(spans, i)
    ensures Uncovered(text, spans, to) == Uncovered(text, spans, from) + text[from..to]
  {
    if from < to {
      UncoveredGap(text, spans, from, to - 1);
      assert text[from..to] == text[from..to - 1] + [text[to - 1]];
    } else {
      assert text[from..to] == "";
    }
  }

  lemma {:induction false} UncoveredSpan(text: string, spans: seq<Span>, from: nat, to: nat)
    requires from <= to <= |text|
    requires forall i :: from <= i < to ==> Covered(spans, i)
    ensures Uncovered(text, spans, to) == Uncovered(text, spans, from)
  {
    if from < to {
      UncoveredSpan(text, spans, from, to - 1);
    }
  }

  lemma {:induction false} UncoveredSame(text: string, a: seq<Span>, b: seq<Span>, n: nat)
    requires n <= |text|
    requires forall i: nat :: i < n ==> (Covered(a, i) <==> Covered(b, i))
    ensures Uncovered(text, a, n) == Uncovered(text, b, n)
  {
    if n > 0 {
      UncoveredSame(text, a, b, n - 1);
    }
  }

  lemma CoverageOfLast(text: string, spans: seq<Span>, i: nat)
    requires Spliceable(text, spans) && spans != []
    ensures var n := |spans| - 1;
              && (Covered(spans, i) <==> Covered(spans[..n], i) || spans[n].start <= i < spans[n].end)
              && (EndOf(spans[..n]) <= i ==> !Covered(spans[..n], i))
              && (i < spans[n].start ==> (Covered(spans, i) <==> Covered(spans[..n], i)))
              && (EndOf(spans) <= i ==> !Covered(spans, i))
  {
    var n := |spans| - 1;
    if Covered(spans, i) {
      var j :| 0 <= j < |spans| && spans[j].start <= i < spans[j].end;
      assert j < n ==> spans[..n][j] == spans[j];
    }
    if Covered(spans[..n], i) {
      var j :| 0 <= j < n && spans[..n][j].start <= i < spans[..n][j].end;
      assert spans[j] == spans[..n][j];
      assert j < n - 1 ==> spans[j].end <= spans[n - 1].start;
    }
  }

  /** What the gaps escape is the uncovered text up to the end of the last span. */
  lemma {:induction false} GapsAreUncovered(text: string, spans: seq<Span>)
    requires Spliceable(text, spans)
    ensures EndOf(spans) <= |text|
    ensures Gaps(text, spans) == Escaped(Uncovered(text, spans, EndOf(spans)))
  {
    if spans != [] {
      hide Escaped, Uncovered, Covered;
      var n := |spans| - 1;
      var before := spans[..n];
      GapInBounds(text, spans);
      GapsAreUncovered(text, before);
      var from, start, end := EndOf(before), spans[n].start, spans[n].end;
      forall i: nat {
        CoverageOfLast(text, spans, i);
      }
      UncoveredSame(text, before, spans, from);
      UncoveredGap(text, spans, from, start);
      UncoveredSpan(text, spans, start, end);
      EscapedConcat(Uncovered(text, spans, from), text[from..start]);
    } else {
      assert Escaped("") == "";
    }
  }

  /** Erasing the anchors and decoding the entities gives back exactly the text outside the spans. */
  lemma {:induction false} ErasedIsUncovered(text: string, spans: seq<Span>)
    requires Spliceable(text, spans)
    ensures Spliceable(text, Blank(spans))
    ensures Decoded(Linked(text, Blank(spans))) == Uncovered(text, spans, |text|)
  {
    hide Escaped, Decoded, Uncovered, Gaps, Covered, Spliced;
    BlankIsSpliceable(text, spans);
    BlankLeavesGaps(text, spans);
    GapsAreUncovered(text, spans);
    forall i: nat | EndOf(spans) <= i
      ensures !Covered(spans, i)
    {
      if spans != [] {
        CoverageOfLast(text, spans, i);
      } else {
        NoCoverage(i);
      }
    }
    UncoveredGap(text, spans, EndOf(spans), |text|);
    assert text[EndOf(spans)..|text|] == text[EndOf(spans)..];
    EscapedConcat(Uncovered(text, spans, EndOf(spans)), text[EndOf(spans)..]);
    DecodeEscaped(Uncovered(text, spans, |text|));
  }

  lemma NoCoverage(i: nat)
    ensures !Covered([], i)
  {
  }

  /** The splicing loop of `format_local`. */
  method Splice(text: string, spans: seq<Span>) returns (out: string)
    requires Spliceable(text, spans)
    ensures out == Linked(text, spans)
  {
    out := "";
    var cursor := 0;
    for i := 0 to |spans|
      invariant Spliceable(text, spans[..i])
      invariant cursor == EndOf(spans[..i]) <= |text|
      invariant out == Spliced(text, spans[..i])
    {
      hide Escaped;
      assert spans[..i + 1][..i] == spans[..i];
      assert Spliceable(text, spans[..i + 1]);
      GapInBounds(text, spans[..i + 1]);
      var escaped := EscapeText(text[cursor..spans[i].start]);
      out := out + escaped + spans[i].html;
      cursor := spans[i].end;
    }
    assert spans[..|spans|] == spans;
    var tail := EscapeText(text[cursor..]);
    out := out + tail;
  }

  /** `split("\n\n")`. */
  function SplitBlank(s: string): (parts: seq<string>)
    ensures parts != []
    decreases |s|
  {
    match Find(s, "\n\n", 0)
    case None => [s]
    case Some(i) => [s[..i]] + SplitBlank(s[i + 2..])
  }

  function JoinBlank(parts: seq<string>): string
    requires parts != []
  {
    if |parts| == 1 then parts[0] else parts[0] + "\n\n" + JoinBlank(parts[1..])
  }

  /** Splitting is undone by joining, and no part holds a separator. */
  lemma {:induction false} SplitIsExact(s: string)
    ensures JoinBlank(SplitBlank(s)) == s
    ensures forall p, i: nat :: p in SplitBlank(s) ==> !OccursAt(p, "\n\n", i)
    decreases |s|
  {
    match Find(s, "\n\n", 0)
    case None =>
    case Some(i) =>
      var rest := s[i + 2..];
      SplitIsExact(rest);
      assert SplitBlank(s)[1..] == SplitBlank(rest);
      assert s == s[..i] + "\n\n" + rest;
      forall j: nat
        ensures !OccursAt(s[..i], "\n\n", j)
      {
        if j + 2 <= i {
          assert s[..i][j..j + 2] == s[j..j + 2];
          assert !OccursAt(s, "\n\n", j);
        }
      }
  }

  function NonEmpty(parts: seq<string>): seq<string> {
    if parts == [] then [] else (if parts[0] == "" then [] else [parts[0]]) + NonEmpty(parts[1..])
  }

  /** `replace('\n', "<br />")`. */
  function WithBreaks(p: string): string {
    if p == "" then "" else (if p[0] == '\n' then "<br />" else [p[0]]) + WithBreaks(p[1..])
  }

  function Wrapped(paragraphs: seq<string>): string {
    if paragraphs == [] then "" else "<p>" + WithBreaks(paragraphs[0]) + "</p>" + Wrapped(paragraphs[1..])
  }

  function Paragraphs(out: string): string {
    if NonEmpty(SplitBlank(out)) == [] then "<p></p>" else Wrapped(NonEmpty(SplitBlank(out)))
  }

  function WithoutNewlines(s: string): string {
    if s == "" then "" else (if s[0] == '\n' then "" else [s[0]]) + WithoutNewlines(s[1..])
  }

  function ConcatWithoutNewlines(parts: seq<string>): string {
    if parts == [] then "" else WithoutNewlines(parts[0]) + ConcatWithoutNewlines(parts[1..])
  }

  lemma {:induction false} WithoutNewlinesConcat(a: string, b: string)
    ensures WithoutNewlines(a + b) == WithoutNewlines(a) + WithoutNewlines(b)
  {
    if a == "" {
      assert a + b == b;
    } else {
      assert (a + b)[1..] == a[1..] + b;
      WithoutNewlinesConcat(a[1..], b);
    }
  }

  lemma {:induction false} NonEmptyKeepsText(parts: seq<string>)
    ensures ConcatWithoutNewlines(NonEmpty(parts)) == ConcatWithoutNewlines(parts)
  {
    if parts != [] {
      NonEmptyKeepsText(parts[1..]);
      if parts[0] == "" {
        assert NonEmpty(parts) == NonEmpty(parts[1..]);
      } else {
        assert NonEmpty(parts)[1..] == NonEmpty(parts[1..]);
      }
    }
  }

  lemma {:induction false} NonEmptyParts(parts: seq<string>)
    ensures forall p :: p in NonEmpty(parts) ==> p in parts && p != ""
  {
    if parts != [] {
      NonEmptyParts(parts[1..]);
    }
  }

  lemma {:induction false} JoinWithoutNewlines(parts: seq<string>)
    requires parts != []
    ensures WithoutNewlines(JoinBlank(parts)) == ConcatWithoutNewlines(parts)
  {
    hide WithoutNewlines;
    if |parts| == 1 {
      assert ConcatWithoutNewlines(parts[1..]) == "";
    } else {
      JoinWithoutNewlines(parts[1..]);
      WithoutNewlinesConcat(parts[0] + "\n\n", JoinBlank(parts[1..]));
      WithoutNewlinesConcat(parts[0], "\n\n");
      SeparatorIsNewlines();
    }
  }

  lemma SeparatorIsNewlines()
    ensures WithoutNewlines("\n\n") == ""
  {
    assert "\n\n"[1..] == "\n" && "\n"[1..] == "";
  }

  /** Paragraphs hold everything but newlines, in order, and none is empty or has an empty line in it. */
  lemma {:induction false} ParagraphsLoseOnlyNewlines(out: string)
    ensures ConcatWithoutNewlines(NonEmpty(SplitBlank(out))) == WithoutNewlines(out)
    ensures forall p :: p in NonEmpty(SplitBlank(out)) ==> p != "" && forall i: nat :: !OccursAt(p, "\n\n", i)
  {
    SplitIsExact(out);
    NonEmptyParts(SplitBlank(out));
    NonEmptyKeepsText(SplitBlank(out));
    JoinWithoutNewlines(SplitBlank(out));
  }

  ghost predicate Linkable(text: string, urls: seq<(nat, nat)>) {
    forall u :: u in urls ==> u.0 < u.1 <= |text| && Cuttable(text[u.0..u.1])
  }

  function UrlSpans(text: string, urls: seq<(nat, nat)>): (spans: seq<Span>)
    requires Linkable(text, urls)
    ensures |spans| == |urls|
    ensures forall s :: s in spans ==> s.start < s.end <= |text|
  {
    seq(|urls|, i requires 0 <= i < |urls| =>
      assert urls[i] in urls; Span(urls[i].0, urls[i].1, ShortenedLink(text[urls[i].0..urls[i].1])))
  }

  /** A mention is linked under its full handle first, if it is remote, and then under its short one. */
  function MentionMatches(text: string, m: Mention, alphanumeric: char -> bool): seq<Span> {
    (match DomainOf(m.acct)
     case None => []
     case Some(domain) => AllWordMatches(text, "@" + m.username + "@" + domain, MentionHtml(m), alphanumeric))
    + AllWordMatches(text, "@" + m.username, MentionHtml(m), alphanumeric)
  }

  function MentionSpans(text: string, mentions: seq<Mention>, alphanumeric: char -> bool): seq<Span> {
    if mentions == [] then []
    else
      MentionSpans(text, mentions[..|mentions| - 1], alphanumeric)
      + MentionMatches(text, mentions[|mentions| - 1], alphanumeric)
  }

  function TagSpans(text: string, tags: seq<string>, instanceDomain: string, alphanumeric: char -> bool): seq<Span> {
    if tags == [] then []
    else
      var name := tags[|tags| - 1];
      TagSpans(text, tags[..|tags| - 1], instanceDomain, alphanumeric)
      + AllWordMatches(text, "#" + name, TagHtml(name, instanceDomain), alphanumeric)
  }

  function AllSpans(text: string, urls: seq<(nat, nat)>, mentions: seq<Mention>, tags: seq<string>, instanceDomain: string,
                    alphanumeric: char -> bool): seq<Span>
    requires Linkable(text, urls)
  {
    UrlSpans(text, urls) + MentionSpans(text, mentions, alphanumeric) + TagSpans(text, tags, instanceDomain, alphanumeric)
  }

  ghost predicate Within(text: string, spans: seq<Span>) {
    forall s :: s in spans ==> s.start < s.end <= |text|
  }

  lemma AllMatchesWithin(text: string, needle: string, html: string, alphanumeric: char -> bool)
    ensures Within(text, AllWordMatches(text, needle, html, alphanumeric))
  {
    if |needle| >= 2 {
      WordMatchesAreWords(text, needle, html, 0, alphanumeric);
    }
  }

  lemma WithinConcat(text: string, a: seq<Span>, b: seq<Span>)
    requires Within(text, a) && Within(text, b)
    ensures Within(text, a + b)
  {
  }

  lemma MentionMatchesWithin(text: string, m: Mention, alphanumeric: char -> bool)
    ensures Within(text, MentionMatches(text, m, alphanumeric))
  {
    hide AllWordMatches, MentionHtml, DomainOf;
    AllMatchesWithin(text, "@" + m.username, MentionHtml(m), alphanumeric);
    match DomainOf(m.acct)
    case None =>
    case Some(domain) => AllMatchesWithin(text, "@" + m.username + "@" + domain, MentionHtml(m), alphanumeric);
  }

  lemma {:induction false} MentionsWithin(text: string, mentions: seq<Mention>, alphanumeric: char -> bool)
    ensures Within(text, MentionSpans(text, mentions, alphanumeric))
  {
    if mentions != [] {
      hide MentionMatches;
      MentionsWithin(text, mentions[..|mentions| - 1], alphanumeric);
      MentionMatchesWithin(text, mentions[|mentions| - 1], alphanumeric);
    }
  }

  lemma {:induction false} TagsWithin(text: string, tags: seq<string>, instanceDomain: string, alphanumeric: char -> bool)
    ensures Within(text, TagSpans(text, tags, instanceDomain, alphanumeric))
  {
    if tags != [] {
      hide AllWordMatches, TagHtml;
      var name := tags[|tags| - 1];
      TagsWithin(text, tags[..|tags| - 1], instanceDomain, alphanumeric);
      AllMatchesWithin(text, "#" + name, TagHtml(name, instanceDomain), alphanumeric);
    }
  }

  lemma AllSpansAccepted(text: string, urls: seq<(nat, nat)>, mentions: seq<Mention>, tags: seq<string>, instanceDomain: string,
                         alphanumeric: char -> bool)
    requires Linkable(text, urls)
    ensures InBounds(text, AllSpans(text, urls, mentions, tags, instanceDomain, alphanumeric))
    ensures Spliceable(text, Accepted(AllSpans(text, urls, mentions, tags, instanceDomain, alphanumeric)))
  {
    hide MentionSpans, TagSpans, Accepted;
    MentionsWithin(text, mentions, alphanumeric);
    TagsWithin(text, tags, instanceDomain, alphanumeric);
    var spans := AllSpans(text, urls, mentions, tags, instanceDomain, alphanumeric);
    WithinConcat(text, UrlSpans(text, urls), MentionSpans(text, mentions, alphanumeric));
    WithinConcat(text, UrlSpans(text, urls) + MentionSpans(text, mentions, alphanumeric),
                 TagSpans(text, tags, instanceDomain, alphanumeric));
    forall i | 0 <= i < |spans|
      ensures spans[i].start < spans[i].end <= |text|
    {
      assert spans[i] in spans;
    }
    AcceptedSpans(text, spans);
  }

  /** The loop over the url matches; `None` is a panic. */
  method PushUrls(text: string, urls: seq<(nat, nat)>) returns (spans: Option<seq<Span>>)
    requires forall u :: u in urls ==> u.0 < u.1 <= |text|
    ensures spans == None <==> exists u :: u in urls && !Cuttable(text[u.0..u.1])
    ensures spans.Some? ==> Linkable(text, urls) && spans.value == UrlSpans(text, urls)
  {
    hide ShortenedLink, Cuttable;
    var pushed := [];
    for i := 0 to |urls|
      invariant Linkable(text, urls[..i]) && pushed == UrlSpans(text, urls[..i])
    {
      var url := text[urls[i].0..urls[i].1];
      if !Cuttable(url) {
        assert urls[i] in urls;
        return None;
      }
      pushed := pushed + [Span(urls[i].0, urls[i].1, ShortenedLink(url))];
    }
    assert urls[..|urls|] == urls;
    spans := Some(pushed);
  }

  /** One mention, under its full handle if it is remote, and under its short one. */
  method PushMention(text: string, m: Mention, spans: seq<Span>, alphanumeric: char -> bool) returns (pushed: seq<Span>)
    ensures pushed == spans + MentionMatches(text, m, alphanumeric)
  {
    hide AllWordMatches, MentionHtml, DomainOf;
    pushed := spans;
    var anchor := MentionHtml(m);
    var domain := DomainOf(m.acct);
    if domain.Some? {
      pushed := PushWordMatches(text, "@" + m.username + "@" + domain.value, anchor, pushed, alphanumeric);
    }
    pushed := PushWordMatches(text, "@" + m.username, anchor, pushed, alphanumeric);
  }

  /** The loop over the mentions. */
  method PushMentions(text: string, mentions: seq<Mention>, spans: seq<Span>, alphanumeric: char -> bool) returns (pushed: seq<Span>)
    ensures pushed == spans + MentionSpans(text, mentions, alphanumeric)
  {
    hide MentionMatches;
    pushed := spans;
    for i := 0 to |mentions|
      invariant pushed == spans + MentionSpans(text, mentions[..i], alphanumeric)
    {
      assert mentions[..i + 1][..i] == mentions[..i];
      pushed := PushMention(text, mentions[i], pushed, alphanumeric);
    }
    assert mentions[..|mentions|] == mentions;
  }

  /** The loop over the hashtags. */
  method PushTags(text: string, tags: seq<string>, instanceDomain: string, spans: seq<Span>, alphanumeric: char -> bool)
    returns (pushed: seq<Span>)
    ensures pushed == spans + TagSpans(text, tags, instanceDomain, alphanumeric)
  {
    hide AllWordMatches, TagHtml;
    pushed := spans;
    for i := 0 to |tags|
      invariant pushed == spans + TagSpans(text, tags[..i], instanceDomain, alphanumeric)
    {
      assert tags[..i + 1][..i] == tags[..i];
      pushed := PushWordMatches(text, "#" + tags[i], TagHtml(tags[i], instanceDomain), pushed, alphanumeric);
    }
    assert tags[..|tags|] == tags;
  }

  /** `format_local`, given where the url pattern matches; `None` is a panic. */
  method FormatLocal(text: string, urls: seq<(nat, nat)>, mentions: seq<Mention>, tags: seq<string>, instanceDomain: string,
                     alphanumeric: char -> bool) returns (html: Option<string>)
    requires forall u :: u in urls ==> u.0 < u.1 <= |text|
    ensures html == None <==> exists u :: u in urls && !Cuttable(text[u.0..u.1])
    ensures html.Some? ==>
              var spans := AllSpans(text, urls, mentions, tags, instanceDomain, alphanumeric);
              Spliceable(text, Accepted(spans)) && html.value == Paragraphs(Linked(text, Accepted(spans)))
  {
    hide *;
    var pushed := PushUrls(text, urls);
    if pushed == None {
      return None;
    }
    var spans := PushMentions(text, mentions, pushed.value, alphanumeric);
    spans := PushTags(text, tags, instanceDomain, spans, alphanumeric);
    assert spans == AllSpans(text, urls, mentions, tags, instanceDomain, alphanumeric) by {
      SpansInOrder(text, urls, mentions, tags, instanceDomain, alphanumeric);
    }
    AllSpansAccepted(text, urls, mentions, tags, instanceDomain, alphanumeric);
    AcceptedOf(spans);
    var kept := KeepNonOverlapping(StableSort(spans, Earlier()));
    var out := Splice(text, kept);
    html := Some(Paragraphs(out));
  }

  lemma AcceptedOf(spans: seq<Span>)
    ensures Accepted(spans) == NonOverlapping(StableSort(spans, Earlier()))
  {
  }

  lemma SpansInOrder(text: string, urls: seq<(nat, nat)>, mentions: seq<Mention>, tags: seq<string>, instanceDomain: string,
                     alphanumeric: char -> bool)
    requires Linkable(text, urls)
    ensures AllSpans(text, urls, mentions, tags, instanceDomain, alphanumeric)
         == UrlSpans(text, urls) + MentionSpans(text, mentions, alphanumeric) + TagSpans(text, tags, instanceDomain, alphanumeric)
  {
  }
}
