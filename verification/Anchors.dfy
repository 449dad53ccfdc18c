/** Where the anchors of a formatted post lead, and which parts of the text get one. */
module Anchors {
  import opened Wrappers
  import opened Sorting
  import opened Text
  import opened Formatter
  import opened Rendering

  /** What a browser makes of the value of an attribute. */
  function Unescaped(s: string): string {
    if s == "" then ""
    else if |s| >= 6 && s[..6] == "&quot;" then "\"" + Unescaped(s[6..])
    else if |s| >= 5 && s[..5] == "&amp;" then "&" + Unescaped(s[5..])
    else if |s| >= 4 && s[..4] == "&lt;" then "<" + Unescaped(s[4..])
    else if |s| >= 4 && s[..4] == "&gt;" then ">" + Unescaped(s[4..])
    else [s[0]] + Unescaped(s[1..])
  }

  /** Where some HTML leads: the value of its first `href` attribute. */
  function Href(html: string): Option<string> {
    match Find(html, "href=\"", 0)
    case None => None
    case Some(i) =>
      match Find(html, "\"", i + 6)
      case None => None
      case Some(j) => Some(Unescaped(html[i + 6..j]))
  }

  lemma UnescapeFirst(c: char, rest: string)
    ensures Unescaped(EscapeAttrChar(c) + rest) == [c] + Unescaped(rest)
  {
    var s := EscapeAttrChar(c) + rest;
    if c == '"' {
      assert s[..6] == "&quot;" && s[6..] == rest;
    } else if c == '&' {
      assert s[..5] == "&amp;" && s[5..] == rest;
      assert |s| >= 6 ==> s[..6][1] == 'a';
    } else if c == '<' {
      assert s[..4] == "&lt;" && s[4..] == rest;
      assert |s| >= 5 ==> s[..5][1] == 'l';
      assert |s| >= 6 ==> s[..6][1] == 'l';
    } else if c == '>' {
      assert s[..4] == "&gt;" && s[4..] == rest;
      assert |s| >= 5 ==> s[..5][1] == 'g';
      assert |s| >= 6 ==> s[..6][1] == 'g';
      assert s[..4][1] == 'g';
    } else {
      assert s[0] == c && s[1..] == rest;
      assert |s| >= 6 ==> s[..6][0] == c;
      assert |s| >= 5 ==> s[..5][0] == c;
      assert |s| >= 4 ==> s[..4][0] == c;
    }
  }

  lemma {:induction false} EscapedAttrConcat(a: string, b: string)
    ensures EscapedAttr(a + b) == EscapedAttr(a) + EscapedAttr(b)
  {
    hide EscapeAttrChar;
    if b == "" {
      assert a + b == a;
    } else {
      var n := |b| - 1;
      assert (a + b)[..|a + b| - 1] == a + b[..n];
      EscapedAttrConcat(a, b[..n]);
    }
  }

  /** Decoding an escaped attribute gives back its value. */
  lemma {:induction false} UnescapeEscaped(s: string)
    ensures Unescaped(EscapedAttr(s)) == s
  {
    if s != "" {
      assert s == s[..1] + s[1..];
      EscapedAttrConcat(s[..1], s[1..]);
      assert s[..1][..0] == "";
      assert EscapedAttr(s[..1]) == EscapeAttrChar(s[0]);
      UnescapeFirst(s[0], EscapedAttr(s[1..]));
      UnescapeEscaped(s[1..]);
    }
  }

  const ATTRIBUTE := "href=\""

  lemma NoAttributeIn(html: string, n: nat, j: nat)
    requires j < n && n + 6 <= |html| && html[n..n + 6] == ATTRIBUTE
    requires 'f' !in html[..n]
    ensures !OccursAt(html, ATTRIBUTE, j)
  {
    assert html[n..n + 6][0] == html[n] && html[n..n + 6][1] == html[n + 1] && html[n..n + 6][2] == html[n + 2];
    if j + 3 < n {
      assert html[..n][j + 3] == html[j + 3];
    }
    assert html[j + 3] != 'f';
    assert j + 6 <= |html| ==> html[j..j + 6][3] == html[j + 3];
    assert ATTRIBUTE[3] == 'f';
  }

  /** What is found is the first occurrence. */
  lemma FindIs(text: string, needle: string, from: nat, n: nat)
    requires from <= n <= |text| && OccursAt(text, needle, n)
    requires forall j :: from <= j < n ==> !OccursAt(text, needle, j)
    ensures Find(text, needle, from) == Some(n)
  {
    hide OccursAt;
    var found := Find(text, needle, from);
    hide Find;
    assert found.Some?;
  }

  /** The first attribute is found behind a prefix in which no `f` occurs. */
  lemma AttributeFound(html: string, n: nat)
    requires n + 6 <= |html| && html[n..n + 6] == ATTRIBUTE
    requires 'f' !in html[..n]
    ensures Find(html, ATTRIBUTE, 0) == Some(n)
  {
    assert OccursAt(html, ATTRIBUTE, n);
    hide OccursAt, Find;
    forall j | 0 <= j < n
      ensures !OccursAt(html, ATTRIBUTE, j)
    {
      NoAttributeIn(html, n, j);
    }
    FindIs(html, ATTRIBUTE, 0, n);
  }

  lemma QuoteFound(html: string, from: nat, to: nat)
    requires from <= to < |html| && '"' !in html[from..to] && html[to] == '"'
    ensures Find(html, "\"", from) == Some(to)
  {
    assert html[to..to + 1] == "\"";
    assert OccursAt(html, "\"", to);
    forall j | from <= j < to
      ensures !OccursAt(html, "\"", j)
    {
      assert html[from..to][j - from] == html[j];
      assert html[j..j + 1][0] == html[j];
    }
  }

  /** An attribute with an escaped value reads as that value. */
  lemma HrefOf(html: string, before: string, value: string)
    requires 'f' !in before && '"' !in value
    requires before + ATTRIBUTE + value + "\"" <= html
    ensures Href(html) == Some(Unescaped(value))
  {
    hide Find, Unescaped, OccursAt;
    var n := |before|;
    var from := n + 6;
    var to := from + |value|;
    var head := before + ATTRIBUTE + value + "\"";
    assert |head| == to + 1 && html[..|head|] == head;
    assert html[..n] == head[..n] == before;
    assert html[n..from] == head[n..from] == ATTRIBUTE;
    assert html[from..to] == head[from..to] == value;
    assert html[to] == head[to] == '"';
    AttributeFound(html, n);
    QuoteFound(html, from, to);
  }

  lemma NoQuotes(s: string)
    ensures '"' !in EscapedAttr(s)
  {
    EscapedIsInert(s);
  }

  lemma FirstQuote(classes: string)
    requires classes in {TARGET, MENTION, HASHTAG}
    ensures classes != "" && classes[0] == '"'
  {
  }

  /** Some HTML that begins with a prefix, an anchor tag and its attribute. */
  lemma AnchorLeads(html: string, prefix: string, value: string, classes: string, rest: string)
    requires html == prefix + Markup(HREF + value + classes) + rest
    requires 'f' !in prefix && '"' !in value && classes != "" && classes[0] == '"'
    ensures Href(html) == Some(Unescaped(value))
  {
    hide Href, Unescaped;
    var before := prefix + "<a ";
    assert "<" + HREF == "<a " + ATTRIBUTE;
    var head := before + ATTRIBUTE + value + "\"";
    assert classes == "\"" + classes[1..];
    assert html == head + (classes[1..] + ">" + rest);
    HrefOf(html, before, value);
  }

  /** A link leads to its url, however it is shortened. */
  lemma {:induction false} LinkLeads(url: string)
    requires Cuttable(url)
    ensures Href(ShortenedLink(url)) == Some(url)
  {
    hide EscapedAttr, Escaped, Href, LinkParts, Unescaped, Markup, Part;
    NoQuotes(url);
    UnescapeEscaped(url);
    FirstQuote(TARGET);
    var tag := Markup(HREF + EscapedAttr(url) + (TARGET + REL + TRANSLATE));
    var html := ShortenedLink(url);
    assert "" + tag == tag;
    AnchorLeads(html, "", EscapedAttr(url), TARGET + REL + TRANSLATE, html[|tag|..]);
  }

  lemma NoFInCard()
    ensures 'f' !in Markup(CARD)
  {
  }

  /** A mention leads to the profile of the account. */
  lemma {:induction false} MentionLeads(m: Mention)
    ensures Href(MentionHtml(m)) == Some(m.url)
  {
    NoFInCard();
    hide EscapedAttr, Escaped, Href, Unescaped, Markup, Handle;
    NoQuotes(m.url);
    UnescapeEscaped(m.url);
    FirstQuote(MENTION);
    AnchorLeads(MentionHtml(m), Markup(CARD), EscapedAttr(m.url), MENTION, Handle("@", m.acct) + Markup("/span"));
  }

  /** What an attribute may hold as it is: no entity and no quote. */
  predicate Bare(s: string) {
    '&' !in s && '"' !in s && '<' !in s && '>' !in s
  }

  lemma BareConcat(a: string, b: string)
    requires Bare(a) && Bare(b)
    ensures Bare(a + b)
  {
  }

  lemma BareChar(s: string, i: nat)
    requires Bare(s) && i < |s|
    ensures Bare(s[..i]) && EscapeAttrChar(s[i]) == [s[i]]
  {
    assert s[i] in s;
  }

  lemma {:induction false} BareIsEscaped(s: string)
    requires Bare(s)
    ensures EscapedAttr(s) == s
  {
    if s != "" {
      var n := |s| - 1;
      BareChar(s, n);
      hide Bare, EscapeAttrChar;
      BareIsEscaped(s[..n]);
      assert s == s[..n] + [s[n]];
    }
  }

  /** The address of a hashtag is escaped as a whole. */
  lemma AddressIsEscaped(name: string, instanceDomain: string)
    requires Bare(instanceDomain)
    ensures TagAddress(name, instanceDomain) == EscapedAttr("https://" + instanceDomain + "/tags/" + name)
  {
    var https, path := "https://", "/tags/";
    assert Bare(https) && Bare(path);
    hide Bare, EscapedAttr;
    BareConcat(https, instanceDomain);
    BareConcat(https + instanceDomain, path);
    BareIsEscaped(https + instanceDomain + path);
    EscapedAttrConcat(https + instanceDomain + path, name);
  }

  /** A hashtag leads to the page of its name on the instance. */
  lemma {:induction false} HashtagLeads(name: string, instanceDomain: string)
    requires Bare(instanceDomain)
    ensures Href(TagHtml(name, instanceDomain)) == Some("https://" + instanceDomain + "/tags/" + name)
  {
    var page := "https://" + instanceDomain + "/tags/" + name;
    AddressIsEscaped(name, instanceDomain);
    FirstQuote(HASHTAG);
    hide EscapedAttr, Escaped, Href, Unescaped, Markup, Bare, TagAddress, Handle;
    NoQuotes(page);
    UnescapeEscaped(page);
    var tag := Markup(HREF + EscapedAttr(page) + HASHTAG);
    assert "" + tag == tag;
    AnchorLeads(TagHtml(name, instanceDomain), "", EscapedAttr(page), HASHTAG, Handle("#", name));
  }

  /** The anchor over a span leads where it should: to the covered url, the mentioned profile, or the page of the hashtag. */
  ghost predicate LeadsRight(text: string, s: Span, urls: seq<(nat, nat)>, mentions: seq<Mention>, tags: seq<string>, instanceDomain: string) {
    && s.start <= s.end <= |text|
    && (|| (exists u :: u in urls && u == (s.start, s.end) && Href(s.html) == Some(text[s.start..s.end]))
        || (exists m :: m in mentions && "@" + m.username <= text[s.start..s.end] && Href(s.html) == Some(m.url))
        || (exists t :: t in tags && text[s.start..s.end] == "#" + t && Href(s.html) == Some("https://" + instanceDomain + "/tags/" + t)))
  }

  lemma UrlSpansLead(text: string, urls: seq<(nat, nat)>, mentions: seq<Mention>, tags: seq<string>, instanceDomain: string, s: Span)
    requires Linkable(text, urls) && s in UrlSpans(text, urls)
    ensures LeadsRight(text, s, urls, mentions, tags, instanceDomain)
  {
    hide Href, ShortenedLink, Cuttable;
    var i :| 0 <= i < |urls| && UrlSpans(text, urls)[i] == s;
    var u := urls[i];
    assert u in urls;
    LinkLeads(text[u.0..u.1]);
    assert u == (s.start, s.end);
  }

  lemma MentionMatchLeads(text: string, m: Mention, alphanumeric: char -> bool, s: Span)
    requires s in MentionMatches(text, m, alphanumeric)
    ensures s.start <= s.end <= |text| && "@" + m.username <= text[s.start..s.end] && Href(s.html) == Some(m.url)
  {
    hide Href, MentionHtml, AllWordMatches, DomainOf;
    MentionLeads(m);
    var short := "@" + m.username;
    if s in AllWordMatches(text, short, MentionHtml(m), alphanumeric) {
      MatchCovers(text, short, MentionHtml(m), alphanumeric, s);
    } else {
      var full := short + "@" + DomainOf(m.acct).value;
      MatchCovers(text, full, MentionHtml(m), alphanumeric, s);
      assert short <= full;
    }
  }

  lemma {:induction false} MentionSpansLead(text: string, mentions: seq<Mention>, alphanumeric: char -> bool, s: Span)
    requires s in MentionSpans(text, mentions, alphanumeric)
    ensures s.start <= s.end <= |text|
    ensures exists m :: m in mentions && "@" + m.username <= text[s.start..s.end] && Href(s.html) == Some(m.url)
  {
    hide Href, MentionMatches;
    var n := |mentions| - 1;
    assert mentions == mentions[..n] + [mentions[n]];
    if s in MentionSpans(text, mentions[..n], alphanumeric) {
      MentionSpansLead(text, mentions[..n], alphanumeric, s);
    } else {
      assert mentions[n] in mentions;
      MentionMatchLeads(text, mentions[n], alphanumeric, s);
    }
  }

  lemma {:induction false} TagSpansLead(text: string, tags: seq<string>, instanceDomain: string, alphanumeric: char -> bool, s: Span)
    requires Bare(instanceDomain) && s in TagSpans(text, tags, instanceDomain, alphanumeric)
    ensures s.start <= s.end <= |text|
    ensures exists t :: t in tags && text[s.start..s.end] == "#" + t && Href(s.html) == Some("https://" + instanceDomain + "/tags/" + t)
  {
    hide Href, TagHtml, AllWordMatches, Bare;
    var n := |tags| - 1;
    assert tags == tags[..n] + [tags[n]];
    if s in TagSpans(text, tags[..n], instanceDomain, alphanumeric) {
      TagSpansLead(text, tags[..n], instanceDomain, alphanumeric, s);
    } else {
      assert tags[n] in tags;
      HashtagLeads(tags[n], instanceDomain);
      MatchCovers(text, "#" + tags[n], TagHtml(tags[n], instanceDomain), alphanumeric, s);
    }
  }

  /** Every anchor of a formatted post leads where it should. */
  lemma {:induction false} AnchorsLeadRight(text: string, urls: seq<(nat, nat)>, mentions: seq<Mention>, tags: seq<string>,
                                            instanceDomain: string, alphanumeric: char -> bool, s: Span)
    requires Linkable(text, urls) && Bare(instanceDomain)
    requires s in Accepted(AllSpans(text, urls, mentions, tags, instanceDomain, alphanumeric))
    ensures LeadsRight(text, s, urls, mentions, tags, instanceDomain)
  {
    AllSpansAccepted(text, urls, mentions, tags, instanceDomain, alphanumeric);
    AcceptedSpans(text, AllSpans(text, urls, mentions, tags, instanceDomain, alphanumeric));
    hide Href, UrlSpans, MentionSpans, TagSpans, Bare, Linkable, Accepted, Spliceable, InBounds, Disjoint;
    if s in UrlSpans(text, urls) {
      UrlSpansLead(text, urls, mentions, tags, instanceDomain, s);
    } else if s in MentionSpans(text, mentions, alphanumeric) {
      MentionSpansLead(text, mentions, alphanumeric, s);
    } else {
      TagSpansLead(text, tags, instanceDomain, alphanumeric, s);
    }
  }

  /** Among sorted spans, one is kept only if all before it start earlier. */
  lemma {:induction false} KeptIsFirst(text: string, sorted: seq<Span>, a: Span) returns (p: nat)
    requires InBounds(text, sorted) && Sorted(sorted, Earlier()) && a in NonOverlapping(sorted)
    ensures p < |sorted| && sorted[p] == a && forall i :: 0 <= i < p ==> sorted[i].start < a.start
  {
    var n := |sorted| - 1;
    var before := NonOverlapping(sorted[..n]);
    if a in before {
      p := KeptIsFirst(text, sorted[..n], a);
    } else {
      p := n;
      forall i | 0 <= i < n
        ensures sorted[i].start < a.start
      {
        EndsBehind(text, sorted[..n], i);
      }
    }
  }

  /** The last kept span ends behind the start of every span so far. */
  lemma {:induction false} EndsBehind(text: string, sorted: seq<Span>, i: nat)
    requires InBounds(text, sorted) && Sorted(sorted, Earlier()) && i < |sorted|
    ensures var kept := NonOverlapping(sorted);
            kept != [] && sorted[i].start < kept[|kept| - 1].end
  {
    var n := |sorted| - 1;
    var before := NonOverlapping(sorted[..n]);
    assert sorted[n].start < sorted[n].end;
    if i < n {
      EndsBehind(text, sorted[..n], i);
      assert !Earlier()(sorted[n], sorted[i]);
    }
  }

  lemma LongestComesFirst(sorted: seq<Span>, p: nat, s: Span)
    requires Sorted(sorted, Earlier()) && p < |sorted| && s in sorted && s.start == sorted[p].start
    requires forall i :: 0 <= i < p ==> sorted[i].start < sorted[p].start
    ensures s.end <= sorted[p].end
  {
    var q :| 0 <= q < |sorted| && sorted[q] == s;
    assert p < q ==> !Earlier()(sorted[q], sorted[p]);
  }

  /**
    * Of the spans that start at the same place, an accepted one is the longest; and of several equally long ones, the
    * first that was pushed: urls before mentions, and mentions before hashtags.
    */
  lemma {:induction false} AcceptedIsLongest(text: string, spans: seq<Span>, a: Span, s: Span) returns (i: nat)
    requires InBounds(text, spans) && a in Accepted(spans) && s in spans && s.start == a.start
    ensures s.end <= a.end
    ensures i < |spans| && spans[i] == a
    ensures forall j :: 0 <= j < i ==> !(spans[j].start == a.start && spans[j].end == a.end)
  {
    var sorted := StableSort(spans, Earlier());
    EarlierIsOrdering();
    SortKeepsElements(spans, Earlier());
    SortSorts(spans, Earlier());
    SortedInBounds(text, spans);
    var same := (x: Span) => x.start == a.start && x.end == a.end;
    SortIsStable(spans, Earlier(), same);
    hide StableSort, NonOverlapping, Sorted, InBounds, Ordering, Filter;
    var p := KeptIsFirst(text, sorted, a);
    LongestComesFirst(sorted, p, s);
    i := SameFirst(spans, sorted, same, p);
  }

  lemma EarlierIsOrdering()
    ensures Ordering(Earlier())
  {
  }

  lemma SortedInBounds(text: string, spans: seq<Span>)
    requires InBounds(text, spans)
    ensures InBounds(text, StableSort(spans, Earlier()))
  {
    var sorted := StableSort(spans, Earlier());
    SortKeepsElements(spans, Earlier());
    forall i | 0 <= i < |sorted|
      ensures sorted[i].start < sorted[i].end <= |text|
    {
      assert sorted[i] in spans;
    }
  }

  /** An occurrence of a needle whose first character does not occur again cannot begin inside another one. */
  lemma NoSelfOverlap(text: string, sigil: char, name: string, i: nat, j: nat)
    requires sigil !in name && j < i < j + |name| + 1
    requires OccursAt(text, [sigil] + name, i)
    ensures !OccursAt(text, [sigil] + name, j)
  {
    var needle := [sigil] + name;
    assert text[i..i + |needle|][0] == sigil;
    assert needle[i - j] in name;
    assert j + |needle| <= |text| ==> text[j..j + |needle|][i - j] == text[i];
  }

  /** At `i` the text reads `sigil + name`, and nothing that could belong to the word touches it. */
  ghost predicate Written(text: string, sigil: char, name: string, i: nat, alphanumeric: char -> bool) {
    var end := i + 1 + |name|;
    && end <= |text| && text[i] == sigil && text[i + 1..end] == name
    && (i > 0 ==> !alphanumeric(text[i - 1]) && text[i - 1] !in {'_', '@', '#'})
    && (end < |text| ==> !alphanumeric(text[end]) && text[end] !in {'_', '@'})
  }

  lemma WrittenOccurs(text: string, sigil: char, name: string, i: nat, alphanumeric: char -> bool)
    requires Written(text, sigil, name, i, alphanumeric)
    ensures OccursAt(text, [sigil] + name, i) && StandsAlone(text, i, i + 1 + |name|, alphanumeric)
  {
    assert text[i..i + 1 + |name|] == [text[i]] + text[i + 1..i + 1 + |name|];
    assert forall c :: c in "_@#" <==> c in {'_', '@', '#'};
    assert forall c :: c in "_@" <==> c in {'_', '@'};
  }

  lemma WrittenIsMatched(text: string, sigil: char, name: string, html: string, i: nat, alphanumeric: char -> bool)
    requires name != "" && sigil !in name && Written(text, sigil, name, i, alphanumeric)
    ensures Span(i, i + 1 + |name|, html) in AllWordMatches(text, [sigil] + name, html, alphanumeric)
  {
    var needle := [sigil] + name;
    WrittenOccurs(text, sigil, name, i, alphanumeric);
    assert i + |needle| <= |text|;
    hide StandsAlone, WordMatches, OccursAt, Written;
    WordsAreMatched(text, needle, html, 0, alphanumeric, i);
    forall j: nat | j < i < j + |needle|
      ensures !OccursAt(text, needle, j)
    {
      NoSelfOverlap(text, sigil, name, i, j);
    }
  }

  /** The other way round: what is matched is written there. */
  lemma {:induction false} MatchedIsWritten(text: string, sigil: char, name: string, html: string, s: Span, alphanumeric: char -> bool)
    requires name != "" && s in AllWordMatches(text, [sigil] + name, html, alphanumeric)
    ensures Written(text, sigil, name, s.start, alphanumeric) && s == Span(s.start, s.start + 1 + |name|, html)
  {
    hide WordMatches;
    WordMatchesAreWords(text, [sigil] + name, html, 0, alphanumeric);
    OccursIsWritten(text, sigil, name, s.start, alphanumeric);
  }

  lemma OccursIsWritten(text: string, sigil: char, name: string, i: nat, alphanumeric: char -> bool)
    requires OccursAt(text, [sigil] + name, i) && StandsAlone(text, i, i + 1 + |name|, alphanumeric)
    ensures Written(text, sigil, name, i, alphanumeric)
  {
    var word := text[i..i + 1 + |name|];
    assert word[0] == text[i] == sigil && word[1..] == text[i + 1..i + 1 + |name|];
    assert word[1..] == name;
    assert forall c :: c in "_@#" <==> c in {'_', '@', '#'};
    assert forall c :: c in "_@" <==> c in {'_', '@'};
  }

  /** Some accepted span covers the position. */
  ghost predicate HasLink(accepted: seq<Span>, i: nat) {
    exists a :: a in accepted && a.start <= i < a.end
  }

  lemma SpanIsLinked(text: string, spans: seq<Span>, s: Span)
    requires InBounds(text, spans) && s in spans
    ensures HasLink(Accepted(spans), s.start)
  {
    AcceptedSpans(text, spans);
    hide Accepted;
    if s !in Accepted(spans) {
      var a :| a in Accepted(spans) && Blocks(a, s);
    } else {
      assert s.start < s.end by {
        var i :| 0 <= i < |spans| && spans[i] == s;
      }
    }
  }

  lemma {:induction false} MentionMatched(text: string, mentions: seq<Mention>, m: Mention, i: nat, alphanumeric: char -> bool)
    requires m in mentions && m.username != "" && '@' !in m.username && Written(text, '@', m.username, i, alphanumeric)
    ensures Span(i, i + 1 + |m.username|, MentionHtml(m)) in MentionSpans(text, mentions, alphanumeric)
  {
    hide MentionHtml, AllWordMatches, DomainOf, Written;
    var n := |mentions| - 1;
    assert mentions == mentions[..n] + [mentions[n]];
    if m in mentions[..n] {
      MentionMatched(text, mentions[..n], m, i, alphanumeric);
    } else {
      WrittenIsMatched(text, '@', m.username, MentionHtml(m), i, alphanumeric);
      assert "@" + m.username == ['@'] + m.username;
    }
  }

  lemma {:induction false} TagMatched(text: string, tags: seq<string>, t: string, i: nat, instanceDomain: string, alphanumeric: char -> bool)
    requires t in tags && t != "" && '#' !in t && Written(text, '#', t, i, alphanumeric)
    ensures Span(i, i + 1 + |t|, TagHtml(t, instanceDomain)) in TagSpans(text, tags, instanceDomain, alphanumeric)
  {
    hide TagHtml, AllWordMatches, Written;
    var n := |tags| - 1;
    assert tags == tags[..n] + [tags[n]];
    if t in tags[..n] {
      TagMatched(text, tags[..n], t, i, instanceDomain, alphanumeric);
    } else {
      WrittenIsMatched(text, '#', t, TagHtml(t, instanceDomain), i, alphanumeric);
      assert "#" + t == ['#'] + t;
    }
  }

  /** The short handle of a mention is written out at `i`. */
  ghost predicate Mentioned(text: string, m: Mention, i: nat, alphanumeric: char -> bool) {
    m.username != "" && '@' !in m.username && Written(text, '@', m.username, i, alphanumeric)
  }

  ghost predicate Tagged(text: string, t: string, i: nat, alphanumeric: char -> bool) {
    t != "" && '#' !in t && Written(text, '#', t, i, alphanumeric)
  }

  /** Whatever should be linked is: every url, and every mention and hashtag that is written out on its own. */
  lemma {:induction false} EverythingIsLinked(text: string, urls: seq<(nat, nat)>, mentions: seq<Mention>, tags: seq<string>,
                                              instanceDomain: string, alphanumeric: char -> bool)
    requires Linkable(text, urls)
    ensures var accepted := Accepted(AllSpans(text, urls, mentions, tags, instanceDomain, alphanumeric));
            && (forall u :: u in urls ==> HasLink(accepted, u.0))
            && (forall m, i: nat :: m in mentions && Mentioned(text, m, i, alphanumeric) ==> HasLink(accepted, i))
            && (forall t, i: nat :: t in tags && Tagged(text, t, i, alphanumeric) ==> HasLink(accepted, i))
  {
    var spans := AllSpans(text, urls, mentions, tags, instanceDomain, alphanumeric);
    AllSpansAccepted(text, urls, mentions, tags, instanceDomain, alphanumeric);
    hide MentionSpans, TagSpans, Written, Accepted, InBounds, HasLink, ShortenedLink, Spliceable;
    forall u | u in urls
      ensures HasLink(Accepted(spans), u.0)
    {
      var i :| 0 <= i < |urls| && urls[i] == u;
      assert UrlSpans(text, urls)[i] in spans;
      SpanIsLinked(text, spans, UrlSpans(text, urls)[i]);
    }
    forall m, i: nat | m in mentions && Mentioned(text, m, i, alphanumeric)
      ensures HasLink(Accepted(spans), i)
    {
      MentionMatched(text, mentions, m, i, alphanumeric);
      SpanIsLinked(text, spans, Span(i, i + 1 + |m.username|, MentionHtml(m)));
    }
    forall t, i: nat | t in tags && Tagged(text, t, i, alphanumeric)
      ensures HasLink(Accepted(spans), i)
    {
      TagMatched(text, tags, t, i, instanceDomain, alphanumeric);
      SpanIsLinked(text, spans, Span(i, i + 1 + |t|, TagHtml(t, instanceDomain)));
    }
  }

  /** The domain in the handle of a remote account is what follows its only `@`. */
  lemma {:induction false} DomainOfHandle(username: string, domain: string)
    requires '@' !in username && '@' !in domain
    ensures DomainOf(username + "@" + domain) == Some(domain) && DomainOf(username) == None
  {
    var acct := username + "@" + domain;
    hide Find;
    NoSigilIn(username, 0);
    NoSigilIn(acct, |username| + 1);
    assert acct[|username|..|username| + 1] == "@";
    assert OccursAt(acct, "@", |username|);
    forall j | 0 <= j < |username|
      ensures !OccursAt(acct, "@", j)
    {
      assert acct[j..j + 1][0] == username[j];
      assert username[j] in username;
    }
    assert Find(acct, "@", 0) == Some(|username|);
    assert acct[|username| + 1..] == domain;
  }

  lemma NoSigilIn(s: string, from: nat)
    requires from <= |s| && '@' !in s[from..]
    ensures Find(s, "@", from) == None
  {
    forall j | from <= j < |s|
      ensures !OccursAt(s, "@", j)
    {
      assert s[j..j + 1][0] == s[from..][j - from];
    }
  }

  /** A remote account is also linked under its full handle, wherever that stands alone and does not begin inside itself. */
  lemma {:induction false} FullHandleMatched(text: string, mentions: seq<Mention>, m: Mention, domain: string, i: nat, alphanumeric: char -> bool)
    requires m in mentions && '@' !in m.username && '@' !in domain && m.acct == m.username + "@" + domain
    requires Written(text, '@', m.username + "@" + domain, i, alphanumeric)
    requires forall j: nat :: j < i ==> !OccursAt(text, "@" + m.username + "@" + domain, j)
    ensures Span(i, i + 2 + |m.username| + |domain|, MentionHtml(m)) in MentionSpans(text, mentions, alphanumeric)
  {
    hide MentionHtml, WordMatches, DomainOf, Written;
    var n := |mentions| - 1;
    assert mentions == mentions[..n] + [mentions[n]];
    if m in mentions[..n] {
      FullHandleMatched(text, mentions[..n], m, domain, i, alphanumeric);
    } else {
      var needle := "@" + m.username + "@" + domain;
      DomainOfHandle(m.username, domain);
      assert needle == ['@'] + (m.username + "@" + domain);
      WrittenOccurs(text, '@', m.username + "@" + domain, i, alphanumeric);
      WordsAreMatched(text, needle, MentionHtml(m), 0, alphanumeric, i);
    }
  }
}
