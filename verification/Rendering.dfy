/** What a reader sees of formatted text: tags vanish, entities are decoded, and the anchors show what they stand for. */
module Rendering {
  import opened Wrappers
  import opened Sorting
  import opened Text
  import opened Formatter

  /** Whether the character after `c` is inside a tag. */
  predicate TagAfter(c: char, inTag: bool) {
    if inTag then c != '>' else c == '<'
  }

  /** The characters outside tags. */
  function Visible(s: string, inTag: bool): string {
    if s == "" then ""
    else (if inTag || s[0] == '<' then "" else [s[0]]) + Visible(s[1..], TagAfter(s[0], inTag))
  }

  predicate EndsInTag(s: string, inTag: bool) {
    if s == "" then inTag else EndsInTag(s[1..], TagAfter(s[0], inTag))
  }

  /** No newline inside a tag. */
  predicate TagsUnbroken(s: string, inTag: bool) {
    s != "" ==> !(inTag && s[0] == '\n') && TagsUnbroken(s[1..], TagAfter(s[0], inTag))
  }

  /** What a reader sees of some HTML. */
  function Reading(html: string): string {
    Decoded(Visible(html, false))
  }

  lemma ScanConcat(a: string, b: string, inTag: bool)
    ensures Visible(a + b, inTag) == Visible(a, inTag) + Visible(b, EndsInTag(a, inTag))
    ensures EndsInTag(a + b, inTag) == EndsInTag(b, EndsInTag(a, inTag))
    ensures TagsUnbroken(a + b, inTag) <==> TagsUnbroken(a, inTag) && TagsUnbroken(b, EndsInTag(a, inTag))
  {
    EndConcat(a, b, inTag);
    VisibleConcat(a, b, inTag);
    UnbrokenConcat(a, b, inTag);
  }

  lemma {:induction false} EndConcat(a: string, b: string, inTag: bool)
    ensures EndsInTag(a + b, inTag) == EndsInTag(b, EndsInTag(a, inTag))
  {
    if a == "" {
      assert a + b == b;
    } else {
      assert (a + b)[1..] == a[1..] + b;
      EndConcat(a[1..], b, TagAfter(a[0], inTag));
      hide TagAfter;
    }
  }

  lemma {:induction false} VisibleConcat(a: string, b: string, inTag: bool)
    ensures Visible(a + b, inTag) == Visible(a, inTag) + Visible(b, EndsInTag(a, inTag))
  {
    if a == "" {
      assert a + b == b;
    } else {
      assert (a + b)[1..] == a[1..] + b;
      VisibleConcat(a[1..], b, TagAfter(a[0], inTag));
      hide TagAfter;
    }
  }

  lemma {:induction false} UnbrokenConcat(a: string, b: string, inTag: bool)
    ensures TagsUnbroken(a + b, inTag) <==> TagsUnbroken(a, inTag) && TagsUnbroken(b, EndsInTag(a, inTag))
  {
    if a == "" {
      assert a + b == b;
    } else {
      assert (a + b)[1..] == a[1..] + b;
      UnbrokenConcat(a[1..], b, TagAfter(a[0], inTag));
      hide TagAfter;
    }
  }

  /** Text without angle brackets does not open or close tags. */
  lemma {:induction false} ScanInert(s: string, inTag: bool)
    requires Inert(s, false)
    ensures Visible(s, inTag) == if inTag then "" else s
    ensures EndsInTag(s, inTag) == inTag
    ensures TagsUnbroken(s, inTag) <==> inTag ==> '\n' !in s
  {
    if s != "" {
      assert s == [s[0]] + s[1..];
      ScanInert(s[1..], inTag);
    }
  }

  /** Well-formed as far as tags go, and without newlines: what it shows is `Escaped(shown)`. */
  ghost predicate Shows(html: string, shown: string) {
    Visible(html, false) == Escaped(shown) && !EndsInTag(html, false) && TagsUnbroken(html, false)
  }

  lemma ShowsReads(html: string, shown: string)
    requires Shows(html, shown)
    ensures Reading(html) == shown
  {
    DecodeEscaped(shown);
  }

  lemma ShowsConcat(a: string, b: string, x: string, y: string)
    requires Shows(a, x) && Shows(b, y)
    ensures Shows(a + b, x + y)
  {
    hide Visible, EndsInTag, TagsUnbroken;
    ScanConcat(a, b, false);
    EscapedConcat(x, y);
  }

  lemma TextShows(s: string)
    ensures Shows(Escaped(s), s)
  {
    EscapedIsInert(s);
    ScanInert(Escaped(s), false);
  }

  /** What may stand inside a tag: no angle bracket and no newline. */
  predicate Plain(s: string) {
    forall c :: c in s ==> c != '<' && c != '>' && c != '\n'
  }

  lemma PlainIsInert(s: string)
    requires Plain(s)
    ensures Inert(s, false) && '\n' !in s
  {
    forall i | 0 <= i < |s|
      ensures s[i] != '<' && s[i] != '>'
    {
      assert s[i] in s;
    }
  }

  lemma TagShows(inner: string)
    requires Plain(inner)
    ensures Shows(Markup(inner), "")
  {
    PlainIsInert(inner);
    ScanInert(inner, true);
    ScanConcat("<", inner + ">", false);
    ScanConcat(inner, ">", true);
    assert "<" + inner + ">" == "<" + (inner + ">");
    assert "<"[1..] == "" && ">"[1..] == "";
  }

  lemma ThenTag(html: string, shown: string, inner: string)
    requires Shows(html, shown) && Plain(inner)
    ensures Shows(html + Markup(inner), shown)
  {
    TagShows(inner);
    ShowsConcat(html, Markup(inner), shown, "");
    assert shown + "" == shown;
  }

  lemma ThenText(html: string, shown: string, s: string)
    requires Shows(html, shown)
    ensures Shows(html + Escaped(s), shown + s)
  {
    TextShows(s);
    ShowsConcat(html, Escaped(s), shown, s);
  }

  lemma {:induction false} EscapedAttrIsPlain(s: string)
    requires '\n' !in s
    ensures Plain(EscapedAttr(s))
  {
    if s != "" {
      var n := |s| - 1;
      EscapedAttrIsPlain(s[..n]);
      CharIsPlain(s[n]);
      hide Plain, EscapeAttrChar;
      PlainConcat(EscapedAttr(s[..n]), EscapeAttrChar(s[n]));
    }
  }

  lemma CharIsPlain(c: char)
    requires c != '\n'
    ensures Plain(EscapeAttrChar(c))
  {
  }

  lemma AttributesArePlain()
    ensures Plain(HREF) && Plain(TARGET) && Plain(REL) && Plain(TRANSLATE)
  {
  }

  lemma SpansArePlain()
    ensures Plain(INVISIBLE) && Plain(ELLIPSIS) && Plain(WHOLE)
  {
  }

  lemma TagNamesArePlain()
    ensures Plain("span") && Plain("/span") && Plain("/a")
  {
  }

  lemma MentionClassesArePlain()
    ensures Plain(CARD) && Plain(MENTION)
  {
    CardIsPlain();
  }

  lemma CardIsPlain()
    ensures Plain(CARD)
  {
  }

  lemma TagClassesArePlain()
    ensures Plain(HASHTAG) && Plain("https://") && Plain("/tags/")
  {
  }

  lemma PlainConcat(a: string, b: string)
    requires Plain(a) && Plain(b)
    ensures Plain(a + b)
  {
  }

  lemma PartShows(tag: string, s: string)
    requires Plain(tag)
    ensures Shows(Part(tag, s), s)
  {
    TagNamesArePlain();
    hide Shows, Plain, Escaped, Markup;
    TagShows(tag);
    ThenText(Markup(tag), "", s);
    assert "" + s == s;
    ThenTag(Markup(tag) + Escaped(s), s, "/span");
  }

  lemma OpeningIsPlain(url: string)
    requires '\n' !in url
    ensures Plain(HREF + EscapedAttr(url) + (TARGET + REL + TRANSLATE))
  {
    EscapedAttrIsPlain(url);
    AttributesArePlain();
    hide Plain, EscapedAttr;
    PlainConcat(TARGET, REL);
    PlainConcat(TARGET + REL, TRANSLATE);
    PlainConcat(HREF, EscapedAttr(url));
    PlainConcat(HREF + EscapedAttr(url), TARGET + REL + TRANSLATE);
  }

  lemma FourShow(a: string, b: string, c: string, d: string, x: string, y: string, z: string)
    requires Shows(a, "") && Shows(b, x) && Shows(c, y) && Shows(d, z)
    ensures Shows(a + (b + (c + d)), x + y + z)
  {
    hide Shows;
    ShowsConcat(c, d, y, z);
    ShowsConcat(b, c + d, x, y + z);
    ShowsConcat(a, b + (c + d), "", x + (y + z));
    assert "" + (x + (y + z)) == x + y + z;
  }

  /** A link reads as its url, however it is shortened. */
  lemma {:induction false} LinkShows(url: string)
    requires '\n' !in url && Cuttable(url)
    ensures Shows(ShortenedLink(url), url)
  {
    OpeningIsPlain(url);
    SpansArePlain();
    TagNamesArePlain();
    PartsOfLink(url);
    hide Shows, Plain, Escaped, EscapedAttr, LinkParts, Markup, Part;
    var (prefix, display, suffix) := LinkParts(url);
    var style := if suffix == "" then WHOLE else ELLIPSIS;
    TagShows(HREF + EscapedAttr(url) + (TARGET + REL + TRANSLATE));
    PartShows(INVISIBLE, prefix);
    PartShows(style, display);
    PartShows(INVISIBLE, suffix);
    ThenTag(Part(INVISIBLE, suffix), suffix, "/a");
    FourShow(Markup(HREF + EscapedAttr(url) + (TARGET + REL + TRANSLATE)), Part(INVISIBLE, prefix), Part(style, display),
             Part(INVISIBLE, suffix) + Markup("/a"), prefix, display, suffix);
  }

  lemma SigilShows(sigil: string)
    requires sigil in {"@", "#"}
    ensures Shows(sigil, sigil)
  {
    assert sigil[..0] == "";
    assert Escaped(sigil) == EscapeChar(sigil[0]) == sigil;
    TextShows(sigil);
  }

  lemma HandleShows(sigil: string, name: string)
    requires sigil in {"@", "#"}
    ensures Shows(Handle(sigil, name), sigil + name)
  {
    TagNamesArePlain();
    hide Shows, Plain, Escaped, Markup;
    SigilShows(sigil);
    ThenTag(sigil, sigil, "span");
    ThenText(sigil + Markup("span"), sigil, name);
    ThenTag(sigil + Markup("span") + Escaped(name), sigil + name, "/span");
    ThenTag(sigil + Markup("span") + Escaped(name) + Markup("/span"), sigil + name, "/a");
  }

  /** A mention reads as the full handle of the account. */
  lemma MentionShows(m: Mention)
    requires '\n' !in m.url
    ensures Shows(MentionHtml(m), "@" + m.acct)
  {
    EscapedAttrIsPlain(m.url);
    AttributesArePlain();
    MentionClassesArePlain();
    TagNamesArePlain();
    hide Shows, Plain, Escaped, EscapedAttr, Markup, Handle;
    PlainConcat(HREF, EscapedAttr(m.url));
    PlainConcat(HREF + EscapedAttr(m.url), MENTION);
    TagShows(CARD);
    ThenTag(Markup(CARD), "", HREF + EscapedAttr(m.url) + MENTION);
    var opening := Markup(CARD) + Markup(HREF + EscapedAttr(m.url) + MENTION);
    HandleShows("@", m.acct);
    ThenTag(Handle("@", m.acct), "@" + m.acct, "/span");
    ShowsConcat(opening, Handle("@", m.acct) + Markup("/span"), "", "@" + m.acct);
    assert "" + ("@" + m.acct) == "@" + m.acct;
  }

  /** A hashtag reads as its name behind a hash sign. */
  lemma HashtagShows(name: string, instanceDomain: string)
    requires '\n' !in name && Plain(instanceDomain)
    ensures Shows(TagHtml(name, instanceDomain), "#" + name)
  {
    AttributesArePlain();
    TagClassesArePlain();
    AddressIsPlain(name, instanceDomain);
    hide Shows, Plain, Escaped, TagAddress, Markup, Handle;
    var address := TagAddress(name, instanceDomain);
    PlainConcat(HREF, address);
    PlainConcat(HREF + address, HASHTAG);
    TagShows(HREF + address + HASHTAG);
    HandleShows("#", name);
    ShowsConcat(Markup(HREF + address + HASHTAG), Handle("#", name), "", "#" + name);
    assert "" + ("#" + name) == "#" + name;
  }

  lemma AddressIsPlain(name: string, instanceDomain: string)
    requires '\n' !in name && Plain(instanceDomain)
    ensures Plain(TagAddress(name, instanceDomain))
  {
    EscapedAttrIsPlain(name);
    TagClassesArePlain();
    hide Plain, EscapedAttr;
    var https, path := "https://", "/tags/";
    PlainConcat(https, instanceDomain);
    PlainConcat(https + instanceDomain, path);
    PlainConcat(https + instanceDomain + path, EscapedAttr(name));
  }

  /** The text with each span replaced by what its anchor reads as, up to the end of the last span. */
  function ReplacedUpTo(text: string, spans: seq<Span>): string
    requires Spliceable(text, spans)
  {
    if spans == [] then ""
    else
      var n := |spans| - 1;
      GapInBounds(text, spans);
      ReplacedUpTo(text, spans[..n]) + text[EndOf(spans[..n])..spans[n].start] + Reading(spans[n].html)
  }

  function Replaced(text: string, spans: seq<Span>): string
    requires Spliceable(text, spans)
  {
    EndInBounds(text, spans);
    ReplacedUpTo(text, spans) + text[EndOf(spans)..]
  }

  ghost predicate Legible(html: string) {
    Shows(html, Reading(html))
  }

  lemma {:induction false} SplicedShows(text: string, spans: seq<Span>)
    requires Spliceable(text, spans)
    requires forall i :: 0 <= i < |spans| ==> Legible(spans[i].html)
    ensures Shows(Spliced(text, spans), ReplacedUpTo(text, spans))
  {
    if spans == [] {
      TextShows("");
    } else {
      hide Shows, Spliceable, Reading, Escaped;
      var n := |spans| - 1;
      GapInBounds(text, spans);
      SplicedShows(text, spans[..n]);
      var gap := text[EndOf(spans[..n])..spans[n].start];
      ThenText(Spliced(text, spans[..n]), ReplacedUpTo(text, spans[..n]), gap);
      ShowsConcat(Spliced(text, spans[..n]) + Escaped(gap), spans[n].html, ReplacedUpTo(text, spans[..n]) + gap, Reading(spans[n].html));
    }
  }

  lemma LinkedShows(text: string, spans: seq<Span>)
    requires Spliceable(text, spans)
    requires forall i :: 0 <= i < |spans| ==> Legible(spans[i].html)
    ensures Shows(Linked(text, spans), Replaced(text, spans))
  {
    hide Shows, Legible;
    SplicedShows(text, spans);
    EndInBounds(text, spans);
    ThenText(Spliced(text, spans), ReplacedUpTo(text, spans), text[EndOf(spans)..]);
  }

  /** Line breaks read as nothing. */
  lemma {:induction false} BreaksRead(p: string, inTag: bool)
    requires TagsUnbroken(p, inTag)
    ensures Visible(WithBreaks(p), inTag) == WithoutNewlines(Visible(p, inTag))
    ensures EndsInTag(WithBreaks(p), inTag) == EndsInTag(p, inTag)
  {
    if p != "" {
      BreaksRead(p[1..], TagAfter(p[0], inTag));
      var shown := if inTag || p[0] == '<' then "" else [p[0]];
      WithoutNewlinesConcat(shown, Visible(p[1..], TagAfter(p[0], inTag)));
      if p[0] == '\n' {
        ScanBreak("<br />");
        ScanConcat("<br />", WithBreaks(p[1..]), inTag);
      } else {
        ScanOne(p[0], inTag);
        ScanConcat([p[0]], WithBreaks(p[1..]), inTag);
      }
      WithoutNewlinesOne(p[0]);
    }
  }

  lemma WithoutNewlinesOne(c: char)
    ensures WithoutNewlines([c]) == if c == '\n' then "" else [c]
  {
    assert [c][1..] == "";
  }

  lemma ScanBreak(br: string)
    requires br == "<br />"
    ensures Visible(br, false) == "" && !EndsInTag(br, false)
  {
    TagShows("br /");
    assert br == Markup("br /");
  }

  lemma ScanOne(c: char, inTag: bool)
    ensures Visible([c], inTag) == if inTag || c == '<' then "" else [c]
    ensures EndsInTag([c], inTag) == TagAfter(c, inTag)
  {
    assert [c][1..] == "";
  }

  /** A piece of HTML that begins and ends outside tags, and breaks none of its lines within one. */
  ghost predicate Whole(s: string) {
    TagsUnbroken(s, false) && !EndsInTag(s, false)
  }

  /** What pieces read as one after the other, without newlines. */
  function ReadAll(parts: seq<string>): string {
    if parts == [] then "" else WithoutNewlines(Visible(parts[0], false)) + ReadAll(parts[1..])
  }

  /** Cutting at empty lines never cuts a tag. */
  lemma {:induction false} PartsAreWhole(parts: seq<string>)
    requires parts != [] && Whole(JoinBlank(parts))
    ensures forall p :: p in parts ==> Whole(p)
    ensures ReadAll(parts) == WithoutNewlines(Visible(JoinBlank(parts), false))
  {
    if |parts| == 1 {
      assert ReadAll(parts[1..]) == "";
    } else {
      var rest := JoinBlank(parts[1..]);
      CutAtBlank(parts[0], rest);
      PartsAreWhole(parts[1..]);
      hide Whole;
      assert parts == [parts[0]] + parts[1..];
      WithoutNewlinesConcat(Visible(parts[0], false), Visible(rest, false));
    }
  }

  lemma CutAtBlank(a: string, b: string)
    requires Whole(a + "\n\n" + b)
    ensures Whole(a) && Whole(b)
    ensures WithoutNewlines(Visible(a + "\n\n" + b, false)) == WithoutNewlines(Visible(a, false) + Visible(b, false))
  {
    var blank := "\n\n";
    ScanConcat(a + blank, b, false);
    ScanConcat(a, blank, false);
    assert blank[0] == '\n';
    ScanInert(blank, false);
    WithoutNewlinesConcat(Visible(a, false) + blank, Visible(b, false));
    WithoutNewlinesConcat(Visible(a, false), blank);
    WithoutNewlinesConcat(Visible(a, false), Visible(b, false));
    SeparatorIsNewlines();
  }

  lemma {:induction false} NonEmptyReads(parts: seq<string>)
    ensures ReadAll(NonEmpty(parts)) == ReadAll(parts)
  {
    if parts != [] {
      NonEmptyReads(parts[1..]);
      if parts[0] == "" {
        assert NonEmpty(parts) == NonEmpty(parts[1..]);
      } else {
        assert NonEmpty(parts)[1..] == NonEmpty(parts[1..]);
      }
    }
  }

  lemma {:induction false} WrappedReads(paragraphs: seq<string>)
    requires forall p :: p in paragraphs ==> Whole(p)
    ensures Visible(Wrapped(paragraphs), false) == ReadAll(paragraphs)
  {
    if paragraphs != [] {
      hide Whole, Visible, EndsInTag, WithoutNewlines, WithBreaks;
      var p := paragraphs[0];
      assert p in paragraphs;
      WrappedReads(paragraphs[1..]);
      ParagraphReads(p);
      ScanConcat("<p>" + WithBreaks(p) + "</p>", Wrapped(paragraphs[1..]), false);
    }
  }

  lemma ParagraphReads(p: string)
    requires Whole(p)
    ensures Visible("<p>" + WithBreaks(p) + "</p>", false) == WithoutNewlines(Visible(p, false))
    ensures !EndsInTag("<p>" + WithBreaks(p) + "</p>", false)
  {
    var open, close := "<p>", "</p>";
    BreaksRead(p, false);
    TagNamesRead(open, close);
    ScanConcat(open + WithBreaks(p), close, false);
    ScanConcat(open, WithBreaks(p), false);
  }

  lemma TagNamesRead(open: string, close: string)
    requires open == "<p>" && close == "</p>"
    ensures Visible(open, false) == "" && !EndsInTag(open, false)
    ensures Visible(close, false) == "" && !EndsInTag(close, false)
  {
    TagShows("p");
    TagShows("/p");
    assert open == Markup("p") && close == Markup("/p");
  }

  /** Wrapping text in paragraphs and line breaks loses its newlines, and nothing else a reader sees. */
  lemma {:induction false} ParagraphsRead(out: string)
    requires Whole(out)
    ensures Visible(Paragraphs(out), false) == WithoutNewlines(Visible(out, false))
  {
    var parts := SplitBlank(out);
    SplitIsExact(out);
    NonEmptyParts(parts);
    NonEmptyReads(parts);
    NoParagraphReads("<p></p>");
    hide Whole, SplitBlank, NonEmpty, WithoutNewlines, Wrapped, Visible, JoinBlank, OccursAt;
    PartsAreWhole(parts);
    WrappedReads(NonEmpty(parts));
  }

  lemma NoParagraphReads(html: string)
    requires html == "<p></p>"
    ensures Visible(html, false) == ""
  {
    var open, close := "<p>", "</p>";
    TagNamesRead(open, close);
    ScanConcat(open, close, false);
    assert html == open + close;
  }

  /** Escaping and dropping newlines do not get in each other's way. */
  lemma {:induction false} EscapedWithoutNewlines(s: string)
    ensures WithoutNewlines(Escaped(s)) == Escaped(WithoutNewlines(s))
  {
    if s != "" {
      var n := |s| - 1;
      var c := EscapeChar(s[n]);
      EscapedWithoutNewlines(s[..n]);
      EscapedChar(s[n]);
      assert Escaped(s) == Escaped(s[..n]) + c;
      hide WithoutNewlines, Escaped, EscapeChar;
      WithoutNewlinesConcat(Escaped(s[..n]), c);
      assert s == s[..n] + [s[n]];
      WithoutNewlinesConcat(s[..n], [s[n]]);
      EscapedConcat(WithoutNewlines(s[..n]), WithoutNewlines([s[n]]));
    }
  }

  lemma EscapedChar(c: char)
    ensures WithoutNewlines(EscapeChar(c)) == Escaped(WithoutNewlines([c]))
  {
    WithoutNewlinesOne(c);
    assert [c][..0] == "";
    assert Escaped("") == "";
    assert c != '\n' ==> Escaped([c]) == EscapeChar(c);
    NoNewlines(EscapeChar(c));
  }

  lemma {:induction false} NoNewlines(s: string)
    ensures '\n' !in s ==> WithoutNewlines(s) == s
  {
    if s != "" {
      NoNewlines(s[1..]);
      assert s == [s[0]] + s[1..];
    }
  }

  /** Formatted text reads as the text with its spans replaced, less the newlines. */
  lemma FormattedReads(text: string, spans: seq<Span>)
    requires Spliceable(text, spans)
    requires forall i :: 0 <= i < |spans| ==> Legible(spans[i].html)
    ensures Reading(Paragraphs(Linked(text, spans))) == WithoutNewlines(Replaced(text, spans))
  {
    hide Linked, Replaced, Spliceable, Legible, Paragraphs, Escaped, Visible;
    var out := Linked(text, spans);
    LinkedShows(text, spans);
    ParagraphsRead(out);
    EscapedWithoutNewlines(Replaced(text, spans));
    DecodeEscaped(WithoutNewlines(Replaced(text, spans)));
  }

  /** Nothing that is put into an attribute holds a newline, and the domain is a plain name. */
  ghost predicate OneLine(text: string, urls: seq<(nat, nat)>, mentions: seq<Mention>, tags: seq<string>, instanceDomain: string) {
    && (forall u :: u in urls ==> u.0 < u.1 <= |text| && '\n' !in text[u.0..u.1])
    && Linkable(text, urls)
    && (forall m :: m in mentions ==> '\n' !in m.url)
    && (forall t :: t in tags ==> '\n' !in t)
    && Plain(instanceDomain)
  }

  ghost predicate ReadsAsCovered(text: string, s: Span) {
    s.start <= s.end <= |text| && Reading(s.html) == text[s.start..s.end]
  }

  ghost predicate ReadsAsHandle(text: string, s: Span, m: Mention) {
    s.start <= s.end <= |text| && "@" + m.username <= text[s.start..s.end] && Reading(s.html) == "@" + m.acct
  }

  /** An anchor reads as the text it covers, or else as the full handle of a mention whose name it covers. */
  ghost predicate Explained(text: string, s: Span, mentions: seq<Mention>) {
    ReadsAsCovered(text, s) || exists m :: m in mentions && ReadsAsHandle(text, s, m)
  }

  lemma {:induction false} MentionSpansShow(text: string, mentions: seq<Mention>, alphanumeric: char -> bool, s: Span)
    requires forall m :: m in mentions ==> '\n' !in m.url
    requires s in MentionSpans(text, mentions, alphanumeric)
    ensures Legible(s.html) && exists m :: m in mentions && ReadsAsHandle(text, s, m)
  {
    hide Legible, ReadsAsHandle, MentionMatches;
    var n := |mentions| - 1;
    assert mentions == mentions[..n] + [mentions[n]];
    if s in MentionSpans(text, mentions[..n], alphanumeric) {
      MentionSpansShow(text, mentions[..n], alphanumeric, s);
    } else {
      var m := mentions[n];
      assert m in mentions;
      MentionMatchShows(text, m, alphanumeric, s);
    }
  }

  lemma MentionMatchShows(text: string, m: Mention, alphanumeric: char -> bool, s: Span)
    requires '\n' !in m.url
    requires s in MentionMatches(text, m, alphanumeric)
    ensures Legible(s.html) && ReadsAsHandle(text, s, m)
  {
    hide Shows, Reading, MentionHtml, AllWordMatches, DomainOf;
    MentionShows(m);
    ShowsReads(MentionHtml(m), "@" + m.acct);
    var short := "@" + m.username;
    if s in AllWordMatches(text, short, MentionHtml(m), alphanumeric) {
      MatchCovers(text, short, MentionHtml(m), alphanumeric, s);
    } else {
      var full := short + "@" + DomainOf(m.acct).value;
      MatchCovers(text, full, MentionHtml(m), alphanumeric, s);
      assert short <= full;
    }
  }

  lemma MatchCovers(text: string, needle: string, html: string, alphanumeric: char -> bool, s: Span)
    requires s in AllWordMatches(text, needle, html, alphanumeric)
    ensures s.html == html && s.start <= s.end <= |text| && text[s.start..s.end] == needle
  {
    hide WordMatches, StandsAlone;
    WordMatchesAreWords(text, needle, html, 0, alphanumeric);
  }

  lemma {:induction false} TagSpansShow(text: string, tags: seq<string>, instanceDomain: string, alphanumeric: char -> bool, s: Span)
    requires (forall t :: t in tags ==> '\n' !in t) && Plain(instanceDomain)
    requires s in TagSpans(text, tags, instanceDomain, alphanumeric)
    ensures Legible(s.html) && ReadsAsCovered(text, s)
  {
    hide Shows, Reading, TagHtml, AllWordMatches, Plain;
    var n := |tags| - 1;
    assert tags == tags[..n] + [tags[n]];
    if s in TagSpans(text, tags[..n], instanceDomain, alphanumeric) {
      TagSpansShow(text, tags[..n], instanceDomain, alphanumeric, s);
    } else {
      assert tags[n] in tags;
      HashtagShows(tags[n], instanceDomain);
      ShowsReads(TagHtml(tags[n], instanceDomain), "#" + tags[n]);
      MatchCovers(text, "#" + tags[n], TagHtml(tags[n], instanceDomain), alphanumeric, s);
    }
  }

  lemma UrlSpansShow(text: string, urls: seq<(nat, nat)>, s: Span)
    requires forall u :: u in urls ==> u.0 < u.1 <= |text| && '\n' !in text[u.0..u.1]
    requires Linkable(text, urls)
    requires s in UrlSpans(text, urls)
    ensures Legible(s.html) && ReadsAsCovered(text, s)
  {
    hide Shows, Reading, ShortenedLink;
    var i :| 0 <= i < |urls| && UrlSpans(text, urls)[i] == s;
    assert urls[i] in urls;
    var url := text[urls[i].0..urls[i].1];
    LinkShows(url);
    ShowsReads(ShortenedLink(url), url);
  }

  /** Every anchor reads as the text it covers, except that a mention reads as the full handle. */
  lemma {:induction false} AnchorsAreExplained(text: string, urls: seq<(nat, nat)>, mentions: seq<Mention>, tags: seq<string>, instanceDomain: string,
                            alphanumeric: char -> bool, s: Span)
    requires OneLine(text, urls, mentions, tags, instanceDomain)
    requires s in AllSpans(text, urls, mentions, tags, instanceDomain, alphanumeric)
    ensures Legible(s.html) && Explained(text, s, mentions)
  {
    hide Legible, ReadsAsCovered, ReadsAsHandle, UrlSpans, MentionSpans, TagSpans, Plain;
    if s in UrlSpans(text, urls) {
      UrlSpansShow(text, urls, s);
    } else if s in MentionSpans(text, mentions, alphanumeric) {
      MentionSpansShow(text, mentions, alphanumeric, s);
    } else {
      TagSpansShow(text, tags, instanceDomain, alphanumeric, s);
    }
  }

  /** If every anchor reads as the text it covers, replacing changes nothing. */
  lemma {:induction false} ReplacedByItself(text: string, spans: seq<Span>)
    requires Spliceable(text, spans)
    requires forall i :: 0 <= i < |spans| ==> ReadsAsCovered(text, spans[i])
    ensures EndOf(spans) <= |text| && ReplacedUpTo(text, spans) == text[..EndOf(spans)]
  {
    EndInBounds(text, spans);
    if spans != [] {
      hide Reading;
      var n := |spans| - 1;
      GapInBounds(text, spans);
      ReplacedByItself(text, spans[..n]);
      assert ReadsAsCovered(text, spans[n]);
      hide Spliceable;
      assert text[..EndOf(spans)] == text[..EndOf(spans[..n])] + text[EndOf(spans[..n])..spans[n].start] + text[spans[n].start..spans[n].end];
    }
  }

  /**
    * What a reader sees of a formatted post: its text with every accepted span replaced by what it stands for, less
    * the newlines. A link reads as its url and a hashtag as itself; only a mention reads differently from the text.
    */
  lemma {:induction false} FormattedPostReads(text: string, urls: seq<(nat, nat)>, mentions: seq<Mention>, tags: seq<string>, instanceDomain: string,
                           alphanumeric: char -> bool) returns (accepted: seq<Span>)
    requires OneLine(text, urls, mentions, tags, instanceDomain)
    ensures accepted == Accepted(AllSpans(text, urls, mentions, tags, instanceDomain, alphanumeric))
    ensures Spliceable(text, accepted)
    ensures Reading(Paragraphs(Linked(text, accepted))) == WithoutNewlines(Replaced(text, accepted))
    ensures forall s :: s in accepted ==> Explained(text, s, mentions)
    ensures mentions == [] ==> Reading(Paragraphs(Linked(text, accepted))) == WithoutNewlines(text)
  {
    hide Legible, Explained, AllSpans, Accepted, Linked, Paragraphs, Reading, ReadsAsCovered;
    var spans := AllSpans(text, urls, mentions, tags, instanceDomain, alphanumeric);
    accepted := Accepted(spans);
    AllSpansAccepted(text, urls, mentions, tags, instanceDomain, alphanumeric);
    AcceptedSpans(text, spans);
    forall s | s in accepted
      ensures Legible(s.html) && Explained(text, s, mentions)
    {
      AnchorsAreExplained(text, urls, mentions, tags, instanceDomain, alphanumeric, s);
    }
    forall i | 0 <= i < |accepted|
      ensures Legible(accepted[i].html)
    {
      assert accepted[i] in accepted;
    }
    hide Spliceable, OneLine;
    FormattedReads(text, accepted);
    if mentions == [] {
      forall i | 0 <= i < |accepted|
        ensures ReadsAsCovered(text, accepted[i])
      {
        ExplainedWithoutMentions(text, accepted[i], mentions);
      }
      ReplacedByItself(text, accepted);
      assert text[..EndOf(accepted)] + text[EndOf(accepted)..] == text;
    }
  }

  lemma ExplainedWithoutMentions(text: string, s: Span, mentions: seq<Mention>)
    requires Explained(text, s, mentions) && mentions == []
    ensures ReadsAsCovered(text, s)
  {
  }
}
