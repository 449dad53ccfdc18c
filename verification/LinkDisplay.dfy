/** Which part of a link is displayed, once its invisible parts are left out. */
module LinkDisplay {
  import opened Wrappers
  import opened Text
  import opened Formatter
  import opened Rendering

  const HIDDEN := "<span class=\"invisible\">"
  const CLOSE := "</span>"

  /** What is displayed of some HTML: its visible text outside the spans that are marked invisible. */
  function Displayed(html: string): string
    decreases |html|
  {
    match Find(html, HIDDEN, 0)
    case None => Visible(html, false)
    case Some(i) =>
      match Find(html[i..], CLOSE, 0)
      case None => Visible(html[..i], false)
      case Some(j) => Visible(html[..i], false) + Displayed(html[i + j + 7..])
  }

  /** Wherever the needle could begin in the prefix, the prefix itself goes on differently. */
  ghost predicate Clear(before: string, needle: string) {
    forall j :: 0 <= j < |before| ==> DiffersAt(before, needle, j)
  }

  ghost predicate DiffersAt(before: string, needle: string, j: nat) {
    exists d :: 0 <= d < |needle| && j + d < |before| && before[j + d] != needle[d]
  }

  lemma ClearConcat(a: string, b: string, needle: string)
    requires Clear(a, needle) && Clear(b, needle)
    ensures Clear(a + b, needle)
  {
    forall j | 0 <= j < |a + b|
      ensures DiffersAt(a + b, needle, j)
    {
      if j < |a| {
        assert DiffersAt(a, needle, j);
        var d :| 0 <= d < |needle| && j + d < |a| && a[j + d] != needle[d];
        assert (a + b)[j + d] == a[j + d];
      } else {
        assert DiffersAt(b, needle, j - |a|);
        var d :| 0 <= d < |needle| && j - |a| + d < |b| && b[j - |a| + d] != needle[d];
        assert (a + b)[j + d] == b[j - |a| + d];
      }
    }
  }

  lemma ClearText(s: string, needle: string)
    requires Inert(s, false) && needle != "" && needle[0] == '<'
    ensures Clear(s, needle)
  {
    forall j | 0 <= j < |s|
      ensures DiffersAt(s, needle, j)
    {
      assert s[j + 0] != needle[0];
    }
  }

  lemma ClearTag(tag: string, needle: string, d: nat)
    requires needle != "" && needle[0] == '<' && d < |needle| && d < |tag| && tag[d] != needle[d]
    requires forall j :: 1 <= j < |tag| ==> tag[j] != '<'
    ensures Clear(tag, needle)
  {
    forall j | 0 <= j < |tag|
      ensures DiffersAt(tag, needle, j)
    {
      if j == 0 {
        assert tag[0 + d] != needle[d];
      } else {
        assert tag[j + 0] != needle[0];
      }
    }
  }

  lemma NotInClear(html: string, before: string, needle: string, j: nat)
    requires before <= html && Clear(before, needle) && j < |before|
    ensures !OccursAt(html, needle, j)
  {
    assert DiffersAt(before, needle, j);
    var d :| 0 <= d < |needle| && j + d < |before| && before[j + d] != needle[d];
    assert html[j + d] == before[j + d];
    assert j + |needle| <= |html| ==> html[j..j + |needle|][d] == html[j + d];
  }

  lemma FoundBehind(html: string, before: string, needle: string)
    requires before + needle <= html && Clear(before, needle)
    ensures Find(html, needle, 0) == Some(|before|)
  {
    var n := |before|;
    assert html[..n + |needle|] == before + needle;
    assert html[n..n + |needle|] == needle;
    assert OccursAt(html, needle, n);
    assert before <= html;
    forall j | 0 <= j < n
      ensures !OccursAt(html, needle, j)
    {
      NotInClear(html, before, needle, j);
    }
  }

  lemma NotFound(html: string, needle: string)
    requires Clear(html, needle) && needle != ""
    ensures Find(html, needle, 0) == None
  {
    forall j | 0 <= j < |html|
      ensures !OccursAt(html, needle, j)
    {
      NotInClear(html, html, needle, j);
    }
  }

  lemma HiddenFound(tail: string, hidden: string, rest: string)
    requires Inert(hidden, false) && tail == HIDDEN + hidden + CLOSE + rest
    ensures Find(tail, CLOSE, 0) == Some(|HIDDEN + hidden|)
  {
    assert HIDDEN[1] == 's' && CLOSE[1] == '/';
    HiddenTag();
    ClearTag(HIDDEN, CLOSE, 1);
    ClearText(hidden, CLOSE);
    hide Clear, Inert, Find;
    ClearConcat(HIDDEN, hidden, CLOSE);
    assert (HIDDEN + hidden) + CLOSE <= tail;
    FoundBehind(tail, HIDDEN + hidden, CLOSE);
  }

  lemma HiddenTag()
    ensures forall j :: 1 <= j < |HIDDEN| ==> HIDDEN[j] != '<'
    ensures HIDDEN == "<" + INVISIBLE + ">"
  {
    SpansArePlain();
    PlainIsInert(INVISIBLE);
    var tag := "<" + INVISIBLE + ">";
    assert HIDDEN == tag;
    assert forall j :: 1 <= j < |tag| - 1 ==> tag[j] == INVISIBLE[j - 1];
  }

  lemma DisplayedStep(html: string, i: nat, j: nat)
    requires Find(html, HIDDEN, 0) == Some(i) && Find(html[i..], CLOSE, 0) == Some(j)
    ensures Displayed(html) == Visible(html[..i], false) + Displayed(html[i + j + 7..])
  {
    hide Find, Visible;
  }

  /** A hidden span is left out, and what follows is displayed on its own. */
  lemma HiddenIsLeftOut(before: string, hidden: string, rest: string)
    requires Clear(before, HIDDEN) && Inert(hidden, false)
    ensures Displayed(before + (HIDDEN + hidden + CLOSE + rest)) == Visible(before, false) + Displayed(rest)
  {
    var tail := HIDDEN + hidden + CLOSE + rest;
    var html := before + tail;
    HiddenFound(tail, hidden, rest);
    hide Clear, Inert, Find, Visible, Displayed;
    assert HIDDEN <= tail;
    assert before + HIDDEN <= html;
    FoundBehind(html, before, HIDDEN);
    var i, j := |before|, |HIDDEN + hidden|;
    assert html[..i] == before && html[i..] == tail;
    assert html[i + j + 7..] == rest;
    DisplayedStep(html, i, j);
  }

  lemma NothingHidden(html: string)
    requires Clear(html, HIDDEN)
    ensures Displayed(html) == Visible(html, false)
  {
    hide Clear;
    NotFound(html, HIDDEN);
  }

  lemma TagIsClear(inner: string, d: nat)
    requires Plain(inner) && d < |inner| && d + 1 < |HIDDEN| && inner[d] != HIDDEN[d + 1]
    ensures Clear(Markup(inner), HIDDEN)
  {
    PlainIsInert(inner);
    var tag := Markup(inner);
    assert tag[d + 1] == inner[d];
    assert forall j :: 1 <= j < |tag| - 1 ==> tag[j] == inner[j - 1];
    ClearTag(tag, HIDDEN, d + 1);
  }

  lemma StylesDiffer()
    ensures Clear(Markup(WHOLE), HIDDEN) && Clear(Markup(ELLIPSIS), HIDDEN)
    ensures Clear(Markup("/span"), HIDDEN) && Clear(Markup("/a"), HIDDEN)
    ensures Markup(INVISIBLE) == HIDDEN && Markup("/span") == CLOSE
  {
    SpansArePlain();
    TagNamesArePlain();
    HiddenTag();
    hide Clear;
    assert WHOLE[12] == '"' && ELLIPSIS[12] == 'e' && HIDDEN[13] == 'i';
    TagIsClear(WHOLE, 12);
    TagIsClear(ELLIPSIS, 12);
    assert "/span"[0] == '/' && "/a"[0] == '/' && HIDDEN[1] == 's';
    TagIsClear("/span", 0);
    TagIsClear("/a", 0);
  }

  lemma OpeningIsClear(url: string)
    requires '\n' !in url
    ensures Clear(Markup(HREF + EscapedAttr(url) + (TARGET + REL + TRANSLATE)), HIDDEN)
  {
    OpeningIsPlain(url);
    var inner := HREF + EscapedAttr(url) + (TARGET + REL + TRANSLATE);
    assert inner[0] == HREF[0] == 'a' && HIDDEN[1] == 's';
    hide Plain, Clear;
    TagIsClear(inner, 0);
  }

  /**
    * What is displayed of a link: of what follows the scheme and a `www.`, the first thirty bytes, or all if there are no
    * more; that is the second of its parts.
    */
  lemma {:induction false} LinkDisplays(url: string)
    requires '\n' !in url && Cuttable(url)
    ensures Displayed(ShortenedLink(url)) == Escaped(LinkParts(url).1)
  {
    StylesDiffer();
    OpeningIsClear(url);
    OpeningIsPlain(url);
    SpansArePlain();
    TagNamesArePlain();
    var (prefix, display, suffix) := LinkParts(url);
    EscapedIsInert(prefix);
    EscapedIsInert(display);
    EscapedIsInert(suffix);
    var style := if suffix == "" then WHOLE else ELLIPSIS;
    ClearText(Escaped(display), HIDDEN);
    PartShows(style, display);
    TagShows(HREF + EscapedAttr(url) + (TARGET + REL + TRANSLATE));
    TagShows("/a");
    var opening := Markup(HREF + EscapedAttr(url) + (TARGET + REL + TRANSLATE));
    var middle := Part(style, display);
    assert Escaped("") == "";
    assert Visible(opening, false) == "" && Visible(middle, false) == Escaped(display) && Visible(Markup("/a"), false) == "";
    hide Clear, Inert, Visible, Displayed, Escaped, EscapedAttr, Markup, Plain, LinkParts, Shows;
    ClearConcat(Markup(style), Escaped(display), HIDDEN);
    ClearConcat(Markup(style) + Escaped(display), Markup("/span"), HIDDEN);
    HiddenIsLeftOut(opening, Escaped(prefix), middle + (Part(INVISIBLE, suffix) + Markup("/a")));
    HiddenIsLeftOut(middle, Escaped(suffix), Markup("/a"));
    NothingHidden(Markup("/a"));
    assert "" + (Escaped(display) + "") == Escaped(display);
  }
}
