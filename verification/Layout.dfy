/** How formatted text is laid out: which line breaks and paragraphs a reader sees. */
module Layout {
  import opened Wrappers
  import opened Text
  import opened Formatter
  import opened Rendering

  /** What a tag does to the layout: a line break, the end of a paragraph, or nothing. */
  function TagEffect(name: string): string {
    if name == "br /" then "\n" else if name == "/p" then "\n\n" else ""
  }

  /** The characters outside tags, with line breaks and ends of paragraphs as newlines; `tag` is the tag read so far. */
  function Screen(s: string, tag: Option<string>): string {
    if s == "" then ""
    else
      match tag
      case None => if s[0] == '<' then Screen(s[1..], Some("")) else [s[0]] + Screen(s[1..], None)
      case Some(name) =>
        if s[0] == '>' then TagEffect(name) + Screen(s[1..], None) else Screen(s[1..], Some(name + [s[0]]))
  }

  function TagAt(s: string, tag: Option<string>): Option<string> {
    if s == "" then tag
    else
      match tag
      case None => TagAt(s[1..], if s[0] == '<' then Some("") else None)
      case Some(name) => TagAt(s[1..], if s[0] == '>' then None else Some(name + [s[0]]))
  }

  lemma {:induction false} ScreenConcat(a: string, b: string, tag: Option<string>)
    ensures Screen(a + b, tag) == Screen(a, tag) + Screen(b, TagAt(a, tag))
    ensures TagAt(a + b, tag) == TagAt(b, TagAt(a, tag))
  {
    if a == "" {
      assert a + b == b;
    } else {
      hide TagEffect;
      assert (a + b)[1..] == a[1..] + b;
      match tag
      case None => ScreenConcat(a[1..], b, if a[0] == '<' then Some("") else None);
      case Some(name) => ScreenConcat(a[1..], b, if a[0] == '>' then None else Some(name + [a[0]]));
    }
  }

  /** Both ways of reading agree on what is inside a tag. */
  lemma {:induction false} SameTags(s: string, tag: Option<string>)
    ensures EndsInTag(s, tag.Some?) == TagAt(s, tag).Some?
  {
    if s != "" {
      match tag
      case None => SameTags(s[1..], if s[0] == '<' then Some("") else None);
      case Some(name) => SameTags(s[1..], if s[0] == '>' then None else Some(name + [s[0]]));
    }
  }

  lemma ScreenTag(name: string, html: string)
    requires '>' !in name && html == "<" + name + ">"
    ensures Screen(html, None) == TagEffect(name) && TagAt(html, None) == None
  {
    assert html[1..] == name + ">";
    InsideTag(name, "");
    ScreenConcat(name, ">", Some(""));
    assert "" + name == name;
    assert ">"[1..] == "";
  }

  lemma {:induction false} InsideTag(name: string, sofar: string)
    requires '>' !in name
    ensures Screen(name, Some(sofar)) == "" && TagAt(name, Some(sofar)) == Some(sofar + name)
  {
    if name == "" {
      assert sofar + "" == sofar;
    } else {
      InsideTag(name[1..], sofar + [name[0]]);
      assert sofar + name == sofar + [name[0]] + name[1..];
    }
  }

  lemma PlainTags(open: string, close: string, br: string)
    requires open == "<p>" && close == "</p>" && br == "<br />"
    ensures Screen(open, None) == "" && TagAt(open, None) == None
    ensures Screen(close, None) == "\n\n" && TagAt(close, None) == None
    ensures Screen(br, None) == "\n" && TagAt(br, None) == None
  {
    ScreenTag("p", open);
    ScreenTag("/p", close);
    ScreenTag("br /", br);
  }

  /** Replacing newlines by line breaks changes nothing on the screen, as long as none is inside a tag. */
  lemma {:induction false} BreaksKeepLines(p: string, tag: Option<string>)
    requires TagsUnbroken(p, tag.Some?)
    ensures Screen(WithBreaks(p), tag) == Screen(p, tag)
    ensures TagAt(WithBreaks(p), tag) == TagAt(p, tag)
  {
    if p != "" {
      var c, rest := p[0], p[1..];
      var next := match tag case None => if c == '<' then Some("") else None
                            case Some(name) => if c == '>' then None else Some(name + [c]);
      BreaksKeepLines(rest, next);
      if c == '\n' {
        var br := "<br />";
        PlainTags("<p>", "</p>", br);
        ScreenConcat(br, WithBreaks(rest), None);
      } else {
        assert ([c] + WithBreaks(rest))[1..] == WithBreaks(rest);
      }
    }
  }

  /** Paragraphs one after the other, each followed by an empty line. */
  function Paragraphed(parts: seq<string>): string {
    if parts == [] then "" else Screen(parts[0], None) + "\n\n" + Paragraphed(parts[1..])
  }

  lemma ParagraphLines(p: string)
    requires Whole(p)
    ensures Screen("<p>" + WithBreaks(p) + "</p>", None) == Screen(p, None) + "\n\n"
    ensures TagAt("<p>" + WithBreaks(p) + "</p>", None) == None
  {
    var open, close := "<p>", "</p>";
    PlainTags(open, close, "<br />");
    BreaksKeepLines(p, None);
    SameTags(p, None);
    ScreenConcat(open + WithBreaks(p), close, None);
    ScreenConcat(open, WithBreaks(p), None);
  }

  lemma {:induction false} WrappedLines(paragraphs: seq<string>)
    requires forall p :: p in paragraphs ==> Whole(p)
    ensures Screen(Wrapped(paragraphs), None) == Paragraphed(paragraphs)
  {
    if paragraphs != [] {
      hide Whole, Screen, TagAt, WithBreaks;
      var p := paragraphs[0];
      assert p in paragraphs;
      WrappedLines(paragraphs[1..]);
      ParagraphLines(p);
      ScreenConcat("<p>" + WithBreaks(p) + "</p>", Wrapped(paragraphs[1..]), None);
    } else {
      assert Screen("", None) == "";
    }
  }

  /**
    * Each non-empty part between empty lines becomes a paragraph, and each newline in it a line break; text without any
    * becomes one empty paragraph.
    */
  lemma {:induction false} LayoutIsKept(out: string)
    requires Whole(out)
    ensures JoinBlank(SplitBlank(out)) == out
    ensures NonEmpty(SplitBlank(out)) != [] ==> Screen(Paragraphs(out), None) == Paragraphed(NonEmpty(SplitBlank(out)))
    ensures NonEmpty(SplitBlank(out)) == [] ==> Paragraphs(out) == "<p></p>"
  {
    hide Screen, Whole, Visible;
    SplitIsExact(out);
    PartsAreWhole(SplitBlank(out));
    NonEmptyParts(SplitBlank(out));
    WrappedLines(NonEmpty(SplitBlank(out)));
  }

  /** In particular, single newlines survive as line breaks in text that is one paragraph and has no tags. */
  lemma {:induction false} LinesAreKept(text: string)
    requires text != "" && forall i: nat :: !OccursAt(Escaped(text), "\n\n", i)
    ensures Screen(Paragraphs(Escaped(text)), None) == Escaped(text) + "\n\n"
  {
    var out := Escaped(text);
    TextShows(text);
    EscapedNonEmpty(text);
    assert SplitBlank(out) == [out];
    assert NonEmpty([out]) == [out] by {
      assert [out][1..] == [];
    }
    LayoutIsKept(out);
    EscapedIsInert(text);
    ScreenInert(out);
    assert [out][1..] == [];
    assert Paragraphed([]) == "";
    assert Paragraphed([out]) == Screen(out, None) + "\n\n" + Paragraphed([out][1..]);
  }

  lemma EscapedNonEmpty(text: string)
    requires text != ""
    ensures Escaped(text) != ""
  {
    assert EscapeChar(text[|text| - 1]) != "";
  }

  lemma {:induction false} ScreenInert(s: string)
    requires Inert(s, false)
    ensures Screen(s, None) == s
  {
    if s != "" {
      assert s == [s[0]] + s[1..];
      ScreenInert(s[1..]);
    }
  }
}
