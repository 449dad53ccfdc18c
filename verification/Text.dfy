/** Escaping text for HTML, and searching in it. */
module Text {
  import opened Wrappers

  function EscapeChar(c: char): string {
    match c
    case '&' => "&amp;"
    case '<' => "&lt;"
    case '>' => "&gt;"
    case _ => [c]
  }

  function Escaped(s: string): string {
    if s == "" then "" else Escaped(s[..|s| - 1]) + EscapeChar(s[|s| - 1])
  }

  /** `escape_text`. */
  method EscapeText(s: string) returns (out: string)
    ensures out == Escaped(s)
  {
    out := "";
    for i := 0 to |s|
      invariant out == Escaped(s[..i])
    {
      assert s[..i + 1][..i] == s[..i];
      match s[i] {
        case '&' => out := out + "&amp;";
        case '<' => out := out + "&lt;";
        case '>' => out := out + "&gt;";
        case c => out := out + [c];
      }
    }
    assert s[..|s|] == s;
  }

  function EscapeAttrChar(c: char): string {
    if c == '"' then "&quot;" else EscapeChar(c)
  }

  function EscapedAttr(s: string): string {
    if s == "" then "" else EscapedAttr(s[..|s| - 1]) + EscapeAttrChar(s[|s| - 1])
  }

  /** What a browser shows for the entities that escaping introduces. */
  function Decoded(s: string): string {
    if s == "" then ""
    else if |s| >= 5 && s[..5] == "&amp;" then "&" + Decoded(s[5..])
    else if |s| >= 4 && s[..4] == "&lt;" then "<" + Decoded(s[4..])
    else if |s| >= 4 && s[..4] == "&gt;" then ">" + Decoded(s[4..])
    else [s[0]] + Decoded(s[1..])
  }

  lemma {:induction false} EscapedConcat(a: string, b: string)
    ensures Escaped(a + b) == Escaped(a) + Escaped(b)
  {
    hide EscapeChar;
    if b == "" {
      assert a + b == a;
    } else {
      var n := |b| - 1;
      assert (a + b)[..|a + b| - 1] == a + b[..n];
      EscapedConcat(a, b[..n]);
    }
  }

  lemma DecodeFirst(c: char, rest: string)
    ensures Decoded(EscapeChar(c) + rest) == [c] + Decoded(rest)
  {
    var s := EscapeChar(c) + rest;
    match c {
      case '&' => assert s[..5] == "&amp;" && s[5..] == rest;
      case '<' =>
        assert s[..4] == "&lt;" && s[4..] == rest;
        assert |s| >= 5 ==> s[..5][1] == 'l';
      case '>' =>
        assert s[..4] == "&gt;" && s[4..] == rest;
        assert |s| >= 5 ==> s[..5][1] == 'g';
        assert s[..4][1] == 'g';
      case _ =>
        assert s[0] == c && s[1..] == rest;
        assert |s| >= 5 ==> s[..5][0] == c;
        assert |s| >= 4 ==> s[..4][0] == c;
    }
  }

  /** Decoding the entities gives back the text. */
  lemma {:induction false} DecodeEscaped(s: string)
    ensures Decoded(Escaped(s)) == s
  {
    if s != "" {
      assert s == s[..1] + s[1..];
      EscapedConcat(s[..1], s[1..]);
      assert s[..1][..0] == "";
      assert Escaped(s[..1]) == EscapeChar(s[0]);
      DecodeFirst(s[0], Escaped(s[1..]));
      DecodeEscaped(s[1..]);
    }
  }

  /** No character of `s` opens or closes a tag, or, if quotes matter, an attribute. */
  predicate Inert(s: string, quotes: bool) {
    forall i :: 0 <= i < |s| ==> s[i] != '<' && s[i] != '>' && (quotes ==> s[i] != '"')
  }

  lemma InertConcat(a: string, b: string, quotes: bool)
    requires Inert(a, quotes) && Inert(b, quotes)
    ensures Inert(a + b, quotes)
  {
  }

  lemma CharsAreInert(c: char)
    ensures Inert(EscapeChar(c), false) && Inert(EscapeAttrChar(c), true)
  {
  }

  /** Escaped text cannot open or close a tag, and an escaped attribute cannot end its quotes either. */
  lemma {:induction false} EscapedIsInert(s: string)
    ensures Inert(Escaped(s), false) && Inert(EscapedAttr(s), true)
  {
    if s != "" {
      hide Inert, EscapeChar, EscapeAttrChar;
      var n := |s| - 1;
      EscapedIsInert(s[..n]);
      CharsAreInert(s[n]);
      InertConcat(Escaped(s[..n]), EscapeChar(s[n]), false);
      InertConcat(EscapedAttr(s[..n]), EscapeAttrChar(s[n]), true);
    }
  }

  predicate OccursAt(text: string, needle: string, i: nat) {
    i + |needle| <= |text| && text[i..i + |needle|] == needle
  }

  /** `find` from a position on. */
  function Find(text: string, needle: string, from: nat): (i: Option<nat>)
    requires from <= |text|
    ensures i.Some? ==> from <= i.value && OccursAt(text, needle, i.value)
    ensures i.Some? ==> forall j :: from <= j < i.value ==> !OccursAt(text, needle, j)
    ensures i == None ==> forall j :: from <= j <= |text| ==> !OccursAt(text, needle, j)
    decreases |text| - from
  {
    if OccursAt(text, needle, from) then Some(from)
    else if from == |text| then None
    else Find(text, needle, from + 1)
  }

  /** The number of bytes of a character in UTF-8. */
  function Width(c: char): (w: nat)
    ensures 1 <= w <= 4
  {
    if c as int < 0x80 then 1 else if c as int < 0x800 then 2 else if c as int < 0x1_0000 then 3 else 4
  }

  function Bytes(s: string): (n: nat)
    ensures n >= |s|
  {
    if s == "" then 0 else Bytes(s[..|s| - 1]) + Width(s[|s| - 1])
  }

  /** The character boundary after the given number of bytes, if there is one. */
  function Boundary(s: string, offset: nat): (i: Option<nat>)
    ensures i.Some? ==> i.value <= |s| && Bytes(s[..i.value]) == offset
    ensures i == None ==> forall j :: 0 <= j <= |s| ==> Bytes(s[..j]) != offset
  {
    assert s[..|s|] == s;
    if Bytes(s) == offset then Some(|s|)
    else if s == "" then None
    else
      assert forall j :: 0 <= j < |s| ==> s[..|s| - 1][..j] == s[..j];
      Boundary(s[..|s| - 1], offset)
  }

  /** A character begins before the offset and ends behind it. */
  predicate Straddles(s: string, i: nat, offset: nat) {
    i < |s| && Bytes(s[..i]) < offset < Bytes(s[..i + 1])
  }

  /** An offset into a text is no character boundary exactly if some character straddles it. */
  lemma {:induction false} NoBoundaryIffStraddled(s: string, offset: nat)
    requires offset <= Bytes(s)
    ensures Boundary(s, offset) == None <==> exists i: nat :: Straddles(s, i, offset)
  {
    assert s[..|s|] == s;
    if Boundary(s, offset) == None {
      var i := FirstBeyond(s, offset, 0);
    } else {
      var j := Boundary(s, offset).value;
      forall i: nat
        ensures !Straddles(s, i, offset)
      {
        if i < |s| {
          BytesMonotone(s, if i < j then i + 1 else j, if i < j then j else i);
        }
      }
    }
  }

  lemma {:induction false} FirstBeyond(s: string, offset: nat, from: nat) returns (i: nat)
    requires from <= |s| && Bytes(s[..from]) < offset <= Bytes(s)
    requires Boundary(s, offset) == None
    ensures Straddles(s, i, offset)
    decreases |s| - from
  {
    assert s[..|s|] == s;
    if Bytes(s[..from + 1]) > offset {
      i := from;
    } else {
      i := FirstBeyond(s, offset, from + 1);
    }
  }

  lemma {:induction false} BytesMonotone(s: string, i: nat, j: nat)
    requires i <= j <= |s|
    ensures Bytes(s[..i]) <= Bytes(s[..j])
  {
    if i < j {
      BytesMonotone(s, i, j - 1);
      assert s[..j][..j - 1] == s[..j - 1];
    }
  }

  /** Text of one-byte characters has a boundary at every offset. */
  lemma {:induction false} AsciiBoundary(s: string, offset: nat)
    requires forall i :: 0 <= i < |s| ==> Width(s[i]) == 1
    requires offset <= Bytes(s)
    ensures Boundary(s, offset) == Some(offset)
  {
    AsciiBytes(s, |s|);
    assert s[..|s|] == s;
    AsciiBytes(s, offset);
    if Boundary(s, offset).Some? {
      AsciiBytes(s, Boundary(s, offset).value);
    }
  }

  lemma {:induction false} AsciiBytes(s: string, i: nat)
    requires i <= |s| && forall j :: 0 <= j < |s| ==> Width(s[j]) == 1
    ensures Bytes(s[..i]) == i
  {
    if i > 0 {
      AsciiBytes(s, i - 1);
      assert s[..i][..i - 1] == s[..i - 1];
    }
  }
}
