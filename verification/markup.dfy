/**
 * `html.escape(s)` with its default `quote=True`: the five characters that are
 * special in XML markup are replaced by the predefined entities of section 2.4
 * of XML 1.0 (the apostrophe by the character reference `&#x27;`).
 */
module Markup {
  import opened Strings

  /** The replacement text of one character. */
  function EscapeChar(c: char): (r: string)
    ensures |r| >= 1
  {
    match c
    case '&' => "&amp;"
    case '<' => "&lt;"
    case '>' => "&gt;"
    case '"' => "&quot;"
    case '\'' => "&#x27;"
    case _ => [c]
  }

  /** `html.escape(s)`: every character replaced by its escape, left to right. */
  function Escape(s: string): string
    decreases |s|
  {
    if s == [] then "" else EscapeChar(s[0]) + Escape(s[1..])
  }

  /** Characters that never appear unescaped in an attribute value or element body. */
  predicate IsMarkupSpecial(c: char) {
    c == '<' || c == '>' || c == '"' || c == '\''
  }

  /** One of the five entities `Escape` writes begins at position `k` of `t`. */
  predicate EntityAt(t: string, k: nat) {
    OccursAt(t, "&amp;", k) || OccursAt(t, "&lt;", k) || OccursAt(t, "&gt;", k)
    || OccursAt(t, "&quot;", k) || OccursAt(t, "&#x27;", k)
  }

  /**
   * The character that the text at the start of `s` stands for, with the number
   * of characters it takes: one of the five entities, or else the first character.
   */
  function Decode(s: string): (d: (char, nat))
    requires s != []
    ensures 1 <= d.1 <= |s|
  {
    if |s| >= 5 && s[0] == '&' && s[1] == 'a' && s[2] == 'm' && s[3] == 'p' && s[4] == ';' then ('&', 5)
    else if |s| >= 4 && s[0] == '&' && s[1] == 'l' && s[2] == 't' && s[3] == ';' then ('<', 4)
    else if |s| >= 4 && s[0] == '&' && s[1] == 'g' && s[2] == 't' && s[3] == ';' then ('>', 4)
    else if |s| >= 6 && s[0] == '&' && s[1] == 'q' && s[2] == 'u' && s[3] == 'o' && s[4] == 't' && s[5] == ';' then ('"', 6)
    else if |s| >= 6 && s[0] == '&' && s[1] == '#' && s[2] == 'x' && s[3] == '2' && s[4] == '7' && s[5] == ';' then ('\'', 6)
    else (s[0], 1)
  }

  /** Decodes the five entities `Escape` produces; any other text is kept as it is. */
  function Unescape(s: string): string
    decreases |s|
  {
    if s == [] then "" else var d := Decode(s); [d.0] + Unescape(s[d.1..])
  }

  /** Escaping distributes over concatenation. */
  lemma {:induction false} EscapeAppend(a: string, b: string)
    ensures Escape(a + b) == Escape(a) + Escape(b)
    decreases |a|
  {
    if a != [] {
      assert (a + b)[1..] == a[1..] + b;
      EscapeAppend(a[1..], b);
    } else {
      assert a + b == b;
    }
  }

  lemma UnescapeEscapeChar(c: char, rest: string)
    ensures Unescape(EscapeChar(c) + rest) == [c] + Unescape(rest)
  {
    var e := EscapeChar(c) + rest;
    var n := |EscapeChar(c)|;
    assert e[n..] == rest;
    assert forall k :: 0 <= k < n ==> e[k] == EscapeChar(c)[k];
    assert Decode(e) == (c, n);
  }

  /** Escaping loses nothing: `Unescape` recovers the original text. */
  lemma {:induction false} UnescapeEscape(s: string)
    ensures Unescape(Escape(s)) == s
    decreases |s|
  {
    if s != [] {
      UnescapeEscapeChar(s[0], Escape(s[1..]));
      UnescapeEscape(s[1..]);
      assert [s[0]] + s[1..] == s;
    }
  }

  /** Every `&` of `t` begins one of the five entities. */
  predicate AmpersandsAreEntities(t: string) {
    forall k :: 0 <= k < |t| && t[k] == '&' ==> EntityAt(t, k)
  }

  /**
   * No markup-special character survives escaping, every `&` of the escaped
   * text begins one of the five entities, and escaping never shortens the text.
   */
  lemma {:induction false} EscapeIsSafe(s: string)
    ensures forall k :: 0 <= k < |Escape(s)| ==> !IsMarkupSpecial(Escape(s)[k])
    ensures forall k :: 0 <= k < |Escape(s)| && Escape(s)[k] == '&' ==> EntityAt(Escape(s), k)
    ensures |Escape(s)| >= |s|
    decreases |s|
  {
    if s != [] {
      EscapeIsSafe(s[1..]);
      var e := EscapeChar(s[0]);
      assert forall k :: 0 <= k < |e| ==> !IsMarkupSpecial(e[k]);
      var r := Escape(s);
      forall k | 0 <= k < |r| ensures !IsMarkupSpecial(r[k]) {
        if k >= |e| { assert r[k] == Escape(s[1..])[k - |e|]; }
      }
      EntitiesStep(s[0], Escape(s[1..]));
    }
  }

  /** Putting an escaped character in front keeps every `&` at the start of an entity. */
  lemma EntitiesStep(c: char, rest: string)
    requires AmpersandsAreEntities(rest)
    ensures AmpersandsAreEntities(EscapeChar(c) + rest)
  {
    var e := EscapeChar(c);
    var r := e + rest;
    forall k | 0 <= k < |r| && r[k] == '&' ensures EntityAt(r, k) {
      if k < |e| {
        assert k == 0 && r[..|e|] == e;
      } else {
        assert r[k] == rest[k - |e|];
        EntityAfter(e, rest, k - |e|);
      }
    }
  }

  /** An entity of `b` is still one after anything is put in front of it. */
  lemma EntityAfter(a: string, b: string, k: nat)
    requires EntityAt(b, k)
    ensures EntityAt(a + b, |a| + k)
  {
    OccursAfter(a, b, "&amp;", k);
    OccursAfter(a, b, "&lt;", k);
    OccursAfter(a, b, "&gt;", k);
    OccursAfter(a, b, "&quot;", k);
    OccursAfter(a, b, "&#x27;", k);
  }

  /** Escaping keeps the line structure: line `i` of the escaped text is the escaped line `i`. */
  lemma {:induction false} EscapeKeepsLines(s: string)
    ensures |SplitLines(Escape(s))| == |SplitLines(s)|
    ensures forall i :: 0 <= i < |SplitLines(s)| ==> SplitLines(Escape(s))[i] == Escape(SplitLines(s)[i])
    decreases |s|
  {
    if s == [] {
      assert SplitLines(s) == [""];
    } else {
      EscapeKeepsLines(s[1..]);
      if s[0] == '\n' {
        NewlineLinesEscaped(s);
      } else {
        FirstLineEscaped(s);
      }
    }
  }

  /** Line `i` of the escaped text is the escaped line `i`, and there are as many lines. */
  predicate LinesEscaped(s: string) {
    && |SplitLines(Escape(s))| == |SplitLines(s)|
    && forall i :: 0 <= i < |SplitLines(s)| ==> SplitLines(Escape(s))[i] == Escape(SplitLines(s)[i])
  }

  /** A leading newline is kept by escaping and starts a new line on both sides. */
  lemma NewlineLinesEscaped(s: string)
    requires s != [] && s[0] == '\n' && LinesEscaped(s[1..])
    ensures LinesEscaped(s)
  {
    var tail := s[1..];
    var lt := SplitLines(tail);
    var et := SplitLines(Escape(tail));
    assert s[..1] == "\n";
    assert SplitLines(s) == [""] + lt;
    var e := Escape(s);
    assert e == "\n" + Escape(tail);
    assert e[..1] == "\n" && e[1..] == Escape(tail);
    assert SplitLines(e) == [""] + et;
  }

  /** Any other leading character, escaped, joins the first line on both sides. */
  lemma FirstLineEscaped(s: string)
    requires s != [] && s[0] != '\n' && LinesEscaped(s[1..])
    ensures LinesEscaped(s)
  {
    var tail := s[1..];
    var lt := SplitLines(tail);
    var et := SplitLines(Escape(tail));
    var c := EscapeChar(s[0]);
    assert forall k :: 0 <= k < |c| ==> c[k] != '\n';
    assert s[..1] != "\n" by { assert s[..1][0] == s[0]; }
    assert SplitLines(s) == [[s[0]] + lt[0]] + lt[1..];
    SplitLinesPrefix(c, Escape(tail));
    assert SplitLines(Escape(s)) == [c + et[0]] + et[1..];
    EscapeAppend([s[0]], lt[0]);
    assert Escape([s[0]]) == c;
    forall i | 0 <= i < |SplitLines(s)| ensures SplitLines(Escape(s))[i] == Escape(SplitLines(s)[i]) {
      if i > 0 {
        assert SplitLines(Escape(s))[i] == et[i];
        assert SplitLines(s)[i] == lt[i];
      }
    }
  }
}
