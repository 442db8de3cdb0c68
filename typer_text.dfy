/**
 * The text transformations of the typing document (amphetype/typer.py):
 * how a lesson text becomes the match text (line endings turned into a
 * visible return glyph) and the display text (a line break after each glyph).
 */
module TyperText {

  /** `RETURN_CHAR`, the glyph that stands for a line ending. */
  const RETURN_CHAR: char := '\U{23CE}'

  /**
   * The text of a new document.  Written as a concatenation: the verifier
   * does not treat it as a literal, so proofs about an arbitrary lesson text
   * do not evaluate the sanitizing functions on this one.
   */
  const DEFAULT_TEXT: string := "default" + " text"

  /** `text or 'default text'`: an empty lesson text is replaced. */
  function EffectiveText(text: string): (t: string)
    ensures t != []
    ensures text == [] ==> t == DEFAULT_TEXT
    ensures text != [] ==> t == text
  {
    if text == [] then DEFAULT_TEXT else text
  }

  /** Python's `s.replace('\r\n', '\n')`: leftmost, non-overlapping. */
  function ReplaceCrLf(s: string): (r: string)
    ensures |r| <= |s|
  {
    if |s| >= 2 && s[0] == '\r' && s[1] == '\n' then "\n" + ReplaceCrLf(s[2..])
    else if s == [] then []
    else [s[0]] + ReplaceCrLf(s[1..])
  }

  /** Python's `s.replace(a, b)` for one character by one character. */
  function ReplaceChar(s: string, a: char, b: char): (r: string)
    ensures |r| == |s| && forall i :: 0 <= i < |s| ==> r[i] == if s[i] == a then b else s[i]
  {
    if s == [] then [] else [if s[0] == a then b else s[0]] + ReplaceChar(s[1..], a, b)
  }

  /** `LessonDocument.sanitize`, the three replacements in the source's order. */
  function Sanitize(s: string): (r: string)
    ensures '\r' !in r && '\n' !in r
    ensures |r| <= |s|
  {
    ReplaceChar(ReplaceChar(ReplaceCrLf(s), '\r', '\n'), '\n', RETURN_CHAR)
  }

  predicate IsLineBreak(c: char) {
    c == '\r' || c == '\n'
  }

  /**
   * Reference definition of sanitizing in one pass: a CR LF pair, a lone CR
   * and a lone LF each become one return glyph; every other character is
   * copied.
   */
  function OneGlyphPerLineEnd(s: string): string
  {
    if s == [] then []
    else if |s| >= 2 && s[0] == '\r' && s[1] == '\n' then [RETURN_CHAR] + OneGlyphPerLineEnd(s[2..])
    else if IsLineBreak(s[0]) then [RETURN_CHAR] + OneGlyphPerLineEnd(s[1..])
    else [s[0]] + OneGlyphPerLineEnd(s[1..])
  }

  /** The three chained replacements act like the one-pass reference. */
  lemma {:induction false} SanitizeIsOneGlyphPerLineEnd(s: string)
    ensures Sanitize(s) == OneGlyphPerLineEnd(s)
  {
    if s == [] {
    } else if |s| >= 2 && s[0] == '\r' && s[1] == '\n' {
      SanitizeIsOneGlyphPerLineEnd(s[2..]);
      var t := ReplaceCrLf(s[2..]);
      assert ReplaceCrLf(s) == "\n" + t;
      assert ReplaceChar("\n" + t, '\r', '\n') == "\n" + ReplaceChar(t, '\r', '\n');
      var u := ReplaceChar(t, '\r', '\n');
      assert ReplaceChar("\n" + u, '\n', RETURN_CHAR) == [RETURN_CHAR] + ReplaceChar(u, '\n', RETURN_CHAR);
    } else {
      SanitizeIsOneGlyphPerLineEnd(s[1..]);
      var t := ReplaceCrLf(s[1..]);
      assert ReplaceCrLf(s) == [s[0]] + t;
      var c1 := if s[0] == '\r' then '\n' else s[0];
      assert ReplaceChar([s[0]] + t, '\r', '\n') == [c1] + ReplaceChar(t, '\r', '\n');
      var u := ReplaceChar(t, '\r', '\n');
      var c2 := if c1 == '\n' then RETURN_CHAR else c1;
      assert ReplaceChar([c1] + u, '\n', RETURN_CHAR) == [c2] + ReplaceChar(u, '\n', RETURN_CHAR);
    }
  }

  /** The reference leaves no CR or LF, and its glyphs are the text's glyphs plus one per line ending. */
  lemma {:induction false} OneGlyphPerLineEndHasNoLineBreaks(s: string)
    ensures forall i :: 0 <= i < |OneGlyphPerLineEnd(s)| ==> !IsLineBreak(OneGlyphPerLineEnd(s)[i])
    ensures |OneGlyphPerLineEnd(s)| <= |s|
    ensures s != [] ==> OneGlyphPerLineEnd(s) != []
  {
    if s == [] {
    } else if |s| >= 2 && s[0] == '\r' && s[1] == '\n' {
      OneGlyphPerLineEndHasNoLineBreaks(s[2..]);
    } else {
      OneGlyphPerLineEndHasNoLineBreaks(s[1..]);
    }
  }

  /** The match text holds no CR or LF, and is empty only for an empty text. */
  lemma SanitizeHasNoLineBreaks(s: string)
    ensures '\r' !in Sanitize(s) && '\n' !in Sanitize(s)
    ensures |Sanitize(s)| <= |s|
    ensures s != [] ==> Sanitize(s) != []
  {
    SanitizeIsOneGlyphPerLineEnd(s);
    OneGlyphPerLineEndHasNoLineBreaks(s);
  }

  /** A text without CR and LF is its own match text. */
  lemma {:induction false} SanitizeKeepsPlainText(s: string)
    requires '\r' !in s && '\n' !in s
    ensures Sanitize(s) == s
  {
    SanitizeIsOneGlyphPerLineEnd(s);
    OneGlyphPerLineEndKeepsPlainText(s);
  }

  lemma {:induction false} OneGlyphPerLineEndKeepsPlainText(s: string)
    requires '\r' !in s && '\n' !in s
    ensures OneGlyphPerLineEnd(s) == s
  {
    if s != [] {
      assert s == [s[0]] + s[1..];
      OneGlyphPerLineEndKeepsPlainText(s[1..]);
    }
  }

  /** Python's `s.replace(RETURN_CHAR, RETURN_CHAR + '\n')`. */
  function Display(s: string): (d: string)
    ensures |d| == |s| + Count(s, RETURN_CHAR)
  {
    if s == [] then []
    else if s[0] == RETURN_CHAR then [RETURN_CHAR, '\n'] + Display(s[1..])
    else [s[0]] + Display(s[1..])
  }

  /** Inverse of `Display` on texts without LF: drop every LF. */
  function DropNewlines(s: string): string
  {
    if s == [] then [] else (if s[0] == '\n' then [] else [s[0]]) + DropNewlines(s[1..])
  }

  function Count(s: string, c: char): nat
  {
    if s == [] then 0 else (if s[0] == c then 1 else 0) + Count(s[1..], c)
  }

  /** Removing the line breaks from the display text gives the match text back. */
  lemma {:induction false} DropNewlinesOfDisplay(s: string)
    requires '\n' !in s
    ensures DropNewlines(Display(s)) == s
  {
    if s != [] {
      var h := if s[0] == RETURN_CHAR then [RETURN_CHAR, '\n'] else [s[0]];
      var rest := Display(s[1..]);
      assert Display(s) == h + rest;
      DropNewlinesOfDisplay(s[1..]);
      DropNewlinesAppend(h, rest);
      assert DropNewlines(h) == [s[0]];
      assert s == [s[0]] + s[1..];
    }
  }

  lemma {:induction false} DropNewlinesAppend(a: string, b: string)
    ensures DropNewlines(a + b) == DropNewlines(a) + DropNewlines(b)
  {
    if a != [] {
      assert (a + b)[0] == a[0] && (a + b)[1..] == a[1..] + b;
      DropNewlinesAppend(a[1..], b);
      var h := if a[0] == '\n' then [] else [a[0]];
      calc {
        DropNewlines(a + b);
        h + DropNewlines(a[1..] + b);
        h + (DropNewlines(a[1..]) + DropNewlines(b));
        (h + DropNewlines(a[1..])) + DropNewlines(b);
      }
    } else {
      assert a + b == b;
    }
  }

  /** In the display text, a line break stands exactly where a glyph precedes it. */
  lemma {:induction false} DisplayBreaksFollowGlyphs(s: string)
    requires '\n' !in s
    ensures forall i :: 0 <= i < |Display(s)| ==>
      (Display(s)[i] == '\n' <==> i > 0 && Display(s)[i - 1] == RETURN_CHAR)
  {
    if s != [] {
      DisplayBreaksFollowGlyphs(s[1..]);
      var d := Display(s[1..]);
      var h := if s[0] == RETURN_CHAR then [RETURN_CHAR, '\n'] else [s[0]];
      assert Display(s) == h + d;
      assert d != [] ==> d[0] != '\n';
      forall i | 0 <= i < |Display(s)|
        ensures Display(s)[i] == '\n' <==> i > 0 && Display(s)[i - 1] == RETURN_CHAR
      {
        if i >= |h| + 1 {
          assert Display(s)[i] == d[i - |h|] && Display(s)[i - 1] == d[i - |h| - 1];
        }
      }
    }
  }

  /** The match text of a lesson (`_match_text`). */
  function MatchText(text: string): (m: string)
    ensures m != [] && '\r' !in m && '\n' !in m
  {
    SanitizeHasNoLineBreaks(EffectiveText(text));
    Sanitize(EffectiveText(text))
  }

  /** The display text of a lesson (`_display_text`). */
  function DisplayText(text: string): (d: string)
    ensures d != []
    ensures DropNewlines(d) == MatchText(text)
  {
    DropNewlinesOfDisplay(MatchText(text));
    Display(MatchText(text))
  }
}
