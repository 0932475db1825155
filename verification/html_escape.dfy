/**
 * The title escaper of iframe-history.js (`escapeHtml`).
 *
 * The source applies five global single-character replacements one after
 * another, `&` first.  This module defines the escaper as one per-character
 * map (`EscapeHtml`), defines the five chained replacements literally
 * (`ChainedReplace`) and proves the two equal, together with the guarantees a
 * caller relies on: no raw markup character survives, characters other than
 * the five are copied unchanged and in order, and the entities can be decoded
 * back to the original title.
 */
module HtmlEscape {

  /** The five characters the escaper rewrites. */
  predicate IsSpecial(c: char) {
    c == '&' || c == '<' || c == '>' || c == '"' || c == '\''
  }

  /** The entity that replaces one character (the character itself if it is not special). */
  function EscapeChar(c: char): (r: string)
    ensures IsSpecial(c) ==> |r| > 1 && r[0] == '&'
    ensures !IsSpecial(c) ==> r == [c]
  {
    if c == '&' then "&amp;"
    else if c == '<' then "&lt;"
    else if c == '>' then "&gt;"
    else if c == '"' then "&quot;"
    else if c == '\'' then "&#039;"
    else [c]
  }

  /** The escaper as a single left-to-right per-character map. */
  function EscapeHtml(s: string): string {
    if s == [] then [] else EscapeChar(s[0]) + EscapeHtml(s[1..])
  }

  /** `s.replace(/c/g, rep)` for a single-character pattern and a replacement without `$`. */
  function ReplaceAll(s: string, c: char, rep: string): string {
    if s == [] then []
    else (if s[0] == c then rep else [s[0]]) + ReplaceAll(s[1..], c, rep)
  }

  /** The escaper exactly as the source writes it: five replacements, `&` first. */
  function ChainedReplace(s: string): string {
    var amp := ReplaceAll(s, '&', "&amp;");
    var lt := ReplaceAll(amp, '<', "&lt;");
    var gt := ReplaceAll(lt, '>', "&gt;");
    var quot := ReplaceAll(gt, '"', "&quot;");
    ReplaceAll(quot, '\'', "&#039;")
  }

  /** The same five replacements with `&` moved last, to show why the order matters. */
  function ChainedReplaceAmpLast(s: string): string {
    var lt := ReplaceAll(s, '<', "&lt;");
    var gt := ReplaceAll(lt, '>', "&gt;");
    var quot := ReplaceAll(gt, '"', "&quot;");
    var apos := ReplaceAll(quot, '\'', "&#039;");
    ReplaceAll(apos, '&', "&amp;")
  }

  /** Decodes the five entities the escaper produces; every other character is copied. */
  function Unescape(s: string): string
    decreases |s|
  {
    if s == [] then []
    else if "&amp;" <= s then ['&'] + Unescape(s[5..])
    else if "&lt;" <= s then ['<'] + Unescape(s[4..])
    else if "&gt;" <= s then ['>'] + Unescape(s[4..])
    else if "&quot;" <= s then ['"'] + Unescape(s[6..])
    else if "&#039;" <= s then ['\''] + Unescape(s[6..])
    else [s[0]] + Unescape(s[1..])
  }

  lemma {:induction false} ReplaceAllConcat(a: string, b: string, c: char, rep: string)
    ensures ReplaceAll(a + b, c, rep) == ReplaceAll(a, c, rep) + ReplaceAll(b, c, rep)
  {
    if a == [] {
      assert a + b == b;
    } else {
      assert (a + b)[0] == a[0];
      assert (a + b)[1..] == a[1..] + b;
      ReplaceAllConcat(a[1..], b, c, rep);
    }
  }

  /** A replacement whose pattern does not occur leaves the string unchanged. */
  lemma {:induction false} ReplaceAllAbsent(s: string, c: char, rep: string)
    requires c !in s
    ensures ReplaceAll(s, c, rep) == s
  {
    if s != [] {
      assert s[0] != c;
      assert c !in s[1..];
      ReplaceAllAbsent(s[1..], c, rep);
    }
  }

  /** The five chained replacements distribute over concatenation. */
  lemma ChainedReplaceConcat(a: string, b: string)
    ensures ChainedReplace(a + b) == ChainedReplace(a) + ChainedReplace(b)
  {
    ReplaceAllConcat(a, b, '&', "&amp;");
    var a1, b1 := ReplaceAll(a, '&', "&amp;"), ReplaceAll(b, '&', "&amp;");
    ReplaceAllConcat(a1, b1, '<', "&lt;");
    var a2, b2 := ReplaceAll(a1, '<', "&lt;"), ReplaceAll(b1, '<', "&lt;");
    ReplaceAllConcat(a2, b2, '>', "&gt;");
    var a3, b3 := ReplaceAll(a2, '>', "&gt;"), ReplaceAll(b2, '>', "&gt;");
    ReplaceAllConcat(a3, b3, '"', "&quot;");
    var a4, b4 := ReplaceAll(a3, '"', "&quot;"), ReplaceAll(b3, '"', "&quot;");
    ReplaceAllConcat(a4, b4, '\'', "&#039;");
  }

  /** A replacement applied to a single character. */
  lemma ReplaceAllSingle(c: char, d: char, rep: string)
    ensures ReplaceAll([c], d, rep) == if c == d then rep else [c]
  {
    assert [c][1..] == [];
  }

  /** On one character the chain yields that character's entity: no introduced `&` is escaped again. */
  lemma ChainedReplaceChar(c: char)
    ensures ChainedReplace([c]) == EscapeChar(c)
  {
    ReplaceAllSingle(c, '&', "&amp;");
    var amp := ReplaceAll([c], '&', "&amp;");
    if c == '&' {
      var e: string := "&amp;";
      assert amp == e;
      assert '<' !in e && '>' !in e && '"' !in e && '\'' !in e;
      ReplaceAllAbsent(e, '<', "&lt;");
      assert ReplaceAll(e, '<', "&lt;") == e;
      ReplaceAllAbsent(e, '>', "&gt;");
      assert ReplaceAll(e, '>', "&gt;") == e;
      ReplaceAllAbsent(e, '"', "&quot;");
      assert ReplaceAll(e, '"', "&quot;") == e;
      ReplaceAllAbsent(e, '\'', "&#039;");
      assert ReplaceAll(e, '\'', "&#039;") == e;
    } else {
      ReplaceAllSingle(c, '<', "&lt;");
      var lt := ReplaceAll(amp, '<', "&lt;");
      if c == '<' {
        ReplaceAllAbsent(lt, '>', "&gt;");
        ReplaceAllAbsent(lt, '"', "&quot;");
        ReplaceAllAbsent(lt, '\'', "&#039;");
      } else {
        ReplaceAllSingle(c, '>', "&gt;");
        var gt := ReplaceAll(lt, '>', "&gt;");
        if c == '>' {
          ReplaceAllAbsent(gt, '"', "&quot;");
          ReplaceAllAbsent(gt, '\'', "&#039;");
        } else {
          ReplaceAllSingle(c, '"', "&quot;");
          var quot := ReplaceAll(gt, '"', "&quot;");
          if c == '"' {
            ReplaceAllAbsent(quot, '\'', "&#039;");
          } else {
            ReplaceAllSingle(c, '\'', "&#039;");
          }
        }
      }
    }
  }

  /** The per-character map is exactly the source's chain of five replacements. */
  lemma {:induction false} EscapeHtmlIsChainedReplace(s: string)
    ensures EscapeHtml(s) == ChainedReplace(s)
  {
    if s == [] {
      assert ReplaceAll([], '&', "&amp;") == [];
    } else {
      assert s == [s[0]] + s[1..];
      ChainedReplaceConcat([s[0]], s[1..]);
      ChainedReplaceChar(s[0]);
      EscapeHtmlIsChainedReplace(s[1..]);
    }
  }

  /** Escaping distributes over concatenation: it is a per-character map. */
  lemma {:induction false} EscapeHtmlConcat(a: string, b: string)
    ensures EscapeHtml(a + b) == EscapeHtml(a) + EscapeHtml(b)
  {
    if a == [] {
      assert a + b == b;
    } else {
      assert (a + b)[0] == a[0];
      assert (a + b)[1..] == a[1..] + b;
      EscapeHtmlConcat(a[1..], b);
    }
  }

  /** No raw `<`, `>`, `"` or `'` survives escaping. */
  lemma {:induction false} EscapeHtmlNoMarkup(s: string)
    ensures '<' !in EscapeHtml(s) && '>' !in EscapeHtml(s)
    ensures '"' !in EscapeHtml(s) && '\'' !in EscapeHtml(s)
  {
    if s != [] {
      EscapeHtmlNoMarkup(s[1..]);
      var e := EscapeChar(s[0]);
      assert '<' !in e && '>' !in e && '"' !in e && '\'' !in e;
    }
  }

  /** A title containing none of the five characters is returned unchanged. */
  lemma {:induction false} EscapeHtmlIdentity(s: string)
    requires forall i | 0 <= i < |s| :: !IsSpecial(s[i])
    ensures EscapeHtml(s) == s
  {
    if s != [] {
      assert !IsSpecial(s[0]);
      EscapeHtmlIdentity(s[1..]);
    }
  }

  /** Decoding one escaped character and the rest yields that character followed by the decoded rest. */
  lemma UnescapeEscapeChar(c: char, rest: string)
    ensures Unescape(EscapeChar(c) + rest) == [c] + Unescape(rest)
  {
    var s := EscapeChar(c) + rest;
    if c == '&' {
      assert "&amp;" <= s;
      assert s[5..] == rest;
    } else if c == '<' {
      assert s[1] == 'l';
      assert "&lt;" <= s;
      assert s[4..] == rest;
    } else if c == '>' {
      assert s[1] == 'g';
      assert "&gt;" <= s;
      assert s[4..] == rest;
    } else if c == '"' {
      assert s[1] == 'q';
      assert "&quot;" <= s;
      assert s[6..] == rest;
    } else if c == '\'' {
      assert s[1] == '#';
      assert "&#039;" <= s;
      assert s[6..] == rest;
    } else {
      assert s[0] == c;
      assert s[1..] == rest;
    }
  }

  /** Escaping loses nothing: decoding the entities recovers the original title. */
  lemma {:induction false} UnescapeEscapeHtml(s: string)
    ensures Unescape(EscapeHtml(s)) == s
  {
    if s != [] {
      UnescapeEscapeChar(s[0], EscapeHtml(s[1..]));
      UnescapeEscapeHtml(s[1..]);
    }
  }

  /** Hence two different titles never escape to the same text. */
  lemma EscapeHtmlInjective(a: string, b: string)
    requires EscapeHtml(a) == EscapeHtml(b)
    ensures a == b
  {
    UnescapeEscapeHtml(a);
    UnescapeEscapeHtml(b);
  }

  /** With `&` replaced last, the entity introduced for `<` would be escaped a second time. */
  lemma AmpLastDoubleEscapes()
    ensures ChainedReplaceAmpLast("<") == "&amp;lt;"
  {
    var lt: string := "&lt;";
    assert "<" == ['<'];
    ReplaceAllSingle('<', '<', lt);
    assert ReplaceAll("<", '<', lt) == lt;
    AmpLastTail(lt);
  }

  // AmpLastTail and DoubleEscapeLt take the entity `&lt;` as a parameter
  // rather than as a local literal: with the literal in scope the solver
  // keeps unfolding ReplaceAll on constant strings and runs out of resource.

  /** The last four replacements of the reordered chain, applied to the entity of `<`. */
  lemma AmpLastTail(lt: string)
    requires lt == "&lt;"
    ensures ReplaceAll(ReplaceAll(ReplaceAll(ReplaceAll(lt, '>', "&gt;"), '"', "&quot;"), '\'', "&#039;"), '&', "&amp;") == "&amp;lt;"
  {
    assert '>' !in lt && '"' !in lt && '\'' !in lt;
    ReplaceAllAbsent(lt, '>', "&gt;");
    var gt := ReplaceAll(lt, '>', "&gt;");
    assert gt == lt;
    ReplaceAllAbsent(gt, '"', "&quot;");
    var quot := ReplaceAll(gt, '"', "&quot;");
    assert quot == lt;
    ReplaceAllAbsent(quot, '\'', "&#039;");
    var apos := ReplaceAll(quot, '\'', "&#039;");
    assert apos == lt;
    DoubleEscapeLt(lt);
  }

  /** Replacing `&` in the entity of `<` escapes that entity a second time. */
  lemma DoubleEscapeLt(lt: string)
    requires lt == "&lt;"
    ensures ReplaceAll(lt, '&', "&amp;") == "&amp;lt;"
  {
    var tail: string := "lt;";
    assert lt == ['&'] + tail;
    ReplaceAllConcat(['&'], tail, '&', "&amp;");
    ReplaceAllSingle('&', '&', "&amp;");
    assert '&' !in tail;
    ReplaceAllAbsent(tail, '&', "&amp;");
    assert "&amp;" + tail == "&amp;lt;";
  }
}
