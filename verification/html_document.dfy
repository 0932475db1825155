/**
 * The child document that `pushState` generates (iframe-history.js:115):
 * a fixed head, the escaped title, and a script whose body (`postIt`, built
 * with `JSON.stringify`) is taken here as an opaque string.
 *
 * `TitleText` is the text after the first `<title>` of the document up to
 * the next `</title>`, found by exact substring search.
 */
module HtmlDocument {
  import opened Wrappers
  import opened HtmlEscape

  const TitleOpen: string := "<title>"
  const TitleClose: string := "</title>"

  /** Everything before the title text. */
  const DocumentHead: string := "<!DOCTYPE html><head>" + TitleOpen

  /** The document built for `title` around the script body `script`. */
  function Document(title: string, script: string): string {
    DocumentHead + EscapeHtml(title) + TitleClose + "<script>" + script
      + "</script></head><html><body></body></html>"
  }

  /** What follows the first occurrence of `marker` in `s`, if there is one. */
  function After(s: string, marker: string): Option<string>
    decreases |s|
  {
    if |s| < |marker| then None
    else if marker <= s then Some(s[|marker|..])
    else After(s[1..], marker)
  }

  /** The text of `s` before the first occurrence of `marker` (all of `s` if there is none). */
  function Before(s: string, marker: string): string
    decreases |s|
  {
    if s == [] || marker <= s then [] else [s[0]] + Before(s[1..], marker)
  }

  /** The text of the title element. */
  function TitleText(doc: string): Option<string> {
    match After(doc, TitleOpen)
    case None => None
    case Some(rest) => Some(Before(rest, TitleClose))
  }

  /** A prefix without `<` cannot hold a marker that starts with `<`. */
  lemma {:induction false} AfterSkipsPlainText(p: string, x: string, marker: string)
    requires |marker| > 0 && marker[0] == '<'
    requires '<' !in p
    ensures After(p + x, marker) == After(x, marker)
  {
    if p != [] {
      var s := p + x;
      assert s[0] == p[0] != '<';
      assert !(marker <= s);
      if |s| < |marker| {
        assert |x| < |marker|;
      } else {
        assert s[1..] == p[1..] + x;
        assert '<' !in p[1..];
        AfterSkipsPlainText(p[1..], x, marker);
      }
    } else {
      assert p + x == x;
    }
  }

  /** A text without `<` followed by a marker starting with `<` ends exactly at that marker. */
  lemma {:induction false} BeforePlainText(b: string, marker: string, rest: string)
    requires |marker| > 0 && marker[0] == '<'
    requires '<' !in b
    ensures Before(b + marker + rest, marker) == b
  {
    var s := b + marker + rest;
    if b == [] {
      assert s == marker + rest;
      assert marker <= s;
    } else {
      assert s[0] == b[0] != '<';
      assert !(marker <= s);
      assert s[1..] == b[1..] + marker + rest;
      assert '<' !in b[1..];
      BeforePlainText(b[1..], marker, rest);
    }
  }

  /** The first `<title>` of a document is the one in its fixed head. */
  lemma AfterHead(x: string)
    ensures After(DocumentHead + x, TitleOpen) == Some(x)
  {
    var bang: string := "!DOCTYPE html>";
    var head: string := "head>";
    var s := DocumentHead + x;
    assert s == "<" + (bang + ("<" + (head + (TitleOpen + x))));
    assert !(TitleOpen <= s) by { assert s[1] == '!'; }
    assert s[1..] == bang + ("<" + (head + (TitleOpen + x)));
    AfterSkipsPlainText(bang, "<" + (head + (TitleOpen + x)), TitleOpen);
    var t := "<" + (head + (TitleOpen + x));
    assert !(TitleOpen <= t) by { assert t[1] == 'h'; }
    assert t[1..] == head + (TitleOpen + x);
    AfterSkipsPlainText(head, TitleOpen + x, TitleOpen);
    assert TitleOpen <= TitleOpen + x;
    assert (TitleOpen + x)[|TitleOpen|..] == x;
  }

  /**
   * The title element of the generated document holds exactly the escaped
   * title: no `<` of the caller's title can end it early or open a tag.
   */
  lemma TitleTextOfDocument(title: string, script: string)
    ensures TitleText(Document(title, script)) == Some(EscapeHtml(title))
    ensures '<' !in EscapeHtml(title) && '>' !in EscapeHtml(title)
  {
    var e := EscapeHtml(title);
    var rest := "<script>" + script + "</script></head><html><body></body></html>";
    assert Document(title, script) == DocumentHead + (e + TitleClose + rest);
    AfterHead(e + TitleClose + rest);
    EscapeHtmlNoMarkup(title);
    BeforePlainText(e, TitleClose, rest);
  }

  /** Reading the title element back and decoding its entities gives the caller's title. */
  lemma TitleRecoverable(title: string, script: string)
    ensures TitleText(Document(title, script)).Some?
    ensures Unescape(TitleText(Document(title, script)).value) == title
  {
    TitleTextOfDocument(title, script);
    UnescapeEscapeHtml(title);
  }
}
