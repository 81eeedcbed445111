/** xml.sax.saxutils.escape with its default (empty) entity table: three
    successive str.replace calls, '&' first, then '>', then '<', as section
    2.4 of XML 1.0 asks of character data. */
module XmlEscape {
  import opened Wrappers

  /** s.replace(c, with) for a one-character pattern. */
  function ReplaceChar(s: string, c: char, with: string): string {
    if s == [] then [] else (if s[0] == c then with else [s[0]]) + ReplaceChar(s[1..], c, with)
  }

  /** escape(s) as written: replace '&', then '>', then '<'. */
  function Escape(s: string): string {
    ReplaceChar(ReplaceChar(ReplaceChar(s, '&', "&amp;"), '>', "&gt;"), '<', "&lt;")
  }

  /** The entity (or the character itself) that one character becomes. */
  function EscapeChar(c: char): string {
    if c == '&' then "&amp;" else if c == '>' then "&gt;" else if c == '<' then "&lt;" else [c]
  }

  /** The per-character reading of escaping: each character replaced on its own. */
  function EscapeEach(s: string): string {
    if s == [] then [] else EscapeChar(s[0]) + EscapeEach(s[1..])
  }

  /** Reads escaped text back: the three entities become their characters; a
      raw '<' or '>', or an '&' that starts none of the three entities, is not
      text that escaping can produce. */
  function Unescape(t: string): Option<string> {
    if t == [] then Some([])
    else if t[0] == '<' || t[0] == '>' then None
    else if t[0] != '&' then
      match Unescape(t[1..])
      case Some(rest) => Some([t[0]] + rest)
      case None => None
    else if |t| >= 5 && t[..5] == "&amp;" then
      match Unescape(t[5..])
      case Some(rest) => Some(['&'] + rest)
      case None => None
    else if |t| >= 4 && t[..4] == "&lt;" then
      match Unescape(t[4..])
      case Some(rest) => Some(['<'] + rest)
      case None => None
    else if |t| >= 4 && t[..4] == "&gt;" then
      match Unescape(t[4..])
      case Some(rest) => Some(['>'] + rest)
      case None => None
    else None
  }

  /** Escaped text: no raw '<' or '>', and every '&' begins one of the
      entities amp, lt, gt. (Which characters XML allows at all is not
      checked.) */
  predicate EscapedText(t: string) {
    Unescape(t).Some?
  }

  lemma {:induction false} ReplaceAppend(a: string, b: string, c: char, with: string)
    ensures ReplaceChar(a + b, c, with) == ReplaceChar(a, c, with) + ReplaceChar(b, c, with)
  {
    if a != [] {
      assert (a + b)[0] == a[0] && (a + b)[1..] == a[1..] + b;
      ReplaceAppend(a[1..], b, c, with);
    } else {
      assert a + b == b;
    }
  }

  lemma {:induction false} ReplaceAbsent(s: string, c: char, with: string)
    requires c !in s
    ensures ReplaceChar(s, c, with) == s
  {
    if s != [] {
      assert s == [s[0]] + s[1..];
      ReplaceAbsent(s[1..], c, with);
    }
  }

  lemma ReplaceSingle(d: char, c: char, with: string)
    ensures ReplaceChar([d], c, with) == if d == c then with else [d]
  {
    assert [d][0] == d && [d][1..] == [];
  }

  /** Escaping one character by the three replacements gives its entity. */
  lemma EscapeOne(c: char)
    ensures Escape([c]) == EscapeChar(c)
  {
    ReplaceSingle(c, '&', "&amp;");
    if c == '&' {
      ReplaceAbsent("&amp;", '>', "&gt;");
      ReplaceAbsent("&amp;", '<', "&lt;");
    } else {
      ReplaceSingle(c, '>', "&gt;");
      if c == '>' {
        ReplaceAbsent("&gt;", '<', "&lt;");
      } else {
        ReplaceSingle(c, '<', "&lt;");
      }
    }
  }

  /** Replacing '&' first makes the three sequential replacements act on each
      character independently: no entity inserted by one step is touched by a
      later one. */
  lemma {:induction false} EscapeIsPerCharacter(s: string)
    ensures Escape(s) == EscapeEach(s)
  {
    if s != [] {
      assert s == [s[0]] + s[1..];
      ReplaceAppend([s[0]], s[1..], '&', "&amp;");
      ReplaceAppend(ReplaceChar([s[0]], '&', "&amp;"), ReplaceChar(s[1..], '&', "&amp;"), '>', "&gt;");
      ReplaceAppend(ReplaceChar(ReplaceChar([s[0]], '&', "&amp;"), '>', "&gt;"),
                    ReplaceChar(ReplaceChar(s[1..], '&', "&amp;"), '>', "&gt;"), '<', "&lt;");
      EscapeOne(s[0]);
      EscapeIsPerCharacter(s[1..]);
    }
  }

  lemma {:induction false} UnescapeEach(s: string)
    ensures Unescape(EscapeEach(s)) == Some(s)
  {
    if s != [] {
      var c, rest := s[0], EscapeEach(s[1..]);
      var t := EscapeChar(c) + rest;
      UnescapeEach(s[1..]);
      assert s == [c] + s[1..];
      if c == '&' {
        assert t[..5] == "&amp;" && t[5..] == rest;
      } else if c == '<' {
        assert t[1] == 'l' && t[..4] == "&lt;" && t[4..] == rest;
      } else if c == '>' {
        assert t[1] == 'g' && t[..4] == "&gt;" && t[4..] == rest;
      } else {
        assert t[0] == c && t[1..] == rest;
      }
    }
  }

  /** Unescaping the escaped title gives back the title. */
  lemma UnescapeEscape(s: string)
    ensures Unescape(Escape(s)) == Some(s)
  {
    EscapeIsPerCharacter(s);
    UnescapeEach(s);
  }

  /** Escaped text holds no raw '<' or '>'. */
  lemma {:induction false} EscapedTextHasNoMarkup(t: string)
    requires EscapedText(t)
    ensures '<' !in t && '>' !in t
  {
    if t != [] {
      if t[0] != '&' {
        EscapedTextHasNoMarkup(t[1..]);
        assert t == [t[0]] + t[1..];
      } else if |t| >= 5 && t[..5] == "&amp;" {
        EscapedTextHasNoMarkup(t[5..]);
        assert t == t[..5] + t[5..];
      } else {
        EscapedTextHasNoMarkup(t[4..]);
        assert t == t[..4] + t[4..];
      }
    }
  }

  /** What escape() promises: the result is escaped text, with no raw '<'
      or '>' and every '&' the start of an entity. */
  lemma EscapeIsText(s: string)
    ensures EscapedText(Escape(s))
    ensures '<' !in Escape(s) && '>' !in Escape(s)
  {
    UnescapeEscape(s);
    EscapedTextHasNoMarkup(Escape(s));
  }

  /** Text free of the three special characters is left as it is. */
  lemma {:induction false} EscapePlainText(s: string)
    requires '&' !in s && '<' !in s && '>' !in s
    ensures Escape(s) == s
  {
    ReplaceAbsent(s, '&', "&amp;");
    ReplaceAbsent(s, '>', "&gt;");
    ReplaceAbsent(s, '<', "&lt;");
  }

  /** Text free of the three special characters is escaped text as it stands. */
  lemma {:induction false} PlainTextIsEscapedText(s: string)
    requires '&' !in s && '<' !in s && '>' !in s
    ensures Unescape(s) == Some(s)
  {
    if s != [] {
      assert s[1..] == s[1..] && s == [s[0]] + s[1..];
      PlainTextIsEscapedText(s[1..]);
    }
  }
}
