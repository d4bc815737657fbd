/** String operations the application relies on: JavaScript's
    `String.prototype.trim`, `split(",")` and the `escapeHtml` helper. */
module Text {

  /** ECMAScript WhiteSpace and LineTerminator code points: TAB, VT, FF, LF,
      CR, NBSP, ZWNBSP, LS, PS and the space separators (category Zs). */
  predicate IsWhitespace(c: char) {
    c in Whitespace
  }

  const Whitespace: set<char> := {
    '\t', '\n', '\U{000B}', '\U{000C}', '\r', ' ', '\U{00A0}', '\U{1680}',
    '\U{2000}', '\U{2001}', '\U{2002}', '\U{2003}', '\U{2004}', '\U{2005}',
    '\U{2006}', '\U{2007}', '\U{2008}', '\U{2009}', '\U{200A}',
    '\U{2028}', '\U{2029}', '\U{202F}', '\U{205F}', '\U{3000}', '\U{FEFF}'
  }

  predicate AllWhitespace(s: string) {
    forall i :: 0 <= i < |s| ==> IsWhitespace(s[i])
  }

  /** Drops leading whitespace. */
  function TrimStart(s: string): string {
    if |s| > 0 && IsWhitespace(s[0]) then TrimStart(s[1..]) else s
  }

  /** Drops trailing whitespace. */
  function TrimEnd(s: string): string {
    if |s| > 0 && IsWhitespace(s[|s| - 1]) then TrimEnd(s[..|s| - 1]) else s
  }

  /** `s.trim()`. */
  function Trim(s: string): string {
    TrimEnd(TrimStart(s))
  }

  /** `TrimStart` keeps a suffix, cuts only whitespace, and stops at the first
      other character. */
  lemma {:induction false} TrimStartCuts(s: string)
    ensures var r := TrimStart(s);
            && |r| <= |s| && r == s[|s| - |r|..]
            && AllWhitespace(s[..|s| - |r|])
            && (|r| > 0 ==> !IsWhitespace(r[0]))
  {
    if |s| > 0 && IsWhitespace(s[0]) {
      TrimStartCuts(s[1..]);
      var r := TrimStart(s[1..]);
      assert TrimStart(s) == r;
      var k := |s| - |r|;
      assert s[1..][k - 1..] == s[k..];
      forall i | 0 <= i < k ensures IsWhitespace(s[..k][i]) {
        if i > 0 {
          assert s[..k][i] == s[1..][..k - 1][i - 1];
        }
      }
    } else {
      assert s[..0] == [];
    }
  }

  /** `TrimEnd` keeps a prefix, cuts only whitespace, and stops at the last
      other character. */
  lemma {:induction false} TrimEndCuts(s: string)
    ensures var r := TrimEnd(s);
            && |r| <= |s| && r == s[..|r|]
            && AllWhitespace(s[|r|..])
            && (|r| > 0 ==> !IsWhitespace(r[|r| - 1]))
  {
    if |s| > 0 && IsWhitespace(s[|s| - 1]) {
      TrimEndCuts(s[..|s| - 1]);
      var r := TrimEnd(s[..|s| - 1]);
      assert TrimEnd(s) == r;
      assert s[..|s| - 1][..|r|] == s[..|r|];
      forall i | 0 <= i < |s| - |r| ensures IsWhitespace(s[|r|..][i]) {
        if i < |s| - 1 - |r| {
          assert s[|r|..][i] == s[..|s| - 1][|r|..][i];
        }
      }
    } else {
      assert s[|s|..] == [];
    }
  }

  /** The trimmed text is the longest infix of `s` that neither starts nor
      ends with whitespace: only whitespace is cut off on either side, and
      nothing is left exactly when `s` is all whitespace. */
  lemma TrimIsInfix(s: string)
    ensures exists i :: 0 <= i <= |s| - |Trim(s)| && Trim(s) == s[i..i + |Trim(s)|]
                        && AllWhitespace(s[..i]) && AllWhitespace(s[i + |Trim(s)|..])
    ensures |Trim(s)| > 0 ==> !IsWhitespace(Trim(s)[0]) && !IsWhitespace(Trim(s)[|Trim(s)| - 1])
    ensures |Trim(s)| == 0 <==> AllWhitespace(s)
  {
    var t := TrimStart(s);
    var r := TrimEnd(t);
    assert r == Trim(s);
    TrimStartCuts(s);
    TrimEndCuts(t);
    var i := |s| - |t|;
    assert t == s[i..];
    assert r == t[..|r|];
    assert r == s[i..i + |r|];
    assert s[i + |r|..] == t[|r|..];
    assert AllWhitespace(s[..i]) && AllWhitespace(s[i + |r|..]);
    if |r| > 0 {
      assert r[0] == t[0];
      assert r[0] == s[i];
      assert s[i] == s[i..][0];
      assert !AllWhitespace(s);
    } else {
      assert t[|r|..] == t;
      assert |t| == 0;
      assert s[..i] == s;
    }
  }

  /** Number of occurrences of `c` in `s`. */
  function Occurrences(s: string, c: char): nat {
    if |s| == 0 then 0 else (if s[0] == c then 1 else 0) + Occurrences(s[1..], c)
  }

  /** `parts.join(sep)`. */
  function Join(parts: seq<string>, sep: char): string {
    if |parts| == 0 then ""
    else if |parts| == 1 then parts[0]
    else parts[0] + [sep] + Join(parts[1..], sep)
  }

  /** `s.split(sep)` for a one-character separator: the pieces between
      separators, including empty ones, and at least one piece. */
  function Split(s: string, sep: char): (r: seq<string>)
    ensures |r| == Occurrences(s, sep) + 1
    ensures forall i :: 0 <= i < |r| ==> sep !in r[i]
    ensures Join(r, sep) == s
  {
    if |s| == 0 then [""]
    else
      var rest := Split(s[1..], sep);
      if s[0] == sep then
        assert s == [sep] + s[1..];
        [""] + rest
      else
        var r := [[s[0]] + rest[0]] + rest[1..];
        assert r[1..] == rest[1..];
        assert Join(r, sep) == s by {
          if |rest| > 1 {
            assert Join(rest, sep) == rest[0] + [sep] + Join(rest[1..], sep);
          }
          assert s == [s[0]] + s[1..];
        }
        r
  }

  lemma {:induction false} SplitWithoutSeparator(s: string, sep: char)
    requires sep !in s
    ensures Split(s, sep) == [s]
  {
    if |s| > 0 {
      SplitWithoutSeparator(s[1..], sep);
      assert [s[0]] + s[1..] == s;
    }
  }

  lemma {:induction false} SplitAfterPiece(p: string, sep: char, t: string)
    requires sep !in p
    ensures Split(p + [sep] + t, sep) == [p] + Split(t, sep)
  {
    if |p| == 0 {
      assert p + [sep] + t == [sep] + t;
      assert ([sep] + t)[1..] == t;
    } else {
      assert (p + [sep] + t)[1..] == p[1..] + [sep] + t;
      SplitAfterPiece(p[1..], sep, t);
      assert [p[0]] + p[1..] == p;
    }
  }

  /** Splitting undoes joining pieces that contain no separator. */
  lemma {:induction false} SplitJoin(parts: seq<string>, sep: char)
    requires |parts| >= 1
    requires forall i :: 0 <= i < |parts| ==> sep !in parts[i]
    ensures Split(Join(parts, sep), sep) == parts
  {
    if |parts| == 1 {
      SplitWithoutSeparator(parts[0], sep);
    } else {
      SplitJoin(parts[1..], sep);
      SplitAfterPiece(parts[0], sep, Join(parts[1..], sep));
      assert [parts[0]] + parts[1..] == parts;
    }
  }

  /** The five characters `escapeHtml` replaces. */
  predicate IsHtmlSpecial(c: char) {
    c == '&' || c == '<' || c == '>' || c == '"' || c == '\''
  }

  function EscapeChar(c: char): string {
    match c
    case '&' => "&amp;"
    case '<' => "&lt;"
    case '>' => "&gt;"
    case '"' => "&quot;"
    case '\'' => "&#39;"
    case _ => [c]
  }

  /** `escapeHtml(s)`: every special character becomes its entity. */
  function EscapeHtml(s: string): string {
    if |s| == 0 then "" else EscapeChar(s[0]) + EscapeHtml(s[1..])
  }

  /** The characters that would end an attribute value or start a tag. */
  predicate IsMarkup(c: char) {
    c == '<' || c == '>' || c == '"' || c == '\''
  }

  /** Escaped text holds no markup character. */
  lemma {:induction false} EscapeHtmlSafe(s: string)
    ensures forall i :: 0 <= i < |EscapeHtml(s)| ==> !IsMarkup(EscapeHtml(s)[i])
  {
    if |s| > 0 {
      EscapeHtmlSafe(s[1..]);
      var e, rest := EscapeChar(s[0]), EscapeHtml(s[1..]);
      assert forall i :: 0 <= i < |e| ==> !IsMarkup(e[i]);
      assert EscapeHtml(s) == e + rest;
      forall i | 0 <= i < |e + rest| ensures !IsMarkup((e + rest)[i]) {
        if i >= |e| {
          assert (e + rest)[i] == rest[i - |e|];
        }
      }
    }
  }

  /** Escaping never shortens the text, and text without any of the five
      special characters comes back unchanged. */
  lemma {:induction false} EscapeHtmlPlain(s: string)
    ensures |EscapeHtml(s)| >= |s|
    ensures (forall i :: 0 <= i < |s| ==> !IsHtmlSpecial(s[i])) ==> EscapeHtml(s) == s
  {
    if |s| > 0 {
      EscapeHtmlPlain(s[1..]);
      assert |EscapeChar(s[0])| >= 1;
      if forall i :: 0 <= i < |s| ==> !IsHtmlSpecial(s[i]) {
        assert forall i :: 0 <= i < |s[1..]| ==> s[1..][i] == s[i + 1];
        assert !IsHtmlSpecial(s[0]);
        assert EscapeChar(s[0]) == [s[0]];
        assert [s[0]] + s[1..] == s;
      }
    }
  }

  /** Escaping works character by character: ordinary characters keep their
      place and order between the entities. */
  lemma {:induction false} EscapeHtmlAppend(a: string, b: string)
    ensures EscapeHtml(a + b) == EscapeHtml(a) + EscapeHtml(b)
  {
    if |a| > 0 {
      assert (a + b)[1..] == a[1..] + b;
      EscapeHtmlAppend(a[1..], b);
    } else {
      assert a + b == b;
    }
  }

  predicate StartsWith(s: string, prefix: string) {
    |prefix| <= |s| && s[..|prefix|] == prefix
  }

  /** Decodes the five entities `escapeHtml` produces; any other text is kept. */
  function UnescapeHtml(s: string): string
    decreases |s|
  {
    if |s| == 0 then ""
    else if s[0] != '&' then [s[0]] + UnescapeHtml(s[1..])
    else if StartsWith(s, "&amp;") then "&" + UnescapeHtml(s[5..])
    else if StartsWith(s, "&lt;") then "<" + UnescapeHtml(s[4..])
    else if StartsWith(s, "&gt;") then ">" + UnescapeHtml(s[4..])
    else if StartsWith(s, "&quot;") then "\"" + UnescapeHtml(s[6..])
    else if StartsWith(s, "&#39;") then "'" + UnescapeHtml(s[5..])
    else "&" + UnescapeHtml(s[1..])
  }

  /** Escaping loses nothing: decoding the escaped text gives the input back. */
  lemma {:induction false} UnescapeEscape(s: string)
    ensures UnescapeHtml(EscapeHtml(s)) == s
  {
    if |s| > 0 {
      UnescapeEscape(s[1..]);
      var c, u := s[0], EscapeHtml(s[1..]);
      if c == '&' {
        UnescapeAmp(u);
      } else if c == '<' {
        UnescapeLt(u);
      } else if c == '>' {
        UnescapeGt(u);
      } else if c == '"' {
        UnescapeQuot(u);
      } else if c == '\'' {
        UnescapeApos(u);
      } else {
        assert (EscapeChar(c) + u)[1..] == u;
      }
      assert s == [c] + s[1..];
    }
  }

  lemma UnescapeAmp(u: string)
    ensures UnescapeHtml("&amp;" + u) == "&" + UnescapeHtml(u)
  {
    var t := "&amp;" + u;
    assert t[..5] == "&amp;" && t[5..] == u;
  }

  lemma UnescapeLt(u: string)
    ensures UnescapeHtml("&lt;" + u) == "<" + UnescapeHtml(u)
  {
    var t := "&lt;" + u;
    assert t[..4] == "&lt;" && t[4..] == u;
    assert !StartsWith(t, "&amp;") by { assert t[1] == 'l'; }
  }

  lemma UnescapeGt(u: string)
    ensures UnescapeHtml("&gt;" + u) == ">" + UnescapeHtml(u)
  {
    var t := "&gt;" + u;
    assert t[..4] == "&gt;" && t[4..] == u;
    assert !StartsWith(t, "&amp;") && !StartsWith(t, "&lt;") by { assert t[1] == 'g'; }
  }

  lemma UnescapeQuot(u: string)
    ensures UnescapeHtml("&quot;" + u) == "\"" + UnescapeHtml(u)
  {
    var t := "&quot;" + u;
    assert t[..6] == "&quot;" && t[6..] == u;
    assert !StartsWith(t, "&amp;") && !StartsWith(t, "&lt;") && !StartsWith(t, "&gt;")
      by { assert t[1] == 'q'; }
  }

  lemma UnescapeApos(u: string)
    ensures UnescapeHtml("&#39;" + u) == "'" + UnescapeHtml(u)
  {
    var t := "&#39;" + u;
    assert t[..5] == "&#39;" && t[5..] == u;
    assert !StartsWith(t, "&amp;") && !StartsWith(t, "&lt;") && !StartsWith(t, "&gt;")
           && !StartsWith(t, "&quot;")
      by { assert t[1] == '#'; }
  }
}
