/** `escapeCSSSelector` (bull.js): prepares a filter option's value for the
    attribute selector `input[value="…"]` that locates its checkbox. */
module CssEscape {
  import opened JsText

  datatype Option<T> = None | Some(value: T)

  /** `.replace(/"/g, '\\"')`. */
  function EscapeDoubleQuotes(s: string): string {
    if s == [] then [] else (if s[0] == '"' then ['\\', '"'] else [s[0]]) + EscapeDoubleQuotes(s[1..])
  }

  /** `.replace(/'/g, "\\'")`. */
  function EscapeSingleQuotes(s: string): string {
    if s == [] then [] else (if s[0] == '\'' then ['\\', '\''] else [s[0]]) + EscapeSingleQuotes(s[1..])
  }

  /** `.replace(/\s/g, '\\ ')`: each white-space character on its own becomes
      backslash-space. */
  function EscapeSpaces(s: string): string {
    if s == [] then [] else (if IsSpace(s[0]) then ['\\', ' '] else [s[0]]) + EscapeSpaces(s[1..])
  }

  /** `escapeCSSSelector`: the three rewrites, one after the other. */
  function EscapeCSSSelector(value: string): string {
    EscapeSpaces(EscapeSingleQuotes(EscapeDoubleQuotes(value)))
  }

  lemma {:induction false} EscapeDoubleQuotesAppend(a: string, b: string)
    ensures EscapeDoubleQuotes(a + b) == EscapeDoubleQuotes(a) + EscapeDoubleQuotes(b)
  {
    if a == [] {
      assert a + b == b;
    } else {
      assert (a + b)[0] == a[0] && (a + b)[1..] == a[1..] + b;
      EscapeDoubleQuotesAppend(a[1..], b);
    }
  }

  lemma {:induction false} EscapeSingleQuotesAppend(a: string, b: string)
    ensures EscapeSingleQuotes(a + b) == EscapeSingleQuotes(a) + EscapeSingleQuotes(b)
  {
    if a == [] {
      assert a + b == b;
    } else {
      assert (a + b)[0] == a[0] && (a + b)[1..] == a[1..] + b;
      EscapeSingleQuotesAppend(a[1..], b);
    }
  }

  lemma {:induction false} EscapeSpacesAppend(a: string, b: string)
    ensures EscapeSpaces(a + b) == EscapeSpaces(a) + EscapeSpaces(b)
  {
    if a == [] {
      assert a + b == b;
    } else {
      assert (a + b)[0] == a[0] && (a + b)[1..] == a[1..] + b;
      EscapeSpacesAppend(a[1..], b);
    }
  }

  /** A character that the selector escaping rewrites. */
  predicate IsSpecial(c: char) {
    c == '"' || c == '\'' || IsSpace(c)
  }

  /** Reference meaning of the escaping, one character at a time: a quote of
      either kind gets a backslash in front, any white space becomes
      backslash-space, every other character stays as it is. */
  function EscapeChar(c: char): (r: string)
    ensures |r| == if IsSpecial(c) then 2 else 1
  {
    if c == '"' || c == '\'' then ['\\', c]
    else if IsSpace(c) then ['\\', ' ']
    else [c]
  }

  function EscapeEach(s: string): string {
    if s == [] then [] else EscapeChar(s[0]) + EscapeEach(s[1..])
  }

  /** The three passes of `escapeCSSSelector` together escape each character
      independently: a later pass never rewrites what an earlier one produced. */
  lemma {:induction false} EscapeIsPerCharacter(s: string)
    ensures EscapeCSSSelector(s) == EscapeEach(s)
  {
    if s != [] {
      EscapeIsPerCharacter(s[1..]);
      var c := s[0];
      assert s == [c] + s[1..];
      EscapeDoubleQuotesAppend([c], s[1..]);
      var d := EscapeDoubleQuotes([c]);
      EscapeSingleQuotesAppend(d, EscapeDoubleQuotes(s[1..]));
      var e := EscapeSingleQuotes(d);
      EscapeSpacesAppend(e, EscapeSingleQuotes(EscapeDoubleQuotes(s[1..])));
      EscapeOneCharacter(c);
    }
  }

  /** The three passes on a single character. */
  lemma EscapeOneCharacter(c: char)
    ensures EscapeCSSSelector([c]) == EscapeChar(c)
  {
    var d := EscapeDoubleQuotes([c]);
    assert d == (if c == '"' then ['\\', '"'] else [c]) by {
      assert [c][0] == c && [c][1..] == [];
      assert EscapeDoubleQuotes([]) == [];
    }
    var e := EscapeSingleQuotes(d);
    assert e == (if c == '\'' then ['\\', '\''] else if c == '"' then ['\\', '"'] else [c]) by {
      if c == '"' {
        assert d == [d[0]] + [d[1]];
        EscapeSingleQuotesAppend([d[0]], [d[1]]);
        assert [d[0]][1..] == [] && [d[1]][1..] == [];
      } else {
        assert [c][1..] == [];
      }
    }
    assert EscapeSpaces(e) == EscapeChar(c) by {
      if |e| == 2 {
        assert e == [e[0]] + [e[1]];
        EscapeSpacesAppend([e[0]], [e[1]]);
        assert [e[0]][1..] == [] && [e[1]][1..] == [];
      } else {
        assert [c][1..] == [];
      }
    }
  }

  /** Number of characters of `s` that the escaping rewrites. */
  function SpecialCount(s: string): nat {
    if s == [] then 0 else (if IsSpecial(s[0]) then 1 else 0) + SpecialCount(s[1..])
  }

  /** The escaped value is one character longer per quote or white space. */
  lemma {:induction false} EscapeLength(s: string)
    ensures |EscapeCSSSelector(s)| == |s| + SpecialCount(s)
  {
    EscapeIsPerCharacter(s);
    EscapeEachLength(s);
  }

  lemma {:induction false} EscapeEachLength(s: string)
    ensures |EscapeEach(s)| == |s| + SpecialCount(s)
  {
    if s != [] {
      EscapeEachLength(s[1..]);
    }
  }

  /** Input preprocessing of CSS Syntax Level 3 (section 3.3): before any
      escape is read, U+0000 NULL becomes U+FFFD REPLACEMENT CHARACTER. */
  function Preprocessed(c: char): (r: char)
    ensures r != '\0'
    ensures c != '\0' ==> r == c
  {
    if c == '\0' then '\U{FFFD}' else c
  }

  /** The value that a CSS string reads back from escaped text: each
      character after preprocessing, where a backslash followed by a
      character stands for that character and a backslash with nothing after
      it is malformed. CSS reads a backslash before a hexadecimal digit or a
      newline differently. The corrected escaping never produces either, and
      neither does the as-written one on values without a backslash, so this
      reading is exact for those outputs. */
  function Unescape(s: string): (r: Option<string>)
    ensures r.Some? ==> '\0' !in r.value
  {
    if s == [] then Some([])
    else if s[0] == '\\' then
      if |s| == 1 then None
      else match Unescape(s[2..]) {
        case None => None
        case Some(t) => Some([Preprocessed(s[1])] + t)
      }
    else match Unescape(s[1..]) {
      case None => None
      case Some(t) => Some([Preprocessed(s[0])] + t)
    }
  }

  /** What a CSS reader recovers at best: white space comes back as a plain
      space, everything else as it was. */
  function BlankSpaces(s: string): (r: string)
    ensures |r| == |s|
    ensures forall i :: 0 <= i < |s| ==> r[i] == if IsSpace(s[i]) then ' ' else s[i]
  {
    if s == [] then [] else [if IsSpace(s[0]) then ' ' else s[0]] + BlankSpaces(s[1..])
  }

  /** Round trip of `escapeCSSSelector` for values without a backslash and
      without U+0000. */
  lemma {:induction false} EscapeRoundTrip(s: string)
    requires '\\' !in s && '\0' !in s
    ensures Unescape(EscapeCSSSelector(s)) == Some(BlankSpaces(s))
  {
    EscapeIsPerCharacter(s);
    EscapeEachRoundTrip(s);
  }

  lemma {:induction false} EscapeEachRoundTrip(s: string)
    requires '\\' !in s && '\0' !in s
    ensures Unescape(EscapeEach(s)) == Some(BlankSpaces(s))
  {
    if s != [] {
      EscapeEachRoundTrip(s[1..]);
      var e := EscapeChar(s[0]);
      var rest := EscapeEach(s[1..]);
      if |e| == 2 {
        assert (e + rest)[2..] == rest;
      } else {
        assert (e + rest)[1..] == rest;
      }
    }
  }

  /** A backslash in the value is passed through unescaped: the value `\`
      becomes the selector text `\`, whose backslash then escapes the
      closing quote of `[value="…"]`, so the checkbox is never found. */
  lemma BackslashBreaksRoundTrip()
    ensures EscapeCSSSelector("\\") == "\\"
    ensures Unescape(EscapeCSSSelector("\\")) == None
  {
    EscapeIsPerCharacter("\\");
    assert "\\"[1..] == [];
  }

  /** The escaping as intended: also a backslash gets a backslash in front. */
  function EscapeCSSSelectorFixed(value: string): string {
    if value == [] then []
    else
      var head := if value[0] == '\\' then ['\\', '\\'] else EscapeChar(value[0]);
      head + EscapeCSSSelectorFixed(value[1..])
  }

  /** Every value without U+0000, backslashes included, reads back from its
      corrected escaping. */
  lemma {:induction false} FixedRoundTrip(s: string)
    requires '\0' !in s
    ensures Unescape(EscapeCSSSelectorFixed(s)) == Some(BlankSpaces(s))
  {
    if s != [] {
      FixedRoundTrip(s[1..]);
      var e := if s[0] == '\\' then ['\\', '\\'] else EscapeChar(s[0]);
      var rest := EscapeCSSSelectorFixed(s[1..]);
      if |e| == 2 {
        assert (e + rest)[2..] == rest;
      } else {
        assert (e + rest)[1..] == rest;
      }
    }
  }

  /** The values the page holds, whose white space is plain spaces, read
      back exactly from their corrected escaping. */
  lemma ExactRoundTripForPlainSpaces(s: string)
    requires OnlyBlankSpaces(s) && '\0' !in s
    ensures Unescape(EscapeCSSSelectorFixed(s)) == Some(s)
  {
    FixedRoundTrip(s);
    assert BlankSpaces(s) == s;
  }

  /** Other white space does not read back as itself: a tab is escaped as
      backslash-space and so reads back as a plain space. */
  lemma TabReadsBackAsSpace()
    ensures Unescape(EscapeCSSSelectorFixed("a\tb")) == Some("a b")
    ensures Unescape(EscapeCSSSelectorFixed("a\tb")) != Some("a\tb")
  {
    FixedRoundTrip("a\tb");
    assert BlankSpaces("a\tb") == "a b";
  }

  /** A value holding U+0000 reads back from no selector text at all, since
      preprocessing has replaced that character before escapes are read: no
      escaping, corrected or not, lets its checkbox be found. */
  lemma NulNeverReadsBack(s: string, text: string)
    requires '\0' in s
    ensures Unescape(text) != Some(BlankSpaces(s))
  {
    var i :| 0 <= i < |s| && s[i] == '\0';
    assert BlankSpaces(s)[i] == '\0';
  }

  /** The correction changes nothing for values without a backslash. */
  lemma {:induction false} FixedAgreesWithoutBackslash(s: string)
    requires '\\' !in s
    ensures EscapeCSSSelectorFixed(s) == EscapeCSSSelector(s)
  {
    EscapeIsPerCharacter(s);
    FixedIsEach(s);
  }

  lemma {:induction false} FixedIsEach(s: string)
    requires '\\' !in s
    ensures EscapeCSSSelectorFixed(s) == EscapeEach(s)
  {
    if s != [] {
      FixedIsEach(s[1..]);
    }
  }
}
