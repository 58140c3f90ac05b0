/** `cleanCSVField` (bull.js): the normalisation applied to every header and
    every field of the CSV, a chain of four rewrites. */
module CsvField {
  import opened JsText

  /** `.replace(/^"(.*)"$/, '$1')`: drops one pair of enclosing double quotes,
      provided the text between them holds no line terminator (which `.`
      would not match). */
  function StripEnclosingQuotes(s: string): (r: string)
    ensures r == s || (|s| >= 2 && s[0] == '"' && s[|s| - 1] == '"' && r == s[1..|s| - 1])
  {
    if |s| >= 2 && s[0] == '"' && s[|s| - 1] == '"'
       && forall i :: 1 <= i < |s| - 1 ==> !IsLineTerminator(s[i])
    then s[1..|s| - 1]
    else s
  }

  /** `.replace(/"/g, '')`: every double quote removed, everything else kept. */
  function RemoveQuotes(s: string): (r: string)
    ensures '"' !in r
    ensures |r| == |s| - Occurrences(s, '"')
  {
    if s == [] then []
    else
      OccurrencesFront(s, '"');
      (if s[0] == '"' then [] else [s[0]]) + RemoveQuotes(s[1..])
  }

  /** `RemoveQuotes` keeps every other character, as often as it occurs. */
  lemma {:induction false} RemoveQuotesKeepsOthers(s: string)
    ensures multiset(RemoveQuotes(s)) == multiset(s)['"' := 0]
  {
    if s != [] {
      RemoveQuotesKeepsOthers(s[1..]);
      assert s == [s[0]] + s[1..];
    }
  }

  lemma RemoveQuotesOne(c: char)
    ensures RemoveQuotes([c]) == if c == '"' then [] else [c]
  {
    assert [c][1..] == [];
  }

  lemma {:induction false} RemoveQuotesAppend(a: string, b: string)
    ensures RemoveQuotes(a + b) == RemoveQuotes(a) + RemoveQuotes(b)
  {
    if a == [] {
      assert a + b == b;
    } else {
      var kept := if a[0] == '"' then [] else [a[0]];
      assert (a + b)[0] == a[0] && (a + b)[1..] == a[1..] + b;
      RemoveQuotesAppend(a[1..], b);
      ConcatAssoc(kept, RemoveQuotes(a[1..]), RemoveQuotes(b));
    }
  }

  /** Text without double quotes is left alone by `RemoveQuotes`. */
  lemma {:induction false} RemoveQuotesNoop(s: string)
    requires '"' !in s
    ensures RemoveQuotes(s) == s
  {
    if s != [] {
      RemoveQuotesNoop(s[1..]);
      assert [s[0]] + s[1..] == s;
    }
  }

  /** The first rewrite is subsumed by the second: removing all quotes gives
      the same text whether or not an enclosing pair was stripped first. */
  lemma {:induction false} StripThenRemoveQuotes(s: string)
    ensures RemoveQuotes(StripEnclosingQuotes(s)) == RemoveQuotes(s)
  {
    var t := StripEnclosingQuotes(s);
    if t != s {
      assert s == [s[0]] + t + [s[|s| - 1]];
      RemoveQuotesAppend([s[0]] + t, [s[|s| - 1]]);
      RemoveQuotesAppend([s[0]], t);
      RemoveQuotesOne(s[0]);
      RemoveQuotesOne(s[|s| - 1]);
    }
  }

  /** `.replace(/\s+/g, ' ')`: every maximal run of white space becomes one
      plain space. */
  function CollapseSpaces(s: string): (r: string)
    ensures NoAdjacentSpaces(r) && OnlyBlankSpaces(r)
    ensures r == [] <==> s == []
    ensures s != [] && !IsSpace(s[0]) ==> r[0] == s[0]
    ensures NonSpaces(r) == NonSpaces(s)
    ensures '"' in r ==> '"' in s
    decreases |s|
  {
    if s == [] then []
    else if IsSpace(s[0]) then
      var t := TrimStart(s);
      assert |t| < |s|;
      [' '] + CollapseSpaces(t)
    else [s[0]] + CollapseSpaces(s[1..])
  }

  /** Text whose white space is already single plain spaces is left alone. */
  lemma {:induction false} CollapseNoop(s: string)
    requires NoAdjacentSpaces(s) && OnlyBlankSpaces(s)
    ensures CollapseSpaces(s) == s
    decreases |s|
  {
    if s != [] {
      CollapseNoop(s[1..]);
      if IsSpace(s[0]) {
        assert s[1..] == [] || !IsSpace(s[1..][0]) by {
          if |s| > 1 { assert !IsSpace(s[1]); }
        }
        assert TrimStart(s) == s[1..];
      }
      assert [s[0]] + s[1..] == s;
    }
  }

  /** Dropping the leading white space keeps the words. */
  lemma {:induction false} WordsTrimStart(s: string)
    ensures Words(TrimStart(s)) == Words(s)
  {
    if s != [] && IsSpace(s[0]) {
      WordsTrimStart(s[1..]);
    }
  }

  /** A word followed by nothing or by white space is the leading word. */
  lemma {:induction false} LeadingWordAppend(w: string, y: string)
    requires forall i :: 0 <= i < |w| ==> !IsSpace(w[i])
    requires y == [] || IsSpace(y[0])
    ensures LeadingWord(w + y) == w
  {
    if w == [] {
      assert w + y == y;
    } else {
      assert (w + y)[0] == w[0] && (w + y)[1..] == w[1..] + y;
      LeadingWordAppend(w[1..], y);
      assert [w[0]] + w[1..] == w;
    }
  }

  /** The leading word goes through the third rewrite unchanged. */
  lemma {:induction false} CollapseWord(s: string)
    ensures var w := LeadingWord(s); CollapseSpaces(s) == w + CollapseSpaces(s[|w|..])
  {
    if s != [] && !IsSpace(s[0]) {
      var w := LeadingWord(s[1..]);
      var c := CollapseSpaces(s[1..][|w|..]);
      CollapseWord(s[1..]);
      assert CollapseSpaces(s) == [s[0]] + (w + c);
      assert LeadingWord(s) == [s[0]] + w;
      assert s[1..][|w|..] == s[|w| + 1..];
      ConcatAssoc([s[0]], w, c);
    } else {
      assert LeadingWord(s) == [];
      assert s[0..] == s;
      assert [] + CollapseSpaces(s) == CollapseSpaces(s);
    }
  }

  /** The third rewrite keeps the words: it only changes the white space
      between them. */
  lemma {:induction false} CollapseKeepsWords(s: string)
    ensures Words(CollapseSpaces(s)) == Words(s)
    decreases |s|
  {
    if s == [] {
    } else if IsSpace(s[0]) {
      var t := TrimStart(s);
      WordsSkipSpace(CollapseSpaces(t));
      WordsTrimStart(s[1..]);
      CollapseKeepsWords(t);
    } else {
      var w := LeadingWord(s);
      var rest := s[|w|..];
      CollapseWord(s);
      assert rest != [] ==> CollapseSpaces(rest)[0] == ' ';
      WordThenSpace(w, CollapseSpaces(rest));
      CollapseKeepsWords(rest);
    }
  }

  /** The third rewrite starts and ends with white space exactly when its
      input does: a leading or trailing run becomes one space, not nothing. */
  lemma {:induction false} CollapseEnds(s: string)
    requires s != []
    ensures var r := CollapseSpaces(s);
      (IsSpace(r[0]) <==> IsSpace(s[0])) && (IsSpace(r[|r| - 1]) <==> IsSpace(s[|s| - 1]))
    decreases |s|
  {
    if IsSpace(s[0]) {
      var t := TrimStart(s);
      if t != [] {
        CollapseEnds(t);
        assert t[|t| - 1] == s[|s| - 1];
      } else {
        assert IsSpace(s[|s| - 1]);
      }
    } else if |s| > 1 {
      CollapseEnds(s[1..]);
    }
  }

  lemma WordsSkipSpace(x: string)
    ensures Words([' '] + x) == Words(x)
  {
    assert ([' '] + x)[1..] == x;
  }

  /** A word followed by nothing or by white space is the first word. */
  lemma WordThenSpace(w: string, c: string)
    requires w != [] && forall i :: 0 <= i < |w| ==> !IsSpace(w[i])
    requires c == [] || IsSpace(c[0])
    ensures Words(w + c) == [w] + Words(c)
  {
    LeadingWordAppend(w, c);
    assert (w + c)[0] == w[0];
    assert (w + c)[|w|..] == c;
  }

  /** Trimming drops the white space after a text that ends in a word. */
  lemma {:induction false} TrimEndAppend(p: string, c: string)
    requires TrimEnd(c) != []
    ensures TrimEnd(p + c) == p + TrimEnd(c)
    decreases |c|
  {
    if IsSpace(c[|c| - 1]) {
      assert (p + c)[..|p + c| - 1] == p + c[..|c| - 1];
      TrimEndAppend(p, c[..|c| - 1]);
    }
  }

  /** A text without words is all white space. */
  lemma {:induction false} NoWordsTrimsToEmpty(s: string)
    requires Words(s) == []
    ensures TrimStart(s) == []
  {
    WordsTrimStart(s);
  }

  /** The third rewrite followed by `trim` joins the words with single plain
      spaces. */
  lemma {:induction false} TrimCollapseIsJoin(s: string)
    ensures Trim(CollapseSpaces(s)) == JoinWords(Words(s))
    decreases |s|
  {
    if s == [] {
    } else if IsSpace(s[0]) {
      var t := TrimStart(s);
      TrimSkipsSpace(CollapseSpaces(t));
      WordsTrimStart(s[1..]);
      TrimCollapseIsJoin(t);
    } else {
      var w := LeadingWord(s);
      var rest := s[|w|..];
      CollapseWord(s);
      assert Words(s) == [w] + Words(rest);
      if Words(rest) == [] {
        NoWordsTrimsToEmpty(rest);
        TrimLoneWord(w, CollapseSpaces(rest));
      } else {
        var r2 := TrimStart(rest);
        WordsTrimStart(rest);
        var c2 := CollapseSpaces(r2);
        assert CollapseSpaces(rest) == [' '] + c2;
        TrimCollapseIsJoin(r2);
        TrimWordThenText(w, c2);
        JoinWordsCons(w, Words(rest));
      }
    }
  }

  lemma TrimSkipsSpace(x: string)
    ensures Trim([' '] + x) == Trim(x)
  {
    assert ([' '] + x)[1..] == x;
  }

  lemma TrimLoneWord(w: string, c: string)
    requires w != [] && forall i :: 0 <= i < |w| ==> !IsSpace(w[i])
    requires c == [] || c == [' ']
    ensures Trim(w + c) == w
  {
    assert TrimStart(w + c) == w + c by { assert (w + c)[0] == w[0]; }
    assert TrimEnd(w) == w by { assert !IsSpace(w[|w| - 1]); }
    if c != [] {
      assert (w + c)[..|w|] == w;
    } else {
      assert w + c == w;
    }
  }

  lemma TrimWordThenText(w: string, c: string)
    requires w != [] && !IsSpace(w[0]) && !IsSpace(w[|w| - 1])
    requires c != [] && !IsSpace(c[0])
    ensures Trim(w + ([' '] + c)) == w + [' '] + Trim(c)
  {
    ConcatAssoc(w, [' '], c);
    assert (w + [' '] + c)[0] == w[0];
    assert TrimStart(c) == c;
    TrimEndAppend(w + [' '], c);
  }

  lemma JoinWordsCons(w: string, ws: seq<string>)
    requires ws != []
    ensures JoinWords([w] + ws) == w + [' '] + JoinWords(ws)
  {
    assert ([w] + ws)[1..] == ws;
  }

  /** Text in the shape `cleanCSVField` produces, ends aside: no double
      quote, and its white space is single plain spaces. */
  ghost predicate Tidy(s: string) {
    '"' !in s && NoAdjacentSpaces(s) && OnlyBlankSpaces(s)
  }

  /** Dropping a prefix keeps text tidy. */
  lemma DropKeepsTidy(s: string, k: nat)
    requires k <= |s| && Tidy(s)
    ensures Tidy(s[k..])
  {
    var r := s[k..];
    forall i | 0 <= i < |r| - 1 ensures !IsSpace(r[i]) || !IsSpace(r[i + 1]) {
      assert r[i] == s[k + i] && r[i + 1] == s[k + i + 1];
    }
  }

  /** Keeping a prefix keeps text tidy. */
  lemma TakeKeepsTidy(s: string, n: nat)
    requires n <= |s| && Tidy(s)
    ensures Tidy(s[..n])
  {
    var r := s[..n];
    forall i | 0 <= i < |r| - 1 ensures !IsSpace(r[i]) || !IsSpace(r[i + 1]) {
      assert r[i] == s[i] && r[i + 1] == s[i + 1];
    }
  }

  /** `cleanCSVField`: quotes removed, white space collapsed and trimmed. */
  function CleanCSVField(field: string): (r: string)
    ensures r == JoinWords(Words(RemoveQuotes(field)))
    ensures '"' !in r
    ensures r == [] || (!IsSpace(r[0]) && !IsSpace(r[|r| - 1]))
    ensures NoAdjacentSpaces(r) && OnlyBlankSpaces(r)
    ensures NonSpaces(r) == NonSpaces(RemoveQuotes(field))
  {
    var unquoted := RemoveQuotes(StripEnclosingQuotes(field));
    StripThenRemoveQuotes(field);
    TrimCollapsedShape(unquoted);
    TrimCollapsedContent(unquoted);
    TrimCollapseIsJoin(unquoted);
    Trim(CollapseSpaces(unquoted))
  }

  lemma {:induction false} TrimCollapsedShape(s: string)
    requires '"' !in s
    ensures Tidy(Trim(CollapseSpaces(s)))
  {
    TrimKeepsTidy(CollapseSpaces(s));
  }

  /** Trimming only cuts off a prefix and a suffix, so it keeps text tidy. */
  lemma TrimKeepsTidy(c: string)
    requires Tidy(c)
    ensures Tidy(Trim(c))
  {
    var t := TrimStart(c);
    DropKeepsTidy(c, |c| - |t|);
    TakeKeepsTidy(t, |TrimEnd(t)|);
  }

  lemma {:induction false} TrimCollapsedContent(s: string)
    ensures NonSpaces(Trim(CollapseSpaces(s))) == NonSpaces(s)
  {
    TrimKeepsNonSpaces(CollapseSpaces(s));
  }

  /** Cleaning a cleaned field changes nothing. */
  lemma {:induction false} CleanIdempotent(field: string)
    ensures CleanCSVField(CleanCSVField(field)) == CleanCSVField(field)
  {
    var r := CleanCSVField(field);
    assert StripEnclosingQuotes(r) == r;
    RemoveQuotesNoop(r);
    CollapseNoop(r);
    TrimNoop(r);
  }

  /** `fields.map(cleanCSVField)`. */
  function CleanAll(fields: seq<string>): (r: seq<string>)
    ensures |r| == |fields|
    ensures forall i :: 0 <= i < |r| ==> r[i] == CleanCSVField(fields[i])
  {
    seq(|fields|, i requires 0 <= i < |fields| => CleanCSVField(fields[i]))
  }

  lemma CleanAllSnoc(fields: seq<string>, last: string)
    ensures CleanAll(fields + [last]) == CleanAll(fields) + [CleanCSVField(last)]
  {
  }
}
