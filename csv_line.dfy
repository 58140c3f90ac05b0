/** `parseCSVLine` (bull.js): splits one data line of the CSV on the commas
    that stand outside double quotes. */
module CsvLine {
  import opened JsText
  import opened CsvField

  /** After reading `s`, the scanner is inside quotes: each double quote
      toggles the flag, which starts out false. */
  predicate InsideQuotes(s: string) {
    if s == [] then false
    else if s[|s| - 1] == '"' then !InsideQuotes(s[..|s| - 1])
    else InsideQuotes(s[..|s| - 1])
  }

  /** The scanner is inside quotes exactly when it has met an odd number of
      double quotes. */
  lemma {:induction false} InsideQuotesParity(s: string)
    ensures InsideQuotes(s) <==> Occurrences(s, '"') % 2 == 1
  {
    if s != [] {
      InsideQuotesParity(s[..|s| - 1]);
    }
  }

  /** Number of commas met outside quotes, i.e. of field separators. */
  function SeparatorCount(line: string): nat {
    if line == [] then 0
    else
      var prefix := line[..|line| - 1];
      SeparatorCount(prefix) + (if line[|line| - 1] == ',' && !InsideQuotes(prefix) then 1 else 0)
  }

  /** Number of commas met inside quotes. */
  function QuotedCommaCount(line: string): nat {
    if line == [] then 0
    else
      var prefix := line[..|line| - 1];
      QuotedCommaCount(prefix) + (if line[|line| - 1] == ',' && InsideQuotes(prefix) then 1 else 0)
  }

  /** The fields of `line` before cleaning, read one character at a time: a
      double quote toggles the quoting and is dropped, a comma outside quotes
      starts a new field, any other character (a comma inside quotes
      included) goes to the end of the current field. */
  function RawFields(line: string): (r: seq<string>)
    ensures |r| >= 1
    ensures forall i :: 0 <= i < |r| ==> '"' !in r[i]
  {
    if line == [] then [[]]
    else
      var prefix, c := line[..|line| - 1], line[|line| - 1];
      var fs := RawFields(prefix);
      if c == '"' then fs
      else if c == ',' && !InsideQuotes(prefix) then fs + [[]]
      else fs[..|fs| - 1] + [fs[|fs| - 1] + [c]]
  }

  /** The fields `parseCSVLine` returns: the raw fields, each cleaned. */
  function ParsedLine(line: string): seq<string> {
    CleanAll(RawFields(line))
  }

  /** A line has exactly one field more than it has commas outside quotes. */
  lemma {:induction false} FieldCount(line: string)
    ensures |RawFields(line)| == SeparatorCount(line) + 1
    decreases |line|
  {
    if line != [] {
      FieldCount(line[..|line| - 1]);
    }
  }

  /** Every comma of a line is either a separator or a quoted comma. */
  lemma {:induction false} CommasSplitUp(line: string)
    ensures Occurrences(line, ',') == SeparatorCount(line) + QuotedCommaCount(line)
    decreases |line|
  {
    if line != [] {
      CommasSplitUp(line[..|line| - 1]);
    }
  }

  /** Number of commas inside the fields, summed over the fields. */
  function FieldCommas(fs: seq<string>): nat {
    if fs == [] then 0 else FieldCommas(fs[..|fs| - 1]) + Occurrences(fs[|fs| - 1], ',')
  }

  /** Commas met inside quotes are kept in the fields, and they are the only
      commas the fields contain. */
  lemma {:induction false} QuotedCommasStayInFields(line: string)
    ensures FieldCommas(RawFields(line)) == QuotedCommaCount(line)
    decreases |line|
  {
    if line != [] {
      var prefix, c := line[..|line| - 1], line[|line| - 1];
      var fs := RawFields(prefix);
      QuotedCommasStayInFields(prefix);
      if c != '"' && !(c == ',' && !InsideQuotes(prefix)) {
        var r := fs[..|fs| - 1] + [fs[|fs| - 1] + [c]];
        assert r[..|r| - 1] == fs[..|fs| - 1];
        assert (fs[|fs| - 1] + [c])[..|fs[|fs| - 1]|] == fs[|fs| - 1];
        assert fs == fs[..|fs| - 1] + [fs[|fs| - 1]];
      } else if c == ',' {
        var r := fs + [[]];
        assert r[..|r| - 1] == fs;
      }
    }
  }

  /** Joining the fields with commas gives back the line without its double
      quotes: the scanner drops quotes and nothing else. */
  lemma {:induction false} FieldsJoinToUnquotedLine(line: string)
    ensures Join(RawFields(line), ',') == RemoveQuotes(line)
    decreases |line|
  {
    if line != [] {
      var prefix, c := line[..|line| - 1], line[|line| - 1];
      var fs := RawFields(prefix);
      FieldsJoinToUnquotedLine(prefix);
      assert line == prefix + [c];
      RemoveQuotesAppend(prefix, [c]);
      RemoveQuotesOne(c);
      if c == '"' {
        assert RemoveQuotes(line) == RemoveQuotes(prefix) + [];
      } else if c == ',' && !InsideQuotes(prefix) {
        JoinSnoc(fs, [], ',');
        assert RemoveQuotes(line) == RemoveQuotes(prefix) + [','];
      } else {
        JoinExtendLast(fs, c, ',');
        assert RemoveQuotes(line) == RemoveQuotes(prefix) + [c];
      }
    }
  }

  lemma {:induction false} JoinSnoc(fs: seq<string>, x: string, sep: char)
    requires |fs| >= 1
    ensures Join(fs + [x], sep) == Join(fs, sep) + [sep] + x
  {
    if |fs| > 1 {
      assert (fs + [x])[1..] == fs[1..] + [x];
      JoinSnoc(fs[1..], x, sep);
    }
  }

  lemma {:induction false} JoinExtendLast(fs: seq<string>, c: char, sep: char)
    requires |fs| >= 1
    ensures Join(fs[..|fs| - 1] + [fs[|fs| - 1] + [c]], sep) == Join(fs, sep) + [c]
  {
    if |fs| > 1 {
      var r := fs[..|fs| - 1] + [fs[|fs| - 1] + [c]];
      assert r[1..] == fs[1..][..|fs| - 2] + [fs[1..][|fs| - 2] + [c]];
      JoinExtendLast(fs[1..], c, sep);
    }
  }

  /** On a line without double quotes every comma separates: the scanner
      agrees with a plain `split(",")`. */
  lemma {:induction false} UnquotedLineSplitsOnEveryComma(line: string)
    requires '"' !in line
    ensures RawFields(line) == Split(line, ',')
  {
    var fs := RawFields(line);
    FieldsJoinToUnquotedLine(line);
    RemoveQuotesNoop(line);
    assert forall i :: 0 <= i < |fs| ==> ',' !in fs[i] by {
      forall i | 0 <= i < |fs| ensures ',' !in fs[i] {
        NoQuotesNoQuotedCommas(line, i);
      }
    }
    SplitJoin(fs, ',');
  }

  /** Without double quotes nothing is ever inside quotes, so no field holds a
      comma. */
  lemma {:induction false} NoQuotesNoQuotedCommas(line: string, i: nat)
    requires '"' !in line && i < |RawFields(line)|
    ensures ',' !in RawFields(line)[i]
    decreases |line|
  {
    if line != [] {
      var prefix, c := line[..|line| - 1], line[|line| - 1];
      assert '"' !in prefix by { assert forall k :: 0 <= k < |prefix| ==> prefix[k] == line[k]; }
      NeverInsideQuotes(prefix);
      var fs := RawFields(prefix);
      if i < |fs| - 1 || (c == ',' && i < |fs|) {
        NoQuotesNoQuotedCommas(prefix, i);
        assert RawFields(line)[i] == fs[i];
      } else if i == |fs| - 1 {
        NoQuotesNoQuotedCommas(prefix, i);
      }
    }
  }

  lemma {:induction false} NeverInsideQuotes(s: string)
    requires '"' !in s
    ensures !InsideQuotes(s)
    decreases |s|
  {
    if s != [] {
      assert '"' !in s[..|s| - 1] by { assert forall k :: 0 <= k < |s| - 1 ==> s[..|s| - 1][k] == s[k]; }
      NeverInsideQuotes(s[..|s| - 1]);
    }
  }

  /** The fields `fs` with `text` appended to the last one. */
  function ExtendLast(fs: seq<string>, text: string): seq<string>
    requires |fs| >= 1
  {
    fs[..|fs| - 1] + [fs[|fs| - 1] + text]
  }

  lemma ExtendSnoc(done: seq<string>, current: string, text: string)
    ensures ExtendLast(done + [current], text) == done + [current + text]
  {
    assert (done + [current])[..|done|] == done;
  }

  /** Inside quotes, text without a double quote goes whole into the current
      field: its commas do not split it. */
  lemma {:induction false} QuotedTextStaysInField(line: string, i: nat, j: nat)
    requires i <= j <= |line|
    requires InsideQuotes(line[..i])
    requires forall k :: i <= k < j ==> line[k] != '"'
    ensures InsideQuotes(line[..j])
    ensures RawFields(line[..j]) == ExtendLast(RawFields(line[..i]), line[i..j])
    decreases j - i
  {
    if j == i {
      assert line[i..j] == [];
      ExtendEmpty(RawFields(line[..i]));
    } else {
      QuotedTextStaysInField(line, i, j - 1);
      QuotedStep(line, i, j - 1);
    }
  }

  /** One more character, not a double quote, read inside quotes. */
  lemma QuotedStep(line: string, i: nat, j: nat)
    requires i <= j < |line| && line[j] != '"'
    requires InsideQuotes(line[..j])
    requires RawFields(line[..j]) == ExtendLast(RawFields(line[..i]), line[i..j])
    ensures InsideQuotes(line[..j + 1])
    ensures RawFields(line[..j + 1]) == ExtendLast(RawFields(line[..i]), line[i..j + 1])
  {
    PrefixStep(line, j);
    assert line[i..j + 1] == line[i..j] + [line[j]];
    ExtendTwice(RawFields(line[..i]), line[i..j], [line[j]], RawFields(line[..j]), RawFields(line[..j + 1]));
  }

  lemma ExtendEmpty(fs: seq<string>)
    requires |fs| >= 1
    ensures ExtendLast(fs, []) == fs
  {
    assert fs[|fs| - 1] + [] == fs[|fs| - 1];
  }

  lemma ExtendTwice(fs: seq<string>, a: string, b: string, gs: seq<string>, hs: seq<string>)
    requires |fs| >= 1 && gs == ExtendLast(fs, a) && hs == ExtendLast(gs, b)
    ensures hs == ExtendLast(fs, a + b)
  {
    assert gs[..|gs| - 1] == fs[..|fs| - 1];
    ConcatAssoc(fs[|fs| - 1], a, b);
    assert gs[|gs| - 1] + b == fs[|fs| - 1] + (a + b);
  }

  /** A quoted stretch, opened and closed outside quotes, is appended to the
      current field with its quotes dropped and its commas kept. */
  lemma QuotedFieldKeepsComma(line: string, i: nat, j: nat)
    requires i < j < |line| && line[i] == '"' && line[j] == '"'
    requires !InsideQuotes(line[..i])
    requires forall k :: i < k < j ==> line[k] != '"'
    ensures !InsideQuotes(line[..j + 1])
    ensures RawFields(line[..j + 1]) == ExtendLast(RawFields(line[..i]), line[i + 1..j])
  {
    PrefixStep(line, i);
    QuotedTextStaysInField(line, i + 1, j);
    PrefixStep(line, j);
    ExtendEmpty(RawFields(line[..i]));
  }

  /** The scanner state after one more character of `line`. */
  lemma PrefixStep(line: string, i: nat)
    requires i < |line|
    ensures InsideQuotes(line[..i + 1]) == if line[i] == '"' then !InsideQuotes(line[..i]) else InsideQuotes(line[..i])
    ensures var fs := RawFields(line[..i]);
      RawFields(line[..i + 1])
      == if line[i] == '"' then fs
         else if line[i] == ',' && !InsideQuotes(line[..i]) then fs + [[]]
         else ExtendLast(fs, [line[i]])
  {
    assert line[..i + 1][..i] == line[..i];
  }

  /** `parseCSVLine`. */
  method ParseCSVLine(line: string) returns (fields: seq<string>)
    ensures fields == ParsedLine(line)
    ensures |fields| == SeparatorCount(line) + 1
  {
    fields := [];
    var currentField := "";
    var insideQuotes := false;
    ghost var done: seq<string> := [];
    for i := 0 to |line|
      invariant insideQuotes == InsideQuotes(line[..i])
      invariant RawFields(line[..i]) == done + [currentField]
      invariant fields == CleanAll(done)
    {
      var c := line[i];
      PrefixStep(line, i);
      if c == '"' {
        insideQuotes := !insideQuotes;
        continue;
      }
      if c == ',' && !insideQuotes {
        CleanAllSnoc(done, currentField);
        fields := fields + [CleanCSVField(currentField)];
        done := done + [currentField];
        currentField := "";
        continue;
      }
      ExtendSnoc(done, currentField, [c]);
      currentField := currentField + [c];
    }
    CleanAllSnoc(done, currentField);
    fields := fields + [CleanCSVField(currentField)];
    WholePrefix(line);
    FieldCount(line);
  }
}
