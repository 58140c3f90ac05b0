/** The order of `Array.prototype.sort` without a comparator, and the
    distinct-values step `[...new Set(values)]` that precedes it in the
    option lists of bull.js. */
module StringOrder {

  /** JavaScript compares strings by their UTF-16 code units. A character
      below U+D800 is one code unit equal to itself; a character from U+E000
      to U+FFFF is one code unit, greater than the leading surrogate
      (U+D800-U+DBFF) that begins every character from U+10000 up. Ranking
      those characters above U+10FFFF, and every other character by its code
      point, orders single characters as their code units do. */
  function Rank(c: char): int {
    if '\U{E000}' <= c <= '\U{FFFF}' then c as int + 0x11_0000 else c as int
  }

  lemma RankInjective(c: char, d: char)
    requires Rank(c) == Rank(d)
    ensures c == d
  {
  }

  /** `a < b` for JavaScript strings: at the first position where they
      differ the character of `a` comes first, or `a` is a proper prefix of
      `b`. */
  predicate Less(a: string, b: string) {
    if b == [] then false
    else if a == [] then true
    else if a[0] != b[0] then Rank(a[0]) < Rank(b[0])
    else Less(a[1..], b[1..])
  }

  lemma {:induction false} LessIrreflexive(a: string)
    ensures !Less(a, a)
  {
    if a != [] {
      LessIrreflexive(a[1..]);
    }
  }

  lemma {:induction false} LessTransitive(a: string, b: string, c: string)
    requires Less(a, b) && Less(b, c)
    ensures Less(a, c)
  {
    if a != [] && a[0] == b[0] && b[0] == c[0] {
      LessTransitive(a[1..], b[1..], c[1..]);
    }
  }

  /** Two different strings are always ordered one way or the other. */
  lemma {:induction false} LessTotal(a: string, b: string)
    requires a != b
    ensures Less(a, b) || Less(b, a)
  {
    if a != [] && b != [] {
      if a[0] == b[0] {
        assert a == [a[0]] + a[1..] && b == [b[0]] + b[1..];
        LessTotal(a[1..], b[1..]);
      } else {
        if Rank(a[0]) == Rank(b[0]) {
          RankInjective(a[0], b[0]);
        }
      }
    }
  }

  lemma {:induction false} LessAsymmetric(a: string, b: string)
    requires Less(a, b)
    ensures !Less(b, a)
  {
    if Less(b, a) {
      LessTransitive(a, b, a);
      LessIrreflexive(a);
    }
  }

  /** The UTF-16 code units of one character: itself below U+10000, a
      surrogate pair above. */
  function CodeUnits(c: char): (r: seq<int>)
    ensures 1 <= |r| <= 2
    ensures forall u :: u in r ==> 0 <= u < 0x1_0000
  {
    if c as int < 0x1_0000 then [c as int]
    else
      var v := c as int - 0x1_0000;
      [0xD800 + v / 0x400, 0xDC00 + v % 0x400]
  }

  /** The UTF-16 code units of a string, which JavaScript strings are made of. */
  function Utf16(s: string): (r: seq<int>)
    ensures s == [] <==> r == []
  {
    if s == [] then [] else CodeUnits(s[0]) + Utf16(s[1..])
  }

  /** The order in which JavaScript compares strings: code unit by code unit,
      a proper prefix first. */
  predicate UnitsLess(x: seq<int>, y: seq<int>) {
    if y == [] then false
    else if x == [] then true
    else if x[0] != y[0] then x[0] < y[0]
    else UnitsLess(x[1..], y[1..])
  }

  /** `Less` is exactly the code-unit order on the UTF-16 forms. */
  lemma {:induction false} LessIsCodeUnitOrder(a: string, b: string)
    ensures Less(a, b) <==> UnitsLess(Utf16(a), Utf16(b))
  {
    if a != [] && b != [] {
      var x, y := Utf16(a[1..]), Utf16(b[1..]);
      if a[0] == b[0] {
        LessIsCodeUnitOrder(a[1..], b[1..]);
        CommonPrefix(CodeUnits(a[0]), x, y);
      } else {
        DifferentCharacters(a[0], b[0], x, y);
      }
    }
  }

  lemma {:induction false} CommonPrefix(p: seq<int>, x: seq<int>, y: seq<int>)
    ensures UnitsLess(p + x, p + y) <==> UnitsLess(x, y)
  {
    if p != [] {
      assert (p + x)[1..] == p[1..] + x && (p + y)[1..] == p[1..] + y;
      CommonPrefix(p[1..], x, y);
    } else {
      assert p + x == x && p + y == y;
    }
  }

  /** Two different characters are ordered by their code units as by `Rank`,
      whatever follows them. */
  lemma DifferentCharacters(c: char, d: char, x: seq<int>, y: seq<int>)
    requires c != d
    ensures UnitsLess(CodeUnits(c) + x, CodeUnits(d) + y) <==> Rank(c) < Rank(d)
  {
    var u, w := CodeUnits(c) + x, CodeUnits(d) + y;
    assert u[0] == CodeUnits(c)[0] && w[0] == CodeUnits(d)[0];
    if c as int >= 0x1_0000 && d as int >= 0x1_0000 {
      var v, t := c as int - 0x1_0000, d as int - 0x1_0000;
      assert v == 0x400 * (v / 0x400) + v % 0x400;
      assert t == 0x400 * (t / 0x400) + t % 0x400;
      if v / 0x400 == t / 0x400 {
        assert u[1] == CodeUnits(c)[1] && w[1] == CodeUnits(d)[1];
        assert u[1..][0] == u[1] && w[1..][0] == w[1];
      }
    }
  }

  /** Every element comes strictly before the next. */
  predicate StrictlySorted(s: seq<string>) {
    forall i, j :: 0 <= i < j < |s| ==> Less(s[i], s[j])
  }

  /** No element appears twice. */
  predicate Distinct(s: seq<string>) {
    forall i, j :: 0 <= i < j < |s| ==> s[i] != s[j]
  }

  lemma SortedIsDistinct(s: seq<string>)
    requires StrictlySorted(s)
    ensures Distinct(s)
  {
    forall i, j | 0 <= i < j < |s| ensures s[i] != s[j] {
      if s[i] == s[j] {
        LessIrreflexive(s[i]);
      }
    }
  }

  /** `[...new Set(values)]`: each value once, at its first occurrence. */
  function Dedup(values: seq<string>): (r: seq<string>)
    ensures Distinct(r)
    ensures forall v :: v in r <==> v in values
    ensures |r| <= |values|
  {
    if values == [] then []
    else
      var prev := Dedup(values[..|values| - 1]);
      var v := values[|values| - 1];
      assert values == values[..|values| - 1] + [v];
      if v in prev then prev else prev + [v]
  }

  /** A value inserted at its place in a strictly sorted list. */
  function Insert(x: string, s: seq<string>): (r: seq<string>)
    requires StrictlySorted(s) && x !in s
    ensures StrictlySorted(r)
    ensures forall v :: v in r <==> v == x || v in s
    ensures |r| == |s| + 1
  {
    if s == [] then [x]
    else if Less(x, s[0]) then
      assert forall j :: 0 < j < |s| ==> Less(x, s[j]) by {
        forall j | 0 < j < |s| ensures Less(x, s[j]) {
          LessTransitive(x, s[0], s[j]);
        }
      }
      [x] + s
    else
      LessTotal(x, s[0]);
      var rest := Insert(x, s[1..]);
      assert forall v :: v in rest ==> Less(s[0], v);
      [s[0]] + rest
  }

  /** `.sort()` of distinct strings, by insertion. */
  function Sort(s: seq<string>): (r: seq<string>)
    requires Distinct(s)
    ensures StrictlySorted(r)
    ensures forall v :: v in r <==> v in s
    ensures |r| == |s|
  {
    if s == [] then []
    else
      var prefix := s[..|s| - 1];
      assert s == prefix + [s[|s| - 1]];
      assert s[|s| - 1] !in prefix;
      Insert(s[|s| - 1], Sort(prefix))
  }

  /** A strictly sorted list is determined by its elements: any sorting
      algorithm yields the same option list. */
  lemma {:induction false} SortedUnique(a: seq<string>, b: seq<string>)
    requires StrictlySorted(a) && StrictlySorted(b)
    requires forall v :: v in a <==> v in b
    ensures a == b
  {
    SameElementsEmpty(a, b);
    if a != [] {
      assert a[0] in a && b[0] in b;
      HeadIsLeast(a, b[0]);
      HeadIsLeast(b, a[0]);
      LeastUnique(a[0], b[0]);
      forall v ensures v in a[1..] <==> v in b[1..] {
        SortedTail(a, v);
        SortedTail(b, v);
      }
      SortedUnique(a[1..], b[1..]);
      assert a == [a[0]] + a[1..] && b == [b[0]] + b[1..];
    }
  }

  lemma SameElementsEmpty(a: seq<string>, b: seq<string>)
    requires forall v :: v in a <==> v in b
    ensures a == [] <==> b == []
  {
    if a != [] {
      assert a[0] in a;
    }
    if b != [] {
      assert b[0] in b;
    }
  }

  /** The head of a strictly sorted list comes before its other elements. */
  lemma HeadIsLeast(s: seq<string>, v: string)
    requires StrictlySorted(s) && v in s
    ensures v == s[0] || Less(s[0], v)
  {
    var j :| 0 <= j < |s| && s[j] == v;
    if j > 0 {
      assert Less(s[0], s[j]);
    }
  }

  lemma LeastUnique(v: string, w: string)
    requires v == w || Less(v, w)
    requires w == v || Less(w, v)
    ensures v == w
  {
    if Less(v, w) {
      LessAsymmetric(v, w);
    }
  }

  lemma SortedTail(s: seq<string>, v: string)
    requires StrictlySorted(s) && s != []
    ensures v in s[1..] <==> v in s && v != s[0]
  {
    if v in s && v != s[0] {
      var j :| 0 <= j < |s| && s[j] == v;
      assert s[1..][j - 1] == v;
    }
    if v in s[1..] {
      var j :| 0 <= j < |s| - 1 && s[1..][j] == v;
      assert Less(s[0], s[j + 1]);
      if v == s[0] {
        LessIrreflexive(v);
      }
    }
  }
}
