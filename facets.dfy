/** The faceted filter of bull.js: the option list of each facet, the
    visibility of a project under the checked options, and the count shown
    next to each option. The checked options are parameters here; in the
    page they are read from the checkboxes. */
module Facets {
  import opened StringOrder

  /** The three filter groups, `filters.Topic`, `filters.Outcome` and
      `filters.Status`. */
  datatype Facet = Topic | Outcome | Status

  /** The fields of a project that the filter reads. */
  datatype Project = Project(name: string, topic: string, outcome: string, status: string)

  /** `d[key]` for a facet key. */
  function Value(p: Project, f: Facet): string {
    match f
    case Topic => p.topic
    case Outcome => p.outcome
    case Status => p.status
  }

  /** `data.map(d => d[key])`. */
  function Values(data: seq<Project>, f: Facet): (r: seq<string>)
    ensures |r| == |data|
    ensures forall i :: 0 <= i < |r| ==> r[i] == Value(data[i], f)
  {
    seq(|data|, i requires 0 <= i < |data| => Value(data[i], f))
  }

  /** Some project of `data` has `v` as its value for `f`. */
  predicate Occurs(data: seq<Project>, f: Facet, v: string) {
    exists i :: 0 <= i < |data| && Value(data[i], f) == v
  }

  /** `[...new Set(data.map(d => d[key]))].sort()`: the option values of a
      facet, each value present in `data` exactly once, in string order. */
  function FacetOptions(data: seq<Project>, f: Facet): (r: seq<string>)
    ensures StrictlySorted(r) && Distinct(r)
    ensures forall v :: v in r <==> Occurs(data, f, v)
    ensures |r| <= |data|
  {
    var values := Values(data, f);
    assert forall v :: v in values <==> Occurs(data, f, v) by {
      forall v ensures v in values <==> Occurs(data, f, v) {
        if Occurs(data, f, v) {
          var i :| 0 <= i < |data| && Value(data[i], f) == v;
          assert values[i] == v;
        }
      }
    }
    var r := Sort(Dedup(values));
    SortedIsDistinct(r);
    r
  }

  /** The option list depends only on which values occur, not on the order
      or the multiplicity of the projects. */
  lemma OptionsIgnoreOrder(data: seq<Project>, other: seq<Project>, f: Facet)
    requires forall v :: Occurs(data, f, v) <==> Occurs(other, f, v)
    ensures FacetOptions(data, f) == FacetOptions(other, f)
  {
    SortedUnique(FacetOptions(data, f), FacetOptions(other, f));
  }

  /** The checked values of each facet, `activeFilters`. */
  datatype Selection = Selection(topic: set<string>, outcome: set<string>, status: set<string>)

  const NoSelection := Selection({}, {}, {})

  function Active(sel: Selection, f: Facet): set<string> {
    match f
    case Topic => sel.topic
    case Outcome => sel.outcome
    case Status => sel.status
  }

  /** The selection with the checked values of `f` replaced by `values`. */
  function With(sel: Selection, f: Facet, values: set<string>): (r: Selection)
    ensures Active(r, f) == values
    ensures forall g :: g != f ==> Active(r, g) == Active(sel, g)
  {
    match f
    case Topic => sel.(topic := values)
    case Outcome => sel.(outcome := values)
    case Status => sel.(status := values)
  }

  /** `activeFilters[key].size === 0 || activeFilters[key].has(d[key])`. */
  predicate Passes(sel: Selection, f: Facet, p: Project) {
    |Active(sel, f)| == 0 || Value(p, f) in Active(sel, f)
  }

  /** The `filteredData` predicate: every facet lets the project through. */
  predicate Visible(sel: Selection, p: Project) {
    Passes(sel, Topic, p) && Passes(sel, Outcome, p) && Passes(sel, Status, p)
  }

  /** `data.filter(d => topicPass && outcomePass && statusPass)`. */
  function FilteredData(data: seq<Project>, sel: Selection): (r: seq<Project>)
    ensures |r| <= |data|
    ensures forall i :: 0 <= i < |r| ==> Visible(sel, r[i])
  {
    if data == [] then []
    else (if Visible(sel, data[0]) then [data[0]] else []) + FilteredData(data[1..], sel)
  }

  /** A project is shown exactly when it is in `data` and visible. */
  lemma {:induction false} FilteredMembers(data: seq<Project>, sel: Selection, p: Project)
    ensures p in FilteredData(data, sel) <==> p in data && Visible(sel, p)
  {
    if data != [] {
      FilteredMembers(data[1..], sel, p);
      assert data == [data[0]] + data[1..];
    }
  }

  /** Filtering keeps the order of `data`: filtering a concatenation is
      concatenating the filtered parts. */
  lemma {:induction false} FilterAppend(a: seq<Project>, b: seq<Project>, sel: Selection)
    ensures FilteredData(a + b, sel) == FilteredData(a, sel) + FilteredData(b, sel)
  {
    if a == [] {
      assert a + b == b;
    } else {
      assert (a + b)[0] == a[0] && (a + b)[1..] == a[1..] + b;
      FilterAppend(a[1..], b, sel);
    }
  }

  /** `s` is obtained from `t` by deleting elements. */
  predicate IsSubsequence(s: seq<Project>, t: seq<Project>)
    decreases |t|
  {
    if s == [] then true
    else if t == [] then false
    else if s[0] == t[0] then IsSubsequence(s[1..], t[1..])
    else IsSubsequence(s, t[1..])
  }

  /** The shown projects are an order-preserving subsequence of `data`. */
  lemma {:induction false} FilteredIsSubsequence(data: seq<Project>, sel: Selection)
    ensures IsSubsequence(FilteredData(data, sel), data)
  {
    if data != [] {
      FilteredIsSubsequence(data[1..], sel);
      var rest := FilteredData(data[1..], sel);
      if Visible(sel, data[0]) {
        assert ([data[0]] + rest)[1..] == rest;
      } else {
        assert [] + rest == rest;
        SubsequenceOfTail(rest, data);
      }
    }
  }

  lemma {:induction false} SubsequenceOfTail(s: seq<Project>, t: seq<Project>)
    requires t != [] && IsSubsequence(s, t[1..])
    ensures IsSubsequence(s, t)
    decreases |t|, 1
  {
    if s != [] && s[0] == t[0] {
      SubsequenceDropHead(s, t[1..]);
    }
  }

  lemma {:induction false} SubsequenceDropHead(s: seq<Project>, t: seq<Project>)
    requires s != [] && IsSubsequence(s, t)
    ensures IsSubsequence(s[1..], t)
    decreases |t|, 2
  {
    if s[0] != t[0] {
      SubsequenceDropHead(s, t[1..]);
    }
    SubsequenceOfTail(s[1..], t);
  }

  /** With nothing checked every project is shown. */
  lemma {:induction false} NoSelectionShowsAll(data: seq<Project>)
    ensures FilteredData(data, NoSelection) == data
  {
    if data != [] {
      NoSelectionShowsAll(data[1..]);
      assert [data[0]] + data[1..] == data;
    }
  }

  /** Filtering twice with the same selection changes nothing more. */
  lemma {:induction false} FilterIdempotent(data: seq<Project>, sel: Selection)
    ensures FilteredData(FilteredData(data, sel), sel) == FilteredData(data, sel)
  {
    if data != [] {
      FilterIdempotent(data[1..], sel);
      var rest := FilteredData(data[1..], sel);
      if Visible(sel, data[0]) {
        var r := [data[0]] + rest;
        assert r[0] == data[0] && r[1..] == rest;
      } else {
        assert [] + rest == rest;
      }
    }
  }

  /** `data.filter(d => d[key] === value).length`: the initial count of an
      option. */
  function ValueCount(data: seq<Project>, f: Facet, v: string): (r: nat)
    ensures r <= |data|
  {
    if data == [] then 0
    else (if Value(data[0], f) == v then 1 else 0) + ValueCount(data[1..], f, v)
  }

  /** The other facets' filters of `countProjectsForFilter`: each facet other
      than `key` with checked values requires the project's value to be one
      of them. */
  predicate PassesOthers(sel: Selection, key: Facet, p: Project) {
    (key != Topic ==> Passes(sel, Topic, p))
    && (key != Outcome ==> Passes(sel, Outcome, p))
    && (key != Status ==> Passes(sel, Status, p))
  }

  /** `countProjectsForFilter(key, option)`: the projects with `option` as
      their `key` value that the checked values of the other facets let
      through; the checked values of `key` itself are ignored. */
  function CountProjectsForFilter(data: seq<Project>, sel: Selection, key: Facet, option: string): (r: nat)
    ensures r <= |data|
  {
    if data == [] then 0
    else
      var p := data[0];
      (if Value(p, key) == option && PassesOthers(sel, key, p) then 1 else 0)
      + CountProjectsForFilter(data[1..], sel, key, option)
  }

  /** An option's count never exceeds the number of projects with that
      value. */
  lemma {:induction false} CountAtMostValueCount(data: seq<Project>, sel: Selection, key: Facet, option: string)
    ensures CountProjectsForFilter(data, sel, key, option) <= ValueCount(data, key, option)
  {
    if data != [] {
      CountAtMostValueCount(data[1..], sel, key, option);
    }
  }

  /** When no other facet has a checked value the count is the number of
      projects with that value: the initial counts are this case. */
  lemma {:induction false} CountWithoutOtherFilters(data: seq<Project>, sel: Selection, key: Facet, option: string)
    requires forall g :: g != key ==> Active(sel, g) == {}
    ensures CountProjectsForFilter(data, sel, key, option) == ValueCount(data, key, option)
  {
    if data != [] {
      CountWithoutOtherFilters(data[1..], sel, key, option);
    }
  }

  /** The count of an option is the number of projects that would be shown
      if that option were the only one checked in its facet. */
  lemma {:induction false} CountIsFilteredSize(data: seq<Project>, sel: Selection, key: Facet, option: string)
    ensures CountProjectsForFilter(data, sel, key, option) == |FilteredData(data, With(sel, key, {option}))|
  {
    if data != [] {
      CountIsFilteredSize(data[1..], sel, key, option);
      var p := data[0];
      var only := With(sel, key, {option});
      assert Passes(only, key, p) <==> Value(p, key) == option;
      assert Visible(only, p) <==> Value(p, key) == option && PassesOthers(sel, key, p);
    }
  }

  /** The total of `counts` over distinct option values `options`. */
  function SumCounts(data: seq<Project>, sel: Selection, key: Facet, options: seq<string>): nat {
    if options == [] then 0
    else CountProjectsForFilter(data, sel, key, options[0]) + SumCounts(data, sel, key, options[1..])
  }

  /** The projects that pass the other facets' filters. */
  function PassingOthers(data: seq<Project>, sel: Selection, key: Facet): nat {
    if data == [] then 0
    else (if PassesOthers(sel, key, data[0]) then 1 else 0) + PassingOthers(data[1..], sel, key)
  }

  /** The counts shown in a facet add up to the number of projects that the
      other facets let through: each such project is counted under its own
      value and no other. */
  lemma {:induction false} CountsAddUp(data: seq<Project>, sel: Selection, key: Facet)
    ensures SumCounts(data, sel, key, FacetOptions(data, key)) == PassingOthers(data, sel, key)
  {
    var options := FacetOptions(data, key);
    SumCountsByProject(data, sel, key, options);
  }

  lemma {:induction false} SumCountsByProject(data: seq<Project>, sel: Selection, key: Facet, options: seq<string>)
    requires Distinct(options)
    requires forall i :: 0 <= i < |data| ==> Value(data[i], key) in options
    ensures SumCounts(data, sel, key, options) == PassingOthers(data, sel, key)
  {
    if data == [] {
      SumCountsEmpty(sel, key, options);
    } else {
      var p := data[0];
      SumCountsByProject(data[1..], sel, key, options);
      SumCountsSplit(data, sel, key, options);
      OneMatch(options, Value(p, key));
    }
  }

  lemma {:induction false} SumCountsEmpty(sel: Selection, key: Facet, options: seq<string>)
    ensures SumCounts([], sel, key, options) == 0
  {
    if options != [] {
      SumCountsEmpty(sel, key, options[1..]);
    }
  }

  /** The first project contributes to the sum once for each option equal to
      its value. */
  lemma {:induction false} SumCountsSplit(data: seq<Project>, sel: Selection, key: Facet, options: seq<string>)
    requires data != []
    ensures SumCounts(data, sel, key, options)
      == SumCounts(data[1..], sel, key, options)
         + (if PassesOthers(sel, key, data[0]) then Matches(options, Value(data[0], key)) else 0)
  {
    if options != [] {
      SumCountsSplit(data, sel, key, options[1..]);
    }
  }

  /** The number of elements of `options` equal to `v`. */
  function Matches(options: seq<string>, v: string): nat {
    if options == [] then 0 else (if options[0] == v then 1 else 0) + Matches(options[1..], v)
  }

  lemma {:induction false} OneMatch(options: seq<string>, v: string)
    requires Distinct(options) && v in options
    ensures Matches(options, v) == 1
  {
    if options[0] == v {
      NoMatch(options[1..], v);
    } else {
      OneMatch(options[1..], v);
    }
  }

  lemma {:induction false} NoMatch(options: seq<string>, v: string)
    requires v !in options
    ensures Matches(options, v) == 0
  {
    if options != [] {
      NoMatch(options[1..], v);
    }
  }

  /** The initial counts of a facet add up to the number of projects. */
  lemma InitialCountsAddUp(data: seq<Project>, key: Facet)
    ensures SumCounts(data, NoSelection, key, FacetOptions(data, key)) == |data|
  {
    CountsAddUp(data, NoSelection, key);
    AllPassWithoutSelection(data, key);
  }

  lemma {:induction false} AllPassWithoutSelection(data: seq<Project>, key: Facet)
    ensures PassingOthers(data, NoSelection, key) == |data|
  {
    if data != [] {
      AllPassWithoutSelection(data[1..], key);
    }
  }
}
