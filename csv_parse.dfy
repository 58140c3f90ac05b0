/** `parseCSV` (bull.js): turns the text of the project list into one record
    per complete data line. */
module CsvParse {
  import opened JsText
  import opened CsvField
  import opened CsvLine

  /** A property value of an entry: a string, or an array of strings
      (`devTeam` and `Collaborators`). */
  datatype Value = Text(text: string) | List(items: seq<string>)

  /** One parsed row: the JavaScript object `entry`, by property name. */
  type Entry = map<string, Value>

  /** The TypeError of `entry["Collaborators"].push(…)` when that property
      already holds a non-empty string (set by a header named `Collaborators`). */
  datatype ParseError = PushOnString

  datatype Result<T> = Ok(value: T) | Err(error: ParseError)

  const DevHeader: string := "Dev (s)"
  const Collaborator1: string := "Collaborator 1"
  const Collaborator2: string := "Collaborator 2"
  const DescriptionHeader: string := "Description"
  const DevTeamKey: string := "devTeam"
  const CollaboratorsKey: string := "Collaborators"

  /** JavaScript truthiness of a value: an array always, a string when it is
      not empty. */
  predicate Truthy(v: Value) {
    v.List? || v.text != []
  }

  /** `line.trim() === ""`. */
  predicate IsBlank(line: string) {
    Trim(line) == []
  }

  /** `lines.filter(line => line.trim() !== "")`. */
  function NonBlank(lines: seq<string>): (r: seq<string>)
    ensures |r| <= |lines|
    ensures forall i :: 0 <= i < |r| ==> !IsBlank(r[i])
  {
    if lines == [] then []
    else (if IsBlank(lines[0]) then [] else [lines[0]]) + NonBlank(lines[1..])
  }

  /** The kept lines are exactly the lines that are not blank. */
  lemma {:induction false} NonBlankMembers(lines: seq<string>)
    ensures forall l :: l in NonBlank(lines) <==> l in lines && !IsBlank(l)
  {
    if lines != [] {
      NonBlankMembers(lines[1..]);
      assert lines == [lines[0]] + lines[1..];
    }
  }

  /** `filter` keeps the order of the lines: filtering a concatenation
      concatenates the filtered parts. */
  lemma {:induction false} NonBlankAppend(a: seq<string>, b: seq<string>)
    ensures NonBlank(a + b) == NonBlank(a) + NonBlank(b)
  {
    if a == [] {
      assert a + b == b;
    } else {
      var kept := if IsBlank(a[0]) then [] else [a[0]];
      assert (a + b)[0] == a[0] && (a + b)[1..] == a[1..] + b;
      assert NonBlank(a + b) == kept + NonBlank(a[1..] + b);
      NonBlankAppend(a[1..], b);
      ConcatAssoc(kept, NonBlank(a[1..]), NonBlank(b));
    }
  }

  /** The first kept line, which `parseCSV` reads as the header line, is the
      first line that is not blank. */
  lemma {:induction false} FirstKeptLine(lines: seq<string>, k: nat)
    requires k < |lines| && !IsBlank(lines[k])
    requires forall i :: 0 <= i < k ==> IsBlank(lines[i])
    ensures NonBlank(lines) != [] && NonBlank(lines)[0] == lines[k]
  {
    var before, after := lines[..k], lines[k + 1..];
    assert lines == before + [lines[k]] + after;
    AllBlankDropped(before);
    KeptAfterBlanks(before, lines[k], after);
  }

  lemma KeptAfterBlanks(before: seq<string>, line: string, after: seq<string>)
    requires NonBlank(before) == [] && !IsBlank(line)
    ensures NonBlank(before + [line] + after) == [line] + NonBlank(after)
  {
    NonBlankAppend(before + [line], after);
    NonBlankAppend(before, [line]);
    assert NonBlank([line]) == [line] by { assert [line][1..] == []; }
    assert NonBlank(before + [line]) == [line];
  }

  lemma {:induction false} AllBlankDropped(lines: seq<string>)
    requires forall i :: 0 <= i < |lines| ==> IsBlank(lines[i])
    ensures NonBlank(lines) == []
  {
    if lines != [] {
      AllBlankDropped(lines[1..]);
    }
  }

  /** `csvData.split("\n").filter(line => line.trim() !== "")`. */
  function Lines(csv: string): seq<string> {
    NonBlank(Split(csv, '\n'))
  }

  /** `lines[0].split(",").map(cleanCSVField)`: the header line is split on
      every comma, quoted or not, and each header cleaned. */
  function Headers(line: string): (r: seq<string>)
    ensures |r| == Occurrences(line, ',') + 1
    ensures forall i :: 0 <= i < |r| ==> '"' !in r[i]
  {
    SplitCount(line, ',');
    CleanAll(Split(line, ','))
  }

  /** `row[index] ? row[index].split(";").map(s => s.trim()) : []`. */
  function DevTeam(cell: string): seq<string> {
    if cell == [] then [] else TrimAll(Split(cell, ';'))
  }

  /** An empty cell gives no members; otherwise one member per `;`-separated
      part, with no blank space at either end of a name. */
  lemma {:induction false} DevTeamMembers(cell: string)
    ensures var r := DevTeam(cell);
      && (cell == [] ==> r == [])
      && (cell != [] ==> |r| == Occurrences(cell, ';') + 1)
      && (forall i :: 0 <= i < |r| ==> r[i] == [] || (!IsSpace(r[i][0]) && !IsSpace(r[i][|r[i]| - 1])))
  {
    if cell != [] {
      SplitCount(cell, ';');
    }
  }

  /** A header of the `Collaborator 1` / `Collaborator 2` pair. */
  predicate IsCollaboratorHeader(header: string) {
    header == Collaborator1 || header == Collaborator2
  }

  /** The property that a header writes. */
  function KeyOf(header: string): string {
    if header == DevHeader then DevTeamKey
    else if IsCollaboratorHeader(header) then CollaboratorsKey
    else header
  }

  /** One call of the `headers.forEach` callback: header `header`, its cell
      `cell`, applied to the entry built so far. */
  function Step(entry: Entry, header: string, cell: string): Result<Entry> {
    if header == DevHeader then Ok(entry[DevTeamKey := List(DevTeam(cell))])
    else if IsCollaboratorHeader(header) then
      var list := if CollaboratorsKey in entry && Truthy(entry[CollaboratorsKey])
                  then entry[CollaboratorsKey] else List([]);
      if cell == [] then Ok(entry[CollaboratorsKey := list])
      else if list.List? then Ok(entry[CollaboratorsKey := List(list.items + [cell])])
      else Err(PushOnString)
    else if header == DescriptionHeader then Ok(entry[DescriptionHeader := Text(cell)])
    else Ok(entry[header := Text(cell)])
  }

  /** The entry once the callback has run for the first `k` headers. */
  function EntryAfter(headers: seq<string>, row: seq<string>, k: nat): Result<Entry>
    requires k <= |headers| <= |row|
  {
    if k == 0 then Ok(map[])
    else match EntryAfter(headers, row, k - 1)
      case Err(e) => Err(e)
      case Ok(entry) => Step(entry, headers[k - 1], row[k - 1])
  }

  /** The entry of one complete row. */
  function BuildEntry(headers: seq<string>, row: seq<string>): Result<Entry>
    requires |headers| <= |row|
  {
    EntryAfter(headers, row, |headers|)
  }

  /** The property value that a header other than `Collaborator 1/2` writes
      for cell `cell`. */
  function Written(header: string, cell: string): Value {
    if header == DevHeader then List(DevTeam(cell)) else Text(cell)
  }

  /** The last of the first `k` headers that writes property `key`, or -1. */
  function LastWriter(headers: seq<string>, key: string, k: nat): (r: int)
    requires k <= |headers|
    ensures -1 <= r < k
    ensures r >= 0 ==> KeyOf(headers[r]) == key
    ensures forall j :: r < j < k ==> KeyOf(headers[j]) != key
  {
    if k == 0 then -1
    else if KeyOf(headers[k - 1]) == key then k - 1
    else LastWriter(headers, key, k - 1)
  }

  /** The properties that the first `k` headers write. */
  function KeysOf(headers: seq<string>, k: nat): (r: set<string>)
    requires k <= |headers|
    ensures forall j :: 0 <= j < k ==> KeyOf(headers[j]) in r
    ensures forall key :: key in r ==> exists j :: 0 <= j < k && KeyOf(headers[j]) == key
  {
    if k == 0 then {} else KeysOf(headers, k - 1) + {KeyOf(headers[k - 1])}
  }

  /** The non-empty cells under `Collaborator 1/2` headers among the first `k`
      columns, in column order. */
  function CollaboratorCells(headers: seq<string>, row: seq<string>, k: nat): (r: seq<string>)
    requires k <= |headers| <= |row|
    ensures |r| <= k
    ensures forall i :: 0 <= i < |r| ==> r[i] != []
  {
    if k == 0 then []
    else
      var prev := CollaboratorCells(headers, row, k - 1);
      if IsCollaboratorHeader(headers[k - 1]) && row[k - 1] != [] then prev + [row[k - 1]] else prev
  }

  /** One callback call adds the property of its header and leaves every
      other property as it was; a header other than `Collaborator 1/2` sets
      its property to the value it writes. */
  lemma StepWrites(entry: Entry, header: string, cell: string)
    requires Step(entry, header, cell).Ok?
    ensures var e := Step(entry, header, cell).value;
      && e.Keys == entry.Keys + {KeyOf(header)}
      && (forall key :: key in entry && key != KeyOf(header) ==> e[key] == entry[key])
      && (!IsCollaboratorHeader(header) ==> e[KeyOf(header)] == Written(header, cell))
  {
  }

  /** Every property other than `Collaborators` holds the value written by
      the last header that writes it: later columns overwrite earlier ones. */
  lemma {:induction false} FieldValue(headers: seq<string>, row: seq<string>, k: nat, key: string)
    requires k <= |headers| <= |row|
    requires key != CollaboratorsKey
    requires EntryAfter(headers, row, k).Ok?
    ensures var e := EntryAfter(headers, row, k).value;
      var j := LastWriter(headers, key, k);
      && (key in e <==> j >= 0)
      && (j >= 0 ==> e[key] == Written(headers[j], row[j]))
  {
    if k > 0 {
      FieldValue(headers, row, k - 1, key);
      var prev := EntryAfter(headers, row, k - 1).value;
      StepWrites(prev, headers[k - 1], row[k - 1]);
    }
  }

  /** The entry after `k` callback calls has exactly the properties those
      `k` headers write. */
  lemma {:induction false} EntryKeys(headers: seq<string>, row: seq<string>, k: nat)
    requires k <= |headers| <= |row|
    requires EntryAfter(headers, row, k).Ok?
    ensures EntryAfter(headers, row, k).value.Keys == KeysOf(headers, k)
  {
    if k > 0 {
      EntryKeys(headers, row, k - 1);
      var prev := EntryAfter(headers, row, k - 1).value;
      StepWrites(prev, headers[k - 1], row[k - 1]);
    }
  }

  /** Without a column literally named `Collaborators`, the callback never
      throws, and `Collaborators` lists the non-empty `Collaborator 1/2`
      cells in column order (present as soon as one such column exists). */
  lemma {:induction false} CollaboratorsField(headers: seq<string>, row: seq<string>, k: nat)
    requires k <= |headers| <= |row|
    requires forall j :: 0 <= j < k ==> headers[j] != CollaboratorsKey
    ensures EntryAfter(headers, row, k).Ok?
    ensures var e := EntryAfter(headers, row, k).value;
      && (CollaboratorsKey in e <==> exists j :: 0 <= j < k && IsCollaboratorHeader(headers[j]))
      && (CollaboratorsKey in e ==> e[CollaboratorsKey] == List(CollaboratorCells(headers, row, k)))
      && (CollaboratorsKey !in e ==> CollaboratorCells(headers, row, k) == [])
  {
    if k > 0 {
      CollaboratorsField(headers, row, k - 1);
      var prev := EntryAfter(headers, row, k - 1).value;
      var h := headers[k - 1];
      if IsCollaboratorHeader(h) {
        var list := if CollaboratorsKey in prev && Truthy(prev[CollaboratorsKey])
                    then prev[CollaboratorsKey] else List([]);
        assert list == List(CollaboratorCells(headers, row, k - 1));
      } else {
        assert KeyOf(h) != CollaboratorsKey;
        StepWrites(prev, h, row[k - 1]);
      }
    }
  }

  /** The condition under which `entry["Collaborators"].push(cell)` throws:
      a non-empty `Collaborator 1/2` cell meets a `Collaborators` property
      that holds a non-empty string. */
  predicate PushesOnString(entry: Entry, header: string, cell: string) {
    && IsCollaboratorHeader(header) && cell != []
    && CollaboratorsKey in entry && entry[CollaboratorsKey].Text?
    && entry[CollaboratorsKey].text != []
  }

  /** A callback call throws exactly when it pushes onto a string. */
  lemma StepThrows(entry: Entry, header: string, cell: string)
    ensures Step(entry, header, cell).Err? <==> PushesOnString(entry, header, cell)
  {
  }

  /** The callback call for column `k` runs and pushes onto a string. */
  predicate PushesAt(headers: seq<string>, row: seq<string>, k: nat)
    requires k < |headers| <= |row|
  {
    EntryAfter(headers, row, k).Ok? && PushesOnString(EntryAfter(headers, row, k).value, headers[k], row[k])
  }

  /** A row throws exactly when some non-empty `Collaborator 1/2` cell finds
      a non-empty string in `Collaborators`, which only a non-empty cell of a
      column named `Collaborators` puts there. */
  lemma {:induction false} CollaboratorsColumnThrows(headers: seq<string>, row: seq<string>)
    requires |headers| <= |row|
    ensures BuildEntry(headers, row).Err? <==> exists k :: 0 <= k < |headers| && PushesAt(headers, row, k)
  {
    if BuildEntry(headers, row).Err? {
      FirstThrow(headers, row, |headers|);
    }
    if exists k :: 0 <= k < |headers| && PushesAt(headers, row, k) {
      var k :| 0 <= k < |headers| && PushesAt(headers, row, k);
      StepThrows(EntryAfter(headers, row, k).value, headers[k], row[k]);
      ErrorSticks(headers, row, k + 1);
    }
  }

  /** An empty `Collaborators` cell leaves a falsy empty string, which the
      next `Collaborator 1/2` column replaces by an array: nothing throws. */
  lemma EmptyCollaboratorsCellResets()
    ensures BuildEntry([CollaboratorsKey, CollaboratorsKey, Collaborator1], ["x", "", "y"])
            == Ok(map[CollaboratorsKey := List(["y"])])
  {
    var headers, row := [CollaboratorsKey, CollaboratorsKey, Collaborator1], ["x", "", "y"];
    assert CollaboratorsKey[0] != DevHeader[0] && CollaboratorsKey[0] != DescriptionHeader[0];
    assert |CollaboratorsKey| != |Collaborator1| && |CollaboratorsKey| != |Collaborator2|;
    var e0: Entry := map[];
    assert !IsCollaboratorHeader(CollaboratorsKey);
    assert Step(e0, CollaboratorsKey, "x") == Ok(map[CollaboratorsKey := Text("x")]);
    var e1: Entry := map[CollaboratorsKey := Text("x")];
    assert EntryAfter(headers, row, 1) == Ok(e1);
    var e2: Entry := map[CollaboratorsKey := Text("")];
    assert e1[CollaboratorsKey := Text("")] == e2;
    assert Step(e1, CollaboratorsKey, "") == Ok(e2);
    assert EntryAfter(headers, row, 2) == Ok(e2);
    assert Collaborator1[0] != DevHeader[0] && !Truthy(e2[CollaboratorsKey]);
    var ys: seq<string> := [] + ["y"];
    assert ys == ["y"];
    assert e2[CollaboratorsKey := List(ys)] == map[CollaboratorsKey := List(["y"])];
  }

  /** An error after `n` columns comes from a call among the first `n` that
      pushed onto a string. */
  lemma {:induction false} FirstThrow(headers: seq<string>, row: seq<string>, n: nat)
    requires n <= |headers| <= |row|
    requires EntryAfter(headers, row, n).Err?
    ensures exists k :: 0 <= k < n && PushesAt(headers, row, k)
  {
    if EntryAfter(headers, row, n - 1).Err? {
      FirstThrow(headers, row, n - 1);
    } else {
      StepThrows(EntryAfter(headers, row, n - 1).value, headers[n - 1], row[n - 1]);
      assert PushesAt(headers, row, n - 1);
    }
  }

  /** The parsed data lines that have at least one field per header, in
      input order; shorter lines are skipped. */
  function CompleteRows(headers: seq<string>, lines: seq<string>): (r: seq<seq<string>>)
    ensures |r| <= |lines|
    ensures forall i :: 0 <= i < |r| ==> |r[i]| >= |headers|
  {
    if lines == [] then []
    else
      var row := ParsedLine(lines[0]);
      (if |row| >= |headers| then [row] else []) + CompleteRows(headers, lines[1..])
  }

  /** One entry per complete row, in order; the first row whose callback
      throws ends the parse with that error. */
  function BuildEntries(headers: seq<string>, rows: seq<seq<string>>): (r: Result<seq<Entry>>)
    requires forall i :: 0 <= i < |rows| ==> |rows[i]| >= |headers|
    ensures r.Ok? ==> |r.value| == |rows|
    ensures r.Ok? ==> forall i :: 0 <= i < |rows| ==> BuildEntry(headers, rows[i]) == Ok(r.value[i])
    ensures r.Err? <==> exists i :: 0 <= i < |rows| && BuildEntry(headers, rows[i]).Err?
  {
    if rows == [] then Ok([])
    else
      match BuildEntry(headers, rows[0])
      case Err(e) => Err(e)
      case Ok(entry) =>
        match BuildEntries(headers, rows[1..])
        case Err(e) =>
          assert exists i :: 0 <= i < |rows| && BuildEntry(headers, rows[i]).Err? by {
            var i :| 0 <= i < |rows[1..]| && BuildEntry(headers, rows[1..][i]).Err?;
            assert rows[1..][i] == rows[i + 1];
          }
          Err(e)
        case Ok(rest) =>
          assert forall i :: 1 <= i < |rows| ==> rows[i] == rows[1..][i - 1];
          Ok([entry] + rest)
  }

  /** What `parseCSV` returns for the text `csv`, or the error it throws. */
  function ParsedCSV(csv: string): Result<seq<Entry>> {
    var lines := Lines(csv);
    if |lines| < 2 then Ok([])
    else
      var headers := Headers(lines[0]);
      BuildEntries(headers, CompleteRows(headers, lines[1..]))
  }

  lemma {:induction false} CompleteRowsAppend(headers: seq<string>, a: seq<string>, b: seq<string>)
    ensures CompleteRows(headers, a + b) == CompleteRows(headers, a) + CompleteRows(headers, b)
  {
    if a == [] {
      assert a + b == b;
    } else {
      assert (a + b)[0] == a[0] && (a + b)[1..] == a[1..] + b;
      CompleteRowsAppend(headers, a[1..], b);
    }
  }

  lemma CompleteRowsOne(headers: seq<string>, line: string)
    ensures CompleteRows(headers, [line])
            == if |ParsedLine(line)| >= |headers| then [ParsedLine(line)] else []
  {
    assert [line][1..] == [];
  }

  /** When every data line is complete, there is one row per line. */
  lemma {:induction false} AllLinesComplete(headers: seq<string>, lines: seq<string>)
    requires forall i :: 0 <= i < |lines| ==> |ParsedLine(lines[i])| >= |headers|
    ensures CompleteRows(headers, lines) == seq(|lines|, i requires 0 <= i < |lines| => ParsedLine(lines[i]))
  {
    if lines != [] {
      AllLinesComplete(headers, lines[1..]);
    }
  }

  /** Appending a row whose entry is built keeps the entries built so far. */
  lemma BuildEntriesSnoc(headers: seq<string>, rows: seq<seq<string>>, row: seq<string>, es: seq<Entry>, e: Entry)
    requires forall i :: 0 <= i < |rows| ==> |rows[i]| >= |headers|
    requires |row| >= |headers|
    requires BuildEntries(headers, rows) == Ok(es)
    requires BuildEntry(headers, row) == Ok(e)
    ensures BuildEntries(headers, rows + [row]) == Ok(es + [e])
  {
    var all := rows + [row];
    assert forall i :: 0 <= i < |rows| ==> all[i] == rows[i];
    assert all[|rows|] == row;
    var r := BuildEntries(headers, all);
    assert r.Ok?;
    assert forall i :: 0 <= i < |rows| ==> r.value[i] == es[i] by {
      forall i | 0 <= i < |rows| ensures r.value[i] == es[i] {
        assert BuildEntry(headers, all[i]) == Ok(r.value[i]);
      }
    }
    assert r.value == es + [e];
  }

  /** Once a callback has thrown, the entry stays an error. */
  lemma {:induction false} ErrorSticks(headers: seq<string>, row: seq<string>, k: nat)
    requires k <= |headers| <= |row|
    requires EntryAfter(headers, row, k).Err?
    ensures BuildEntry(headers, row) == EntryAfter(headers, row, k)
    decreases |headers| - k
  {
    if k < |headers| {
      ErrorSticks(headers, row, k + 1);
    }
  }

  /** One call of the `headers.forEach` callback, for column `j`, on the
      entry that the earlier columns built: the property of the header is
      set, or `push` throws. */
  method ApplyHeader(headers: seq<string>, row: seq<string>, j: nat, entry: Entry) returns (r: Result<Entry>)
    requires j < |headers| <= |row|
    requires EntryAfter(headers, row, j) == Ok(entry)
    ensures r == EntryAfter(headers, row, j + 1)
    ensures r.Err? ==> r == BuildEntry(headers, row)
  {
    var header, cell := headers[j], row[j];
    if header == DevHeader {
      r := Ok(entry[DevTeamKey := List(DevTeam(cell))]);
    } else if header == Collaborator1 || header == Collaborator2 {
      var list := if CollaboratorsKey in entry && Truthy(entry[CollaboratorsKey])
                  then entry[CollaboratorsKey] else List([]);
      var next := entry[CollaboratorsKey := list];
      if cell != [] {
        if list.Text? {
          r := Err(PushOnString);
          ErrorSticks(headers, row, j + 1);
          return;
        }
        next := next[CollaboratorsKey := List(list.items + [cell])];
        assert next == entry[CollaboratorsKey := List(list.items + [cell])];
      }
      r := Ok(next);
    } else if header == DescriptionHeader {
      r := Ok(entry[DescriptionHeader := Text(cell)]);
    } else {
      r := Ok(entry[header := Text(cell)]);
    }
  }

  /** The `headers.forEach` loop over one complete row, filling a fresh
      `entry` property by property. */
  method FillEntry(headers: seq<string>, row: seq<string>) returns (r: Result<Entry>)
    requires |headers| <= |row|
    ensures r == BuildEntry(headers, row)
  {
    var entry: Entry := map[];
    for j := 0 to |headers|
      invariant EntryAfter(headers, row, j) == Ok(entry)
    {
      var next := ApplyHeader(headers, row, j, entry);
      if next.Err? {
        return next;
      }
      entry := next.value;
    }
    r := Ok(entry);
  }

  lemma {:induction false} CompleteRowsSnoc(headers: seq<string>, ls: seq<string>, l: string)
    ensures CompleteRows(headers, ls + [l])
      == CompleteRows(headers, ls) + if |ParsedLine(l)| >= |headers| then [ParsedLine(l)] else []
  {
    CompleteRowsAppend(headers, ls, [l]);
    CompleteRowsOne(headers, l);
  }

  lemma {:induction false} RowsStep(headers: seq<string>, lines: seq<string>, i: nat)
    requires i < |lines|
    ensures CompleteRows(headers, lines[..i + 1])
      == CompleteRows(headers, lines[..i]) + if |ParsedLine(lines[i])| >= |headers| then [ParsedLine(lines[i])] else []
  {
    assert lines[..i + 1] == lines[..i] + [lines[i]];
    CompleteRowsSnoc(headers, lines[..i], lines[i]);
  }

  /** A complete row whose callback throws makes the whole parse throw. */
  lemma {:induction false} FailingRowFailsParse(headers: seq<string>, lines: seq<string>, i: nat)
    requires i < |lines|
    requires |ParsedLine(lines[i])| >= |headers|
    requires BuildEntry(headers, ParsedLine(lines[i])).Err?
    ensures BuildEntries(headers, CompleteRows(headers, lines)) == Err(PushOnString)
  {
    var done := CompleteRows(headers, lines[..i]);
    RowsStep(headers, lines, i);
    assert lines == lines[..i + 1] + lines[i + 1..];
    CompleteRowsAppend(headers, lines[..i + 1], lines[i + 1..]);
    var all := CompleteRows(headers, lines);
    assert all[|done|] == ParsedLine(lines[i]);
  }

  lemma {:induction false} ShortRowSkipped(headers: seq<string>, lines: seq<string>, i: nat)
    requires i < |lines| && |ParsedLine(lines[i])| < |headers|
    ensures CompleteRows(headers, lines[..i + 1]) == CompleteRows(headers, lines[..i])
  {
    RowsStep(headers, lines, i);
    assert CompleteRows(headers, lines[..i]) + [] == CompleteRows(headers, lines[..i]);
  }

  lemma {:induction false} RowAppended(headers: seq<string>, lines: seq<string>, i: nat, es: seq<Entry>, e: Entry)
    requires i < |lines| && |ParsedLine(lines[i])| >= |headers|
    requires BuildEntries(headers, CompleteRows(headers, lines[..i])) == Ok(es)
    requires BuildEntry(headers, ParsedLine(lines[i])) == Ok(e)
    ensures BuildEntries(headers, CompleteRows(headers, lines[..i + 1])) == Ok(es + [e])
  {
    RowsStep(headers, lines, i);
    BuildEntriesSnoc(headers, CompleteRows(headers, lines[..i]), ParsedLine(lines[i]), es, e);
  }

  lemma NoLinesRead(headers: seq<string>, lines: seq<string>)
    ensures CompleteRows(headers, lines[..0]) == []
  {
    assert lines[..0] == [];
  }

  /** The loop of `parseCSV` over the data lines (all lines but the first):
      each line is split, short lines are skipped and the entry of every
      complete row is appended to `result`. */
  method ParseRows(headers: seq<string>, lines: seq<string>) returns (parsed: Result<seq<Entry>>)
    ensures parsed == BuildEntries(headers, CompleteRows(headers, lines))
  {
    var result: seq<Entry> := [];
    NoLinesRead(headers, lines);
    for i := 0 to |lines|
      invariant BuildEntries(headers, CompleteRows(headers, lines[..i])) == Ok(result)
    {
      var row := ParseCSVLine(lines[i]);
      if |row| < |headers| {
        ShortRowSkipped(headers, lines, i);
        continue;
      }
      var entry := FillEntry(headers, row);
      if entry.Err? {
        FailingRowFailsParse(headers, lines, i);
        return Err(PushOnString);
      }
      RowAppended(headers, lines, i, result, entry.value);
      result := result + [entry.value];
    }
    WholePrefix(lines);
    parsed := Ok(result);
  }

  /** `parseCSV`: fewer than two non-blank lines give no entries; otherwise
      the first line gives the headers and the others the entries. */
  method ParseCSV(csvData: string) returns (parsed: Result<seq<Entry>>)
    ensures parsed == ParsedCSV(csvData)
  {
    var lines := Lines(csvData);
    if |lines| < 2 {
      return Ok([]);
    }
    var headers := Headers(lines[0]);
    parsed := ParseRows(headers, lines[1..]);
  }

  /** The header line is split on every comma, quoted or not, while data
      lines are split only on commas outside quotes: each quoted comma in the
      header line adds a header that a line laid out the same way lacks. */
  lemma {:induction false} HeaderQuotedCommasShiftColumns(line: string)
    ensures |Headers(line)| == |ParsedLine(line)| + QuotedCommaCount(line)
  {
    CommasSplitUp(line);
    FieldCount(line);
  }

  /** On success there is one entry per complete data line, and every entry
      has exactly the properties that the headers write. */
  lemma {:induction false} EntriesFollowHeaders(csv: string)
    ensures var lines := Lines(csv);
      |lines| >= 2 && ParsedCSV(csv).Ok? ==>
        var headers := Headers(lines[0]);
        var es := ParsedCSV(csv).value;
        && |es| == |CompleteRows(headers, lines[1..])| <= |lines| - 1
        && forall i :: 0 <= i < |es| ==> es[i].Keys == KeysOf(headers, |headers|)
  {
    var lines := Lines(csv);
    if |lines| >= 2 && ParsedCSV(csv).Ok? {
      var headers := Headers(lines[0]);
      var rows := CompleteRows(headers, lines[1..]);
      var es := ParsedCSV(csv).value;
      forall i | 0 <= i < |es| ensures es[i].Keys == KeysOf(headers, |headers|) {
        assert BuildEntry(headers, rows[i]) == Ok(es[i]);
        EntryKeys(headers, rows[i], |headers|);
      }
    }
  }

  /** Without a header named `Collaborators` the parse never throws. */
  lemma {:induction false} NoCollaboratorsColumnNoError(csv: string)
    ensures var lines := Lines(csv);
      (|lines| >= 2 ==> CollaboratorsKey !in Headers(lines[0])) ==> ParsedCSV(csv).Ok?
  {
    var lines := Lines(csv);
    if |lines| >= 2 {
      var headers := Headers(lines[0]);
      if CollaboratorsKey !in headers {
        var rows := CompleteRows(headers, lines[1..]);
        RowsBuild(headers, rows);
        assert ParsedCSV(csv) == BuildEntries(headers, rows);
      }
    }
  }

  lemma RowsBuild(headers: seq<string>, rows: seq<seq<string>>)
    requires CollaboratorsKey !in headers
    requires forall i :: 0 <= i < |rows| ==> |rows[i]| >= |headers|
    ensures BuildEntries(headers, rows).Ok?
  {
    forall i | 0 <= i < |rows| ensures BuildEntry(headers, rows[i]).Ok? {
      CollaboratorsField(headers, rows[i], |headers|);
    }
  }

  /** When every data line has a field per header, none is skipped. */
  lemma {:induction false} EveryCompleteLineGivesAnEntry(csv: string)
    ensures var lines := Lines(csv);
      && |lines| >= 2 && ParsedCSV(csv).Ok?
      && (forall i :: 1 <= i < |lines| ==> |ParsedLine(lines[i])| >= |Headers(lines[0])|)
      ==> |ParsedCSV(csv).value| == |lines| - 1
  {
    var lines := Lines(csv);
    if |lines| >= 2 {
      var headers := Headers(lines[0]);
      var rows := CompleteRows(headers, lines[1..]);
      assert ParsedCSV(csv) == BuildEntries(headers, rows);
      if forall i :: 1 <= i < |lines| ==> |ParsedLine(lines[i])| >= |headers| {
        DataLinesComplete(headers, lines);
      }
    }
  }

  lemma DataLinesComplete(headers: seq<string>, lines: seq<string>)
    requires |lines| >= 1
    requires forall i :: 1 <= i < |lines| ==> |ParsedLine(lines[i])| >= |headers|
    ensures |CompleteRows(headers, lines[1..])| == |lines| - 1
  {
    var data := lines[1..];
    assert forall i :: 0 <= i < |data| ==> |ParsedLine(data[i])| >= |headers| by {
      forall i | 0 <= i < |data| ensures |ParsedLine(data[i])| >= |headers| {
        assert data[i] == lines[i + 1];
      }
    }
    AllLinesComplete(headers, data);
  }
}
