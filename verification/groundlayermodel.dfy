/** The ground layer model: a catalog of numbered solids (geological layers,
    each bounded by a top and a base elevation grid) together with the plot
    style of every solid, keyed by the solid's name.

    `FromFolder` walks the already-read catalog rows in order, drops every row
    whose number is not strictly positive, turns each kept row into a
    `(number, solid)` entry and writes a style derived from the default
    template; `Sort` orders the entries by number. */
module GroundLayerModel {
  import opened Results

  /** The outcome of converting a row's number field to an integer:
      the integer, or the conversion error. */
  datatype ParsedNumber = Parsed(value: int) | NotAnInteger

  /** One catalog row, its fields already looked up through the configured
      column names. */
  datatype CatalogRow = CatalogRow(
    number: ParsedNumber,
    name: string,
    topfile: string,
    basefile: string,
    color: string)

  /** `folder / file`: a grid file named relative to the catalog folder. */
  datatype FilePath = FilePath(folder: string, file: string)

  /** A solid, seen only through the arguments it is constructed from. */
  datatype Solid = Solid(
    name: string,
    topfile: FilePath,
    basefile: FilePath,
    res: real,
    stylekey: string)

  /** The `(number, solid)` pair the model stores for each kept row. */
  datatype Entry = Entry(number: int, solid: Solid)

  /** A value in a plot style mapping (a colour, a label, a line width, ...);
      `Other` stands for any further value, told apart only by identity. */
  datatype StyleValue = Text(text: string) | Number(amount: real) | Flag(flag: bool) | Other(id: nat)

  type Style = map<string, StyleValue>

  datatype Model = Model(
    solids: seq<Entry>,
    res: real,
    styles: map<string, Style>,
    default: Option<Style>,
    name: Option<string>)

  /** Why loading a catalog stops; `row` is the index of the offending row. */
  datatype LoadError =
    | MalformedNumber(row: nat)      // the number field is not an integer
    | MissingDefaultStyle(row: nat)  // a row is kept but there is no template to copy

  const DefaultRes: real := 10.0
  const LabelKey: string := "label"
  const FaceColorKey: string := "facecolor"

  /*---------------------------------------------------------------------------
   * Construction and size
   *-------------------------------------------------------------------------*/

  /** The constructor: a missing solid list or style map becomes empty. */
  function New(
    solids: Option<seq<Entry>> := None,
    res: real := DefaultRes,
    styles: Option<map<string, Style>> := None,
    default: Option<Style> := None,
    name: Option<string> := None): Model
  {
    Model(
      if solids.Some? then solids.value else [],
      res,
      if styles.Some? then styles.value else map[],
      default,
      name)
  }

  function Size(m: Model): nat
  {
    |m.solids|
  }

  /** A model built without solids or styles is empty; with no arguments at
      all it also has the default resolution. */
  lemma NewWithoutContentsIsEmpty(res: real, default: Option<Style>, name: Option<string>)
    ensures Size(New(res := res, default := default, name := name)) == 0
    ensures New(res := res, default := default, name := name).styles == map[]
    ensures New(res := res, default := default, name := name).res == res
    ensures Size(New()) == 0 && New().styles == map[] && New().res == DefaultRes
  {
  }

  /*---------------------------------------------------------------------------
   * Row processing: reference definitions
   *-------------------------------------------------------------------------*/

  /** A row contributes to the model exactly when its number is strictly positive. */
  predicate Kept(row: CatalogRow)
  {
    row.number.Parsed? && row.number.value > 0
  }

  function EntryOf(folder: string, row: CatalogRow, res: real): Entry
    requires Kept(row)
  {
    Entry(row.number.value, Solid(
      row.name,
      FilePath(folder, row.topfile),
      FilePath(folder, row.basefile),
      res,
      row.name))
  }

  /** A copy of the template with the label and the face colour overridden. */
  function StyleOf(template: Style, row: CatalogRow): (style: Style)
    ensures style.Keys == template.Keys + {LabelKey, FaceColorKey}
    ensures style[LabelKey] == Text(row.name)
    ensures style[FaceColorKey] == Text(row.color)
    ensures forall key :: key in template && key != LabelKey && key != FaceColorKey ==>
      style[key] == template[key]
  {
    template[LabelKey := Text(row.name)][FaceColorKey := Text(row.color)]
  }

  /** The entries of the kept rows, in catalog order. */
  function EntriesOf(folder: string, rows: seq<CatalogRow>, res: real): (entries: seq<Entry>)
    ensures |entries| <= |rows|
    ensures forall k :: 0 <= k < |entries| ==> entries[k].number > 0
    decreases |rows|
  {
    if |rows| == 0 then []
    else
      var prefix := EntriesOf(folder, rows[..|rows| - 1], res);
      var last := rows[|rows| - 1];
      if Kept(last) then prefix + [EntryOf(folder, last, res)] else prefix
  }

  /** The style map the kept rows write, one row after the other. */
  function StylesOf(template: Style, rows: seq<CatalogRow>): map<string, Style>
    decreases |rows|
  {
    if |rows| == 0 then map[]
    else
      var prefix := StylesOf(template, rows[..|rows| - 1]);
      var last := rows[|rows| - 1];
      if Kept(last) then prefix[last.name := StyleOf(template, last)] else prefix
  }

  /** The positions of the kept rows, ascending. */
  function KeptIndices(rows: seq<CatalogRow>): (idx: seq<nat>)
    ensures forall k :: 0 <= k < |idx| ==> idx[k] < |rows| && Kept(rows[idx[k]])
    ensures forall k, l :: 0 <= k < l < |idx| ==> idx[k] < idx[l]
    ensures forall i :: 0 <= i < |rows| && Kept(rows[i]) ==> i in idx
    decreases |rows|
  {
    if |rows| == 0 then []
    else
      var prefix := KeptIndices(rows[..|rows| - 1]);
      if Kept(rows[|rows| - 1]) then prefix + [|rows| - 1] else prefix
  }

  function KeptIndexSet(rows: seq<CatalogRow>): set<nat>
  {
    set i: nat | i < |rows| && Kept(rows[i])
  }

  function KeptNames(rows: seq<CatalogRow>): set<string>
  {
    set i | 0 <= i < |rows| && Kept(rows[i]) :: rows[i].name
  }

  /** The position of the last kept row named `name`, or -1 if there is none. */
  function LastKeptNamed(rows: seq<CatalogRow>, name: string): (i: int)
    ensures -1 <= i < |rows|
    ensures i >= 0 ==> Kept(rows[i]) && rows[i].name == name
    ensures i >= 0 ==> forall j :: i < j < |rows| ==> !(Kept(rows[j]) && rows[j].name == name)
    ensures i == -1 ==> forall j :: 0 <= j < |rows| ==> !(Kept(rows[j]) && rows[j].name == name)
    decreases |rows|
  {
    if |rows| == 0 then -1
    else if Kept(rows[|rows| - 1]) && rows[|rows| - 1].name == name then |rows| - 1
    else LastKeptNamed(rows[..|rows| - 1], name)
  }

  /** Whether a row can be processed: its number parses, and if it is kept
      there is a template to copy its style from. */
  predicate RowLoads(row: CatalogRow, default: Option<Style>)
  {
    row.number.Parsed? && (Kept(row) ==> default.Some?)
  }

  function RowError(row: CatalogRow, i: nat): LoadError
  {
    if row.number.NotAnInteger? then MalformedNumber(i) else MissingDefaultStyle(i)
  }

  /*---------------------------------------------------------------------------
   * Loading a catalog
   *-------------------------------------------------------------------------*/

  /** Builds a model from the rows of a catalog, stopping at the first row
      that cannot be processed. */
  method FromFolder(
    folder: string,
    rows: seq<CatalogRow>,
    res: real := DefaultRes,
    default: Option<Style> := None,
    name: Option<string> := None)
    returns (r: Result<Model, LoadError>)
    ensures r.Success? <==> forall i :: 0 <= i < |rows| ==> RowLoads(rows[i], default)
    ensures r.Failure? ==>
      && r.error.row < |rows|
      && !RowLoads(rows[r.error.row], default)
      && r.error == RowError(rows[r.error.row], r.error.row)
      && forall j :: 0 <= j < r.error.row ==> RowLoads(rows[j], default)
    ensures r.Success? ==> r.value.solids == EntriesOf(folder, rows, res)
    ensures r.Success? && default.Some? ==> r.value.styles == StylesOf(default.value, rows)
    ensures r.Success? && default.None? ==> r.value.styles == map[]
    ensures r.Success? ==> r.value.res == res && r.value.default == default && r.value.name == name
  {
    var solids: seq<Entry> := [];
    var styles: map<string, Style> := map[];
    var i := 0;
    while i < |rows|
      invariant 0 <= i <= |rows|
      invariant forall j :: 0 <= j < i ==> RowLoads(rows[j], default)
      invariant solids == EntriesOf(folder, rows[..i], res)
      invariant default.Some? ==> styles == StylesOf(default.value, rows[..i])
      invariant default.None? ==> styles == map[]
    {
      assert rows[..i + 1][..i] == rows[..i];
      var row := rows[i];
      if row.number.NotAnInteger? {
        return Failure(MalformedNumber(i));
      }
      if !(row.number.value > 0) {
        i := i + 1;
        continue;
      }
      solids := solids + [EntryOf(folder, row, res)];
      if default.None? {
        return Failure(MissingDefaultStyle(i));
      }
      styles := styles[row.name := StyleOf(default.value, row)];
      i := i + 1;
    }
    assert rows[..|rows|] == rows;
    r := Success(New(Some(solids), res, Some(styles), default, name));
  }

  /*---------------------------------------------------------------------------
   * Properties of the loaded entries and styles
   *-------------------------------------------------------------------------*/

  /** Entries are the kept rows, in catalog order, each carrying the row's
      number and a solid built from the row's fields. */
  lemma {:induction false} EntriesFollowCatalog(folder: string, rows: seq<CatalogRow>, res: real)
    ensures |EntriesOf(folder, rows, res)| == |KeptIndices(rows)|
    ensures forall k :: 0 <= k < |EntriesOf(folder, rows, res)| ==>
      && EntriesOf(folder, rows, res)[k].number == rows[KeptIndices(rows)[k]].number.value
      && EntriesOf(folder, rows, res)[k].solid == Solid(
           rows[KeptIndices(rows)[k]].name,
           FilePath(folder, rows[KeptIndices(rows)[k]].topfile),
           FilePath(folder, rows[KeptIndices(rows)[k]].basefile),
           res,
           rows[KeptIndices(rows)[k]].name)
    decreases |rows|
  {
    if |rows| > 0 {
      var prefix := rows[..|rows| - 1];
      EntriesFollowCatalog(folder, prefix, res);
      assert forall k :: 0 <= k < |KeptIndices(prefix)| ==> rows[KeptIndices(prefix)[k]] == prefix[KeptIndices(prefix)[k]];
    }
  }

  /** The number of entries is the number of rows whose number is positive. */
  lemma {:induction false} SizeCountsKeptRows(folder: string, rows: seq<CatalogRow>, res: real)
    ensures |EntriesOf(folder, rows, res)| == |KeptIndexSet(rows)|
    decreases |rows|
  {
    if |rows| > 0 {
      var n := |rows| - 1;
      var prefix := rows[..n];
      SizeCountsKeptRows(folder, prefix, res);
      if Kept(rows[n]) {
        assert KeptIndexSet(rows) == KeptIndexSet(prefix) + {n};
      } else {
        assert KeptIndexSet(rows) == KeptIndexSet(prefix);
      }
    }
  }

  /** Loading the rows of two catalogs one after the other gives the
      entries of the first followed by the entries of the second. */
  lemma {:induction false} EntriesOfAppend(folder: string, a: seq<CatalogRow>, b: seq<CatalogRow>, res: real)
    ensures EntriesOf(folder, a + b, res) == EntriesOf(folder, a, res) + EntriesOf(folder, b, res)
    decreases |b|
  {
    if |b| > 0 {
      var n := |b| - 1;
      assert (a + b)[..|a + b| - 1] == a + b[..n];
      EntriesOfAppend(folder, a, b[..n], res);
    } else {
      assert a + b == a;
    }
  }

  /** The styles of two catalogs loaded one after the other: a name the
      second one writes takes the second one's style. */
  lemma {:induction false} StylesOfAppend(template: Style, a: seq<CatalogRow>, b: seq<CatalogRow>)
    ensures StylesOf(template, a + b) == StylesOf(template, a) + StylesOf(template, b)
    decreases |b|
  {
    if |b| > 0 {
      var n := |b| - 1;
      assert (a + b)[..|a + b| - 1] == a + b[..n];
      StylesOfAppend(template, a, b[..n]);
    } else {
      assert a + b == a;
    }
  }

  /** A row whose number is not positive adds no entry and writes no style:
      removing it changes nothing. */
  lemma SkippedRowContributesNothing(folder: string, template: Style, rows: seq<CatalogRow>, i: nat, res: real)
    requires i < |rows| && !Kept(rows[i])
    ensures EntriesOf(folder, rows[..i] + rows[i + 1..], res) == EntriesOf(folder, rows, res)
    ensures StylesOf(template, rows[..i] + rows[i + 1..]) == StylesOf(template, rows)
  {
    var before, row, after := rows[..i], [rows[i]], rows[i + 1..];
    assert rows == (before + row) + after;
    assert row[..0] == [];
    EntriesOfAppend(folder, before, row, res);
    EntriesOfAppend(folder, before + row, after, res);
    EntriesOfAppend(folder, before, after, res);
    StylesOfAppend(template, before, row);
    StylesOfAppend(template, before + row, after);
    StylesOfAppend(template, before, after);
  }

  /** The style map has a key for every kept row's name and for nothing else. */
  lemma {:induction false} StyleKeysAreKeptNames(template: Style, rows: seq<CatalogRow>)
    ensures StylesOf(template, rows).Keys == KeptNames(rows)
    decreases |rows|
  {
    if |rows| > 0 {
      var n := |rows| - 1;
      var prefix := rows[..n];
      StyleKeysAreKeptNames(template, prefix);
      if Kept(rows[n]) {
        assert KeptNames(rows) == KeptNames(prefix) + {rows[n].name};
      } else {
        assert KeptNames(rows) == KeptNames(prefix);
      }
    }
  }

  /** The style stored under a name is the one derived from the last kept
      row with that name. */
  lemma {:induction false} StylesLastWins(template: Style, rows: seq<CatalogRow>, name: string)
    ensures name in StylesOf(template, rows) <==> LastKeptNamed(rows, name) >= 0
    ensures name in StylesOf(template, rows) ==>
      StylesOf(template, rows)[name] == StyleOf(template, rows[LastKeptNamed(rows, name)])
    decreases |rows|
  {
    if |rows| > 0 {
      StylesLastWins(template, rows[..|rows| - 1], name);
    }
  }

  /*---------------------------------------------------------------------------
   * Sorting by number
   *-------------------------------------------------------------------------*/

  predicate SortedByNumber(s: seq<Entry>)
  {
    forall i, j :: 0 <= i < j < |s| ==> s[i].number <= s[j].number
  }

  /** Puts `e` before the first entry whose number is not smaller. */
  function Insert(e: Entry, s: seq<Entry>): (r: seq<Entry>)
    requires SortedByNumber(s)
    ensures SortedByNumber(r)
    ensures multiset(r) == multiset(s) + multiset{e}
    ensures |s| == 0 ==> r == [e]
    ensures |s| > 0 ==> r[0] == e || r[0] == s[0]
    decreases |s|
  {
    if |s| == 0 || e.number <= s[0].number then [e] + s
    else
      var rest := Insert(e, s[1..]);
      assert s == [s[0]] + s[1..];
      assert forall j :: 0 <= j < |rest| ==> s[0].number <= rest[0].number <= rest[j].number;
      [s[0]] + rest
  }

  /** Insertion sort by number. */
  function SortEntries(s: seq<Entry>): (r: seq<Entry>)
    ensures SortedByNumber(r)
    ensures multiset(r) == multiset(s)
    decreases |s|
  {
    if |s| == 0 then []
    else
      assert s == [s[0]] + s[1..];
      Insert(s[0], SortEntries(s[1..]))
  }

  /** Reorders the solids ascending by number; nothing else changes. */
  function Sort(m: Model): (r: Model)
    ensures SortedByNumber(r.solids)
    ensures multiset(r.solids) == multiset(m.solids)
    ensures Size(r) == Size(m)
    ensures r.res == m.res && r.styles == m.styles && r.default == m.default && r.name == m.name
  {
    var sorted := SortEntries(m.solids);
    assert |sorted| == |multiset(sorted)| == |multiset(m.solids)| == |m.solids|;
    m.(solids := sorted)
  }

  /** Sorting entries that are already in order leaves them unchanged. */
  lemma {:induction false} SortedIsFixedPoint(s: seq<Entry>)
    requires SortedByNumber(s)
    ensures SortEntries(s) == s
    decreases |s|
  {
    if |s| > 0 {
      SortedIsFixedPoint(s[1..]);
      assert s == [s[0]] + s[1..];
    }
  }

  /** Sorting twice is sorting once. */
  lemma SortIdempotent(m: Model)
    ensures Sort(Sort(m)) == Sort(m)
  {
    SortedIsFixedPoint(Sort(m).solids);
  }
}
