/** Point sampling of grid files.

    A grid is opened either through the general raster backend or, for files
    with the `.idf` extension when that backend is available, through the
    IDF backend. Each coordinate yields one value; a coordinate outside the
    grid and a cell holding the grid's no-data value both yield NaN.

    Cell values are an abstract `Cell` type (NaN or a number) rather than
    IEEE floats; float equality is modelled by `SameFloat`, under which NaN
    equals nothing, not even itself. */
module RasterFiles {
  import opened Results

  datatype Cell = NaN | Num(value: real)

  /** Float `==`: two numbers with the same value; NaN is equal to nothing. */
  predicate SameFloat(a: Cell, b: Cell)
  {
    a.Num? && b.Num? && a.value == b.value
  }

  /** One band's declared no-data value; `Unset` when the band declares none. */
  datatype NoData = Unset | Declared(cell: Cell)

  type Coord = (real, real)

  /** An open raster dataset: its shape (rows, columns), its map from
      coordinates to (row, column) indices, the cells of band 1 and the
      per-band no-data values. */
  datatype Dataset = Dataset(
    shape: (nat, nat),
    index: Coord -> (int, int),
    band1: seq<seq<Cell>>,
    nodatavals: seq<NoData>)

  /** The raster library's own guarantee: band 1 has the dataset's shape. */
  predicate WellFormed(ds: Dataset)
  {
    && |ds.band1| == ds.shape.0
    && forall row :: 0 <= row < |ds.band1| ==> |ds.band1[row]| == ds.shape.1
  }

  /** An open IDF file: its sampler, which turns coordinates into values,
      and the single no-data value of its header. */
  datatype IdfDataset = IdfDataset(sample: seq<Coord> -> seq<Cell>, nodata: Cell)

  /** Why sampling raises instead of yielding a value. */
  datatype SampleError =
    | IsNanOnUnset   // NaN test on a no-data tuple that holds an unset entry
    | AnyOfScalar    // `any` applied to the single boolean of a scalar NaN test

  /*---------------------------------------------------------------------------
   * Reading raw cells
   *-------------------------------------------------------------------------*/

  /** The coordinate's indices fall inside the grid. */
  predicate InExtent(ds: Dataset, p: Coord)
  {
    var (ix, iy) := ds.index(p);
    ix < ds.shape.0 && ix >= 0 && iy < ds.shape.1 && iy >= 0
  }

  /** The band-1 cell under a coordinate inside the grid. */
  function CellAt(ds: Dataset, p: Coord): Cell
    requires WellFormed(ds) && InExtent(ds, p)
  {
    var (ix, iy) := ds.index(p);
    ds.band1[ix][iy]
  }

  /** The raw value read for one coordinate. */
  function Probe(ds: Dataset, p: Coord): Cell
    requires WellFormed(ds)
  {
    if InExtent(ds, p) then CellAt(ds, p) else NaN
  }

  /** Reads one raw value per coordinate, in order: the band-1 cell when the
      coordinate is inside the grid, NaN when it is not. */
  method TakeSample(ds: Dataset, coords: seq<Coord>) returns (values: seq<Cell>)
    requires WellFormed(ds)
    ensures |values| == |coords|
    ensures forall i :: 0 <= i < |coords| && InExtent(ds, coords[i]) ==> values[i] == CellAt(ds, coords[i])
    ensures forall i :: 0 <= i < |coords| && !InExtent(ds, coords[i]) ==> values[i] == NaN
  {
    values := [];
    var i := 0;
    while i < |coords|
      invariant 0 <= i <= |coords|
      invariant |values| == i
      invariant forall j :: 0 <= j < i && InExtent(ds, coords[j]) ==> values[j] == CellAt(ds, coords[j])
      invariant forall j :: 0 <= j < i && !InExtent(ds, coords[j]) ==> values[j] == NaN
    {
      var (ix, iy) := ds.index(coords[i]);
      if ix < ds.shape.0 && ix >= 0 && iy < ds.shape.1 && iy >= 0 {
        values := values + [ds.band1[ix][iy]];
      } else {
        values := values + [NaN];
      }
      i := i + 1;
    }
  }

  /*---------------------------------------------------------------------------
   * No-data normalisation
   *-------------------------------------------------------------------------*/

  /** The raw value equals one of the declared no-data values. */
  predicate IsNoDataValue(raw: Cell, nodatavals: seq<NoData>)
  {
    exists k :: 0 <= k < |nodatavals| && nodatavals[k].Declared? && SameFloat(raw, nodatavals[k].cell)
  }

  /** Some declared no-data value is NaN. */
  predicate AnyNaN(nodatavals: seq<NoData>)
  {
    exists k :: 0 <= k < |nodatavals| && nodatavals[k].Declared? && nodatavals[k].cell.NaN?
  }

  /** Some band declares no no-data value. */
  predicate AnyUnset(nodatavals: seq<NoData>)
  {
    exists k :: 0 <= k < |nodatavals| && nodatavals[k].Unset?
  }

  /** The raster rule as written: the NaN test over all no-data entries
      raises as soon as one of them is unset. */
  function NormalizeRasterAsWritten(raw: Cell, nodatavals: seq<NoData>): (r: Result<Cell, SampleError>)
    ensures r.Failure? <==> raw.NaN? && AnyUnset(nodatavals)
    ensures r.Success? ==> r.value == NormalizeRaster(raw, nodatavals)
  {
    if IsNoDataValue(raw, nodatavals) then Success(NaN)
    else if raw.NaN? then
      if AnyUnset(nodatavals) then Failure(IsNanOnUnset)
      else if AnyNaN(nodatavals) then Success(NaN)
      else Success(raw)
    else Success(raw)
  }

  /** The raster rule with the NaN test restricted to declared no-data values:
      a value is kept exactly when it is a number that is not a no-data value. */
  function NormalizeRaster(raw: Cell, nodatavals: seq<NoData>): (c: Cell)
    ensures c.Num? <==> raw.Num? && !IsNoDataValue(raw, nodatavals)
    ensures c.Num? ==> c == raw
  {
    if IsNoDataValue(raw, nodatavals) then NaN
    else if raw.NaN? && AnyNaN(nodatavals) then NaN
    else raw
  }

  /** The IDF rule as written: `any` over the one boolean of a scalar NaN
      test raises whenever the raw value is NaN. */
  function NormalizeIdfAsWritten(raw: Cell, nodata: Cell): (r: Result<Cell, SampleError>)
    ensures r.Failure? <==> raw.NaN?
    ensures r.Success? ==> r.value == NormalizeIdf(raw, nodata)
  {
    if SameFloat(raw, nodata) then Success(NaN)
    else if raw.NaN? then Failure(AnyOfScalar)
    else Success(raw)
  }

  /** The IDF rule with the scalar NaN test: a value is kept exactly when it
      is a number other than the header's no-data value. */
  function NormalizeIdf(raw: Cell, nodata: Cell): (c: Cell)
    ensures c.Num? <==> raw.Num? && !SameFloat(raw, nodata)
    ensures c.Num? ==> c == raw
  {
    if SameFloat(raw, nodata) then NaN
    else if raw.NaN? && nodata.NaN? then NaN
    else raw
  }

  /** The IDF rule is the raster rule for a single declared no-data value. */
  lemma IdfRuleIsRasterRule(raw: Cell, nodata: Cell)
    ensures NormalizeIdf(raw, nodata) == NormalizeRaster(raw, [Declared(nodata)])
  {
    var nodatavals := [Declared(nodata)];
    assert IsNoDataValue(raw, nodatavals) <==> SameFloat(raw, nodata) by {
      assert nodatavals[0] == Declared(nodata);
    }
    assert AnyNaN(nodatavals) <==> nodata.NaN? by {
      assert nodatavals[0] == Declared(nodata);
    }
  }

  /** With an unset no-data entry, a coordinate outside the grid makes the
      raster rule as written raise, where NaN is meant. */
  lemma OutsideExtentWithoutNoDataRaises(ds: Dataset, p: Coord)
    requires WellFormed(ds) && !InExtent(ds, p) && AnyUnset(ds.nodatavals)
    ensures NormalizeRasterAsWritten(Probe(ds, p), ds.nodatavals).Failure?
    ensures NormalizeRaster(Probe(ds, p), ds.nodatavals) == NaN
  {
  }

  /** A one-cell raster with no declared no-data value, sampled below its
      first row. */
  lemma OutsideExtentWithoutNoDataExample()
    ensures var ds := Dataset((1, 1), (p: Coord) => (-1, 0), [[Num(12.5)]], [Unset]);
      && WellFormed(ds)
      && NormalizeRasterAsWritten(Probe(ds, (0.0, 1000.0)), ds.nodatavals) == Failure(IsNanOnUnset)
      && NormalizeRaster(Probe(ds, (0.0, 1000.0)), ds.nodatavals) == NaN
  {
    var ds := Dataset((1, 1), (p: Coord) => (-1, 0), [[Num(12.5)]], [Unset]);
    assert ds.nodatavals[0].Unset?;
  }

  /** Any NaN read from an IDF file makes the IDF rule as written raise,
      where NaN is meant. */
  lemma NaNSampleRaisesInIdf(raw: Cell, nodata: Cell)
    requires raw.NaN?
    ensures NormalizeIdfAsWritten(raw, nodata) == Failure(AnyOfScalar)
    ensures NormalizeIdf(raw, nodata) == NaN
  {
  }

  /*---------------------------------------------------------------------------
   * Samplers
   *-------------------------------------------------------------------------*/

  /** Samples a raster: one value per coordinate, in order; a value is a
      number exactly when the coordinate is inside the grid and its cell is a
      number other than every no-data value. */
  method SampleRaster(ds: Dataset, coords: seq<Coord>) returns (out: seq<Cell>)
    requires WellFormed(ds)
    ensures |out| == |coords|
    ensures forall i :: 0 <= i < |coords| ==> out[i] == NormalizeRaster(Probe(ds, coords[i]), ds.nodatavals)
    ensures forall i :: 0 <= i < |coords| ==>
      (out[i].Num? <==>
        InExtent(ds, coords[i]) && CellAt(ds, coords[i]).Num? && !IsNoDataValue(CellAt(ds, coords[i]), ds.nodatavals))
    ensures forall i :: 0 <= i < |coords| && out[i].Num? ==> InExtent(ds, coords[i]) && out[i] == CellAt(ds, coords[i])
  {
    var values := TakeSample(ds, coords);
    out := [];
    var i := 0;
    while i < |values|
      invariant 0 <= i <= |values|
      invariant |out| == i
      invariant forall j :: 0 <= j < i ==> out[j] == NormalizeRaster(values[j], ds.nodatavals)
    {
      out := out + [NormalizeRaster(values[i], ds.nodatavals)];
      i := i + 1;
    }
    assert forall j :: 0 <= j < |coords| ==> values[j] == Probe(ds, coords[j]);
  }

  /** Samples an IDF file: one value per value its sampler yields, in order,
      each normalised against the header's no-data value. */
  method SampleIdf(idf: IdfDataset, coords: seq<Coord>) returns (out: seq<Cell>)
    ensures |out| == |idf.sample(coords)|
    ensures forall i :: 0 <= i < |out| ==> out[i] == NormalizeIdf(idf.sample(coords)[i], idf.nodata)
    ensures forall i :: 0 <= i < |out| ==>
      (out[i].Num? <==> idf.sample(coords)[i].Num? && !SameFloat(idf.sample(coords)[i], idf.nodata))
  {
    var values := idf.sample(coords);
    out := [];
    var i := 0;
    while i < |values|
      invariant 0 <= i <= |values|
      invariant |out| == i
      invariant forall j :: 0 <= j < i ==> out[j] == NormalizeIdf(values[j], idf.nodata)
    {
      out := out + [NormalizeIdf(values[i], idf.nodata)];
      i := i + 1;
    }
  }

  /*---------------------------------------------------------------------------
   * Backend dispatch
   *-------------------------------------------------------------------------*/

  datatype Backend = IdfBackend | RasterBackend

  const IdfSuffix: string := ".idf"

  /** Lower-casing of the ASCII letters. */
  function LowerChar(c: char): char
  {
    if 'A' <= c <= 'Z' then (c as int + 32) as char else c
  }

  function Lower(s: string): string
  {
    seq(|s|, i requires 0 <= i < |s| => LowerChar(s[i]))
  }

  predicate EndsWith(s: string, suffix: string)
  {
    |suffix| <= |s| && s[|s| - |suffix|..] == suffix
  }

  /** The IDF backend is chosen exactly when it is available and the file
      name ends in `.idf` written in any mix of cases. */
  function ChooseBackend(gridfile: string, idfAvailable: bool): (b: Backend)
    ensures b == IdfBackend <==>
      && idfAvailable
      && |gridfile| >= 4
      && gridfile[|gridfile| - 4] == '.'
      && gridfile[|gridfile| - 3] in "iI"
      && gridfile[|gridfile| - 2] in "dD"
      && gridfile[|gridfile| - 1] in "fF"
  {
    var n := |gridfile|;
    assert n >= 4 ==>
      (Lower(gridfile)[n - 4..] == IdfSuffix <==>
        && Lower(gridfile)[n - 4..][0] == '.' && Lower(gridfile)[n - 4..][1] == 'i'
        && Lower(gridfile)[n - 4..][2] == 'd' && Lower(gridfile)[n - 4..][3] == 'f');
    if idfAvailable && EndsWith(Lower(gridfile), IdfSuffix) then IdfBackend else RasterBackend
  }

  /** Samples a grid file through the backend its name and the IDF
      backend's availability select. `openRaster` and `openIdf` stand for
      opening the file with each backend. */
  method Sample(
    gridfile: string,
    coords: seq<Coord>,
    idfAvailable: bool,
    openRaster: string -> Dataset,
    openIdf: string -> IdfDataset)
    returns (out: seq<Cell>)
    requires ChooseBackend(gridfile, idfAvailable) == RasterBackend ==> WellFormed(openRaster(gridfile))
    ensures ChooseBackend(gridfile, idfAvailable) == IdfBackend ==>
      && |out| == |openIdf(gridfile).sample(coords)|
      && forall i :: 0 <= i < |out| ==>
           out[i] == NormalizeIdf(openIdf(gridfile).sample(coords)[i], openIdf(gridfile).nodata)
    ensures ChooseBackend(gridfile, idfAvailable) == RasterBackend ==>
      && |out| == |coords|
      && forall i :: 0 <= i < |out| ==>
           out[i] == NormalizeRaster(Probe(openRaster(gridfile), coords[i]), openRaster(gridfile).nodatavals)
  {
    if idfAvailable && EndsWith(Lower(gridfile), IdfSuffix) {
      out := SampleIdf(openIdf(gridfile), coords);
    } else {
      out := SampleRaster(openRaster(gridfile), coords);
    }
  }

  /*---------------------------------------------------------------------------
   * Samplers as written
   *-------------------------------------------------------------------------*/

  /** The raster sampler as written: it raises at the first value whose
      no-data test raises; when none does, it agrees with `SampleRaster`. */
  method SampleRasterAsWritten(ds: Dataset, coords: seq<Coord>) returns (r: Result<seq<Cell>, SampleError>)
    requires WellFormed(ds)
    ensures r.Failure? <==>
      exists i :: 0 <= i < |coords| && NormalizeRasterAsWritten(Probe(ds, coords[i]), ds.nodatavals).Failure?
    ensures r.Failure? <==>
      AnyUnset(ds.nodatavals) && exists i :: 0 <= i < |coords| && Probe(ds, coords[i]).NaN?
    ensures r.Success? ==>
      && |r.value| == |coords|
      && forall i :: 0 <= i < |coords| ==> r.value[i] == NormalizeRaster(Probe(ds, coords[i]), ds.nodatavals)
  {
    var values := TakeSample(ds, coords);
    assert forall j :: 0 <= j < |coords| ==> values[j] == Probe(ds, coords[j]);
    var out: seq<Cell> := [];
    var i := 0;
    while i < |values|
      invariant 0 <= i <= |values|
      invariant |out| == i
      invariant forall j :: 0 <= j < i ==> NormalizeRasterAsWritten(values[j], ds.nodatavals).Success?
      invariant forall j :: 0 <= j < i ==> out[j] == NormalizeRaster(values[j], ds.nodatavals)
    {
      var value := NormalizeRasterAsWritten(values[i], ds.nodatavals);
      if value.Failure? {
        return Failure(value.error);
      }
      out := out + [value.value];
      i := i + 1;
    }
    r := Success(out);
  }

  /** The IDF sampler as written: it raises at the first NaN its sampler
      yields; when there is none, it agrees with `SampleIdf`. */
  method SampleIdfAsWritten(idf: IdfDataset, coords: seq<Coord>) returns (r: Result<seq<Cell>, SampleError>)
    ensures r.Failure? <==>
      exists i :: 0 <= i < |idf.sample(coords)| && idf.sample(coords)[i].NaN?
    ensures r.Success? ==>
      && |r.value| == |idf.sample(coords)|
      && forall i :: 0 <= i < |r.value| ==> r.value[i] == NormalizeIdf(idf.sample(coords)[i], idf.nodata)
  {
    var values := idf.sample(coords);
    var out: seq<Cell> := [];
    var i := 0;
    while i < |values|
      invariant 0 <= i <= |values|
      invariant |out| == i
      invariant forall j :: 0 <= j < i ==> values[j].Num?
      invariant forall j :: 0 <= j < i ==> out[j] == NormalizeIdf(values[j], idf.nodata)
    {
      var value := NormalizeIdfAsWritten(values[i], idf.nodata);
      if value.Failure? {
        return Failure(value.error);
      }
      out := out + [value.value];
      i := i + 1;
    }
    r := Success(out);
  }

  /** The dispatching sampler as written: the same backend choice as
      `Sample`, over the as-written samplers. */
  method SampleAsWritten(
    gridfile: string,
    coords: seq<Coord>,
    idfAvailable: bool,
    openRaster: string -> Dataset,
    openIdf: string -> IdfDataset)
    returns (r: Result<seq<Cell>, SampleError>)
    requires ChooseBackend(gridfile, idfAvailable) == RasterBackend ==> WellFormed(openRaster(gridfile))
    ensures ChooseBackend(gridfile, idfAvailable) == IdfBackend ==>
      (r.Failure? <==> exists i :: 0 <= i < |openIdf(gridfile).sample(coords)| && openIdf(gridfile).sample(coords)[i].NaN?)
    ensures ChooseBackend(gridfile, idfAvailable) == RasterBackend ==>
      (r.Failure? <==>
        AnyUnset(openRaster(gridfile).nodatavals) && exists i :: 0 <= i < |coords| && Probe(openRaster(gridfile), coords[i]).NaN?)
    ensures r.Success? && ChooseBackend(gridfile, idfAvailable) == IdfBackend ==>
      && |r.value| == |openIdf(gridfile).sample(coords)|
      && forall i :: 0 <= i < |r.value| ==>
           r.value[i] == NormalizeIdf(openIdf(gridfile).sample(coords)[i], openIdf(gridfile).nodata)
    ensures r.Success? && ChooseBackend(gridfile, idfAvailable) == RasterBackend ==>
      && |r.value| == |coords|
      && forall i :: 0 <= i < |coords| ==>
           r.value[i] == NormalizeRaster(Probe(openRaster(gridfile), coords[i]), openRaster(gridfile).nodatavals)
  {
    if idfAvailable && EndsWith(Lower(gridfile), IdfSuffix) {
      r := SampleIdfAsWritten(openIdf(gridfile), coords);
    } else {
      r := SampleRasterAsWritten(openRaster(gridfile), coords);
    }
  }
}
