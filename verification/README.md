# xsboringen ground layer model and grid sampling, in Dafny

This project models two pieces of the xsboringen cross-section tool.

1. **The ground layer model** (`GroundLayerModel`, in `groundlayermodel.dfy`).
   A catalog lists numbered solids. A solid is a geological layer with a top grid file, a base grid file and a colour.
   Loading the catalog keeps only the rows whose number is strictly positive.
   Each kept row becomes a `(number, solid)` entry, in catalog order.
   Each kept row also writes a plot style under the solid's name.
   That style is a copy of the default template with `label` and `facecolor` overridden.
   `Sort` orders the entries by number.
2. **Grid point sampling** (`RasterFiles`, in `rasterfiles.dfy`).
   A coordinate outside the raster reads as NaN.
   A coordinate inside reads as the band-1 cell.
   The value then becomes NaN when it equals a no-data value.
   The samplers are modelled twice: as written, where the NaN test raises in the cases listed under "## Findings", and corrected, where every such value yields NaN.
   The IDF backend is used instead of the raster backend only when it is available and the file name ends in `.idf`, in any case.

`results.dfy` holds the `Option` and `Result` types. Python exceptions become `Failure` values.

Cell values are the abstract `Cell = NaN | Num(real)`. Float `==` is `SameFloat`, under which NaN equals nothing.
Foreign calls are parameters of the model:
- the raster dataset's `index` transform, `shape`, band-1 cells and `nodatavals`;
- the IDF file's `sample` function and header no-data value;
- opening a file with either backend;
- whether the IDF backend is installed.

## Model

| member | source | states |
|---|---|---|
| GroundLayerModel.NewWithoutContentsIsEmpty | xsboringen/groundlayermodel.py:18-37 | A model constructed without solids or styles has size 0 and an empty style map, and keeps the given resolution. With no arguments at all its resolution is the default 10. |
| GroundLayerModel.FromFolder | xsboringen/groundlayermodel.py:40-82 | Loading succeeds iff every row's number parses and, when there is no default template, no row is kept. On failure the error names the first bad row and its kind, and all earlier rows were fine. On success the solids are the kept rows' entries and the styles are the kept rows' styles. Resolution, template and name are stored unchanged. |
| GroundLayerModel.EntriesOf | xsboringen/groundlayermodel.py:52-66 | Every stored number is strictly positive, and there are never more entries than rows. |
| GroundLayerModel.KeptIndices | xsboringen/groundlayermodel.py:52-56 | The kept row positions are strictly increasing. Each one points at a row with a positive number, and every such row is listed. |
| GroundLayerModel.EntriesFollowCatalog | xsboringen/groundlayermodel.py:58-66 | Entry k comes from the k-th kept row, in catalog order. It carries that row's number and a solid with the row's name, `folder / topfile`, `folder / basefile`, the given resolution, and the name as style key. |
| GroundLayerModel.SizeCountsKeptRows | xsboringen/groundlayermodel.py:52-60 | The number of entries equals the number of rows whose number is strictly positive. |
| GroundLayerModel.EntriesOfAppend | xsboringen/groundlayermodel.py:52-66 | Loading two row sequences one after the other gives the first one's entries followed by the second one's, so catalog order is kept. |
| GroundLayerModel.SkippedRowContributesNothing | xsboringen/groundlayermodel.py:54-56 | Removing a row whose number is not positive changes neither the entries nor the styles. |
| GroundLayerModel.StyleOf | xsboringen/groundlayermodel.py:69-73 | A row's style has the template's keys plus `label` and `facecolor`. `label` is the row's name, `facecolor` is the row's colour, and every other key keeps the template's value. |
| GroundLayerModel.StyleKeysAreKeptNames | xsboringen/groundlayermodel.py:74 | The style map's keys are exactly the names of the kept rows. |
| GroundLayerModel.StylesLastWins | xsboringen/groundlayermodel.py:74 | A name has a style iff some kept row has that name. Its style is derived from the last such row. |
| GroundLayerModel.StylesOfAppend | xsboringen/groundlayermodel.py:68-74 | The styles of two row sequences loaded one after the other are the first one's styles overridden by the second one's. |
| GroundLayerModel.Insert | xsboringen/groundlayermodel.py:85 | Inserting into entries sorted by number keeps them sorted and adds exactly that entry. |
| GroundLayerModel.SortEntries | xsboringen/groundlayermodel.py:85 | The result is sorted by number and is a permutation of the input. |
| GroundLayerModel.Sort | xsboringen/groundlayermodel.py:84-85 | After sorting, the solids are non-decreasing by number and a permutation of the previous solids. Size, styles, resolution, template and name are unchanged. |
| GroundLayerModel.SortedIsFixedPoint | xsboringen/groundlayermodel.py:84-85 | Sorting entries already in number order leaves them as they are. |
| GroundLayerModel.SortIdempotent | xsboringen/groundlayermodel.py:84-85 | Sorting twice gives the same model as sorting once. |
| RasterFiles.TakeSample | xsboringen/rasterfiles.py:21-29 | There is one raw value per coordinate, in order. It is the band-1 cell when both indices are within the shape, and NaN otherwise. |
| RasterFiles.NormalizeRaster | xsboringen/rasterfiles.py:37-42 | The normalised value is a number iff the raw value is a number equal to no declared no-data value. A number passes through unchanged. Raw NaN and no-data values become NaN. |
| RasterFiles.NormalizeRasterAsWritten | xsboringen/rasterfiles.py:37-42 | As written, the rule raises iff the raw value is NaN and some band's no-data value is unset. Otherwise it agrees with `NormalizeRaster`. |
| RasterFiles.SampleRaster | xsboringen/rasterfiles.py:32-42 | The corrected raster sampler never raises. There is one value per coordinate, in order. A value is a number iff the coordinate is inside the grid and its cell is a number that is not a no-data value. In that case the value is that cell. |
| RasterFiles.NormalizeIdf | xsboringen/rasterfiles.py:50-55 | The value is a number iff the raw value is a number other than the header's no-data value. A number passes through unchanged. |
| RasterFiles.NormalizeIdfAsWritten | xsboringen/rasterfiles.py:50-55 | As written, the IDF rule raises iff the raw value is NaN. Otherwise it agrees with `NormalizeIdf`. |
| RasterFiles.IdfRuleIsRasterRule | xsboringen/rasterfiles.py:49-55 | The IDF rule is the raster rule applied to the single header no-data value. |
| RasterFiles.SampleIdf | xsboringen/rasterfiles.py:45-55 | The corrected IDF sampler never raises. There is one output per value the IDF sampler yields, in order. Each output is normalised against the header's no-data value. |
| RasterFiles.ChooseBackend | xsboringen/rasterfiles.py:60-63 | The IDF backend is chosen iff it is available and the path ends in `.`, `i`/`I`, `d`/`D`, `f`/`F`. Otherwise the raster backend is chosen. |
| RasterFiles.Sample | xsboringen/rasterfiles.py:58-64 | The output is the corrected IDF sampler's output when the IDF backend is selected, and the corrected raster sampler's output otherwise. |
| RasterFiles.SampleRasterAsWritten | xsboringen/rasterfiles.py:32-42 | As written, the raster sampler raises iff some band's no-data value is unset and some coordinate reads as NaN, which includes every coordinate outside the grid. Otherwise it yields one value per coordinate, in order, equal to the corrected sampler's. |
| RasterFiles.SampleIdfAsWritten | xsboringen/rasterfiles.py:45-55 | As written, the IDF sampler raises iff its sampler yields a NaN. Otherwise it yields one value per sampled value, in order, equal to the corrected sampler's. |
| RasterFiles.SampleAsWritten | xsboringen/rasterfiles.py:58-64 | As written, the dispatching sampler makes the same backend choice, raises exactly when the chosen as-written sampler raises, and otherwise equals the corrected output. |
| RasterFiles.OutsideExtentWithoutNoDataRaises | xsboringen/rasterfiles.py:39 | On a raster with an unset no-data entry, a coordinate outside the grid makes the as-written rule raise, while the corrected rule yields NaN. |
| RasterFiles.OutsideExtentWithoutNoDataExample | xsboringen/rasterfiles.py:39 | A one-cell raster with no-data values `[None]`, sampled outside its extent, makes the as-written rule fail. |
| RasterFiles.NaNSampleRaisesInIdf | xsboringen/rasterfiles.py:52 | A NaN read from an IDF file makes the as-written rule raise, while the corrected rule yields NaN. |

## Findings

| source | as written | input that shows it | evidently intended | confidence | as-written member | corrected member |
|---|---|---|---|---|---|---|
| xsboringen/rasterfiles.py:39 | `any(np.isnan(src.nodatavals))` tests every per-band no-data value. rasterio reports a band without a no-data value as `None`, and `np.isnan` on a tuple holding `None` raises `TypeError`. | A raster with `nodatavals == (None,)`, sampled at a coordinate outside its extent: the raw value is `nan`, `nan in (None,)` is false, and the NaN test raises. | Yield NaN, which is the whole point of the out-of-extent workaround. A raw NaN is NaN after normalisation in every branch anyway. | medium, not executed | RasterFiles.NormalizeRasterAsWritten, RasterFiles.SampleRasterAsWritten, RasterFiles.OutsideExtentWithoutNoDataExample | RasterFiles.NormalizeRaster |
| xsboringen/rasterfiles.py:52 | `any(np.isnan(src.header['nodata']))` applies `any` to the single numpy boolean that `np.isnan` returns for a scalar, and that boolean is not iterable. | Any IDF file whose sampler yields `nan` for some coordinate: `nan == nodata` is false, and the `any(...)` call raises `TypeError`. | Yield NaN, with the NaN test applied to the scalar no-data value directly. | medium, not executed | RasterFiles.NormalizeIdfAsWritten, RasterFiles.SampleIdfAsWritten, RasterFiles.NaNSampleRaisesInIdf | RasterFiles.NormalizeIdf |

## Left out

- Reading the catalog: opening the file, `csv.DictReader`, the delimiter and the field-name mapping are left out. A missing column is a `KeyError` that is not modelled. Rows arrive as `CatalogRow` records whose fields have already been looked up.
- `int()` parsing is represented by its outcome, `ParsedNumber`: the integer, or the failure that aborts the load.
- `Solid` is not part of this model. A solid is the record of its constructor arguments.
- `pathlib` joining is kept as the pair `FilePath(folder, file)`. Absolute file names and path normalisation are not modelled.
- GroundLayerModel.StyleOf: template values other than strings, numbers and flags (`None`, colour tuples, dash lists) are the opaque `Other` variant. They are only ever copied, so nothing depends on their contents.
- GroundLayerModel.Sort: orders by number only. On equal numbers Python's `sorted` compares the `Solid`s themselves. That comparison is not visible, and it raises if solids are not orderable. The model keeps such ties in their previous order.
- GroundLayerModel.SortedIsFixedPoint: is a property of the number-only sort. On tied numbers Python's `sorted` may reorder by `Solid` or raise, so the source's sort need not leave number-sorted input unchanged.
- GroundLayerModel.New: `solids or []` also swaps an empty list passed in for a fresh one. Both are the same value here, so the model does not distinguish them.
- The `default.copy()` isolation is structural, because Dafny maps are values. `FromFolder` states that the stored template is the one given.
- The raster library (`rasterio.open`, the affine `index` transform, `read()`) and `idfpy` (`open`, `sample`) are abstract inputs. The model assumes only that band 1 has the dataset's shape. Only band 1 is read, as in the source.
- IEEE floating point is replaced by `Cell`. `float()` conversion is the identity. Python's identity-before-equality rule for `in` is not modelled. It could only matter for a raw NaN, and a raw NaN ends as NaN either way.
- The samplers return the whole output sequence instead of a lazy generator. File-handle scoping is not modelled. The as-written samplers return a failure for the whole call. A generator would first yield the values before the failing one.
- RasterFiles.SampleRaster: is the corrected sampler. The source raises `TypeError` on a raster with an unset no-data entry whenever a coordinate reads as NaN. `RasterFiles.SampleRasterAsWritten` models that behaviour.
- RasterFiles.SampleIdf: is the corrected sampler. The source raises `TypeError` whenever the IDF sampler yields NaN. `RasterFiles.SampleIdfAsWritten` models that behaviour.
- RasterFiles.Sample: dispatches to the corrected samplers, so it never raises. `RasterFiles.SampleAsWritten` dispatches to the as-written ones.
- The `idfpy` import flag is the `idfAvailable` parameter.
- RasterFiles.ChooseBackend: `str.lower()` is modelled for ASCII letters only. Non-ASCII case mappings are not modelled.
- Logging and `__repr__` are left out.
