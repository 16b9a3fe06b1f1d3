# colorful-terrarium, modelled in Dafny

colorful-terrarium is a Go tile server that produces coloured relief and re-encoded elevation tiles.
For a request `/{provider}/{z}/{y}/{x}` it does the following:

1. Validates the tile coordinate.
2. Fetches the four Terrarium subtiles one zoom level deeper and composites them into a 512 x 512 canvas.
3. Decodes the canvas into an elevation grid.
4. Corrects the sea floor inside "high-fix" zones.
5. Classifies every pixel (land, ice, polar, desert and equator factors) against spatial indexes of triangulated polygons.
6. Hands the cells to a colour provider. A palette provider blends colour stops. A Terrarium or mono-terrain profile re-encodes the elevation as RGB or 16-bit grey.

A TypeScript batch script prepares the desert zones by buffering the desert polygons 30 km outward and inward.

This project models that pipeline's logic, one Dafny module per source file:

- **ScaleDesert**: the desert buffer batch.
- **Elevation, TerrainTerrarium, Imaging, Upscale**: the elevation grid, the Terrarium decoder and tile compositing.
- **TerrainFix, Cell, Desert, TileToGeo**: sea-floor correction, pixel cells, the desert-factor matrix and tile geometry.
- **TerrariumCodec, MonoCodec**: the two elevation pixel codecs.
- **TerrariumLand, TerrariumWater, MonoLand, MonoWater**: the four profiles built on the codecs.
- **ColorHelpers, ColorV1, ColorV2, CustomIkarus**: the palette lookup and the three colour providers.
- **Spatial, TriangleData, TrianglePolygon, TerrainIndex, TerrainGeojson**: the spatial index, the triangulation and the two coverage variants.
- **Http**: request validation.

Shared value types live in Geo (orb's points and bounds) and in Colors (palette.go and providers.go). Small helper modules model Go's numeric and decimal conversions (Numeric, Decimal) and an Option type (Outcomes).

Modelling conventions:

- **Numbers.** Floating-point values are `real`. `math.Round` rounds half away from zero. `math.Mod` keeps the sign of its first operand. Where an out-of-range float-to-integer conversion is reachable, it is written out as a wrap to 8, 16 or 32 bits.
- **Libraries and oracles.** Code outside the repository is a function-typed parameter: `turf.buffer`, earcut, the R-tree searches, `polygon.DistanceToPolygon`, `math.Pow` and the Mercator latitude formulas.
- **Context.** A cancelled `context.Context` is a boolean parameter.
- **Objects.** An `ElevationMap` is a class whose `data` field is written in place. The spatial `Index` is a class whose entries, polygon table and bounds `Insert` updates.
- **Loops.** Every loop of the source is a `while` loop, proved against a specification function.
- **Images.** Output images are `array2` values indexed `[y - minY, x - minX]`.

The model follows the source where the code and its comments or names disagree:

- `getTileLatitudes` returns the northern edge first (`TileToGeo.GetTileLatitudes`). A tile's `Bound()` therefore has `Min.Y > Max.Y`, which is empty in orb's sense (`TileToGeo.LatitudeSwapInvertsBound`).
- `CreateTileBounds` never fills in `Zoom`, `TileX` or `TileY` (`TileToGeo.CreateTileBounds`). The `Zoom > 10` guard of terrain-fix.go therefore never fires on such bounds. `TerrainFix.FixElevationMap` still models the guard.
- The water profiles' ice write is always overwritten (`TerrariumWater.IceIgnored`, `MonoWater.IceIgnored`).
- Triangle k of a triangulation is named after `3k`, not `k` (`TrianglePolygon.TriangleAt`).
- desert.go calls `tileMap.IsLand(x, y)` with two coordinates. terrain/elevation.go only has `IsLand(elevation)`, so the model reads it as `IsLand(GetElevation(x, y))`.
- `GetElevationMapForTerrarium` passes `coord.X` as `parentY` and `coord.Y` as `parentX`. Together with the `(Y % 2, X % 2)` offsets, this still puts each child in its own quadrant (`TerrainTerrarium.ArgumentSwapPlacesChildren`).
- terrain/index.go writes a fallback polygon into `distancePolygons[i]` and then overwrites it with the possibly nil inner polygon, so a missing inner polygon panics. A missing outer polygon ends the process through `log.Fatalf`. terrain/geojson.go dereferences both without a check, so each case is a panic there. The `Factor` datatype carries these outcomes, and NaN for 0/0.

## Model

| member | source | states |
|---|---|---|
| ScaleDesert.ScaleGeometry | scale-desert/index.ts:11-29 | the buffered geometry when turf.buffer yields a feature, the very same input geometry when it throws |
| ScaleDesert.ScaleGeometryUsesFixedOptions | scale-desert/index.ts:17-20 | the result depends on the buffer oracle only at units "kilometers" and 8 steps |
| ScaleDesert.IsPolygonal | scale-desert/index.ts:39-40 | definition (no contract): the geometry type is "Polygon" or "MultiPolygon"; PolygonalBuffered and NonPolygonalPassThrough state its two branches |
| ScaleDesert.PropertiesOf | scale-desert/index.ts:45-46 | definition (no contract): the properties being spread, a null object spreading to nothing; MapFeature states the copy |
| ScaleDesert.IdOf | scale-desert/index.ts:44 | definition (no contract): the JSON string String(idx); IdsArePositions and IdsAreDistinct state its properties |
| ScaleDesert.MapFeature | scale-desert/index.ts:37-63 | id and properties.id become String(idx) and the other properties are copied; the other members are kept; a polygonal geometry is replaced by ScaleGeometry and any other is kept |
| ScaleDesert.MapFeatures | scale-desert/index.ts:37 | one output per input feature, in input order, output i being MapFeature at position i |
| ScaleDesert.ScaleDeserts | scale-desert/index.ts:31-118 | the run fails exactly when some feature has a null geometry; otherwise both documents are FeatureCollections of the input's length, mapped at +30 and -30 km |
| ScaleDesert.IdsArePositions | scale-desert/index.ts:42-48 | output feature i of both collections has id and properties.id String(i) |
| ScaleDesert.IdsAreDistinct | scale-desert/index.ts:44 | two different output positions carry different ids |
| ScaleDesert.NonPolygonalPassThrough | scale-desert/index.ts:55-62 | a non-polygonal feature keeps its geometry and members and is equal in both outputs |
| ScaleDesert.PolygonalBuffered | scale-desert/index.ts:49-52 | a polygonal feature is ScaleGeometry(g, 30) in the outer and ScaleGeometry(g, -30) in the inner output |
| ScaleDesert.FallbackKeepsGeometry | scale-desert/index.ts:25-28 | where buffering fails in one direction, that output keeps the feature's original geometry |
| ScaleDesert.OuterInnerDifferOnlyInGeometry | scale-desert/index.ts:64-90 | outer and inner entry i have the same id, properties and members |
| Elevation.ElevationMap.constructor | terrain/elevation.go:4-7 | the map holds the given rows and tile size |
| Elevation.IsLand | terrain/elevation.go:23-26 | definition (no contract): land is an elevation above 0; Elevation.ElevationMap.GetNeighborhoodStats counts by it |
| Elevation.ElevationMap.GetElevation | terrain/elevation.go:11-16 | 0 for a position off the TileSize x TileSize grid, Data[y][x] on it |
| Elevation.ElevationMap.ModifyElevation | terrain/elevation.go:19-21 | Data[y][x] becomes the new value and every other cell keeps its value |
| Elevation.ElevationMap.GetNeighborhood | terrain/elevation.go:29-40 | (2r+1)^2 entries in row-major order, entry k being GetElevation(x + k mod (2r+1) - r, y + k div (2r+1) - r) |
| Elevation.ElevationMap.GetNeighborhoodStats | terrain/elevation.go:44-64 | landCount and waterCount count in-grid neighbours above and at-or-below 0; hasEdge reports an off-grid neighbour |
| Elevation.ElevationMap.RowCountPositive | terrain/elevation.go:46-61 | a row count is positive exactly when one neighbour of the row is of that kind |
| Elevation.ElevationMap.BlockCountPositive | terrain/elevation.go:45-62 | a block count is positive exactly when one neighbour of the block is of that kind |
| Elevation.ElevationMap.HasEdgeIffOffGridNeighbour | terrain/elevation.go:50-53 | hasEdge holds exactly when some neighbour lies off the grid |
| Elevation.ElevationMap.RowPartition | terrain/elevation.go:46-61 | land, water and off-grid counts of a row add up to its width |
| Elevation.ElevationMap.BlockPartition | terrain/elevation.go:45-62 | land, water and off-grid counts of a block of rows add up to its size |
| Elevation.ElevationMap.StatsPartitionNeighborhood | terrain/elevation.go:44-64 | landCount + waterCount + off-grid neighbours = (2r+1)^2 |
| TerrainFix.TargetElevation | terrain-fix.go:36 | the target depth lies in [-220, -24] for a factor in [0, 1], is -24 at 0 and -220 at 1 |
| TerrainFix.FixCell | terrain-fix.go:26-45 | cells above 20 m or on land, and cells with factor 0, are kept; a non-number factor ends the run; a factor above 0.1 writes the target |
| TerrainFix.FixAt | terrain-fix.go:20-47 | definition (no contract): the FixCell decision for cell (x, y) with the latitude of row y and the longitude of column x; StepFixed and FixElevationMap state the loop against it |
| TerrainFix.BlendBetweenCellAndTarget | terrain-fix.go:39-42 | for 0 < factor <= 0.1 the written value lies between the old elevation and the target |
| TerrainFix.BlendMeetsTargetAtEdge | terrain-fix.go:39-45 | at factor 0.1 the blend equals the target, so the two branches meet |
| TerrainFix.WrittenDepthBounded | terrain-fix.go:36-45 | a written depth is at least -220 or the old value, and at most -24 or the old value |
| TerrainFix.Applied | terrain-fix.go:42-44 | a Write decision gives its elevation, any other decision the old value |
| TerrainFix.StepFixed | terrain-fix.go:22-46 | deciding one cell extends the cells already written by one in row-major order |
| TerrainFix.RowDone | terrain-fix.go:20-47 | the end of one row is the start of the next |
| TerrainFix.FixElevationMap | terrain-fix.go:10-48 | a skipped tile (zoom > 10 or no high-fix zone on its bound) is unchanged; otherwise the run aborts exactly when some cell's factor is not a number, and without an abort every cell holds Applied(its own old value, its own decision) |
| Cell.Ramp | cell.go:58-60 | a latitude ramp clamped to [0, 1]: 0 up to its start, 1 from start + width |
| Cell.RampMonotone | cell.go:58-60 | the ramp never decreases with |latitude| |
| Cell.PixelCell.IsLand | cell.go:28-33 | false below -420 m, true above 100 m, the land index's answer in between |
| Cell.PixelCell.IsIce | cell.go:43-48 | false strictly between 35 S and 23 N, the ice index's answer elsewhere |
| Cell.PixelCell.DesertFactor | cell.go:50-52 | the coverage's desert factor at (longitude, latitude), in [0, 1] when it is a number |
| Cell.PixelCell.PolarFactor | cell.go:54-63 | in [0, 1]; 0 for -58 <= lat <= 70; 1 for lat <= -64 or lat >= 76 |
| Cell.PixelCell.AquatorFactor | cell.go:65-67 | in [0, 1], equal to min(|lat|, 70) / 70 |
| Cell.PolarFactorMonotone | cell.go:54-63 | moving poleward in either hemisphere never lowers the polar factor |
| Cell.AquatorFactorSymmetric | cell.go:65-67 | the factor is the same at lat and -lat |
| Cell.GetCellsForTile | cell.go:69-83 | a TileSize x TileSize grid; cell [y][x] has GetElevation(x, y), GetPixelLat(y) and GetPixelLng(x); no error |
| Desert.DesertCell | desert.go:16-28 | 0 in rows with |lat| > 60 and for sea pixels, otherwise a factor in [0, 1] when it is a number |
| Desert.LandBelowSixtyUsesCoverage | desert.go:27-28 | a land pixel with |lat| <= 60 gets DesertFactorForPoint(GetPixelLng(x), GetPixelLat(y)) |
| Desert.BuildDesertFactorMatrix | desert.go:9-33 | TileSize rows of TileSize entries, entry [y][x] being DesertCell at (x, y) |
| TileToGeo.TileWidth | tile_to_geo.go:100 | a positive width w with w * 2^z = 360 |
| TileToGeo.GetTileLongitudes | tile_to_geo.go:98-109 | minLon + 180 = x * tileWidth and maxLon = minLon + tileWidth |
| TileToGeo.AdjacentTilesShareEdge | tile_to_geo.go:100-108 | maxLon of column x is minLon of column x + 1 |
| TileToGeo.ColumnsSpanTheGlobe | tile_to_geo.go:100-108 | column 0 starts at -180 and column 2^z - 1 ends at 180 |
| TileToGeo.GetTileLatitudes | tile_to_geo.go:87-95 | the edge of row y first and the edge of row y + 1 (uint32 arithmetic) second |
| TileToGeo.LonLookupSpansTile | tile_to_geo.go:52-59 | xLookup[0] = minLon, the table is strictly increasing, and every entry is below maxLon |
| TileToGeo.LonAt | tile_to_geo.go:52-59 | entry p of the longitude table: minLon at p = 0 and maxLon at p = tileSize |
| TileToGeo.LonAtStrict | tile_to_geo.go:52-59 | helper: for minLon < maxLon the table entries strictly increase with p |
| TileToGeo.CreateTileBounds | tile_to_geo.go:21-69 | the edges come from the two edge functions; both tables have tileSize entries; Zoom, TileX and TileY stay 0 |
| TileToGeo.GetPixelLat | tile_to_geo.go:71-73 | the latitude is an entry of the latitude table |
| TileToGeo.GetPixelLng | tile_to_geo.go:75-77 | the longitude is an entry of the longitude table |
| TileToGeo.TileBound | tile_to_geo.go:79-84 | the bound holds exactly the points between (MinLon, MinLat) and (MaxLon, MaxLat) |
| TileToGeo.LatitudeSwapInvertsBound | tile_to_geo.go:87-95 | when latitudes fall with the row number, the tile's bound is empty |
| Imaging.ToRgba | terrain/terrarium.go:157-160 | each 8-bit channel is the high byte of its 16-bit value |
| Imaging.ExpandRoundTrip | terrain/terrarium.go:141 | an 8-bit pixel read back through RGBA() and converted again is unchanged |
| Imaging.OffsetX | terrain/terrarium.go:136 | the canvas column offset is 0 or 256 |
| Imaging.OffsetY | terrain/terrarium.go:137 | the canvas row offset is 0 or 256 |
| Imaging.CompositeAt | terrain/terrarium.go:131-146 | a canvas pixel that no tile covers stays zero |
| Imaging.LastCoverWins | terrain/terrarium.go:134-144 | a canvas pixel shows the last tile in the list that covers it |
| TerrainTerrarium.TerrariumElevation | terrain/terrarium.go:161 | every decoded elevation lies in [-32768, 32768 - 1/256] |
| TerrainTerrarium.PixelElevation | terrain/terrarium.go:157-161 | the decoding of the high bytes of the pixel's channels |
| TerrainTerrarium.NewElevationMapFromTerrarium | terrain/terrarium.go:150-169 | Dy rows of Dx entries, data[y][x] decoded from pixel (x, y); TileSize is Bounds().Max.X |
| TerrainTerrarium.DownloadSubTileCoords | terrain/terrarium.go:80-106 | four coordinates; slot 2i + j holds (parentZ + 1, 2 parentX + j, 2 parentY + i) in uint32 arithmetic |
| TerrainTerrarium.SubTileCoord | terrain/terrarium.go:81-98 | definition (no contract): subtile (i, j) at zoom z + 1 and offsets (2 parentX + j, 2 parentY + i), in uint32 arithmetic; SubTileParities and SubTilesDistinct state its properties |
| TerrainTerrarium.SubTileParities | terrain/terrarium.go:81-98 | subtile (i, j) has X parity j and Y parity i, even where the doubling wraps |
| TerrainTerrarium.SubTilesDistinct | terrain/terrarium.go:90-106 | the four slots hold four different coordinates |
| TerrainTerrarium.ArgumentSwapPlacesChildren | terrain/terrarium.go:20 | with X passed as parentY and Y as parentX, child (i, j) is row 2X + i, column 2Y + j, and lands at canvas offset (256 i, 256 j) |
| TerrainTerrarium.SubTilesFillQuadrants | terrain/terrarium.go:95-98 | with four 256 x 256 subtiles, each canvas pixel shows the subtile of its own quadrant |
| TerrainTerrarium.StartTile | terrain/terrarium.go:134-135 | the canvas after the earlier tiles is the start of copying the next tile |
| TerrainTerrarium.NextRow | terrain/terrarium.go:139-140 | the end of one tile row is the start of the next |
| TerrainTerrarium.EndTile | terrain/terrarium.go:139-143 | a tile whose rows are all copied is composited |
| TerrainTerrarium.CopyRow | terrain/terrarium.go:140-142 | the x loop copies tile row y into the canvas, extending the canvas state by that whole row |
| TerrainTerrarium.CopyTile | terrain/terrarium.go:134-144 | one iteration of the tile loop: the canvas afterwards holds the earlier tiles and this one |
| TerrainTerrarium.CompositeImages | terrain/terrarium.go:129-147 | a fresh 512 x 512 canvas whose every pixel is CompositeAt(tiles) |
| Upscale.DistinctParitiesDisjoint | upscale.go:19-25 | two tile-sized tiles with different (Y % 2, X % 2) parities never write the same canvas pixel |
| Upscale.OrderIrrelevantForDistinctParities | upscale.go:17-27 | with pairwise distinct parities a pixel shows its one covering tile, whatever the list order |
| TerrariumCodec.Encode | colors/terrarium/terrarium.go:22-30 | A = 255; in range, R = floor(v / 256), R * 256 + G = floor(v), and B is floor(frac(v) * 256), for v = e + 32768 |
| TerrariumCodec.ChannelsInRange | colors/terrarium/terrarium.go:25-27 | for 0 <= v < 65536 the three channel values lie in [0, 255] |
| TerrariumCodec.DecodeBracketsElevation | colors/terrarium/terrarium.go:22-30 | in range, decode(encode(e)) <= e < decode(encode(e)) + 1/256 |
| TerrariumCodec.RoundTripOnGrid | colors/terrarium/terrarium.go:22-30 | decode(encode(e)) = e for every in-range multiple of 1/256 |
| TerrariumCodec.ZeroElevationEncodesZero | colors/terrarium/terrarium.go:11 | ZeroElevation is encode(0) and decodes to 0 |
| TerrariumCodec.IceElevationEncodesThree | colors/terrarium/terrarium.go:12 | IceElevation is encode(3) and decodes to 3 |
| MonoCodec.Encode | colors/mono-terrain/mono.go:23-26 | in range, the grey value is within 1/2 of (e + 7500) * 4 |
| MonoCodec.Decode | colors/mono-terrain/mono.go:28-30 | (decoded + 7500) * 4 is the grey value, and the result is in range |
| MonoCodec.EncodeDecode | colors/mono-terrain/mono.go:23-30 | encode(decode(p)) = p for every 16-bit p |
| MonoCodec.DecodeEncodeOnQuarters | colors/mono-terrain/mono.go:23-30 | decode(encode(e)) = e for every in-range multiple of 1/4 |
| MonoCodec.EncodeErrorBound | colors/mono-terrain/mono.go:24-25 | |decode(encode(e)) - e| <= 1/8 in range |
| MonoCodec.SentinelsDecode | colors/mono-terrain/mono.go:10-11 | ZeroElevation is encode(0) and decodes to 0, IceElevation is encode(3) and decodes to 3 |
| TerrariumLand.LandColor | colors/terrarium/land.go:36-49 | a non-land cell gives IceElevation if ice, else ZeroElevation; every land cell gives encode(elevation) |
| TerrariumLand.GetColor | colors/terrarium/land.go:30-53 | the output has the data map's shape, cell [i][j] being LandColor of its cell; no error |
| TerrariumWater.WaterColor | colors/terrarium/water.go:36-49 | a land cell gives ZeroElevation, any other cell encode(elevation) |
| TerrariumWater.IceIgnored | colors/terrarium/water.go:41-49 | flipping the ice flag never changes the colour |
| TerrariumWater.GetColor | colors/terrarium/water.go:30-53 | the output has the data map's shape, cell [i][j] being WaterColor of its cell; no error |
| MonoLand.LandPixel | colors/mono-terrain/land.go:35-48 | a non-land cell gives IceElevation if ice, else ZeroElevation; every land cell gives encode(elevation) |
| MonoLand.GetImage | colors/mono-terrain/land.go:30-52 | an image over imgRect holding LandPixel at every data-map position it contains, zero elsewhere; no error |
| MonoWater.WaterPixel | colors/mono-terrain/water.go:36-49 | a land cell gives ZeroElevation, any other cell encode(elevation) |
| MonoWater.IceIgnored | colors/mono-terrain/water.go:41-49 | flipping the ice flag never changes the pixel |
| MonoWater.GetImage | colors/mono-terrain/water.go:30-53 | an image over imgRect holding WaterPixel at every data-map position it contains, zero elsewhere; no error |
| Colors.IncreasingFromGivesStrict | colors/palette.go:23-26 | neighbour-by-neighbour increasing stops are increasing between any two stops |
| Colors.PaintedAt | colors/color_v2/color.go:93-114 | a finished pixel is the painted value at a data-map position and the zero pixel elsewhere |
| Colors.StartImage | colors/color_v2/color.go:93 | a fresh image is the start of the walk over the data map |
| Colors.Set | colors/color_v2/color.go:100 | image.Set writes one pixel when the rectangle contains it and changes nothing else |
| Colors.SetNext | colors/color_v2/color.go:95-112 | setting the walk's current position to its painted value moves the walk on by one |
| Colors.NextDataRow | colors/color_v2/color.go:94-114 | the end of one data-map row is the start of the next |
| Colors.EndImage | colors/color_v2/color.go:94-116 | a walk past the last row is the finished image |
| ColorHelpers.FirstSegment | colors/helpers.go:25-31 | the first i with stops[i] <= e < stops[i+1]; no earlier segment holds e |
| ColorHelpers.InSegment | colors/helpers.go:26 | definition (no contract): the loop test elevation >= stops[i] and < stops[i+1]; FirstSegment and UniqueSegment state its properties |
| ColorHelpers.UniqueSegment | colors/helpers.go:25-31 | for strictly increasing stops the segment holding e is unique and is the one found |
| ColorHelpers.FindSegment | colors/helpers.go:22-31 | the loop returns stops[FirstSegment] and the stop after it |
| ColorHelpers.RawFactor | colors/helpers.go:34 | the raw factor lies in [0, 1) and is 0 at the low stop |
| ColorHelpers.Smoothstep | colors/helpers.go:37 | t^2 (3 - 2t) maps [0, 1] into [0, 1] and fixes 0 and 1 |
| ColorHelpers.SmoothstepBounds | colors/helpers.go:37 | 0 <= t^2 (3 - 2t) <= 1 for t in [0, 1] |
| ColorHelpers.Weight | colors/helpers.go:34-40 | the clamped smoothstep of the raw factor, in [0, 1] |
| ColorHelpers.GammaBlend | colors/helpers.go:43-51 | definition (no contract): one channel of the gamma-2.2 blend, over the Pow oracle; PaletteColorInSegment states the colour built from it |
| ColorHelpers.Blend | colors/helpers.go:42-58 | definition (no contract): the four channels of GammaBlend, each through ToChannel; PaletteColorInSegment states it |
| ColorHelpers.ToChannel | colors/helpers.go:53-58 | 0 at or below 0, 255 at or above 255, otherwise within 1/2 of the value |
| ColorHelpers.PaletteColor | colors/helpers.go:13-59 | the first stop's colour at or below the first stop, the last stop's colour at or above the last |
| ColorHelpers.PaletteColorInSegment | colors/helpers.go:25-58 | inside segment i of strictly increasing stops, the gamma blend of stops i and i + 1 at the smoothstep weight |
| ColorHelpers.GetColorFromPalette | colors/helpers.go:13-59 | the method computes PaletteColor, given a non-empty stop list |
| ColorV1.WaterPaletteIncreasing | colors/color_v1/color.go:13-26 | the water palette's stops strictly increase |
| ColorV1.NormalPaletteIncreasing | colors/color_v1/color.go:27-41 | the normal palette's stops strictly increase |
| ColorV1.PolarPaletteIncreasing | colors/color_v1/color.go:42-58 | the polar palette's stops strictly increase |
| ColorV1.DesertPaletteIncreasing | colors/color_v1/color.go:59-70 | the desert palette's stops strictly increase |
| ColorV1.SnowThresholdFactor | colors/color_v1/color.go:121 | the elevation scale is at least 0.05 and is either 0.05 or pow(aquator / 0.7, 1.5) |
| ColorV1.LookupElevation | colors/color_v1/color.go:110-122 | definition (no contract): the raw elevation for water, scaled by SnowThresholdFactor for land; the cell lemmas use it |
| ColorV1.BlendChannel | colors/color_v1/color.go:140-143 | for f in [0, 1] the channel lies between n and p; it is n at f = 0 and p at f = 1 |
| ColorV1.MixWithin | colors/color_v1/color.go:140-143 | helper: for f in [0, 1] the unrounded mix n (1 - f) + p f lies between n and p |
| ColorV1.BlendBetween | colors/color_v1/color.go:139-144 | every channel of a blend lies between the two colours' channels |
| ColorV1.BlendColors | colors/color_v1/color.go:139-144 | definition (no contract): BlendChannel on all four channels; BlendBetween and MixedBetween state its bounds |
| ColorV1.PickFor | colors/color_v1/color.go:112-170 | the palette choice is usable, and a blend weight is positive and not 1 |
| ColorV1.Render | colors/color_v1/color.go:124-170 | definition (no contract): a plain palette colour or the normal/other blend of a Pick; PickFor states the picks |
| ColorV1.CellColor | colors/color_v1/color.go:110-170 | definition (no contract): Render of PickFor at LookupElevation; WaterCells, PolarCells, DesertOnlyWithoutPolar, PlainLandCells and MixedBetween state its cases |
| ColorV1.WaterCells | colors/color_v1/color.go:112-119 | a non-land cell uses the polar palette if ice, else the water palette |
| ColorV1.PolarCells | colors/color_v1/color.go:124-146 | for polarFactor > 0: polar palette at 1 or on ice, otherwise a normal/polar blend at polarFactor |
| ColorV1.DesertOnlyWithoutPolar | colors/color_v1/color.go:124-148 | with polarFactor > 0 the desert factor has no influence |
| ColorV1.PlainLandCells | colors/color_v1/color.go:165-170 | with no polar or desert factor an ice cell uses the polar palette and any other the normal palette |
| ColorV1.MixedBetween | colors/color_v1/color.go:139-161 | a blended cell's colour lies between its normal and its polar or desert colour |
| ColorV1.GetColor | colors/color_v1/color.go:92-175 | errors in the order zoom > 13, empty data map, cancelled, each with no output; otherwise the data map's shape, cell [i][j] being CellColor of its cell |
| ColorV1.ColorOfCell | colors/color_v1/color.go:110-170 | the per-cell body with its early exits computes CellColor |
| ColorV2.WaterPaletteIncreasing | colors/color_v2/color.go:13-25 | the water palette's stops strictly increase |
| ColorV2.NormalPaletteIncreasing | colors/color_v2/color.go:26-45 | the normal palette's stops strictly increase |
| ColorV2.PolarPaletteIncreasing | colors/color_v2/color.go:46-58 | the polar palette's stops strictly increase |
| ColorV2.CellPalette | colors/color_v2/color.go:98-112 | water exactly for non-land non-ice cells, polar exactly for ice cells, normal exactly for non-ice land; always non-empty and strictly increasing |
| ColorV2.CellColor | colors/color_v2/color.go:96-112 | definition (no contract): PaletteColor of the cell's elevation in its CellPalette; CellPalette states the palette choice |
| ColorV2.PainterOf | colors/color_v2/color.go:96-112 | helper: unfolds the painter at one cell; a cell is painted with PaletteColor of its elevation in its CellPalette |
| ColorV2.GetImage | colors/color_v2/color.go:80-117 | errors in the order zoom > 13, empty data map, cancelled, each with no image; otherwise a fresh image over imgRect painted at every data-map position and blank elsewhere |
| CustomIkarus.WaterPaletteIncreasing | colors/custom_ikarus/color.go:13-21 | the water palette's stops strictly increase |
| CustomIkarus.NormalPaletteIncreasing | colors/custom_ikarus/color.go:22-33 | the normal palette's stops strictly increase |
| CustomIkarus.PolarPaletteIncreasing | colors/custom_ikarus/color.go:34-41 | the polar palette's stops strictly increase |
| CustomIkarus.CellPalette | colors/custom_ikarus/color.go:81-95 | water exactly for non-land non-ice cells, polar exactly for ice cells, normal exactly for non-ice land; always non-empty and strictly increasing |
| CustomIkarus.CellColor | colors/custom_ikarus/color.go:79-95 | definition (no contract): PaletteColor of the cell's elevation in its CellPalette; CellPalette states the palette choice |
| CustomIkarus.PainterOf | colors/custom_ikarus/color.go:79-95 | helper: unfolds the painter at one cell; a cell is painted with PaletteColor of its elevation in its CellPalette |
| CustomIkarus.GetImage | colors/custom_ikarus/color.go:63-100 | errors in the order zoom > 13, empty data map, cancelled, each with no image; otherwise a fresh image over imgRect painted at every data-map position and blank elsewhere |
| Geo.Union | polygon/spatial.go:122 | the union covers both bounds, and an empty second bound changes nothing |
| Geo.PointsBound | polygon/spatial.go:114-122 | the bound of a non-empty point list contains every point and is not empty |
| Numeric.Min | triangle/data.go:54-59 | the smaller of its arguments, attained by one of them (also polygon/spatial.go's copy) |
| Numeric.Max | triangle/data.go:61-66 | the larger of its arguments, attained by one of them (also polygon/spatial.go's copy) |
| TriangleData.Min3 | triangle/data.go:46-48 | the least of three values, attained by one of them |
| TriangleData.Max3 | triangle/data.go:50-52 | the greatest of three values, attained by one of them |
| TriangleData.NewTriangle | triangle/data.go:11-22 | id and points kept; every vertex inside the bounds, each corner coordinate attained by a vertex |
| TriangleData.Data | triangle/data.go:28-35 | one ring of four points, the three vertices followed by the first again |
| TriangleData.DataBoundIsTriangleBound | triangle/data.go:41-43 | the bound of the Data ring is the stored Bound |
| TrianglePolygon.AllPoints | triangle/polygon.go:25-37 | the flattened points number the sum of the ring lengths |
| TrianglePolygon.Coords | triangle/polygon.go:27-36 | the flat coordinate list is twice as long as the point list |
| TrianglePolygon.CoordsAt | triangle/polygon.go:27-37 | entries 2m and 2m + 1 are the coordinates of point m |
| TrianglePolygon.HoleStarts | triangle/polygon.go:13-22 | len(poly) - 1 entries, holes[k - 1] being the total length of rings 0..k - 1 |
| TrianglePolygon.HoleIndices | triangle/polygon.go:13-22 | the hole loop computes HoleStarts |
| TrianglePolygon.AppendCoords | triangle/polygon.go:27-37 | appending one ring's coordinates extends Coords of the rings so far by that ring |
| TrianglePolygon.ConvertPolygonToEarcut | triangle/polygon.go:11-40 | the loops compute Coords(AllPoints(poly)) and HoleStarts(poly) |
| TrianglePolygon.TriangleAt | triangle/polygon.go:51-62 | triangle k has the vertices named by indices 3k..3k + 2 and id the decimal string of 3k |
| TrianglePolygon.Triangulate | triangle/polygon.go:50-63 | triangles exactly when the indices are whole triples of vertex numbers, len(indices)/3 of them; a panic otherwise |
| TrianglePolygon.PartialTripleUnusable | triangle/polygon.go:51-55 | a trailing partial triple makes the indices unusable |
| TrianglePolygon.BadIndexUnusable | triangle/polygon.go:52-59 | an index outside the vertex list makes the indices unusable |
| TrianglePolygon.TriangulateOfBuilt | triangle/polygon.go:50-65 | the triangles the loop builds are the ones Triangulate describes |
| TrianglePolygon.BuildTriangles | triangle/polygon.go:50-63 | the index loop computes Triangulate: the triangles of whole usable triples, or the index panic |
| TrianglePolygon.TriangulationOf | triangle/polygon.go:42-66 | fails exactly when earcut fails |
| TrianglePolygon.FromPolygon | triangle/polygon.go:42-66 | the method computes TriangulationOf: earcut's error with no triangles, or the triangles of its indices, or the index panic |
| TrianglePolygon.TriangleIdsDistinct | triangle/polygon.go:62 | two triangles of one triangulation get different ids |
| Spatial.TriangleShape | polygon/spatial.go:90 | a triangle seen as a Polygon keeps its id and has its stored bounds |
| Spatial.Sign | polygon/spatial.go:261-263 | the cross product vanishes when two of its points coincide |
| Spatial.SignSwap | polygon/spatial.go:261-263 | swapping the last two points flips the sign |
| Spatial.PointInTriangle | polygon/spatial.go:229-236 | true exactly when the three signs are all >= 0 or all <= 0 |
| Spatial.PointInTriangleSymmetric | polygon/spatial.go:229-236 | unchanged by rotating the vertices and by reversing the orientation |
| Spatial.VerticesInside | polygon/spatial.go:229-236 | each vertex counts as inside its own triangle |
| Spatial.Collect | polygon/spatial.go:156-177 | no two listed polygons share an id |
| Spatial.CollectIds | polygon/spatial.go:157-174 | an id is listed exactly when some candidate with that polygon id contains the point |
| Spatial.CollectOrigins | polygon/spatial.go:172-174 | every listed polygon owns a candidate triangle containing the point |
| Spatial.CollectPrefix | polygon/spatial.go:157-175 | the result over a prefix of the candidates is a prefix of the full result, so polygons come in the order of their first containing candidate |
| Spatial.AnyHitIffCollected | polygon/spatial.go:181-189 | some candidate contains the point exactly when PointInPolygons is non-empty |
| Spatial.EntriesOf | polygon/spatial.go:128-145 | one entry per triangle of the polygon, each pointing back to it |
| Spatial.TriangleEntries | polygon/spatial.go:78-101 | one entry per triangle, each its own polygon |
| Spatial.TriangleLookup | polygon/spatial.go:99 | the lookup table's keys are the triangles' ids, each mapped to a polygon with that id |
| Spatial.UnionOfBounds | polygon/spatial.go:76-80 | the folded bounds cover the start and every triangle's bound |
| Spatial.IndexContents | polygon/spatial.go:76-101 | the triangle loop computes TriangleEntries, TriangleLookup and the union of the triangles' bounds |
| Spatial.Index.New | polygon/spatial.go:57-63 | no triangles, no polygons, and the empty bound (1e10, 1e10)-(-1e10, -1e10) |
| Spatial.Index.PolygonByID | polygon/spatial.go:205-207 | the polygon stored under the id, none when there is none |
| Spatial.Index.GetIntersectingTriangles | polygon/spatial.go:209-227 | no candidates outside the index bounds, the R-tree's candidates inside |
| Spatial.Index.PointInPolygons | polygon/spatial.go:152-178 | the method computes Collect over the candidates |
| Spatial.Index.PointInAnyPolygon | polygon/spatial.go:181-189 | true exactly when some candidate triangle contains the point |
| Spatial.Index.BoundsInAnyPolygon | polygon/spatial.go:191-203 | true exactly when the limited box search returns an entry |
| Spatial.Index.Insert | polygon/spatial.go:113-149 | a ringless polygon panics; an earcut error or index panic changes nothing; otherwise the polygon's triangles are appended, the polygon is filed under its id and the bounds grow by its bound |
| Spatial.CreateIndexFromTriangles | polygon/spatial.go:69-110 | no index for no triangles; otherwise the entries, the id table and the union of the triangles' bounds |
| TerrainIndex.Ratio | terrain/index.go:184 | 1 - clamp(dI / (dI + dO), 0, 1) in [0, 1] when the sum is not 0; NaN exactly for 0/0 |
| TerrainIndex.RatioIsOuterShare | terrain/index.go:184 | for non-negative distances the factor is dO / (dI + dO) |
| TerrainIndex.NearestIndex | terrain/index.go:159-175 | a least distance, and the first such: every earlier polygon is strictly farther |
| TerrainIndex.InnerByOuterIds | terrain/index.go:144-152 | entry i is the inner polygon with outer polygon i's id, the fallback write being overwritten |
| TerrainIndex.DistanceFactor | terrain/index.go:133-185 | 0 outside every outer polygon, 1 inside an inner one, otherwise in [0, 1] when a number |
| TerrainIndex.DistanceFactorForPoint | terrain/index.go:133-185 | the method computes DistanceFactor, with the outer distance taken to the polygon with the nearest inner polygon's id |
| TerrainIndex.IsPointInLand | terrain/index.go:113-115 | the land index's answer for the point (lon, lat) |
| TerrainIndex.IsPointInIce | terrain/index.go:117-119 | the ice index's answer for the point (lon, lat) |
| TerrainIndex.HasBoundsAnyFixFactors | terrain/index.go:125-127 | the outer high-fix index's answer for the bound |
| TerrainIndex.DesertFactorForPoint | terrain/index.go:121-123 | 0 outside every outer desert, 1 inside an inner desert, otherwise in [0, 1] when a number |
| TerrainIndex.HighFixFactorForPoint | terrain/index.go:129-131 | 0 outside every outer high-fix zone, 1 inside an inner one, otherwise in [0, 1] when a number |
| TerrainIndex.FactorQueriesUseTheirOwnPair | terrain/index.go:121-131 | the desert factor reads only the desert pair and the high-fix factor only the high-fix pair |
| TerrainGeojson.FeatureOfFeatureId | terrain/geojson.go:117 | the id "i" names feature i |
| TerrainGeojson.FeatureOfPartId | terrain/geojson.go:122 | the id "i-j" names feature i |
| TerrainGeojson.PartIdsDistinct | terrain/geojson.go:121-122 | two parts of one MultiPolygon get different ids |
| TerrainGeojson.FeatureIdIsNoPartId | terrain/geojson.go:117-122 | a Polygon feature's id is never a MultiPolygon part's id |
| TerrainGeojson.PartShapes | terrain/geojson.go:121-123 | part j of feature i is inserted under "i-j" |
| TerrainGeojson.PartsOf | terrain/geojson.go:116-124 | a Polygon feature gives one polygon under "i", a MultiPolygon its parts under "i-j", anything else nothing |
| TerrainGeojson.InsertionPlan | terrain/geojson.go:115-125 | every planned id names a feature of the collection and no id is used twice |
| TerrainGeojson.AfterInsert | polygon/spatial.go:113-149 | a usable triangulation files the polygon under its id; any other outcome changes nothing |
| TerrainGeojson.AfterInserts | terrain/geojson.go:115-125 | every successfully triangulated insertion of the plan is in the polygon table |
| TerrainGeojson.PlanPrefix | terrain/geojson.go:115 | the plan of a prefix of the features is a prefix of the plan |
| TerrainGeojson.PlanStep | terrain/geojson.go:115-125 | one more feature appends its own polygons to the plan |
| TerrainGeojson.FeatureId | terrain/geojson.go:117 | definition (no contract): Sprintf("%d", i); FeatureOfFeatureId and FeatureIdIsNoPartId state its properties |
| TerrainGeojson.PartId | terrain/geojson.go:122 | definition (no contract): Sprintf("%d-%d", i, j); FeatureOfPartId and PartIdsDistinct state its properties |
| TerrainGeojson.PanicAt | terrain/geojson.go:115-125 | helper: a plan with a panicking entry does not run without panic |
| TerrainGeojson.NonePanicsSuffix | terrain/geojson.go:115-125 | helper: a plan that runs without panic runs so from any suffix |
| TerrainGeojson.InsertStep | terrain/geojson.go:117 | one insertion, its error dropped, advances the state by that insertion |
| TerrainGeojson.InsertFeature | terrain/geojson.go:116-124 | the loop body for feature i inserts PartsOf(i) in order, or reports the panic |
| TerrainGeojson.InsertParts | terrain/geojson.go:120-124 | the part loop inserts the parts under "i-j" in order, or reports the panic |
| TerrainGeojson.InsertFeatures | terrain/geojson.go:115-125 | the feature loop panics exactly when the plan does, and otherwise leaves the index in AfterInserts of the plan |
| TerrainGeojson.LoadIndexer | terrain/geojson.go:113-127 | a fresh index in the state of inserting the whole plan in order, errors dropped; panicked exactly when an insertion of the plan panics |
| TerrainGeojson.PanicInPrefix | terrain/geojson.go:115-125 | a panic within a prefix of the plan is a panic of the plan |
| TerrainGeojson.IsPointInIce | terrain/geojson.go:130-132 | the ice index's answer for the point (lon, lat) |
| TerrainGeojson.IsPointInLakes | terrain/geojson.go:134-136 | the lakes index's answer for the point (lon, lat) |
| TerrainGeojson.DesertFactorForPoint | terrain/geojson.go:138-181 | the distance factor of the desert pair, with a panic where index.go ends through log.Fatalf |
| Decimal.NatToString | triangle/polygon.go:62 | a non-empty digit string with no leading zero |
| Decimal.NatToStringValue | triangle/polygon.go:62 | the digit string's value is the number |
| Decimal.NatToStringInjective | terrain/geojson.go:117 | different numbers get different decimal strings |
| Decimal.ParseUint | http.go:53 | a value exactly for a non-empty digit string whose value is below 2^bits, and then that value |
| Decimal.ParseUintOfNatToString | http.go:66 | the decimal string of a number below 2^bits parses back to the number |
| Http.Validate | http.go:53-76 | 400 "Invalid zoom level" unless z is an 8-bit number, then "Zoom level too high" above MaxZoom; accepted exactly when z <= MaxZoom and y and x are 32-bit numbers below 2^z |
| Http.YCheckedBeforeX | http.go:66-76 | with a valid z, a bad y is reported whatever x is |
| Http.AcceptsValidCoordinates | http.go:53-76 | the decimal strings of z <= MaxZoom and y, x < 2^z are accepted with those values |
| Http.RouteZoomRange | http.go:36 | a zoom matching [1-2]?[0-9] is a decimal in shortest form with value at most 29 |
| Http.RouteZoomComplete | http.go:36 | every zoom from 0 to 29 matches the route pattern |
| Numeric.Round | colors/mono-terrain/mono.go:25 | math.Round: within 1/2 of its argument, non-negative for a non-negative one |
| Numeric.Floor | colors/terrarium/terrarium.go:25-27 | math.Floor: the integer k with k <= x < k + 1 |
| Numeric.Trunc | colors/terrarium/terrarium.go:26 | math.Trunc inside math.Mod: the floor for x >= 0, minus the floor of -x below, and never larger than x in absolute value |
| Numeric.GoMod | colors/terrarium/terrarium.go:26 | math.Mod for a positive divisor and non-negative dividend: x - y floor(x / y) |
| Numeric.Clamp | colors/helpers.go:40 | math.Max(lo, math.Min(hi, x)): within [lo, hi], x itself when inside |
| Numeric.Wrap8 | colors/terrarium/terrarium.go:25-27 | the uint8 conversion: below 256, the value itself when in range |
| Numeric.Wrap16 | colors/mono-terrain/mono.go:25 | the uint16 conversion: below 65536, the value itself when in range |
| Numeric.Wrap32 | terrain/terrarium.go:81-83 | uint32 arithmetic: below 2^32, the value itself when in range |

## Left out

- Network, downloads and retries are not modelled: `downloadTile`, terrain/tiles.go and tiles.go. Their subtile arithmetic and compositing duplicate terrain/terrarium.go and upscale.go. GeoTIFF loading is not modelled either. The four downloaded tiles enter the model as a parameter.
- Concurrency, locking and time are not modelled: terrain/cache.go, the cache half of terrain/geotiff.go, the goroutine loaders `LoadGeoCoverage`, and the goroutines and error channel of `downloadSubTiles` (only its coordinates are modelled). The `ctx` of the providers is reduced to a `cancelled` flag.
- HTTP serving is not modelled: main.go, the gzip wrapper, `processTile` and the handler body after validation. The mux's regular-expression matching is a predicate on the zoom text.
- Transcendental numerics are oracles: the Mercator latitudes of `CreateTileBounds` and `getTileLatitudes`, lat.go, the sqrt distances of polygon/distance.go and polygon/spatial.go:265-328, the gamma `math.Pow` of colors/helpers.go and the `math.Pow` of color_v1. coastline.go and color.go are not modelled.
- Floating point is not modelled. `real` stands for float32 and float64, so no rounding, infinity or NaN of the source is modelled. A NaN elevation is not representable. NaN factors are carried by the `Factor` datatype.
- Foreign libraries are oracles: turf.buffer, earcut, rtreego's searches (the 1e-7-padded boxes and the 0.01-wide point box are not modelled), protobuf (triangle/proto.go), TIFF decoding and the PNG encoders. GeoJSON unmarshalling is not modelled; `TerrainGeojson.LoadIndexer` starts from the parsed features.
- File I/O and entry points are not modelled: `readFileSync`, `writeFileSync`, `console.error` and `process.exit` of scale-desert/index.ts, geojson-to-tri/main.go and terrain/tri.go. `ScaleDesert.ScaleDeserts` returns the two documents instead of writing them.
- terrain/index.go's loader from triangle packages is not modelled; its coverage is a record of indexes.
- `polygon.PointDistanceToTriangle` and `distanceToLine` are not modelled, because they are sqrt numerics.
- `Spatial.Index.BoundsInAnyPolygon`: the `NewRectFromPoints` error path for a degenerate bound (logged, `false`) is folded into the box-search oracle.
- `Spatial.Index.GetIntersectingTriangles`: the `NewRect` error path is folded into the search oracle.
- `Spatial.Index.Insert`: the R-tree rectangle error path of `NewRectFromPoints` is folded into the oracle and cannot occur in the model.
- `Spatial.CreateIndexFromTriangles`: the R-tree rectangle error path is not modelled, for the same reason.
- `TileToGeo.GetPixelLat` requires an in-range row, and `TileToGeo.GetPixelLng` an in-range column. The source indexes its tables unchecked and panics out of range.
- `Cell.GetCellsForTile`, `Desert.BuildDesertFactorMatrix` and `TerrainFix.FixElevationMap` require lookup tables at least TileSize long, because the source indexes them unchecked.
- `TerrainFix.FixElevationMap` states the whole result only for a run that does not abort. A non-number factor (NaN, panic or fatal exit) ends the model's run at that cell, while in Go a NaN factor flows on into the arithmetic.
- `Desert.DesertCell` stores a non-number factor as it is, rather than the NaN float the source would store or the crash it would have.
- `ColorHelpers.GetColorFromPalette` requires a non-empty stop list, because the source indexes `Stops[0]` and panics otherwise.
- `ColorV1.MixedBetween` needs the blend weight to be at most 1. The providers' factors are documented as lying in [0, 1] but are not constrained.
- `Colors.DataCell` / `ColorV1.GetColor`: the DataCell interface is a record of values computed in advance, and no function builds one from `Cell.PixelCell`. Go calls `DesertFactor()` only for land cells with `PolarFactor() <= 0` (colors/color_v1/color.go:148), so a desert lookup that panics, exits or yields NaN on a water or polar cell does no harm there; the model has no counterpart of that laziness. `ColorV1.WaterCells` and `ColorV1.DesertOnlyWithoutPolar` show that such cells' colours do not depend on the desert factor.
- `ColorV1.ColorOfCell` is the body of the source's inner loop, extracted into a method with early returns in place of `continue`.
- The palette providers are not known to satisfy `colors.ColorProvider`. color_v1 and the two Terrarium profiles define `GetColor` rather than the `GetImage` the interface and http.go use. They are modelled as written.
- `ColorV2.GetImage`, `CustomIkarus.GetImage`, `MonoLand.GetImage` and `MonoWater.GetImage` require a well-formed rectangle, because `image.NewNRGBA` and `image.NewGray16` panic on a negative size.
- `Http.Validate` computes `maxScale` as the exact 2^z. The source's `uint64(math.Pow(2, z))` agrees for z < 64, and z never exceeds a provider's MaxZoom of at most 14.
- `TerrariumCodec.Encode` and `MonoCodec.Encode` state their channels only in range. Out of range the conversions wrap modulo 2^8 or 2^16, as the model writes out. Go leaves out-of-range float conversions implementation-defined.
- `Imaging.CompositeAt` and `TerrainTerrarium.CompositeImages` are shared by upscale.go's `compositeImages`, which has the same body over a `tileSize` of 256.
