# SimpleSURF keypoint core in Dafny

This project models the keypoint core of SimpleSURF, a SURF-style detector and
matcher:

- the scale pyramid `OctaveMap`: its grid of layers, the computation of those
  layers, and the 3x3x3 extremum test;
- the engine `S_Surf`: keypoint extraction, the 64-entry Haar descriptor, the
  normalisation of match distances, and greedy one-to-one matching with the
  0.8 ratio test.

It also proves the properties these operations promise.

The model has two layers:

- **Executable classes.** The two classes of the source keep their
  imperative form:
  - `OctaveMaps.OctaveMap` holds its grid as an `array2` of layers.
  - `Surf.S_Surf` keeps its loops over arrays and its in-place updates:
    `distMap`, `alreadyMatched`, `result`, the descriptor buffer, and the
    `octMap` field.
  - Nested loops of one source method become helper methods, one per loop.
    Each helper has a contract that says what its loop computes. For example,
    `QuadrantRow`, `QuadrantScan` and `SubRowScan` are the loops of
    `setDescriptor`.
- **Value-level definitions.** Most methods are proved equal to a
  value-level definition:
  - `OctaveMaps.IsExtremum`: the extremum test, the specification of
    `PointIsExtremum`.
  - `Extraction`: which keypoints are emitted, and in what order.
  - `Descriptors`: the descriptor as nested sums over quadrants and
    sub-samples.
  - `Matching`: nearest and second-nearest scans, the ratio test, greedy
    matching, normalisation, the threshold filter, and the column order.

  The properties of the source are proved as lemmas about those definitions.
  The rest state the new state directly:
  - The `OctaveMap` constructor, `ComputeMap` and `ComputeOctave` state it
    through the grid invariant `Valid` and the layer predicate `Computed`.
  - `StoreSums`, `PutPair` and `EmptyTables` state the array contents they
    write.

Stand-ins for collaborators whose code is not shown (module `Imaging`):

- `IntegImage`, the integral image, is a value. Its function fields give:
  - the Haar responses `HaarWavelet_X/Y(row, col, size)`;
  - the Hessian determinant and Laplacian sign of each layer pixel, which
    `OctaveLayer.computeLayer` derives from the image.
- `FilterSchedule` gives each layer's scale and radius.
- `OctaveLayer` and `FeaturePoint` are classes that hold only what the core
  reads or writes.
- `Math.Sqrt` is a parameter `sqrt` of type `Sqrt`. Such a function is never
  negative on a non-negative argument.
- Doubles are modelled as `real`.

The matcher's second-distance loop (`S_Surf.cs:237-251`) does not compute
the second-nearest distance its comment names; see Findings. The matcher
therefore takes a parameter `scan` of type `Matching.SecondScan`:

- `AsWritten` runs the loop exactly as the code does.
- `Intended` runs the second-nearest distance the loop evidently means.

Greedy matching, the result table and every one-to-one, sign and count
property are stated and proved for both choices.

The matcher's record, the private class `MatchInfo` (`S_Surf.cs:10-22`), is
the datatype `Matching.MatchInfo(ind1, ind2, euclideanDist)`. A freshly
constructed record, with all three fields -1, is the constant
`Matching.UNMATCHED`. Every statement about distMap's -1 padding and its
normalisation is stated through that constant.

Two properties one might expect of a matcher do not hold of this code:

- **Matching symmetry.** When both point arrays have the same length, the
  second array is always the query side. Swapping the arguments can then
  change the result. `Matching.MatchingSymmetric` proves symmetry only for
  arrays of different lengths.
- **Single-point collections.** A one-point collection matched against a
  larger pool can produce a pair; the code does not return an empty result
  for it.

## Model

| member | source | states |
|---|---|---|
| OctaveMaps.OctaveMap.constructor | SimpleSURF/OctaveMap.cs:28-38 | The grid is octaveEnd x INTERVALS (4). A cell [o, i] holds a new layer exactly when octaveStart <= o + 1. That layer is layer (o + 1, i + 1) of the image, with the schedule's scale and radius. Cells of lower octaves stay null. |
| OctaveMaps.OctaveMap.ComputeMap | SimpleSURF/OctaveMap.cs:40-45 | Afterwards every layer of every octave in [octaveStart, octaveEnd] holds the image's Hessian and sign responses. Only the layers change; the grid cells do not. |
| OctaveMaps.OctaveMap.ComputeOctave | SimpleSURF/OctaveMap.cs:43-44 | Computes the four layers of one octave. Layers of earlier octaves stay computed. |
| OctaveMaps.InsideBorder | SimpleSURF/OctaveMap.cs:51-52 | The border guard: (row, col) is strictly more than top's radius from every edge, so the whole 3x3 window lies inside the layers. |
| OctaveMaps.BelowCentre | SimpleSURF/OctaveMap.cs:63-72 | The neighbour test at one cell (r, c) of the window. The top and bottom responses are strictly below the centre's. So is the middle response, unless (r, c) is the centre itself. |
| OctaveMaps.IsExtremum | SimpleSURF/OctaveMap.cs:51-76 | The extremum test as a predicate. (row, col) must be inside top's border, and the middle response must reach the threshold. BelowCentre must then hold at all 9 cells of the 3x3 window: strictly below the centre in top and bot, and in mid except at the centre itself. |
| OctaveMaps.OctaveMap.PointIsExtremum | SimpleSURF/OctaveMap.cs:47-77 | Returns true exactly when all of these hold: (row, col) is more than top's radius from every edge; the middle response reaches the threshold; it is strictly above all 9 cells of top and of bot in the 3x3 window and the 8 other cells of mid. A neighbour equal to the centre gives false. The method reads only. |
| Imaging.OctaveLayer.constructor | SimpleSURF/OctaveMap.cs:37 | A layer for (octave, interval) covering a width x height image, with two new response maps of that size. |
| Imaging.OctaveLayer.ComputeLayer | SimpleSURF/OctaveMap.cs:44 | After computeLayer, each pixel's Hessian and sign are the image's responses for this layer. |
| Imaging.FeaturePoint.constructor | SimpleSURF/S_Surf.cs:66-67 | A keypoint with the given position, scale, radius and sign, and no descriptor yet. |
| Extraction.PointAt | SimpleSURF/S_Surf.cs:66-67 | The keypoint of pixel (row, col) of the middle layer. x is the column and y the row, and it carries the layer's scale and radius and the pixel's sign. |
| Extraction.RowPoints | SimpleSURF/S_Surf.cs:62-67 | The points of the first n columns of a row, left to right: PointAt(mid, row, column) for each column that passes IsExtremum. |
| Extraction.TriplePoints | SimpleSURF/S_Surf.cs:61-68 | The points of the first n rows of a triple, each row's points after those of the rows above. |
| Extraction.OctavePoints | SimpleSURF/S_Surf.cs:55-69 | The points of the first k triples (k, k + 1, k + 2) of an octave, in interval order. |
| Extraction.PyramidPoints | SimpleSURF/S_Surf.cs:53-70 | The points of the octaves from octaveStart up to a given octave, in octave order. |
| Extraction.RowPointsSound | SimpleSURF/S_Surf.cs:62-67 | Every point emitted for a row passes the extremum test. It has x = column and y = row and carries mid's scale, radius and sign at that pixel. Columns strictly increase. |
| Extraction.TriplePointsSound | SimpleSURF/S_Surf.cs:61-67 | Every point of a triple scan passes the extremum test at (y, x) and carries mid's scale, radius and sign. The points are in strict row-major order. |
| Extraction.RowPointsComplete | SimpleSURF/S_Surf.cs:62-67 | Every extremum of the row is emitted. |
| Extraction.TriplePointsComplete | SimpleSURF/S_Surf.cs:61-67 | Every extremum of the middle layer is emitted. |
| Extraction.RowWithoutExtremum | SimpleSURF/S_Surf.cs:62-68 | A row with no extremum emits nothing. |
| Extraction.SmallLayerYieldsNothing | SimpleSURF/OctaveMap.cs:51-53 | A layer at most 2 * radius + 1 pixels high or wide yields no keypoint; a 3x3 image is one such layer. |
| Extraction.OctavePointsStep | SimpleSURF/S_Surf.cs:55-59 | Triple k of an octave uses layers k, k + 1 and k + 2 of that octave. They are present and aligned, and the triple's points follow those of the earlier triples. |
| Extraction.FromTriple | SimpleSURF/S_Surf.cs:55-67 | p is the keypoint of an extremum of triple k of an octave. It is a pixel of the middle layer that passes the extremum test, with that layer's data. |
| Extraction.OctavePointsSound | SimpleSURF/S_Surf.cs:55-68 | Every keypoint of the first k triples of an octave comes from an extremum of one of those triples. |
| Extraction.OctavePointsComplete | SimpleSURF/S_Surf.cs:55-68 | Every extremum of one of the first k triples of an octave is among the octave's keypoints. |
| Extraction.PyramidPointsSound | SimpleSURF/S_Surf.cs:53-70 | Every keypoint of the pyramid comes from an extremum of some triple (o, k) of an octave in range. |
| Extraction.PyramidPointsPrefix | SimpleSURF/S_Surf.cs:53-70 | The keypoints of earlier octaves come first: the list up to octave lo is a prefix of the list up to any later octave. |
| Extraction.PyramidPointsComplete | SimpleSURF/S_Surf.cs:53-70 | Every extremum of a triple of an octave in range is among the pyramid's keypoints. |
| Extraction.PyramidPointsStep | SimpleSURF/S_Surf.cs:53-70 | Each octave's points follow those of the octaves before it. |
| Surf.S_Surf.constructor | SimpleSURF/S_Surf.cs:29-34 | Stores octaveStart, octaveEnd and threshold; no pyramid exists yet. |
| Surf.S_Surf.ExtractPoints | SimpleSURF/S_Surf.cs:45-72 | Sets octMap to a new, computed pyramid over [octaveStart, octaveEnd] for the image. Returns new keypoints without descriptors. In order (octave, triple, row, column), they are exactly the extrema of the pyramid. Each layer of the new grid has the scale and radius the schedule gives for its (octave, interval). |
| Surf.S_Surf.ScanPyramid | SimpleSURF/S_Surf.cs:53-70 | The points of all octaves, octave by octave, all new. |
| Surf.S_Surf.AppendOctave | SimpleSURF/S_Surf.cs:54-70 | Appends the points of one octave to those found so far. |
| Surf.S_Surf.ScanOctave | SimpleSURF/S_Surf.cs:55-69 | The points of the two interval triples of one octave, in order. |
| Surf.S_Surf.ScanTriple | SimpleSURF/S_Surf.cs:61-68 | The points of one triple, row by row. |
| Surf.S_Surf.ScanRow | SimpleSURF/S_Surf.cs:62-68 | The points of one row, left to right. The repeated extremum call changes nothing. |
| Surf.S_Surf.SetDescriptor | SimpleSURF/S_Surf.cs:74-131 | For scale >= 1, the descriptor is the 64 Haar sums of the keypoint's 4x4 quadrants. For any other scale no loop runs and it is all zeros. |
| Surf.S_Surf.QuadrantRow | SimpleSURF/S_Surf.cs:96-128 | One quadrant row adds 16 entries: the four sums of each of its four quadrants, left to right, after the rows above. |
| Surf.S_Surf.QuadrantScan | SimpleSURF/S_Surf.cs:98-122 | The four sums of one quadrant over its 5x5 sub-samples. |
| Surf.S_Surf.SubRowScan | SimpleSURF/S_Surf.cs:104-122 | One sub-row adds the responses at its 5 sub-sample centres, and their magnitudes, to the running sums. |
| Surf.S_Surf.StoreSums | SimpleSURF/S_Surf.cs:124-127 | Writes dx, dy, sum of abs dx and sum of abs dy at count; the earlier entries are unchanged. |
| Descriptors.HaarSize | SimpleSURF/S_Surf.cs:78-79 | The side of the Haar box: twice the scale. |
| Descriptors.DescSide | SimpleSURF/S_Surf.cs:77-84 | The side of the descriptor window: 20 times the scale. |
| Descriptors.QuadStep | SimpleSURF/S_Surf.cs:85-86 | The side of a quadrant: a quarter of the window side, rounded down. |
| Descriptors.SubQuadStep | SimpleSURF/S_Surf.cs:87-88 | The side of a sub-quadrant: a fifth of the quadrant side, rounded down. |
| Descriptors.ZeroDescriptor | SimpleSURF/S_Surf.cs:81 | The descriptor buffer as allocated: 64 zero entries. |
| Descriptors.SampleCorner | SimpleSURF/S_Surf.cs:90-112 | The row (or column) of the top-left corner of a sub-sample's Haar box: the window corner, plus the quadrant and sub-quadrant steps, plus half a sub-quadrant, minus half the Haar size. |
| Descriptors.Accumulate | SimpleSURF/S_Surf.cs:118-121 | One Haar response (dx, dy) added to the four sums: dx, dy, abs dx and abs dy. |
| Descriptors.SubRowSums | SimpleSURF/S_Surf.cs:104-122 | The running sums plus dx, dy, abs dx and abs dy of the Haar responses at the first nb sub-samples of one sub-row. Each Haar box has side 2s and its corner at the code's (cur_r, cur_c). |
| Descriptors.QuadrantSums | SimpleSURF/S_Surf.cs:98-122 | The four sums of a quadrant over its first na sub-rows, starting from zero. |
| Descriptors.RowEntries | SimpleSURF/S_Surf.cs:96-128 | The entries of the first nc quadrants of a quadrant row: 4 * nc entries, four sums per quadrant, left to right. |
| Descriptors.DescriptorUpTo | SimpleSURF/S_Surf.cs:95-128 | The entries of the first nr quadrant rows: 16 * nr entries, top to bottom. |
| Descriptors.Descriptor | SimpleSURF/S_Surf.cs:95-128 | The full descriptor: the four quadrant rows, 64 entries. |
| Descriptors.SampleCentreInWindow | SimpleSURF/S_Surf.cs:84-112 | For scale >= 1, quadStep is 5 * scale and subQuadStep is scale. Every sub-sample centre lies inside the 20 * scale window. |
| Descriptors.DescriptorLayout | SimpleSURF/S_Surf.cs:95-128 | Entries 4q to 4q + 3, with q = 4 * row + column, are the four sums of that quadrant, in row-major order. |
| Descriptors.RowEntriesLayout | SimpleSURF/S_Surf.cs:96-127 | Within a quadrant row, entries 4c to 4c + 3 are the sums of quadrant c. |
| Descriptors.AbsoluteSumsBound | SimpleSURF/S_Surf.cs:98-121 | A quadrant's absolute-value sums are non-negative and bound the magnitude of its plain sums. |
| Descriptors.SubRowSumsBound | SimpleSURF/S_Surf.cs:104-122 | Adding sub-samples keeps the absolute-value sums non-negative and bounding. |
| Descriptors.DescriptorAbsEntries | SimpleSURF/S_Surf.cs:120-127 | The descriptor has 64 entries. Entries 4q + 2 and 4q + 3 are >= 0 and at least the magnitude of entries 4q and 4q + 1. |
| Surf.S_Surf.NormalizeDist | SimpleSURF/S_Surf.cs:133-157 | The first length records become their normalisation; the records from length on are unchanged. |
| Surf.S_Surf.LargestDist | SimpleSURF/S_Surf.cs:135-152 | Returns the largest non-negative distance among the first length records, or 0 if there is none. |
| Surf.S_Surf.DivideByLargest | SimpleSURF/S_Surf.cs:154-156 | Divides each non-negative distance by the maximum, unless it is 0. |
| Matching.MaxDist | SimpleSURF/S_Surf.cs:135-152 | The result is >= 0, at least every non-negative distance, and either 0 or one of them. |
| Matching.Normalize | SimpleSURF/S_Surf.cs:154-156 | Each record with a non-negative distance has it divided by MaxDist, unless that is 0. Every other record is left as it is. |
| Matching.NormalizeBounds | SimpleSURF/S_Surf.cs:154-156 | Normalisation keeps every index pair and leaves negative (unused) records alone. It maps each non-negative distance into [0, 1] and keeps their order. A zero maximum changes nothing. |
| Matching.Padded | SimpleSURF/S_Surf.cs:196-198 | The matcher's table before normalisation: the greedy records, then unused -1 entries, n entries in all. |
| Matching.MaxDistOfPadded | SimpleSURF/S_Surf.cs:138-152 | The -1 entries of unused records do not change the maximum. |
| Matching.NormalizedTable | SimpleSURF/S_Surf.cs:196-267 | The greedy records of the whole query side, padded with -1 entries to its length and then normalised. |
| Matching.NormalizedTableEntries | SimpleSURF/S_Surf.cs:267 | After normalisation the table holds the normalised records, then unchanged -1 entries. |
| Surf.S_Surf.EuclideanDistance | SimpleSURF/S_Surf.cs:36-43 | Returns sqrt of the sum of squared differences of the first length entries. |
| Matching.Euclidean | SimpleSURF/S_Surf.cs:36-43 | The distance is never negative. |
| Matching.SumSquares | SimpleSURF/S_Surf.cs:38-40 | The sum of the squared entry differences over the first n entries, in index order. |
| Matching.SumSquaresNonNegative | SimpleSURF/S_Surf.cs:38-40 | The loop's sum of squares is never negative. |
| Matching.SumSquaresOfConstantGap | SimpleSURF/S_Surf.cs:38-40 | When n entries all differ by c, the sum is n * c * c. |
| Matching.Distance | SimpleSURF/S_Surf.cs:219-220 | The distance of one query-pool pair, as both pool loops compute it (also lines 243-244): the Euclidean distance over the 64 descriptor entries. |
| Matching.Distances | SimpleSURF/S_Surf.cs:215-220 | One non-negative distance per pool point. |
| Matching.DistancesAt | SimpleSURF/S_Surf.cs:219-220 | Entry j is the distance to pool point j. |
| Surf.S_Surf.DescriptorDistance | SimpleSURF/S_Surf.cs:219-220 | The distance between two keypoints over all 64 entries. |
| Surf.S_Surf.PoolDistance | SimpleSURF/S_Surf.cs:243-244 | The distance to pool point j is entry j of the distance list. |
| Surf.S_Surf.NearestScan | SimpleSURF/S_Surf.cs:211-233 | Returns the nearest-point scan's index and distance. |
| Matching.Eligible | SimpleSURF/S_Surf.cs:216-217 | The guard of both pool loops (also lines 240-241): the pool point is not consumed yet, and it has the query's Laplacian sign. |
| Matching.Nearest | SimpleSURF/S_Surf.cs:211-233 | Index -1 comes with distance -1. Any other index is in range, not consumed, of the same sign, and comes with its distance. |
| Matching.NearestNoneIffNoneEligible | SimpleSURF/S_Surf.cs:215-233 | The scan finds nothing exactly when no pool point is unconsumed and of the same sign. |
| Matching.NearestIsMinimum | SimpleSURF/S_Surf.cs:222-232 | The point found is at least as near as every eligible point. |
| Matching.NearestIsFirst | SimpleSURF/S_Surf.cs:228-232 | Every eligible point before the one found is strictly farther: ties go to the lowest index. |
| Matching.NearestStep | SimpleSURF/S_Surf.cs:216-232 | One more pool point: it is taken when it is eligible and it is the first or strictly nearer. |
| Surf.S_Surf.SecondNearestScanAsWritten | SimpleSURF/S_Surf.cs:237-251 | Returns the second distance exactly as the code's loop computes it. |
| Matching.SecondDistAsWritten | SimpleSURF/S_Surf.cs:237-251 | The code's second-distance loop as a definition. It takes the first eligible distance, and later replaces it only with an eligible distance strictly between bestDist and the current value. |
| Matching.SecondDistAsWrittenStep | SimpleSURF/S_Surf.cs:240-250 | One more pool point in that loop: it is taken if it is the first eligible one, or if it lies strictly between bestDist and the current value. |
| Matching.SecondDistAsWrittenNotBelowBest | SimpleSURF/S_Surf.cs:237-251 | With bestDist the minimum, the loop's value is -1 exactly when nothing is eligible, and never below bestDist otherwise. |
| Matching.SecondDistAsWrittenUnset | SimpleSURF/S_Surf.cs:237-251 | With nothing eligible the value stays -1. |
| Matching.SecondDistAsWrittenStuck | SimpleSURF/S_Surf.cs:246-250 | Once the value equals bestDist it never changes. |
| Matching.AsWrittenRejectsNearestFirst | SimpleSURF/S_Surf.cs:237-264 | When the first eligible pool point is the nearest, the loop yields bestDist and the ratio test rejects the query. |
| Matching.AsWrittenAcceptsTie | SimpleSURF/S_Surf.cs:237-264 | Concrete case: an all-zero query, and three pool points of its sign whose descriptors are 5 at entry 0, 1 at entry 0 and 1 at entry 1. With Sqrt(25) = 5 and Sqrt(1) = 1 the distances are [5, 1, 1]. The code's loop passes over the tied point, yields 5, and the greedy step records the ambiguous match. The intended second distance is 1, and the intended step rejects it. |
| Matching.AsWrittenRejectsExactMatch | SimpleSURF/S_Surf.cs:237-264 | Concrete case: an exact match at pool index 0 and another candidate at distance 8. The code's loop rejects it; the intended second-nearest distance (8) accepts it. |
| Surf.S_Surf.SecondNearestScan | SimpleSURF/S_Surf.cs:237-251 | Returns the intended second-nearest distance. |
| Matching.SecondNearest | SimpleSURF/S_Surf.cs:237-251 | The intended second distance: the least distance to an eligible pool point other than bestIndex, or -1 if there is none. |
| Matching.SecondNearestStep | SimpleSURF/S_Surf.cs:240-250 | One more pool point in the intended scan: it is taken when it is eligible, is not bestIndex, and is the first or strictly nearer. |
| Matching.SecondNearestNoneIffNoOther | SimpleSURF/S_Surf.cs:237-251 | The second distance is -1 exactly when no eligible point other than bestIndex exists. |
| Matching.SecondNearestIsMinimumOfOthers | SimpleSURF/S_Surf.cs:237-251 | The second distance is attained by an eligible point other than bestIndex and is at most every such distance. |
| Matching.SecondNearestNotBelowNearest | SimpleSURF/S_Surf.cs:237-251 | The second distance is never below the nearest one. |
| Matching.Accept | SimpleSURF/S_Surf.cs:256-257 | The ratio test: a positive second distance, a non-negative nearest distance, and nearest / second strictly below 0.8. |
| Matching.AcceptWithoutDivision | SimpleSURF/S_Surf.cs:256-257 | The ratio test holds exactly when the second distance is > 0, the nearest is >= 0, and nearest < 0.8 * second. A ratio of exactly 0.8 is rejected. |
| Matching.DistanceTable | SimpleSURF/S_Surf.cs:215-244 | One row per query point, one non-negative distance per pool point. |
| Matching.SecondDist | SimpleSURF/S_Surf.cs:237-251 | The second distance that gates the ratio test: SecondDistAsWritten for AsWritten, SecondNearest for Intended. |
| Matching.MatchStep | SimpleSURF/S_Surf.cs:211-264 | One query adds at most one record and keeps one flag per pool point. The record is added when the ratio test passes against the second distance the chosen scan gives. |
| Matching.NoneUsed | SimpleSURF/S_Surf.cs:203-205 | The alreadyMatched flags as initialised: n flags, all false. |
| Matching.GreedyMatch | SimpleSURF/S_Surf.cs:209-265 | For the chosen scan, after n queries there are at most n records, so countMatched never exceeds minLength. There is one flag per pool point. |
| Matching.GreedyMatchOneToOne | SimpleSURF/S_Surf.cs:203-264 | For either second-distance scan, each record pairs an index in range with a pool point of the same sign, at their distance. Records follow query order and never name a pool point twice. The consumed flags are exactly the recorded pool points. |
| Matching.RecordStep | SimpleSURF/S_Surf.cs:259-261 | A record of the current query and an eligible pool point keeps the records valid. |
| Matching.UsedStep | SimpleSURF/S_Surf.cs:259-263 | Consuming a new record's pool point keeps flags and records in step. |
| Matching.OrderStep | SimpleSURF/S_Surf.cs:259-263 | A record of a later query and an unconsumed pool point keeps the records ordered and one-to-one. |
| Surf.S_Surf.EmptyTables | SimpleSURF/S_Surf.cs:196-205 | minLength records of -1 and len_2 false flags: the greedy state before any query. |
| Surf.S_Surf.MatchOne | SimpleSURF/S_Surf.cs:211-264 | One query turns the table and flags from greedy state g into the next state. It runs the nearest loop, then the second loop that `scan` selects, then the ratio test. |
| Surf.S_Surf.GreedyTable | SimpleSURF/S_Surf.cs:196-265 | distMap holds the greedy records of the chosen scan in query order, followed by -1 entries. |
| Matching.Keep | SimpleSURF/S_Surf.cs:272-273 | The threshold test: a record is kept when its normalised distance lies in [0, threshold]. |
| Matching.Kept | SimpleSURF/S_Surf.cs:271-273 | At most as many records as the table, each from the table with a distance in [0, threshold]. |
| Matching.KeptComplete | SimpleSURF/S_Surf.cs:271-273 | Every record with a distance in [0, threshold] is kept. |
| Matching.KeptPreservesOrder | SimpleSURF/S_Surf.cs:270-285 | The filter keeps records in table order. |
| Matching.KeptAreNormalisedRecords | SimpleSURF/S_Surf.cs:267-273 | Only normalised greedy records pass the threshold, never -1 entries. |
| Matching.NormalizedTableInRange | SimpleSURF/S_Surf.cs:272-283 | Every entry that passes the distance check names points in range. |
| Matching.KeptOf | SimpleSURF/S_Surf.cs:270-273 | The records of the normalised table that pass the threshold test, in table order. |
| Matching.KeptOfOneToOne | SimpleSURF/S_Surf.cs:209-273 | For either scan, kept records pair query and pool points of the same sign, one-to-one and in query order. There are at most as many as query points, each with a distance in [0, threshold]. |
| Matching.Orient | SimpleSURF/S_Surf.cs:274-284 | Each record becomes an (index into points_1, index into points_2) pair. The record's indices are swapped back when the sides were swapped. |
| Matching.Swapped | SimpleSURF/S_Surf.cs:164-170 | The sides are swapped when the second array is not longer than the first. The query side is then points_2. |
| Matching.KeptMatches | SimpleSURF/S_Surf.cs:164-273 | The kept, normalised records of matching the query side against the pool. The query side is the shorter array, or the second array when both have the same length. |
| Matching.MatchedPairs | SimpleSURF/S_Surf.cs:164-285 | The result rows as index pairs: the kept matches, oriented to the caller's column order. |
| Matching.OrientSnoc | SimpleSURF/S_Surf.cs:274-284 | One more kept record adds its pair, with the columns swapped back when the sides were swapped. |
| Surf.S_Surf.PutPair | SimpleSURF/S_Surf.cs:276-283 | Row c receives the pair; the rows before it are unchanged. |
| Surf.S_Surf.FillResult | SimpleSURF/S_Surf.cs:270-285 | Kept records fill rows from 0 in table order, with column 0 from the first array and column 1 from the second. The remaining rows are null. |
| Surf.S_Surf.MatchOriented | SimpleSURF/S_Surf.cs:189-287 | With the query side fixed, the result holds the kept pairs of the normalised greedy table, columns restored. |
| Surf.S_Surf.MatchPoints | SimpleSURF/S_Surf.cs:159-288 | The result has minLength rows. With scan = AsWritten this is the code's matcher. Rows 0 and up hold exactly the matched pairs in record order, column 0 from points_1 and column 1 from points_2 whichever side was the query. The other rows are null. |
| Matching.MatchedPairsOneToOne | SimpleSURF/S_Surf.cs:159-288 | For either scan, there are at most min(len_1, len_2) pairs. Each pairs points of equal sign, and no point of either side appears twice. |
| Matching.MatchingSymmetric | SimpleSURF/S_Surf.cs:164-186 | For either scan and arrays of different lengths, swapping the arguments swaps the two columns of every pair. |

## Left out

- `Math.Sqrt` is the parameter `sqrt`, known only to be non-negative on non-negative arguments. Distances are exact reals: double rounding, NaN and infinity are not modelled.
- Integer overflow of 32-bit `int` (for example `20 * scale`, or coordinates far outside the image) is not modelled; all integers are unbounded.
- The layer computations are not part of this model: `OctaveLayer.computeLayer`, the filter-size schedule, the box filters, and `IntegImage.HaarWavelet_X/Y`. They are function fields supplied by the caller. `ComputeLayer` is modelled as allocating two new response maps.
- `SimpleSURF/MainForm.cs` is not part of this model: it covers image loading, grey-level conversion, drawing and colour dialogs.
- `FeaturePoint.DESC_SIZE` is not shown; it is taken as 64.
- A `FeaturePoint` descriptor is a `seq<real>` value, not a shared `double[]`. Aliasing of the descriptor array between points is not modelled.
- The `List<FeaturePoint>` of `extractPoints` is a sequence of references, built by concatenation rather than by `Add`.
- Calls that would throw are preconditions rather than error paths. The code has no handler for any of them. They are:
  - a layer radius below 1 at the extremum test, where the code would index past the last row or column;
  - a first octave below 1;
  - a negative last octave, for which the grid `new OctaveLayer[octaveEnd, INTERVALS]` cannot be allocated;
  - a negative image width or height, for which a layer's response maps cannot be allocated;
  - `len_1` or `len_2` beyond its array.
- Matching requires every point of both arrays to carry exactly 64 descriptor entries. The code needs at least 64 entries, and only on the pairs it compares: a pool point that is not consumed and has the query's sign.
- `Matching.MatchInfo` is a value, where the source's `MatchInfo` is a class. Dividing a record's distance in place (`S_Surf.cs:156`) becomes replacing that array element with a new record. Nothing is lost by this: each record is created at line 198, and only distMap refers to it.
- Surf.S_Surf.ExtractPoints: requires the scheduled radius of every layer it builds (octaves octaveStart to octaveEnd, intervals 1 to 4) to be at least one. The extremum test relies on that to stay in bounds.
- Surf.S_Surf.AppendOctave: states only that each returned point is an earlier one or a new one without a descriptor, not which.
- `setDescriptor` ignores `imgWidth` and `imgHeight`. The model keeps both parameters and they play no part.

## Findings

| source | as written | input that shows it | evidently intended | confidence | as-written member | corrected member |
|---|---|---|---|---|---|---|
| SimpleSURF/S_Surf.cs:237-251 | The second-nearest loop starts from the first eligible distance and only replaces it with one strictly between bestDist and the current value. When the first eligible pool point is the nearest, bestDist_2 stays equal to bestDist, so the ratio is 1 (or bestDist_2 is 0) and the match is rejected. | A query with an all-zero descriptor. Pool: [itself, a point with an all-one descriptor], both of the same sign. The distances are [0, 8]. The nearest is index 0 at 0, the loop yields 0, and the ratio test fails. | bestDist_2 is the least distance to an eligible pool point other than bestIndex. Here that is 8, so the ratio is 0 and the match is accepted. | not executed | Matching.AsWrittenRejectsExactMatch, Matching.AsWrittenRejectsNearestFirst, Surf.S_Surf.SecondNearestScanAsWritten | Matching.SecondNearestIsMinimumOfOthers, Surf.S_Surf.SecondNearestScan |
| SimpleSURF/S_Surf.cs:249 | The loop only takes a distance strictly greater than bestDist. A second pool point at the same distance as the nearest is therefore passed over, and an ambiguous match can pass the ratio test. | An all-zero query and three pool points of its sign, with descriptors 5 at entry 0, 1 at entry 0 and 1 at entry 1, at distances [5, 1, 1]. The nearest is index 1 at 1. The loop takes 5 and never replaces it, because 1 is not above bestDist. The ratio is 0.2, so the code records the match. | The second distance is 1, from the tied pool point at index 2. The ratio is 1, and the match is rejected as ambiguous. | not executed | Matching.AsWrittenAcceptsTie, Surf.S_Surf.SecondNearestScanAsWritten | Matching.SecondNearestIsMinimumOfOthers, Surf.S_Surf.SecondNearestScan |
