# Blob body path — a Dafny model

This project models how the mascot app builds the outline of its green "blob body".
The code is in `GreenBody` and the `Offset.normalize` extension of `MainActivity.kt`.
For a canvas of width `w` and height `h` it:

1. takes the diamond inscribed in the canvas, with vertices top `(w/2, 0)`, right `(w, h/2)`,
   bottom `(w/2, h)` and left `(0, h/2)`, in that cyclic order;
2. sets the corner radius to `min(w, h) * 0.15`;
3. for every vertex `i` computes an inbound point `pIn[i]` and an outbound point `pOut[i]`.
   `pIn[i]` lies one corner radius back along the arriving edge and `pOut[i]` one corner
   radius forward along the leaving edge. Neighbours are found with the cyclic indices
   `(i - 1 + n) % n` and `(i + 1) % n`. Directions are normalised, and a zero vector
   normalises to the zero vector;
4. emits one path: `moveTo(pOut[0])`, then for every vertex a concave quadratic along the
   edge and a rounded quadratic around the next corner, then `close()`. The edge segment's
   control point is the chord midpoint pulled towards the canvas centre by the concavity
   factor 0.2. The corner segment's control point is the vertex itself.

Modules:

- `Geometry` (`geometry.dfy`): points over `real`; sum, difference, scaling and midpoint;
  squared length; normalisation.
  - The square root comes from `kotlin.math`, whose code is not part of this model, so it
    is a parameter `sqrt: real -> real`.
  - Facts that depend on it being a square root assume `IsSqrt(sqrt)`: for every `v >= 0`,
    `sqrt(v) >= 0` and `sqrt(v) * sqrt(v) == v`.
- `BlobPath` (`blob_path.dfy`): the offset loop and the drawing loop for any non-empty
  polygon, because the source loops run over `vertices.size` with cyclic
  indices. It has:
  - the `Cmd` datatype (`MoveTo`, `Quad(ctrl, end)`, `Close`);
  - the two loops as methods (`ComputeOffsets`, `ConstructPath`);
  - their functional reference definitions (`PIn`, `POut`, `Segments`, `AssemblePath`);
  - the shape and continuity lemmas.
- `GreenBody` (`green_body.dfy`): the diamond, the corner radius and the fixed constants.
  - `BuildPath(w, h, ratio, concavity, sqrt)` leaves the two shape parameters open.
  - `DrawGreenBody` is the body's drawing code with its constants 0.15 and 0.2.
- `GreenBodyProperties` (`green_body_properties.dfy`):
  - the metric facts: offsets at exactly the corner radius, offsets that stay in order
    along each edge, monotonicity in the ratio;
  - the quarter-turn symmetry of a square canvas;
  - the exact values for a 100 by 100 canvas.

Notes on the code's behaviour that the model keeps:

- The code checks nothing about the canvas size and draws whatever it gives, so
  `BuildPath` and `DrawGreenBody` are total with no precondition. `DiamondEdgesNonzero`
  states when the degenerate zero-direction case happens: only on a `0 x 0` canvas.
- `CornerRadiusBounds` keeps the radius below half of either side for any ratio below 0.5.
  Even so, `GreenBodyProperties.RatioBelowHalfCanCross` shows that on a square canvas a ratio
  of 0.45 already makes every edge shorter than twice the corner radius, so the rounded
  corners overlap. `GreenBodyProperties.OffsetsStayOrdered` proves they stay in order for
  every ratio up to 0.35, which includes the 0.15 the code uses.
- The code hard-codes ratio 0.15 and concavity 0.2. `BuildPath` takes both as parameters,
  and `DrawGreenBody` fixes them as the code does.

## Model

| member | source | states |
|---|---|---|
| Geometry.Normalize | app/src/main/java/com/appersiano/abrilliantmascotte/MainActivity.kt:70-73 | `Offset.normalize`: for any square-root function, the zero vector normalises to the zero vector |
| Geometry.NormalizeScalesBack | app/src/main/java/com/appersiano/abrilliantmascotte/MainActivity.kt:70-73 | For any square-root function, a nonzero result scaled by the input's length gives the input back |
| Geometry.NormalizeZeroIff | app/src/main/java/com/appersiano/abrilliantmascotte/MainActivity.kt:70-73 | With a genuine square root, `normalize` returns the zero vector exactly when its input is the zero vector (the `len != 0f` test) |
| Geometry.NormalizeUnit | app/src/main/java/com/appersiano/abrilliantmascotte/MainActivity.kt:70-73 | With a genuine square root, a nonzero vector normalises to a vector of squared length 1 and length 1, which scaled by the input's length gives the input back |
| Geometry.LengthZeroIff | app/src/main/java/com/appersiano/abrilliantmascotte/MainActivity.kt:71 | The length `sqrt(x*x + y*y)` is non-negative and zero only for the zero vector |
| Geometry.Norm2ZeroIff | app/src/main/java/com/appersiano/abrilliantmascotte/MainActivity.kt:71 | The radicand `x*x + y*y` is non-negative and zero only for the zero vector |
| Geometry.NormalizeQuarterTurn | app/src/main/java/com/appersiano/abrilliantmascotte/MainActivity.kt:70-73 | Normalising a quarter-turned vector gives the quarter-turned direction, for any square-root function |
| Geometry.SqrtBelowIff | app/src/main/java/com/appersiano/abrilliantmascotte/MainActivity.kt:71 | A square root is below a non-negative bound exactly when the radicand is below the bound's square |
| Geometry.Midpoint | app/src/main/java/com/appersiano/abrilliantmascotte/MainActivity.kt:119-120 | The computed `midEdge` is equidistant from both chord ends: `mid - start == end - mid` |
| BlobPath.Prev | app/src/main/java/com/appersiano/abrilliantmascotte/MainActivity.kt:98 | `(i - 1 + n) % n` lies in `[0, n)` and is `n - 1` for `i = 0`, `i - 1` otherwise |
| BlobPath.Next | app/src/main/java/com/appersiano/abrilliantmascotte/MainActivity.kt:99 | `(i + 1) % n` lies in `[0, n)` and is `0` for `i = n - 1`, `i + 1` otherwise |
| BlobPath.PrevNextInverse | app/src/main/java/com/appersiano/abrilliantmascotte/MainActivity.kt:98-99 | The cyclic predecessor of the successor, and the successor of the predecessor, is the index itself |
| BlobPath.ComputeOffsets | app/src/main/java/com/appersiano/abrilliantmascotte/MainActivity.kt:94-109 | The offset loop yields one `pIn` and one `pOut` per vertex, in vertex order, equal to `v[i] - normalize(v[i] - v[prev]) * r` and `v[i] + normalize(v[next] - v[i]) * r` |
| BlobPath.DirIn | app/src/main/java/com/appersiano/abrilliantmascotte/MainActivity.kt:101 | The arriving direction `normalize(v[i] - v[prev])`; it is the zero vector when the vertex repeats its predecessor |
| BlobPath.DirOut | app/src/main/java/com/appersiano/abrilliantmascotte/MainActivity.kt:102 | The leaving direction `normalize(v[next] - v[i])`; it is the zero vector when the vertex repeats its successor |
| BlobPath.PIn | app/src/main/java/com/appersiano/abrilliantmascotte/MainActivity.kt:104 | The inbound point `v[i] - dirIn * r`: moving `r` along the arriving direction from it reaches the vertex, and it is the vertex itself when `r` is 0 or the arriving edge is degenerate |
| BlobPath.POut | app/src/main/java/com/appersiano/abrilliantmascotte/MainActivity.kt:105 | The outbound point `v[i] + dirOut * r`: moving `r` back along the leaving direction from it reaches the vertex, and it is the vertex itself when `r` is 0 or the leaving edge is degenerate |
| BlobPath.EdgeControl | app/src/main/java/com/appersiano/abrilliantmascotte/MainActivity.kt:117-121 | The edge control point is the chord midpoint for concavity 0 and the centre for concavity 1 |
| BlobPath.Segments | app/src/main/java/com/appersiano/abrilliantmascotte/MainActivity.kt:113-135 | The first `k` loop turns emit `2k` commands: turn `i` gives the edge segment of vertex `i` at `2i` and the corner segment of the next vertex at `2i + 1` |
| BlobPath.AssemblePath | app/src/main/java/com/appersiano/abrilliantmascotte/MainActivity.kt:111-137 | The whole path as a function: `2n + 2` commands, beginning with `moveTo(pOut[0])` and ending with `close()` |
| BlobPath.ConstructPath | app/src/main/java/com/appersiano/abrilliantmascotte/MainActivity.kt:111-137 | The drawing loop builds exactly the reference path: the move, every turn's edge and corner segment, the close |
| BlobPath.PathShape | app/src/main/java/com/appersiano/abrilliantmascotte/MainActivity.kt:111-137 | The path has `2n + 2` commands. It starts with `MoveTo(pOut[0])`, continues with `n` edge/corner pairs of quadratics, ends with `Close`, and forms one closed contour whose last curve ends at the move point |
| BlobPath.PathContinuous | app/src/main/java/com/appersiano/abrilliantmascotte/MainActivity.kt:112-135 | Every edge segment starts where the pen stands, at `pOut[i]`, and ends at `pIn[(i+1)%n]`. The corner segment after it has control point `v[(i+1)%n]` and ends at `pOut[(i+1)%n]` |
| BlobPath.OffsetDistance | app/src/main/java/com/appersiano/abrilliantmascotte/MainActivity.kt:101-105 | When the two edges at a vertex have nonzero length, both directions are unit vectors and `pIn`, `pOut` lie exactly `r` from the vertex |
| BlobPath.OffsetsAlongEdge | app/src/main/java/com/appersiano/abrilliantmascotte/MainActivity.kt:101-105 | Along an edge of length `L`, `pOut[i]` and `pIn[i+1]` use the same direction `d`, and `pIn[i+1] - pOut[i] == d * (L - 2r)` |
| BlobPath.EdgeKeepsOffsetsOrdered | app/src/main/java/com/appersiano/abrilliantmascotte/MainActivity.kt:101-105 | When `(2r)^2` is below an edge's squared length, `2r` is below its length and `pIn[i+1]` lies `L - 2r > 0` past `pOut[i]` along the edge |
| GreenBody.Center | app/src/main/java/com/appersiano/abrilliantmascotte/MainActivity.kt:80 | The centre `(w/2, h/2)` is where the canvas' two diagonals cross: the midpoint of each pair of opposite corners |
| GreenBody.Diamond | app/src/main/java/com/appersiano/abrilliantmascotte/MainActivity.kt:82-87 | Four vertices, in the order top, right, bottom, left, each lying on that side of the canvas |
| GreenBody.CornerRadius | app/src/main/java/com/appersiano/abrilliantmascotte/MainActivity.kt:90 | `minOf(width, height) * ratio`: it equals the ratio applied to one of the sides, and for a non-negative ratio it is no more than the ratio applied to either side |
| GreenBody.BuildPath | app/src/main/java/com/appersiano/abrilliantmascotte/MainActivity.kt:78-137 | The body's path for any canvas and shape parameters: 10 commands, beginning with a move to the top vertex' outbound point and ending with a close |
| GreenBody.DrawGreenBody | app/src/main/java/com/appersiano/abrilliantmascotte/MainActivity.kt:78-137 | The body's drawing code, with ratio 0.15 and concavity 0.2, yields the reference path, which has 10 commands and is one closed contour |
| GreenBody.DiamondInscribed | app/src/main/java/com/appersiano/abrilliantmascotte/MainActivity.kt:80-88 | There are 4 vertices, the midpoints of the canvas' top, right, bottom and left sides in that order, and the centre `(w/2, h/2)` is the midpoint of both diagonals |
| GreenBody.CornerRadiusBounds | app/src/main/java/com/appersiano/abrilliantmascotte/MainActivity.kt:90 | For positive sides and a ratio in `(0, 0.5)`, 0.15 among them, the corner radius is positive and below half of either side |
| GreenBody.DiamondEdgesNonzero | app/src/main/java/com/appersiano/abrilliantmascotte/MainActivity.kt:82-102 | Every arriving and every leaving edge of the diamond is nonzero exactly when the canvas is not `0 x 0` |
| GreenBody.BuildPathShape | app/src/main/java/com/appersiano/abrilliantmascotte/MainActivity.kt:111-136 | For every canvas and parameters the path is `MoveTo(pOut[0])`, 8 quadratics and `Close`. The eighth quadratic ends at `pOut[0]`, so the contour is closed |
| GreenBody.BuildPathContinuous | app/src/main/java/com/appersiano/abrilliantmascotte/MainActivity.kt:112-135 | For the diamond, command `2i` leaves the pen at `pOut[i]`. Command `2i+1` is the concave edge to `pIn[(i+1)%4]` and command `2i+2` is the corner about `v[(i+1)%4]` ending at `pOut[(i+1)%4]` |
| GreenBodyProperties.DiamondEdgeNorm2 | app/src/main/java/com/appersiano/abrilliantmascotte/MainActivity.kt:82-87 | Every diamond edge has squared length `w²/4 + h²/4` |
| GreenBodyProperties.OffsetsAtCornerRadius | app/src/main/java/com/appersiano/abrilliantmascotte/MainActivity.kt:90-105 | For positive sides no diamond direction normalises to zero, and every `pIn[i]`, `pOut[i]` lies exactly one corner radius from `v[i]` |
| GreenBodyProperties.OffsetsMoveOutward | app/src/main/java/com/appersiano/abrilliantmascotte/MainActivity.kt:90-105 | A larger ratio moves every `pIn[i]` and `pOut[i]` strictly further from its vertex |
| GreenBodyProperties.TwiceRadiusSquaredBelowEdge | app/src/main/java/com/appersiano/abrilliantmascotte/MainActivity.kt:90 | For ratios up to 0.35, `(2r)²` is below every diamond edge's squared length |
| GreenBodyProperties.OffsetsStayOrdered | app/src/main/java/com/appersiano/abrilliantmascotte/MainActivity.kt:90-121 | For ratios up to 0.35, 0.15 among them, `2r` is shorter than every edge and `pIn[i+1]` lies strictly past `pOut[i]` along it, so the rounded corners do not overlap |
| GreenBodyProperties.RatioBelowHalfCanCross | app/src/main/java/com/appersiano/abrilliantmascotte/MainActivity.kt:90 | On every square canvas a ratio of 0.45 makes `2r` longer than every edge, so a ratio below 0.5 alone does not keep the offsets in order |
| GreenBodyProperties.EdgeControlRotates | app/src/main/java/com/appersiano/abrilliantmascotte/MainActivity.kt:117-121 | Turning both chord ends about the centre turns the concave control point the same way |
| GreenBodyProperties.SquareDiamondTurns | app/src/main/java/com/appersiano/abrilliantmascotte/MainActivity.kt:80-87 | On a square canvas a quarter turn about the centre takes each vertex to the next one |
| GreenBodyProperties.SquareDirectionsTurn | app/src/main/java/com/appersiano/abrilliantmascotte/MainActivity.kt:101-102 | On a square canvas each arriving and leaving direction turns into the next vertex' one |
| GreenBodyProperties.SquareOffsetsTurn | app/src/main/java/com/appersiano/abrilliantmascotte/MainActivity.kt:104-105 | On a square canvas each `pIn[i]` and `pOut[i]` turns into `pIn[i+1]` and `pOut[i+1]` |
| GreenBodyProperties.SquareQuarterTurnSymmetry | app/src/main/java/com/appersiano/abrilliantmascotte/MainActivity.kt:111-135 | On a square canvas each edge segment and each corner segment of the path turns into the next vertex' one |
| GreenBodyProperties.HundredSquareValues | app/src/main/java/com/appersiano/abrilliantmascotte/MainActivity.kt:82-105 | On a 100 by 100 canvas the vertices are (50,0), (100,50), (50,100), (0,50) and the radius is 15. `pOut[0]` is `(50 + t, t)` with `t > 0` and `t² = 112.5`, that is `t = 15/√2` |

## Left out

- `MainActivity.onCreate`, `Koji`, `Eye`, `WhiteOfTheEye`, `Pupil` and the `@Preview` functions are Android lifecycle and Compose layout with no logic.
- `Canvas`, `Path().apply`, `drawPath` and the fill colour are calls into the rendering library. The path is modelled as a `seq<Cmd>`, and `close()` as a `Close` command with no geometry of its own.
- `kotlin.math.sqrt` is a library call and is a parameter of the model. Metric facts assume `IsSqrt`, and purely structural facts hold for every square-root function.
- `Float` arithmetic is idealised to exact reals, and the constants `0.15f` and `0.2f` are taken as the exact decimals 0.15 and 0.2. No rounding, overflow or NaN behaviour is modelled.
- GreenBodyProperties.HundredSquareValues: states the 100 by 100 spot value exactly (`t² = 112.5`) rather than the decimal approximation (60.6, 10.6), because the model has no floating point.
- GreenBodyProperties.OffsetsStayOrdered: proves non-overlap for ratios up to 0.35. It does not prove the exact threshold `√2/4 ≈ 0.3536` for square canvases.
- The `dp` sizes (400, 170 by 120, 50, 70) are fixed layout constants with no behaviour.
