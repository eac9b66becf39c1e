# Cube scanner — a Dafny model of its decision and ordering logic

The cube scanner reads the sticker colours of a puzzle cube from a webcam. Each
frame is traced into outlines; outlines that look like stickers become candidate
squares; a frame with exactly nine candidates becomes a face, ordered in reading
order; the capture loop collects six faces, waits between captures so the
operator can turn the cube, and tells them how to turn it; finally the 54 sampled
colours are clustered into six labels, and the labels are filed back under the
six face names.

This project models the pure part of that pipeline. Everything the image library
or the clustering library computes arrives as a given value.

| file | module | what it models |
|---|---|---|
| `wrappers.dfy` | `Wrappers` | `Option`, used where the source returns `False` instead of a value |
| `cube_types.dfy` | `CubeTypes` | colours, bounding boxes, outlines (`Contour`), candidate squares, faces (exactly nine squares) |
| `contour_filter.dfy` | `ContourFilter` | `isContourSquare` and the nesting rule that picks candidate outlines |
| `stable_sort.dfy` | `StableSort` | the stable sort by y or x (Python's `sorted` with a key) |
| `face_assembly.dfy` | `FaceAssembly` | the face assembler at the end of `scanSide`, and `scanSide` as a whole |
| `cube_labels.dfy` | `CubeLabels` | face names in capture order, flattening the samples, splitting the 54 labels |
| `capture.dfy` | `Capture` | the capture loop: one iteration as a step function, and the loop over a frame sequence |

How each part is modelled:

- An outline (`Contour`) carries its area and circularity as reals. It also carries
  the hierarchy's first-child index (-1 for none), its bounding box and its mean
  colour. A frame is a sequence of outlines.
- Stability of a sort is stated without indices. For every key value k, the
  squares with key k appear in the output in their input order. `StableSortUnique`
  shows that only one sorted sequence has that property. So the insertion sort
  here gives the same result as Python's Timsort.
- The assembled face is specified as "some stable y-sort, cut into three groups,
  each group stable-sorted by x" (`TwoPhaseOrder`). `TwoPhaseOrderUnique` shows
  that the assembler's output is the only face meeting that specification.
- One loop iteration takes two inputs: what `scanSide` would return for the frame,
  and the clustering (a function from the 54 colours to labels). The loop runs over
  a finite sequence of frames. Each frame also records whether the quit key was
  pressed during it.

`scanFunction.py` repeats `scanSide` and `isContourSquare` from
`MainCubeScanner.py` with the same logic and constants (its `0.7` is the same real
as `0.70`). The one model serves both files, and rows below cite whichever file
states the property.

Two behaviours of the program are easy to misread:

- The label split does not check the number of labels. Every label from index 45
  onward is filed under "down", whatever the count, and `SplitLabels` does the
  same.
- The settle window is a flag and a counter. After a capture the counter ends the
  iteration at 1. Scanning comes back only when an iteration starts with the
  counter above 100, so the 100 frames after a capture are never scanned
  (`SettleWindow`).

Some source functions are modelled by predicates and functions that have no row
of their own; the lemmas about them do:

- `ContourFilter.IsContourSquare` is `isContourSquare`.
- `ContourFilter.Keep` is the condition at `MainCubeScanner.py` line 54.
- `CubeLabels.SideLabel` is the `sideLabels` dictionary.
- `CubeLabels.FaceOfIndex` is the if-chain at lines 195-206.

## Model

| member | source | states |
|---|---|---|
| `ContourFilter.SmallContourNeverSquare` | MainCubeScanner.py:20-23 | an outline of area at most 500 is never square, whatever its circularity |
| `ContourFilter.BandEndsInclusive` | scanFunction.py:99-102 | for a large outline, circularity exactly 0.70 or 0.85 passes and anything outside the band fails: both band ends are inclusive |
| `ContourFilter.KeptContours` | MainCubeScanner.py:51-54 | outline i is kept iff it is square and its first child is -1 or not square; kept indices come out in increasing scan order |
| `ContourFilter.NestedSquareDropped` | scanFunction.py:40 | a square outline whose first child is square is never kept; only the first child is examined |
| `ContourFilter.Candidates` | MainCubeScanner.py:49-72 | one candidate per kept outline, in scan order: candidate k is the box and colour of the k-th kept outline, so a square is a candidate iff it is that of a kept outline, and there are never more candidates than outlines |
| `StableSort.SortOn` | MainCubeScanner.py:83 | the result is sorted on the key, is a permutation of the input, and keeps the input order of squares with equal keys |
| `StableSort.StableSortUnique` | MainCubeScanner.py:86-91 | two sorted sequences with the same per-key subsequences are equal, so any stable sort gives the same result |
| `StableSort.StableSortIsSortOn` | scanFunction.py:63-71 | any stable sort of a list equals `SortOn` of it |
| `FaceAssembly.AssembleFace` | MainCubeScanner.py:80-109 | no face iff the count is not 9; otherwise the face is a permutation of the candidates, upper rows have y no larger than lower rows, x is nondecreasing in each row, and the face is in two-phase stable order |
| `FaceAssembly.TwoPhaseIsRowMajor` | MainCubeScanner.py:83-100 | any face in two-phase stable order is a permutation of the candidates and is in reading order |
| `FaceAssembly.TwoPhaseOrderUnique` | scanFunction.py:63-80 | a face in two-phase stable order is exactly what the assembler returns, ties in y and x included |
| `FaceAssembly.DistinctYOrderIndependent` | MainCubeScanner.py:80-100 | when no two candidates share a y, any reordering of the candidates gives the same face, or no face for both |
| `StableSort.DistinctSortsAgree` | MainCubeScanner.py:83 | with distinct keys, two permutations of each other sort to the same sequence |
| `FaceAssembly.AssembledFromInput` | MainCubeScanner.py:80-107 | every square of an assembled face is one of the candidates it was assembled from |
| `FaceAssembly.NoFaceOffByOne` | MainCubeScanner.py:80-109 | 8 or 10 candidates give no face |
| `FaceAssembly.ScanSide` | scanFunction.py:35-89 | a frame gives a face iff exactly nine outlines are kept; the face is then a permutation of the candidates, in reading order |
| `FaceAssembly.ScannedSquaresAreKept` | scanFunction.py:37-52 | every square of a scanned face is the box and colour of a kept outline |
| `CubeLabels.SideIndex` | MainCubeScanner.py:125-132 | each face name has a capture index below 6 that names it back |
| `CubeLabels.SideLabelInjective` | MainCubeScanner.py:125-132 | different capture indices give different face names |
| `CubeLabels.FaceOfIndexIsQuotient` | MainCubeScanner.py:194-206 | below 54, the if-chain files index i under the face captured i / 9-th |
| `CubeLabels.SplitLabels` | MainCubeScanner.py:193-206 | every face name is present, and each holds, in order, exactly the labels whose indices fall in its nine-wide band (down: all from 45 on) |
| `CubeLabels.JoinSplit` | MainCubeScanner.py:194-206 | reading the six lists back in capture order gives the labels back, for any number of labels |
| `CubeLabels.SplitFullScan` | MainCubeScanner.py:194-206 | with 54 labels every face gets exactly 9, and position p of the face captured q-th holds label 9q + p |
| `CubeLabels.Flatten` | MainCubeScanner.py:170-175 | the sample list has 9 entries per face, and entry 9f + p is the colour of square p of face f |
| `CubeLabels.LabelSides` | MainCubeScanner.py:166-168 | exactly the names of the captured indices are present, each mapped to the face captured at that index |
| `CubeLabels.Resolve` | MainCubeScanner.py:166-206 | all six names are present in both maps, the i-th captured face is under the i-th name, each name holds exactly the labels of its nine-wide band in order (down: all from 45 on), and the six label lists concatenate back to the labels |
| `Capture.PromptFor` | MainCubeScanner.py:159-165 | "Rotate Cube to the Left" after faces 1-3, "Rotate Cube Up" after face 4, "Rotate Cube Up Twice" after face 5, nothing otherwise (each both ways) |
| `Capture.Step` | MainCubeScanner.py:141-219 | an armed iteration with a face appends it, clears the flag and leaves the counter at 1; otherwise nothing is appended and the counter grows by one; from a reachable state a prompt appears only with a capture; the cube is resolved exactly when the sixth face arrives |
| `Capture.FullScanPrompts` | MainCubeScanner.py:159-165 | the prompts of a full scan are left, left, left, up, up twice |
| `Capture.Run` | MainCubeScanner.py:136-223 | a run never removes or reorders faces: the faces it starts with stay in front, and it ends with at most six |
| `Capture.RunAppendsFaces` | MainCubeScanner.py:149-153 | the faces a run adds come from strictly increasing frames, one per frame at most, each the scan of its frame, in capture order |
| `Capture.RunPrompts` | MainCubeScanner.py:157-165 | a run shows exactly the prompts due for the face counts it passes through, whatever the timing |
| `Capture.RunResolvesOnce` | MainCubeScanner.py:136-181 | a run resolves the cube iff it captures the sixth face, and the result is built from the six faces and the clustering of their 54 colours |
| `Capture.ResolvedCube` | MainCubeScanner.py:166-206 | once resolved with 54 labels, each face name maps to its captured face and to the nine labels of its samples, in order |
| `Capture.SettleWindow` | MainCubeScanner.py:146-155 | with scanning off, no face is appended while every iteration starts with the counter at most 100 |
| `Capture.Rearmed` | MainCubeScanner.py:146-153 | once the counter exceeds 100, the next frame that yields a face is captured |

## Left out

- Image processing is not modelled: grey conversion, blur, edge detection,
  dilation, contour tracing, bounding boxes, colour means, drawing, display,
  screenshots and key reads. Outlines, their hierarchy, boxes and mean colours are
  inputs.
- Circularity is not computed (π, perimeter, area, float division). Area and
  circularity are given reals, so float rounding at the band ends is not modelled.
- `cv2.mean` returns four channels; only the three colour channels are kept. The
  fourth is not part of `Bgr`, so the saved per-face data drops it. The
  truncation of the float mean to `uint8` is not modelled either: the colour
  arrives already as three channels in 0-255.
- A frame whose hierarchy names a first child outside the frame is not modelled
  (`ContourFilter.WellFormed`): the image library never produces one, and Python
  would read such an index from the end of the list or fail.
- The constrained k-means is not modelled. It is the `cluster` parameter, and
  nothing is claimed about its output: not the 9-per-cluster balance, not the
  range 0-5, not even its length (`ResolvedCube` states its result for 54 labels).
- JSON serialisation and the two file writes are not modelled, so neither is the
  round trip of the saved map. Prompts are values (`Prompt`, with `PromptText`),
  not printed lines.
- The camera read is not modelled and neither is a camera failure. The quit key is
  the `quitPressed` flag of a frame.
- Dead code is left out: the `upper_left`/`bottom_right` constants, `k = kmeans.fit`
  and the unused `KMeans` import.
- `scan.py` is not part of this model. It is a separate single-loop script with a
  0.68-0.9 band that stops when one frame yields more than 8 candidate squares.
- With two candidates on the same y the face can depend on their input order;
  with all y distinct it does not (`DistinctYOrderIndependent`).
