# Tomato leaf stress detector: decoder and status model

The system is an edge camera application. It captures frames and runs a
single-class object detector (class "Stress") on each one. It turns the
detector's candidate rows into boxes, draws them, and serves the annotated
stream and a status colour over HTTP. This project models the two pure steps
of that pipeline in Dafny and proves their properties:

- **Decoder** (`decoder.dfy`, module `Decoder`) models `postprocess`. Each
  candidate row `(x_center, y_center, width, height, objectness, class_score)`
  whose confidence `objectness * class_score` is strictly above the threshold
  becomes a corner box `(x1, y1, x2, y2, confidence, 0)`. The x values are
  scaled by the image width and the y values by the image height, then
  truncated toward zero. There is no non-max suppression and no clamping.
  `Decode` is the reference definition. `Postprocess` is the loop written as
  the source writes it, and it is proved equal to `Decode`. `DecodeSelection`
  states which row each box comes from.
- **Status** (`status.dfy`, module `Status`) models the status part of
  `draw_boxes`. From a box list it derives a snapshot: one class label per
  box, and a colour. The colour is yellow for no boxes. Otherwise it is red
  when some label is "Stress" and green if none is. `DeriveStatus` is the
  reference definition. `DrawBoxesStatus` is the source's loop with its
  `stress_detected` flag, proved equal to it.
- **Sequences** (`sequences.dfy`) defines the order-preserving sub-sequence
  relation used by the threshold-monotonicity property.

Numbers are `real`, so nothing about IEEE floats is modelled. Python's `int()`
on a float is the explicit helper `Decoder.Trunc`, which truncates toward
zero. The image shape is `(height, width)`, as the source unpacks it.

The source keeps the status in two globals, `status_color` and
`detected_classes`, which `draw_boxes` resets on every call. The model returns
a fresh `Snapshot` instead. So the result depends only on the boxes passed in,
never on an earlier frame.

A class id is looked up with Python list indexing. Ids `-1` and `0` both name
"Stress", and any other id raises `IndexError` at the first such box. The model
returns `IndexError(at)` with that box's position. Boxes from the decoder
always carry id 0, so in the composed pipeline this error cannot happen
(`Status.FrameStatus`).

Three facts about `final.py` are worth stating outright:

- For one certain candidate centred in a 1536 x 864 frame, with size
  0.2 x 0.2, truncation gives the box `(614, 345, 921, 518)`. The exact
  corners are 614.4, 345.6, 921.6 and 518.4 (`Decoder.CentredCandidateExample`).
- The status is one of the strings "yellow", "green" and "red"
  (final.py:54, 67). The model uses an enumeration whose `Name` gives
  those strings.
- Nothing in `postprocess` checks that scores or coordinates lie in
  `[0, 1]`, so the model accepts any reals.

## Model

| member | source | states |
|---|---|---|
| Decoder.Trunc | final.py:35-38 | `int()` truncates toward zero (`TowardZero`): for `x >= 0` the result is the largest integer not above `x`; for `x < 0` it is the smallest integer not below `x` |
| Decoder.TruncMonotone | final.py:35-38 | truncation preserves `<=`, which is why a box of non-negative size never has its corners reversed |
| Decoder.TruncOdd | final.py:35-38 | truncation is symmetric about zero (`Trunc(-x) == -Trunc(x)`), which rounding down is not |
| Decoder.Confidence | final.py:32 | the confidence is the product of objectness and class score: zero when either score is zero, and non-negative when both are |
| Decoder.Kept | final.py:34 | a candidate is kept only when its confidence is strictly greater than the threshold; equality drops it |
| Decoder.AxisCorners | final.py:35-38 | along one axis, each end is its unclamped position `(center -/+ size / 2) * scale` truncated toward zero; the ends are ordered when the size is non-negative; they lie `size * scale` apart, give or take less than two pixels, or less than one when both unclamped ends are on the same side of zero |
| Decoder.ToBox | final.py:35-40 | each corner is its unclamped position truncated toward zero: `x1`, `x2` from `(x_center -/+ width / 2) * W` and `y1`, `y2` from `(y_center -/+ height / 2) * H`, with no clamping; the box carries confidence `objectness * class_score` and class id 0; `x1 <= x2` when `width >= 0` and `y1 <= y2` when `height >= 0`; the pixel width and height are within two pixels of `width * W` and `height * H` |
| Decoder.Decode | final.py:30-46 | the result is never longer than the input, and every box in it has confidence strictly above the threshold and class id 0 |
| Decoder.Postprocess | final.py:23-46 | the source's loop, which walks the rows once and appends a box for each row whose confidence clears the threshold, returns exactly `Decode` |
| Decoder.DecodeSelection | final.py:30-40 | the decoded boxes are a `Selection` of the rows, with `KeptRows` as the kept positions: the k-th box is the box of the k-th kept row; the kept positions are strictly increasing, so input order is preserved; a row's position is kept iff its confidence is strictly above the threshold |
| Decoder.RaiseThreshold | final.py:34 | for `low <= high`, decoding at `high` gives the decoding at `low` filtered by confidence `> high`, so it is an order-preserving sub-sequence of it: raising the threshold only removes boxes |
| Decoder.DecodeEmptyIff | final.py:34-46 | the result is the empty list exactly when no row's confidence clears the threshold; this is a normal result, not an error |
| Decoder.ZeroScoresDecodeEmpty | final.py:32-34 | with a non-negative threshold, rows whose objectness or class score is 0 give no box, so an all-zero output decodes to `[]` |
| Decoder.CentredCandidateExample | final.py:26-40 | a certain candidate at the centre of a 1536 x 864 frame, with size 0.2 x 0.2, gives exactly `[(614, 345, 921, 518, 1.0, 0)]`; x is scaled by the width and y by the height |
| Decoder.NoClampingExample | final.py:35-38 | a box centred on the frame's corner keeps negative coordinates: corners are not clamped, and `-25.5` truncates to `-25`, not `-26` |
| Status.Labels | final.py:57-63 | when every class id indexes the class list, there is one label per box, in box order, each the class name of that box's id; otherwise the result is the position of the first box whose id does not index it |
| Status.ClassName | final.py:58-63 | `class_names[class_id]` for an id the list can index, counting negative ids from the end; with `class_names == ["Stress"]` it is always "Stress" |
| Status.ClassIdRange | final.py:58 | with the one-element class list, exactly the ids 0 and -1 index it; every other id raises `IndexError` |
| Status.NameInjective | final.py:54-67 | the status strings "yellow", "green" and "red" tell the three colours apart: equal names mean equal colours |
| Status.DeriveStatus | final.py:49-67 | no boxes gives yellow and no classes; otherwise there is one label per box in order, the colour is red iff some box's label is "Stress", and it is never yellow; an unindexable class id gives the first offending box's position |
| Status.DrawBoxesStatus | final.py:49-67 | the loop with its `stress_detected` flag computes exactly `DeriveStatus`, including where it stops on an unindexable class id |
| Status.ClassZeroStatus | final.py:53-67 | for boxes that all carry class id 0, the status is yellow with no classes when there are none, and red with one "Stress" label per box otherwise |
| Status.GreenUnreachable | final.py:63-67 | with `class_names == ["Stress"]`, a successful status is never green |
| Status.FrameStatus | final.py:88-89 | in the capture loop (default threshold 0.2), the decoded boxes always have labels, every label is "Stress", the colour is yellow iff no candidate clears 0.2, and red iff one does |

## Left out

- Camera capture with Picamera2 (final.py:72-76, 83): hardware I/O. The model starts from candidate rows.
- ONNX model loading and inference (final.py:10-13, 87): a call into a foreign runtime.
- The `output[0].squeeze().T` reshape (final.py:24): the model takes the rows as a sequence of 6-field `Candidate` values instead. This matches the source when the network outputs two or more candidates; the fixed network outputs 8400. With exactly one candidate, `squeeze()` leaves a flat 6-vector, iteration yields scalars, and the unpacking at final.py:31 raises `TypeError`. The model instead decodes that single row to at most one box (`Decoder.Decode`, `Decoder.CentredCandidateExample`).
- Preprocessing by resize, transpose and division by 255 (final.py:84-85): floating-point array operations in numpy and OpenCV.
- Pixel drawing, the `"Stress: 0.93"` label text and JPEG encoding (final.py:58-62, 90): foreign imaging library and float formatting.
- The background thread, `frame_buffer`, and the `status_color` and `detected_classes` globals (final.py:19-20, 78-91, 122): shared state and concurrency. The status is returned as a value instead.
- The Flask routes, HTML template and multipart stream generator (final.py:94-118, 123): HTTP and UI plumbing.
- The `print` diagnostics (final.py:28, 41, 44): logging with no effect on the result.
- IEEE float behaviour: objectness, class scores and coordinates are `real`. float32 rounding of the product and the scaled corners is not modelled, so the properties hold for exact arithmetic.
- Status.DeriveStatus: on an `IndexError`, the source has already appended the labels of earlier boxes to the global list and leaves the colour global unchanged. The model returns only the error and the offending position, because it models the status as a returned value, not as globals.
