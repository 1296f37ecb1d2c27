# Face selection for the drone face tracker

This project models how the tracker picks one face to follow when the face detector reports several in a
frame (`choose_face` in `tracking.py`), and proves properties of that choice.

The selector takes the detected boxes `(x, y, w, h)` and the frame dimensions `(width, height)`.
It computes the frame centre `(width/2, height/2)` and each box's centre `(x + w/2, y + h/2)`, both by true
division. It then scans the boxes in order, keeping a running best `(distance, box)` that starts at the
sentinel `(999999999, None)`. A box replaces the best only when its distance to the frame centre is
strictly smaller. An empty list is an error.

The model (`tracking.dfy`, module `Tracking`):

- `Box`, `FrameDimensions` and `Point` are value datatypes.
- `Candidate` is the running best pair.
- `Result<Option<Box>>` is the outcome: `Err(NoBoundingBoxes)` for the `ValueError`, `Ok(None)` when no box
  beats the sentinel, and `Ok(Some(b))` otherwise.
- `ChooseFace` is a method with a `while` loop over the index, as in the original. Its loop invariant says
  that the running best is the earliest nearest box of the prefix scanned so far, or is the sentinel with no
  box when no box of the prefix beats it.
- The postconditions are stated against two declarative predicates. `IsEarliestNearest(boxes, c, k)` says
  that box `k` beats the sentinel, that no box is strictly nearer, and that every earlier box is strictly
  farther. `NoneBeatsSentinel(boxes, c)` says that every box is at least the sentinel distance away.
  Lemmas prove that these predicates pick out exactly one outcome.

Coordinates and frame dimensions are integers, matching the detector's output and the `int(...)` casts in
`detect_face`. Centres are exact `real`s. Distances are compared squared. The square root is monotone on
non-negative values, so every comparison, including the one against the sentinel, gives the same answer
(`SqrtComparisonAgrees`). Lifted to whole lists, the choice on squared distances is the same as the choice on
Euclidean distances (`SquaredChoiceAgrees`). The sentinel is therefore compared as its square, 999999998000000001
(`SentinelSquared`).

The docstring (`tracking.py:12-18`) promises "the face chosen for tracking", and a reader might expect a
selector that always returns a face for a non-empty list and only accepts sensible sizes. The model follows
the code instead:

- A single candidate is not always selected. The code returns `None` when every box is 999999999 or more
  from the frame centre, and the model does the same.
- The empty-list failure is the code's `ValueError`, not a dedicated error type. Here it is
  `Err(NoBoundingBoxes)`.
- Frame sizes and box sizes are not checked for positivity. Any integers are accepted, including a 0x0
  frame and boxes with zero or negative width or height.

`tests/tracking.py` passes a two-dimensional array where the code expects the `(width, height)` pair. Indexing
that array yields rows of the array, not numbers. The model takes the pair, as `detect_face` supplies it
(`tracking.py:61-64`).

## Model

| member | source | states |
|---|---|---|
| Tracking.ChooseFace | tracking.py:11-38 | Returns the error exactly when the list is empty. Returns no box exactly when the list is non-empty and no box is nearer than the sentinel. Otherwise returns, unchanged, the input box at an index that beats the sentinel, is not farther than any other box, and is strictly nearer than every earlier box. The last part means it is never fabricated and ties go to the first box. |
| Tracking.EarliestNearestUnique | tracking.py:29-36 | At most one index satisfies the earliest-nearest condition, so the result is never ambiguous. |
| Tracking.EarliestNearestExists | tracking.py:27-36 | If some box beats the sentinel, some index satisfies the earliest-nearest condition. With uniqueness, a non-empty list yields exactly one outcome. |
| Tracking.SqrtComparisonAgrees | tracking.py:33-35 | For non-negative distances, `dist < bound` holds exactly when the squares compare the same way. This justifies comparing squared distances and the squared sentinel instead of square roots. |
| Tracking.SquaredChoiceAgrees | tracking.py:29-38 | Given each box's Euclidean distance as a non-negative root of its squared distance, an index is the earliest nearest one on squared distances exactly when it is on Euclidean distances against 999999999. Every box fails the squared sentinel exactly when every Euclidean distance is at least 999999999. |
| Tracking.Square | tracking.py:33 | The square of a coordinate difference is non-negative. |
| Tracking.SentinelSquared | tracking.py:27 | The squared sentinel used in the model is the square of the initial distance 999999999. |
| Tracking.FrameCentre | tracking.py:24 | The frame centre lies within the frame for non-negative dimensions. A 0x0 frame has its centre at the origin, and nothing divides by the dimensions. |
| Tracking.BoxCentre | tracking.py:30-31 | A box's centre lies within the box whenever its width and height are non-negative. |
| Tracking.DistSq | tracking.py:33 | The squared distance is non-negative and is zero when the box centre is the frame centre. |
| Tracking.SecondOfTwoNearest | tracking.py:29-36 | Of two boxes, the second is the earliest nearest one when it is strictly nearer than the first and beats the sentinel. |
| Tracking.FirstOfTwoNearest | tracking.py:29-36 | Of two boxes, the first is the earliest nearest one when it is not farther than the second and beats the sentinel. |
| Tracking.ChooseSingleFace | tracking.py:21-38 | For any frame size, including 0x0, a single box nearer than the sentinel is returned. |
| Tracking.ChooseTiedFaces | tracking.py:35-36 | Of two boxes at the same distance, nearer than the sentinel, the first is returned. The strict comparison never lets a later tied box replace it. |
| Tracking.ChooseNearerOfTwo | tracking.py:29-38 | Of two boxes, a strictly nearer second box beating the sentinel is returned. |
| Tracking.CentralFaceDistances | tests/tracking.py:10-14 | In a 100x100 frame the centre is (50, 50). The squared distances of (0,0,20,20) and (45,45,20,20) are 3200 and 50. |
| Tracking.ChooseCentralFace | tests/tracking.py:9-16 | With boxes (0,0,20,20) and (45,45,20,20) and a 100x100 frame, the selector returns (45,45,20,20). |
| Tracking.ChooseNoFace | tests/tracking.py:18-21 | An empty list of boxes is rejected with the error for any frame. |

## Left out

- `detect_face` (`tracking.py:41-73`) is not modelled. It covers video reads, the Haar cascade detector, grayscale conversion, key polling and process exit, which are all I/O and foreign calls. Its `except ValueError` branch cannot be reached, because the selector is only called on a non-empty list.
- `track_face` (`tracking.py:76-159`) is not modelled. It covers choosing a tracker constructor by library version, video capture, the external tracker's `init` and `update`, drawing and on-screen text. The code never checks the tracker's `init` result, and a failed `update` only changes what is drawn, so it contains no state machine to model. A Searching/Tracking/Lost state machine with re-detection after a tracking failure is therefore not modelled: the code has none.
- The frames-per-second timing (`tracking.py:130`, `tracking.py:136`) is left out. It is floating-point tick arithmetic used only for display.
- The library version parse (`tracking.py:8`) is left out. It depends on the runtime library.
- Floating-point rounding is left out. The model uses exact reals and squared distances, so a tie or a near-sentinel comparison that rounding would decide differently is not captured.
- Inspecting an array's shape to obtain the frame dimensions is left out. The model takes the `(width, height)` pair.
- The "face scores" mentioned in the docstring (`tracking.py:13-14`) are not modelled. The code does not implement them: selection uses distance only.
