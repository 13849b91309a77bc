# DensePose video inference core, modelled in Dafny

This project models the three pieces of `tools/infer_video.py` that carry real logic:

- **Detection flattening** (`convert_from_cls_format`). The detector reports boxes grouped by class. The conversion flattens them into one class-major list. It tags each box with the index of its class group. It flattens the optional segment and keypoint lists. If no group holds a box, the box list is absent.
- **IUV mosaic compositor** (`form_IUV_mask`). A frame is rejected when there is no box or the best confidence is below `thresh`. Otherwise the detections are visited in ascending confidence. Every detection above 0.65 pastes its 3-channel dense field into a zeroed H×W×3 canvas. It writes only the canvas elements that are still zero, so the first (least confident) writer wins. It also records its visit index in a parallel H×W owner mask. Finally channels 1–2 are scaled by 255, everything above 255 is clamped to 255, and the canvas is converted to bytes.
- **Strided frame sampler** (class `Cap`). The decoder is abstracted as the sequence of frames it would decode, plus a cursor. `read` returns one frame and discards `step_size` more. `read_all` collects one frame per `max(step_size, 1)` decodes until a decode fails. `__enter__` and `__exit__` open and release the capture.

Modules, one per component: `Wrappers` (Option, wrappers.dfy), `Detections` (detections.dfy), `Ordering` (the stable argsort, ordering.dfy), `Compositor` (compositor.dfy), `FrameSource` (frame_source.dfy).

Modelling choices:
- Pixel and field values are `real`. The canvas is an `array3<real>`, the owner mask an `array2<int>`, the output an `array3<int>`.
- Box corners are reals. `astype(int)` is truncation toward zero (`Compositor.Trunc`).
- `np.argsort`'s default sort is not stable. The model uses a stable ascending sort: equal confidences keep their original order.
- The canvas and mask contents are specified by the recursive functions `CanvasAt` and `MaskAt`. Each gives an element's value after the first n visits. `Composite` is proved to compute them. The lemmas characterise them without recursion: an element holds the value of the earliest visit that writes it.
- The owner index is the visit position `i`. Visit 0 therefore writes 0, which cannot be told apart from "unclaimed", and a later visit may still claim that pixel (`MaskAtUnclaimed`, `MaskAtFirstClaim`). The owner mask is computed and then dropped, as in the source: `FormIUVMask` returns only the canvas.
- `Cap.Enter(decoded)` takes the frames that `cv2.VideoCapture(path)` would decode. A path that cannot be opened is the empty sequence. A read on a released capture fails.
- The zero guard of the paste is element by element. Where the least confident detection's field holds 0, a more confident one may still fill the element, and the three channels of one pixel may come from different detections.
- `cv2.VideoCapture` raises no error on a path it cannot open; such a path decodes no frames.
- Line 113 of tools/infer_video.py clamps only values above 255; nothing clamps from below. The model clamps above 255 only and requires non-negative field values.
- `DefaultThreshold` (0.9) is the default of `thresh`, and `Cap`'s step size defaults to 1, as in the source.

## Model

| member | source | states |
|---|---|---|
| `Detections.ClassTags` | tools/infer_video.py:65-67 | one class tag per flattened box, every tag a valid group index |
| `Detections.FlattenAt` | tools/infer_video.py:52-67 | box i of group j is at position Offset(j)+i of the flat list and is tagged j |
| `Detections.TagLocates` | tools/infer_video.py:52-67 | every flat position lies inside the group its tag names, and holds that group's box |
| `Detections.TagsNonDecreasing` | tools/infer_video.py:65-67 | class tags never decrease along the flat list |
| `Detections.TagCountOfGroup` | tools/infer_video.py:65-67 | tag j occurs exactly at the |group j| positions of group j |
| `Detections.NonEmptyGroupsFlatten` | tools/infer_video.py:52 | dropping empty groups keeps the concatenation; no group is left iff all groups were empty |
| `Detections.FlatBoxesSpec` | tools/infer_video.py:52-56 | boxes are None iff every group is empty, else the in-order concatenation of all groups |
| `Detections.ConvertFromClsFormatSpec` | tools/infer_video.py:48-68 | the whole conversion: tag count, boxes, and segms/keyps flattened in order or absent when absent |
| `Ordering.Insert` | tools/infer_video.py:94 | inserting an index adds exactly that index and keeps all indices in range |
| `Ordering.ArgSort` | tools/infer_video.py:94 | the visiting order has n entries, all below n, and contains every index 0..n-1 |
| `Ordering.ArgSortAscending` | tools/infer_video.py:94 | visits are in ascending confidence, ties in original order |
| `Ordering.ArgSortPermutation` | tools/infer_video.py:94 | every detection index appears in the visiting order, and no index twice |
| `Ordering.ArgSortScoresNonDecreasing` | tools/infer_video.py:94-96 | confidences never decrease along the visiting order |
| `Compositor.Trunc` | tools/infer_video.py:99 | truncation toward zero: the result is within one of the value, on the zero side |
| `Compositor.MaxScore` | tools/infer_video.py:83 | the maximum confidence is attained by some box and bounds all boxes |
| `Compositor.AcceptsIff` | tools/infer_video.py:83-84 | a frame is accepted iff some box has confidence at least `thresh` |
| `Compositor.CanvasAt` | tools/infer_video.py:96-105 | with non-negative fields every canvas element stays non-negative |
| `Compositor.CanvasAtUnwritten` | tools/infer_video.py:96-105 | an element that no qualifying, covering, non-zero visit writes stays 0 (also outside every rectangle) |
| `Compositor.CanvasAtFirstWriter` | tools/infer_video.py:103-105 | an element holds the value of the earliest visit that writes it |
| `Compositor.CanvasAtSettled` | tools/infer_video.py:104 | once non-zero, an element is never changed by a later visit |
| `Compositor.LowestConfidenceWins` | tools/infer_video.py:94-105 | among the detections that write a non-zero value to an element, the least confident (ties: the earlier) supplies it |
| `Compositor.MaskAtUnclaimed` | tools/infer_video.py:107-110 | a pixel no visit from position 1 on claims has owner 0 |
| `Compositor.MaskAtFirstClaim` | tools/infer_video.py:107-110 | the owner is the first visit p >= 1 that covers the pixel with channel 0 positive |
| `Compositor.Finish` | tools/infer_video.py:112-113 | result at most 255; channel 0 unscaled, channels 1-2 times 255; above 255 becomes exactly 255 |
| `Compositor.ToByte` | tools/infer_video.py:114 | the byte is in [0, 255] and is the value truncated |
| `Compositor.PasteCoords` | tools/infer_video.py:103-105 | inside the field's rectangle a zero element gets the field value, non-zero ones and all others unchanged |
| `Compositor.PasteOwner` | tools/infer_video.py:107-110 | inside the rectangle a zero cell gets the owner where channel 0 > 0 and 0 elsewhere; all others unchanged |
| `Compositor.Composite` | tools/infer_video.py:90-110 | fresh H×W×3 canvas and H×W mask equal to CanvasAt and MaskAt after all visits |
| `Compositor.ScaleAndClamp` | tools/infer_video.py:112-113 | every element becomes Finish of its old value |
| `Compositor.Quantize` | tools/infer_video.py:114 | a fresh same-shaped byte image of the truncated values |
| `Compositor.FormIUVMask` | tools/infer_video.py:71-115 | no output iff rejected; otherwise an H×W×3 image, each element the byte of the finished composited value |
| `FrameSource.BulkStride` | tools/infer_video.py:156 | read_all's stride is at least 1 and equals step_size when step_size >= 1 |
| `FrameSource.Cap.constructor` | tools/infer_video.py:127-130 | stores path and step size, frame number 0, capture not yet opened |
| `FrameSource.Cap.Enter` | tools/infer_video.py:132-134 | opens a fresh capture at the first frame |
| `FrameSource.Cap.Decode` | tools/infer_video.py:137 | a decode succeeds iff not released and frames remain; it returns the next frame and advances by one |
| `FrameSource.Cap.Read` | tools/infer_video.py:136-145 | failure leaves the cursor; success returns the frame and skips up to step_size more, stopping at the end |
| `FrameSource.Cap.ReadAll` | tools/infer_video.py:147-159 | returns the frames at stride max(step_size, 1) from the cursor and ends at the end of the stream |
| `FrameSource.Cap.Exit` | tools/infer_video.py:161-163 | the capture is released |
| `FrameSource.SampledAt` | tools/infer_video.py:147-159 | the i-th collected frame is the frame at position start + i·k |
| `FrameSource.SampledCovers` | tools/infer_video.py:147-159 | every position start + i·k below the stream length is collected |
| `FrameSource.StrideOneEmitsAll` | tools/infer_video.py:147-159 | with stride 1 every remaining frame is returned in order |
| `FrameSource.RepeatedReadsStride` | tools/infer_video.py:136-145 | calling read until it fails samples at stride max(step_size, 0) + 1, one more than read_all for step_size >= 1 |
| `FrameSource.ReadUntilFailure` | tools/infer_video.py:136-145 | calling `Cap.Read` until it fails yields exactly RepeatedReads from the cursor |
| `Ordering.InsertAddsExactly` | tools/infer_video.py:94 | inserting adds exactly one occurrence of the index to the multiset of indices |

## Left out

- Detector and model calls (`im_detect_all`, model initialisation, config merging, `cache_url`, dummy datasets, CUDA scope): foreign code whose bodies are not part of this model. Their output enters as `BoxesArg` and the list of fields.
- OpenCV I/O (`VideoCapture` decoding, `imread`, `imwrite`, `save_video`, `destroyAllWindows`): codec and file I/O. The stream is the sequence given to `Cap.Enter`, and release is a flag.
- `parse_args`, directory handling, globbing, logging, timers and the `main` loop: command-line and filesystem plumbing.
- `body_uv[1]` selection: the model receives `IUV_fields` directly as the field list, indexed like the flat boxes.
- In the grouped case `form_IUV_mask` also converts `segms` and `keypoints`, but never uses them afterwards; the model converts only the boxes there.
- The unused parameters of `form_IUV_mask` (`im_name`, `output_dir`, `kp_thresh`, `dpi`, `box_alpha`, `dataset`, `show_class`, `ext`) and the unused constant `K = 26`. Only the shape of `im` is used, as `h` and `w`.
- `Cap.curr_frame_no` is stored but never read or updated by the source; the model keeps it as a field fixed at 0.
- Floating-point arithmetic: values are exact reals.
- `np.argsort` tie order: modelled as stable.
- Compositor.FormIUVMask: requires that every qualifying box of an accepted frame has a well-shaped field lying inside the frame. Only qualifying boxes are sliced. For a field running past the frame edge, numpy clips the slice, and the masked assignment then fails on mismatched shapes. A negative corner would index from the far edge. Neither case is modelled.
- Compositor.FormIUVMask: requires non-negative field values. The uint8 conversion of a negative value is not modelled.
- FrameSource.Cap.Read: requires that `__enter__` ran. Without it the source fails on a missing attribute.
- FrameSource.Cap.ReadAll: requires that `__enter__` ran, for the same reason.
- FrameSource.Cap.Exit: requires that `__enter__` ran. Without it `self.cap.release()` fails on a missing attribute; the `with` statement guarantees it.
