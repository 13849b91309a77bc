/**
 * The IUV mosaic compositor (`form_IUV_mask`): pastes the dense surface-coordinate field of every
 * sufficiently confident detection into one H x W x 3 canvas, visiting detections in ascending
 * confidence and filling only canvas elements that are still zero, records in a parallel H x W
 * owner mask which visit claimed each pixel, and finally scales channels 1-2 by 255, clamps at 255
 * and converts to bytes.
 */
module Compositor {
  import opened Wrappers
  import opened Detections
  import opened Ordering

  /** A detection is pasted only if its confidence is strictly above this. */
  const InclusionThreshold: real := 0.65
  /** Default frame-acceptance threshold `thresh` (the driver passes 0.7). */
  const DefaultThreshold: real := 0.9

  /** One detection's dense field, channel-major: planes[k][r][c] is channel k at row r, column c.
      Channel 0 is the part index (0 means no surface), channels 1-2 the U and V coordinates. */
  datatype Field = Field(height: nat, width: nat, planes: seq<seq<seq<real>>>)

  /** The `boxes` argument: either the detector's per-class groups or an already flat array. */
  datatype BoxesArg = Grouped(groups: seq<seq<Box>>) | Flat(boxes: Option<seq<Box>>)

  predicate WellShaped(f: Field)
  {
    |f.planes| == 3 &&
    (forall k :: 0 <= k < 3 ==> |f.planes[k]| == f.height) &&
    (forall k, r :: 0 <= k < 3 && 0 <= r < f.height ==> |f.planes[k][r]| == f.width)
  }

  predicate NonNegative(f: Field)
    requires WellShaped(f)
  {
    forall k, r, c :: 0 <= k < 3 && 0 <= r < f.height && 0 <= c < f.width ==> f.planes[k][r][c] >= 0.0
  }

  /** numpy's `astype(int)` on one box corner: truncation toward zero. */
  function Trunc(v: real): (r: int)
    ensures v >= 0.0 ==> r as real <= v < r as real + 1.0
    ensures v < 0.0 ==> r as real - 1.0 < v <= r as real
  {
    if v >= 0.0 then v.Floor else -((-v).Floor)
  }

  function Top(b: Box): int { Trunc(b.y0) }
  function Left(b: Box): int { Trunc(b.x0) }

  predicate Qualifies(b: Box) { b.score > InclusionThreshold }

  /** Pixel (y, x) lies in the rectangle of the field anchored at the box's top-left corner. */
  predicate Covers(b: Box, f: Field, y: int, x: int)
  {
    Top(b) <= y < Top(b) + f.height && Left(b) <= x < Left(b) + f.width
  }

  predicate Fits(b: Box, f: Field, h: nat, w: nat)
  {
    0 <= Top(b) && Top(b) + f.height <= h && 0 <= Left(b) && Left(b) + f.width <= w
  }

  /** Every detection that will be pasted has a well-shaped field. */
  predicate Shaped(boxes: seq<Box>, fields: seq<Field>)
  {
    forall ind :: 0 <= ind < |boxes| && Qualifies(boxes[ind]) ==> ind < |fields| && WellShaped(fields[ind])
  }

  /** ... and that field lies inside the H x W frame. */
  predicate Placeable(boxes: seq<Box>, fields: seq<Field>, h: nat, w: nat)
  {
    forall ind :: 0 <= ind < |boxes| && Qualifies(boxes[ind]) ==>
      ind < |fields| && WellShaped(fields[ind]) && Fits(boxes[ind], fields[ind], h, w)
  }

  predicate NonNegativeFields(boxes: seq<Box>, fields: seq<Field>)
  {
    forall ind :: 0 <= ind < |boxes| && Qualifies(boxes[ind]) && ind < |fields| && WellShaped(fields[ind]) ==>
      NonNegative(fields[ind])
  }

  /** The value that detection (b, f) offers at canvas element (y, x, k). */
  function FieldValue(b: Box, f: Field, y: int, x: int, k: nat): real
    requires WellShaped(f) && Covers(b, f, y, x) && k < 3
  {
    f.planes[k][y - Top(b)][x - Left(b)]
  }

  function Scores(boxes: seq<Box>): (s: seq<real>)
    ensures |s| == |boxes| && forall i :: 0 <= i < |boxes| ==> s[i] == boxes[i].score
  {
    seq(|boxes|, i requires 0 <= i < |boxes| => boxes[i].score)
  }

  /** `max(boxes[:, 4])`. */
  function MaxScore(boxes: seq<Box>): (m: real)
    requires |boxes| > 0
    ensures forall j :: 0 <= j < |boxes| ==> boxes[j].score <= m
    ensures exists j :: 0 <= j < |boxes| && boxes[j].score == m
  {
    if |boxes| == 1 then boxes[0].score
    else
      var rest := MaxScore(boxes[1..]);
      if boxes[0].score >= rest then boxes[0].score else rest
  }

  function Normalize(arg: BoxesArg): Option<seq<Box>>
  {
    match arg
    case Grouped(g) => FlatBoxes(g)
    case Flat(b) => b
  }

  /** The frame produces output: some box exists and the best confidence reaches `thresh`. */
  predicate Accepts(boxes: Option<seq<Box>>, thresh: real)
  {
    boxes.Some? && |boxes.value| > 0 && MaxScore(boxes.value) >= thresh
  }

  // ---------------------------------------------------------------------------------------
  // Specification of the compositing loop

  /** Detection `ind` writes a non-zero value to element (y, x, k) when the element is still free. */
  ghost predicate Writes(boxes: seq<Box>, fields: seq<Field>, ind: nat, y: int, x: int, k: nat)
    requires ind < |boxes| && Shaped(boxes, fields) && k < 3
  {
    Qualifies(boxes[ind]) && Covers(boxes[ind], fields[ind], y, x) &&
    FieldValue(boxes[ind], fields[ind], y, x, k) != 0.0
  }

  /** Detection `ind` marks pixel (y, x) as its own in the owner mask when the pixel is still free. */
  ghost predicate Claims(boxes: seq<Box>, fields: seq<Field>, ind: nat, y: int, x: int)
    requires ind < |boxes| && Shaped(boxes, fields)
  {
    Qualifies(boxes[ind]) && Covers(boxes[ind], fields[ind], y, x) &&
    FieldValue(boxes[ind], fields[ind], y, x, 0) > 0.0
  }

  /** Canvas element (y, x, k) after the first n visits of `order`. */
  ghost function CanvasAt(boxes: seq<Box>, fields: seq<Field>, order: seq<nat>, n: nat, y: int, x: int, k: nat): (r: real)
    requires Shaped(boxes, fields) && IndicesBelow(order, |boxes|) && n <= |order| && k < 3
    ensures NonNegativeFields(boxes, fields) ==> r >= 0.0
    decreases n
  {
    if n == 0 then 0.0
    else
      var prev := CanvasAt(boxes, fields, order, n - 1, y, x, k);
      var ind := order[n - 1];
      if Qualifies(boxes[ind]) && Covers(boxes[ind], fields[ind], y, x) && prev == 0.0
      then FieldValue(boxes[ind], fields[ind], y, x, k)
      else prev
  }

  /** Owner-mask cell (y, x) after the first n visits; visit i writes `i` where channel 0 is positive. */
  ghost function MaskAt(boxes: seq<Box>, fields: seq<Field>, order: seq<nat>, n: nat, y: int, x: int): int
    requires Shaped(boxes, fields) && IndicesBelow(order, |boxes|) && n <= |order|
    decreases n
  {
    if n == 0 then 0
    else
      var prev := MaskAt(boxes, fields, order, n - 1, y, x);
      var ind := order[n - 1];
      if Qualifies(boxes[ind]) && Covers(boxes[ind], fields[ind], y, x) && prev == 0
      then (if FieldValue(boxes[ind], fields[ind], y, x, 0) > 0.0 then n - 1 else 0)
      else prev
  }

  /** The finishing of one element: channels 1-2 scaled by 255, then anything above 255 clamped. */
  function Finish(v: real, k: nat): (r: real)
    requires k < 3
    ensures r <= 255.0
    ensures v >= 0.0 ==> r >= 0.0
    ensures k == 0 && v <= 255.0 ==> r == v
    ensures k > 0 && v <= 1.0 ==> r == 255.0 * v
    ensures (k == 0 && v > 255.0) || (k > 0 && v > 1.0) ==> r == 255.0
  {
    var scaled := if k == 0 then v else 255.0 * v;
    if scaled > 255.0 then 255.0 else scaled
  }

  /** `astype(np.uint8)` on a value already in [0, 255]: truncation. */
  function ToByte(v: real): (r: int)
    requires 0.0 <= v <= 255.0
    ensures 0 <= r <= 255 && r as real <= v < r as real + 1.0
  {
    v.Floor
  }

  // ---------------------------------------------------------------------------------------
  // Lemmas

  /** An element no visit writes stays zero. */
  lemma {:induction false} CanvasAtUnwritten(boxes: seq<Box>, fields: seq<Field>, order: seq<nat>, n: nat, y: int, x: int, k: nat)
    requires Shaped(boxes, fields) && IndicesBelow(order, |boxes|) && n <= |order| && k < 3
    requires forall q :: 0 <= q < n ==> !Writes(boxes, fields, order[q], y, x, k)
    ensures CanvasAt(boxes, fields, order, n, y, x, k) == 0.0
  {
    if n > 0 {
      CanvasAtUnwritten(boxes, fields, order, n - 1, y, x, k);
    }
  }

  /** First writer wins: the element holds the value of the earliest visit that writes it. */
  lemma {:induction false} CanvasAtFirstWriter(boxes: seq<Box>, fields: seq<Field>, order: seq<nat>, n: nat, p: nat, y: int, x: int, k: nat)
    requires Shaped(boxes, fields) && IndicesBelow(order, |boxes|) && p < n <= |order| && k < 3
    requires Writes(boxes, fields, order[p], y, x, k)
    requires forall q :: 0 <= q < p ==> !Writes(boxes, fields, order[q], y, x, k)
    ensures CanvasAt(boxes, fields, order, n, y, x, k) == FieldValue(boxes[order[p]], fields[order[p]], y, x, k)
  {
    if n == p + 1 {
      CanvasAtUnwritten(boxes, fields, order, p, y, x, k);
    } else {
      CanvasAtFirstWriter(boxes, fields, order, n - 1, p, y, x, k);
    }
  }

  /** Once an element is non-zero, later visits never change it. */
  lemma {:induction false} CanvasAtSettled(boxes: seq<Box>, fields: seq<Field>, order: seq<nat>, m: nat, n: nat, y: int, x: int, k: nat)
    requires Shaped(boxes, fields) && IndicesBelow(order, |boxes|) && m <= n <= |order| && k < 3
    requires CanvasAt(boxes, fields, order, m, y, x, k) != 0.0
    ensures CanvasAt(boxes, fields, order, n, y, x, k) == CanvasAt(boxes, fields, order, m, y, x, k)
    decreases n - m
  {
    if m < n {
      CanvasAtSettled(boxes, fields, order, m, n - 1, y, x, k);
    }
  }

  /**
   * The priority rule of the ascending sort: among the detections that write a non-zero value to
   * an element, the LEAST confident one (ties: the earlier detection) supplies it. The zero guard
   * is per element, so where that field holds 0 a more confident detection may still fill it, and
   * the channels of one pixel may come from different detections.
   */
  lemma LowestConfidenceWins(boxes: seq<Box>, fields: seq<Field>, a: nat, y: int, x: int, k: nat)
    requires Shaped(boxes, fields) && a < |boxes| && k < 3
    requires Writes(boxes, fields, a, y, x, k)
    requires forall b :: 0 <= b < |boxes| && b != a && Writes(boxes, fields, b, y, x, k) ==>
      Precedes(Scores(boxes), a, b)
    ensures CanvasAt(boxes, fields, ArgSort(Scores(boxes)), |boxes|, y, x, k) == FieldValue(boxes[a], fields[a], y, x, k)
  {
    var s := Scores(boxes);
    var order := ArgSort(s);
    ArgSortAscending(s);
    ArgSortPermutation(s, a);
    var p :| 0 <= p < |order| && order[p] == a;
    forall q | 0 <= q < p ensures !Writes(boxes, fields, order[q], y, x, k) {
      assert Precedes(s, order[q], order[p]);
    }
    CanvasAtFirstWriter(boxes, fields, order, |boxes|, p, y, x, k);
  }

  /** A pixel no later visit (position 1 on) claims keeps owner 0; visit 0 itself can only write 0. */
  lemma {:induction false} MaskAtUnclaimed(boxes: seq<Box>, fields: seq<Field>, order: seq<nat>, n: nat, y: int, x: int)
    requires Shaped(boxes, fields) && IndicesBelow(order, |boxes|) && n <= |order|
    requires forall q :: 1 <= q < n ==> !Claims(boxes, fields, order[q], y, x)
    ensures MaskAt(boxes, fields, order, n, y, x) == 0
  {
    if n > 0 {
      MaskAtUnclaimed(boxes, fields, order, n - 1, y, x);
    }
  }

  /** The owner of a pixel is the first visit p >= 1 whose field claims it. */
  lemma {:induction false} MaskAtFirstClaim(boxes: seq<Box>, fields: seq<Field>, order: seq<nat>, n: nat, p: nat, y: int, x: int)
    requires Shaped(boxes, fields) && IndicesBelow(order, |boxes|) && 1 <= p < n <= |order|
    requires Claims(boxes, fields, order[p], y, x)
    requires forall q :: 1 <= q < p ==> !Claims(boxes, fields, order[q], y, x)
    ensures MaskAt(boxes, fields, order, n, y, x) == p
  {
    if n == p + 1 {
      MaskAtUnclaimed(boxes, fields, order, p, y, x);
    } else {
      MaskAtFirstClaim(boxes, fields, order, n - 1, p, y, x);
    }
  }

  /** The frame is accepted exactly when some box reaches the threshold. */
  lemma AcceptsIff(boxes: seq<Box>, thresh: real)
    ensures Accepts(Some(boxes), thresh) <==> exists j :: 0 <= j < |boxes| && boxes[j].score >= thresh
  {
  }

  // ---------------------------------------------------------------------------------------
  // The imperative compositor

  /** The masked assignment into `All_Coords`: copy the field into the still-zero canvas elements of its rectangle. */
  method PasteCoords(canvas: array3<real>, f: Field, top: nat, left: nat)
    requires canvas.Length2 == 3 && WellShaped(f)
    requires top + f.height <= canvas.Length0 && left + f.width <= canvas.Length1
    modifies canvas
    ensures forall y, x, k :: 0 <= y < canvas.Length0 && 0 <= x < canvas.Length1 && 0 <= k < 3 ==>
      canvas[y, x, k] ==
        if top <= y < top + f.height && left <= x < left + f.width && old(canvas[y, x, k]) == 0.0
        then f.planes[k][y - top][x - left] else old(canvas[y, x, k])
  {
    var r := 0;
    while r < f.height
      invariant 0 <= r <= f.height
      invariant forall y, x, k :: 0 <= y < canvas.Length0 && 0 <= x < canvas.Length1 && 0 <= k < 3 ==>
        canvas[y, x, k] ==
          if top <= y < top + r && left <= x < left + f.width && old(canvas[y, x, k]) == 0.0
          then f.planes[k][y - top][x - left] else old(canvas[y, x, k])
    {
      var c := 0;
      while c < f.width
        invariant 0 <= c <= f.width
        invariant forall y, x, k :: 0 <= y < canvas.Length0 && 0 <= x < canvas.Length1 && 0 <= k < 3 ==>
          canvas[y, x, k] ==
            if ((top <= y < top + r && left <= x < left + f.width) || (y == top + r && left <= x < left + c))
               && old(canvas[y, x, k]) == 0.0
            then f.planes[k][y - top][x - left] else old(canvas[y, x, k])
      {
        var y, x := top + r, left + c;
        if canvas[y, x, 0] == 0.0 { canvas[y, x, 0] := f.planes[0][r][c]; }
        if canvas[y, x, 1] == 0.0 { canvas[y, x, 1] := f.planes[1][r][c]; }
        if canvas[y, x, 2] == 0.0 { canvas[y, x, 2] := f.planes[2][r][c]; }
        c := c + 1;
      }
      r := r + 1;
    }
  }

  /** The masked assignment into `All_inds`: in still-zero mask cells of the rectangle, write `owner` where channel 0 is
      positive and 0 elsewhere. */
  method PasteOwner(mask: array2<int>, f: Field, top: nat, left: nat, owner: nat)
    requires WellShaped(f)
    requires top + f.height <= mask.Length0 && left + f.width <= mask.Length1
    modifies mask
    ensures forall y, x :: 0 <= y < mask.Length0 && 0 <= x < mask.Length1 ==>
      mask[y, x] ==
        if top <= y < top + f.height && left <= x < left + f.width && old(mask[y, x]) == 0
        then (if f.planes[0][y - top][x - left] > 0.0 then owner else 0) else old(mask[y, x])
  {
    var r := 0;
    while r < f.height
      invariant 0 <= r <= f.height
      invariant forall y, x :: 0 <= y < mask.Length0 && 0 <= x < mask.Length1 ==>
        mask[y, x] ==
          if top <= y < top + r && left <= x < left + f.width && old(mask[y, x]) == 0
          then (if f.planes[0][y - top][x - left] > 0.0 then owner else 0) else old(mask[y, x])
    {
      var c := 0;
      while c < f.width
        invariant 0 <= c <= f.width
        invariant forall y, x :: 0 <= y < mask.Length0 && 0 <= x < mask.Length1 ==>
          mask[y, x] ==
            if ((top <= y < top + r && left <= x < left + f.width) || (y == top + r && left <= x < left + c))
               && old(mask[y, x]) == 0
            then (if f.planes[0][y - top][x - left] > 0.0 then owner else 0) else old(mask[y, x])
      {
        var y, x := top + r, left + c;
        if mask[y, x] == 0 {
          mask[y, x] := if f.planes[0][r][c] > 0.0 then owner else 0;
        }
        c := c + 1;
      }
      r := r + 1;
    }
  }

  /** The zeroed `All_Coords` and `All_inds`, then every qualifying detection pasted in `order`. */
  method Composite(boxes: seq<Box>, fields: seq<Field>, order: seq<nat>, h: nat, w: nat)
    returns (canvas: array3<real>, mask: array2<int>)
    requires Placeable(boxes, fields, h, w) && IndicesBelow(order, |boxes|)
    ensures Shaped(boxes, fields)
    ensures fresh(canvas) && fresh(mask)
    ensures canvas.Length0 == h && canvas.Length1 == w && canvas.Length2 == 3
    ensures mask.Length0 == h && mask.Length1 == w
    ensures forall y, x, k :: 0 <= y < h && 0 <= x < w && 0 <= k < 3 ==>
      canvas[y, x, k] == CanvasAt(boxes, fields, order, |order|, y, x, k)
    ensures forall y, x :: 0 <= y < h && 0 <= x < w ==>
      mask[y, x] == MaskAt(boxes, fields, order, |order|, y, x)
  {
    canvas := new real[h, w, 3]((_, _, _) => 0.0);
    mask := new int[h, w]((_, _) => 0);
    var i := 0;
    while i < |order|
      invariant 0 <= i <= |order|
      invariant forall y, x, k :: 0 <= y < h && 0 <= x < w && 0 <= k < 3 ==>
        canvas[y, x, k] == CanvasAt(boxes, fields, order, i, y, x, k)
      invariant forall y, x :: 0 <= y < h && 0 <= x < w ==>
        mask[y, x] == MaskAt(boxes, fields, order, i, y, x)
    {
      var ind := order[i];
      var b := boxes[ind];
      if Qualifies(b) {
        var f := fields[ind];
        PasteCoords(canvas, f, Top(b), Left(b));
        PasteOwner(mask, f, Top(b), Left(b), i);
      }
      i := i + 1;
    }
  }

  /** The in-place scaling and clamping of `All_Coords`: every element becomes Finish of its old value. */
  method ScaleAndClamp(canvas: array3<real>)
    requires canvas.Length2 == 3
    modifies canvas
    ensures forall y, x, k :: 0 <= y < canvas.Length0 && 0 <= x < canvas.Length1 && 0 <= k < 3 ==>
      canvas[y, x, k] == Finish(old(canvas[y, x, k]), k)
  {
    var y := 0;
    while y < canvas.Length0
      invariant 0 <= y <= canvas.Length0
      invariant forall y', x, k :: 0 <= y' < canvas.Length0 && 0 <= x < canvas.Length1 && 0 <= k < 3 ==>
        canvas[y', x, k] == if y' < y then Finish(old(canvas[y', x, k]), k) else old(canvas[y', x, k])
    {
      var x := 0;
      while x < canvas.Length1
        invariant 0 <= x <= canvas.Length1
        invariant forall y', x', k :: 0 <= y' < canvas.Length0 && 0 <= x' < canvas.Length1 && 0 <= k < 3 ==>
          canvas[y', x', k] ==
            if y' < y || (y' == y && x' < x) then Finish(old(canvas[y', x', k]), k) else old(canvas[y', x', k])
      {
        canvas[y, x, 0] := Finish(canvas[y, x, 0], 0);
        canvas[y, x, 1] := Finish(canvas[y, x, 1], 1);
        canvas[y, x, 2] := Finish(canvas[y, x, 2], 2);
        x := x + 1;
      }
      y := y + 1;
    }
  }

  /** `All_Coords.astype(np.uint8)`: a new byte image with the truncated canvas values. */
  method Quantize(canvas: array3<real>) returns (out: array3<int>)
    requires canvas.Length2 == 3
    requires forall y, x, k :: 0 <= y < canvas.Length0 && 0 <= x < canvas.Length1 && 0 <= k < 3 ==>
      0.0 <= canvas[y, x, k] <= 255.0
    ensures fresh(out)
    ensures out.Length0 == canvas.Length0 && out.Length1 == canvas.Length1 && out.Length2 == 3
    ensures forall y, x, k :: 0 <= y < canvas.Length0 && 0 <= x < canvas.Length1 && 0 <= k < 3 ==>
      out[y, x, k] == ToByte(canvas[y, x, k])
  {
    out := new int[canvas.Length0, canvas.Length1, 3];
    var y := 0;
    while y < canvas.Length0
      invariant 0 <= y <= canvas.Length0
      invariant forall y', x, k :: 0 <= y' < y && 0 <= x < canvas.Length1 && 0 <= k < 3 ==>
        out[y', x, k] == ToByte(canvas[y', x, k])
    {
      var x := 0;
      while x < canvas.Length1
        invariant 0 <= x <= canvas.Length1
        invariant forall y', x', k :: 0 <= y' < canvas.Length0 && 0 <= x' < canvas.Length1 && 0 <= k < 3 &&
                                      (y' < y || (y' == y && x' < x)) ==>
                                      out[y', x', k] == ToByte(canvas[y', x', k])
      {
        out[y, x, 0] := ToByte(canvas[y, x, 0]);
        out[y, x, 1] := ToByte(canvas[y, x, 1]);
        out[y, x, 2] := ToByte(canvas[y, x, 2]);
        x := x + 1;
      }
      y := y + 1;
    }
  }

  /**
   * `form_IUV_mask` on an h x w frame: no output when there is no box or the best confidence is
   * below `thresh`; otherwise the pasted, scaled, clamped and quantized canvas.
   */
  method FormIUVMask(h: nat, w: nat, boxesArg: BoxesArg, fields: seq<Field>, thresh: real := DefaultThreshold)
    returns (result: Option<array3<int>>)
    requires Accepts(Normalize(boxesArg), thresh) ==>
      Placeable(Normalize(boxesArg).value, fields, h, w) &&
      NonNegativeFields(Normalize(boxesArg).value, fields)
    ensures result.None? <==> !Accepts(Normalize(boxesArg), thresh)
    ensures result.Some? ==>
      var boxes := Normalize(boxesArg).value;
      fresh(result.value) &&
      result.value.Length0 == h && result.value.Length1 == w && result.value.Length2 == 3 &&
      Shaped(boxes, fields) && NonNegativeFields(boxes, fields) &&
      forall y, x, k :: 0 <= y < h && 0 <= x < w && 0 <= k < 3 ==>
        result.value[y, x, k] == ToByte(Finish(CanvasAt(boxes, fields, ArgSort(Scores(boxes)), |boxes|, y, x, k), k))
  {
    var normalized := Normalize(boxesArg);
    if normalized.None? || |normalized.value| == 0 || MaxScore(normalized.value) < thresh {
      return None;
    }
    var boxes := normalized.value;
    var order := ArgSort(Scores(boxes));
    var canvas, mask := Composite(boxes, fields, order, h, w);
    ScaleAndClamp(canvas);
    assert forall y, x, k :: 0 <= y < h && 0 <= x < w && 0 <= k < 3 ==>
      canvas[y, x, k] == Finish(CanvasAt(boxes, fields, order, |order|, y, x, k), k)
      && 0.0 <= canvas[y, x, k] <= 255.0;
    var out := Quantize(canvas);
    return Some(out);
  }
}
