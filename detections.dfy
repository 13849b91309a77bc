/**
 * Detection flattening: the detector reports its boxes (and, optionally, segments and
 * keypoints) grouped by class; `convert_from_cls_format` turns those groups into one flat,
 * class-major list and tags every box with the index of the group it came from.
 */
module Detections {
  import opened Wrappers

  /** One detected box: corners in pixels and the confidence in the box's fifth column. */
  datatype Box = Box(x0: real, y0: real, x1: real, y1: real, score: real)

  /** The four results of the conversion: boxes, segments, keypoints and class tags. */
  datatype Converted<S, K> = Converted(
    boxes: Option<seq<Box>>,
    segms: Option<seq<S>>,
    keyps: Option<seq<K>>,
    classes: seq<nat>)

  /** In-order concatenation of the groups (a nested list comprehension / np.concatenate). */
  function Flatten<T>(groups: seq<seq<T>>): seq<T>
    decreases |groups|
  {
    if groups == [] then [] else Flatten(groups[..|groups| - 1]) + groups[|groups| - 1]
  }

  /** `[j] * n`: a list of n copies of j. */
  function Repeat(j: nat, n: nat): (r: seq<nat>)
    ensures |r| == n && forall i :: 0 <= i < n ==> r[i] == j
  {
    if n == 0 then [] else Repeat(j, n - 1) + [j]
  }

  /** The `classes += [j] * len(cls_boxes[j])` loop, one group after the other. */
  function ClassTags<T>(groups: seq<seq<T>>): (r: seq<nat>)
    ensures |r| == |Flatten(groups)|
    ensures forall i :: 0 <= i < |r| ==> r[i] < |groups|
    decreases |groups|
  {
    if groups == [] then []
    else ClassTags(groups[..|groups| - 1]) + Repeat(|groups| - 1, |groups[|groups| - 1]|)
  }

  /** `[b for b in cls_boxes if len(b) > 0]`. */
  function NonEmptyGroups<T>(groups: seq<seq<T>>): seq<seq<T>>
    decreases |groups|
  {
    if groups == [] then []
    else if |groups[|groups| - 1]| > 0 then NonEmptyGroups(groups[..|groups| - 1]) + [groups[|groups| - 1]]
    else NonEmptyGroups(groups[..|groups| - 1])
  }

  /** The boxes part of the conversion: absent when no group has a box. */
  function FlatBoxes(clsBoxes: seq<seq<Box>>): Option<seq<Box>>
  {
    var boxList := NonEmptyGroups(clsBoxes);
    if |boxList| > 0 then Some(Flatten(boxList)) else None
  }

  /** A list of groups that may itself be absent, flattened when present. */
  function FlattenOptional<T>(groups: Option<seq<seq<T>>>): Option<seq<T>>
  {
    match groups
    case None => None
    case Some(g) => Some(Flatten(g))
  }

  function ConvertFromClsFormat<S, K>(
    clsBoxes: seq<seq<Box>>, clsSegms: Option<seq<seq<S>>>, clsKeyps: Option<seq<seq<K>>>): Converted<S, K>
  {
    Converted(FlatBoxes(clsBoxes), FlattenOptional(clsSegms), FlattenOptional(clsKeyps), ClassTags(clsBoxes))
  }

  /** Where group j starts in the flat list. */
  function Offset<T>(groups: seq<seq<T>>, j: nat): nat
    requires j <= |groups|
  {
    |Flatten(groups[..j])|
  }

  // ---------------------------------------------------------------------------------------
  // Lemmas

  lemma {:induction false} FlattenPrefix<T>(groups: seq<seq<T>>, j: nat)
    requires j <= |groups|
    ensures Flatten(groups[..j]) <= Flatten(groups)
    ensures ClassTags(groups[..j]) <= ClassTags(groups)
    decreases |groups| - j
  {
    if j < |groups| {
      var init := groups[..|groups| - 1];
      assert init[..j] == groups[..j];
      FlattenPrefix(init, j);
    } else {
      assert groups[..j] == groups;
    }
  }

  lemma {:induction false} FlattenConcat<T>(a: seq<seq<T>>, b: seq<seq<T>>)
    ensures Flatten(a + b) == Flatten(a) + Flatten(b)
    decreases |b|
  {
    if b == [] {
      assert a + b == a;
    } else {
      var b' := b[..|b| - 1];
      assert (a + b)[..|a + b| - 1] == a + b';
      FlattenConcat(a, b');
    }
  }

  /** Box i of group j sits at Offset(j) + i of the flat list, tagged j. */
  lemma FlattenAt<T>(groups: seq<seq<T>>, j: nat, i: nat)
    requires j < |groups| && i < |groups[j]|
    ensures Offset(groups, j) + i < |Flatten(groups)|
    ensures Flatten(groups)[Offset(groups, j) + i] == groups[j][i]
    ensures ClassTags(groups)[Offset(groups, j) + i] == j
  {
    var upto := groups[..j + 1];
    assert upto[..j] == groups[..j];
    FlattenPrefix(groups, j + 1);
  }

  /** Conversely, every position k of the flat list lies in the group its tag names. */
  lemma {:induction false} TagLocates<T>(groups: seq<seq<T>>, k: nat)
    requires k < |Flatten(groups)|
    ensures var j := ClassTags(groups)[k];
      j < |groups| && Offset(groups, j) <= k < Offset(groups, j) + |groups[j]| &&
      Flatten(groups)[k] == groups[j][k - Offset(groups, j)]
    decreases |groups|
  {
    var n := |groups|;
    var init := groups[..n - 1];
    if k < |Flatten(init)| {
      TagLocates(init, k);
      var j := ClassTags(init)[k];
      assert init[..j] == groups[..j];
    } else {
      assert groups[..n - 1] == init;
    }
  }

  /** Class tags never decrease along the flat list. */
  lemma {:induction false} TagsNonDecreasing<T>(groups: seq<seq<T>>, i: nat, k: nat)
    requires i <= k < |ClassTags(groups)|
    ensures ClassTags(groups)[i] <= ClassTags(groups)[k]
    decreases |groups|
  {
    var n := |groups|;
    var init := groups[..n - 1];
    var m := |ClassTags(init)|;
    if k < m {
      TagsNonDecreasing(init, i, k);
    } else if i < m {
      assert ClassTags(groups)[i] == ClassTags(init)[i] < n - 1;
    }
  }

  /** Group j contributes exactly |groups[j]| boxes, all tagged j. */
  lemma TagCountOfGroup<T>(groups: seq<seq<T>>, j: nat)
    requires j < |groups|
    ensures Offset(groups, j) + |groups[j]| <= |ClassTags(groups)|
    ensures forall k :: 0 <= k < |ClassTags(groups)| ==>
      (ClassTags(groups)[k] == j <==> Offset(groups, j) <= k < Offset(groups, j) + |groups[j]|)
  {
    var upto := groups[..j + 1];
    assert upto[..j] == groups[..j];
    FlattenPrefix(groups, j + 1);
    forall k | 0 <= k < |ClassTags(groups)|
      ensures ClassTags(groups)[k] == j <==> Offset(groups, j) <= k < Offset(groups, j) + |groups[j]|
    {
      TagLocates(groups, k);
      var t := ClassTags(groups)[k];
      if t < j {
        OffsetMonotone(groups, t + 1, j);
        var upto' := groups[..t + 1];
        assert upto'[..t] == groups[..t];
      } else if t > j {
        OffsetMonotone(groups, j + 1, t);
      }
    }
  }

  lemma {:induction false} OffsetMonotone<T>(groups: seq<seq<T>>, i: nat, j: nat)
    requires i <= j <= |groups|
    ensures Offset(groups, i) <= Offset(groups, j)
  {
    assert groups[..j][..i] == groups[..i];
    FlattenPrefix(groups[..j], i);
  }

  /** Dropping the empty groups does not change the concatenation. */
  lemma {:induction false} NonEmptyGroupsFlatten<T>(groups: seq<seq<T>>)
    ensures Flatten(NonEmptyGroups(groups)) == Flatten(groups)
    ensures NonEmptyGroups(groups) == [] <==> forall j :: 0 <= j < |groups| ==> |groups[j]| == 0
    decreases |groups|
  {
    if groups != [] {
      var n := |groups|;
      var init := groups[..n - 1];
      NonEmptyGroupsFlatten(init);
      if |groups[n - 1]| > 0 {
        FlattenConcat(NonEmptyGroups(init), [groups[n - 1]]);
        assert Flatten([groups[n - 1]]) == Flatten([groups[n - 1]][..0]) + groups[n - 1];
      }
      if forall j :: 0 <= j < n - 1 ==> |init[j]| == 0 {}
    }
  }

  /** The boxes are absent exactly when every group is empty, and otherwise are every box in order. */
  lemma FlatBoxesSpec(clsBoxes: seq<seq<Box>>)
    ensures FlatBoxes(clsBoxes).None? <==> forall j :: 0 <= j < |clsBoxes| ==> |clsBoxes[j]| == 0
    ensures FlatBoxes(clsBoxes).Some? ==>
      FlatBoxes(clsBoxes).value == Flatten(clsBoxes) && |FlatBoxes(clsBoxes).value| > 0
  {
    NonEmptyGroupsFlatten(clsBoxes);
    if FlatBoxes(clsBoxes).Some? {
      var ne := NonEmptyGroups(clsBoxes);
      NonEmptyGroupsAreNonEmpty(clsBoxes);
      var last := ne[|ne| - 1];
      assert Flatten(ne) == Flatten(ne[..|ne| - 1]) + last;
    }
  }

  lemma {:induction false} NonEmptyGroupsAreNonEmpty<T>(groups: seq<seq<T>>)
    ensures forall j :: 0 <= j < |NonEmptyGroups(groups)| ==> |NonEmptyGroups(groups)[j]| > 0
    decreases |groups|
  {
    if groups != [] {
      NonEmptyGroupsAreNonEmpty(groups[..|groups| - 1]);
    }
  }

  /** The conversion as a whole: one tag per box, boxes absent iff all groups are empty, and the
      optional lists flattened when given. */
  lemma ConvertFromClsFormatSpec<S, K>(
    clsBoxes: seq<seq<Box>>, clsSegms: Option<seq<seq<S>>>, clsKeyps: Option<seq<seq<K>>>)
    ensures var c := ConvertFromClsFormat(clsBoxes, clsSegms, clsKeyps);
      |c.classes| == |Flatten(clsBoxes)| &&
      (c.boxes.None? <==> forall j :: 0 <= j < |clsBoxes| ==> |clsBoxes[j]| == 0) &&
      (c.boxes.Some? ==> c.boxes.value == Flatten(clsBoxes)) &&
      (c.segms.None? <==> clsSegms.None?) &&
      (clsSegms.Some? ==> c.segms == Some(Flatten(clsSegms.value))) &&
      (c.keyps.None? <==> clsKeyps.None?) &&
      (clsKeyps.Some? ==> c.keyps == Some(Flatten(clsKeyps.value)))
  {
    FlatBoxesSpec(clsBoxes);
  }
}
