/** `HandLandmarksDetector.extract_landmarks`: the feature list built from the
    hands the landmark detector reports for one frame. The detector itself is
    outside the model; its output is the list of hands given as input. */
module Landmarks {
  import opened Wrappers

  /** One detected landmark; `z` is `None` when the landmark object has no
      `z` attribute. */
  datatype Landmark = Landmark(x: real, y: real, z: Option<real>)

  /** The landmarks of one hand, in the detector's index order. */
  type Hand = seq<Landmark>

  /** One entry of the feature list: a coordinate, or Python's `None`
      standing for an absent `z` (kept as an absence, never as zero). */
  datatype Coord = Num(value: real) | Missing

  /** Landmark indices that are kept: wrist, thumb CMC and MCP, and the MCP
      joints of the four fingers. */
  const KeptIndices: seq<nat> := [0, 1, 2, 5, 9, 13, 17]

  /** At most this many hands contribute features. */
  const MaxHands: nat := 2

  /** `idx` is one of `KeptIndices` (see `KeptIsListed`). */
  predicate Kept(idx: nat) {
    idx == 0 || idx == 1 || idx == 2 || idx == 5 || idx == 9 || idx == 13 || idx == 17
  }

  lemma KeptIsListed(idx: nat)
    ensures Kept(idx) <==> idx in KeptIndices
  {
  }

  /** The three entries one kept landmark contributes: x, y and z-or-None. */
  function Triple(l: Landmark): (t: seq<Coord>)
    ensures |t| == 3
    ensures t[0] == Num(l.x) && t[1] == Num(l.y)
    ensures t[2] == (if l.z.Some? then Num(l.z.value) else Missing)
  {
    [Num(l.x), Num(l.y), if l.z.Some? then Num(l.z.value) else Missing]
  }

  /** Number of kept indices below `n`. */
  function KeptCount(n: nat): nat {
    if n == 0 then 0 else KeptCount(n - 1) + (if Kept(n - 1) then 1 else 0)
  }

  /** The features of one hand: a triple for every kept landmark, in index
      order; three entries per kept landmark. */
  function HandFeatures(h: Hand): (r: seq<Coord>)
    ensures |r| == 3 * KeptCount(|h|)
  {
    if h == [] then []
    else HandFeatures(h[..|h| - 1]) + (if Kept(|h| - 1) then Triple(h[|h| - 1]) else [])
  }

  /** The features of the first `k` hands, hand after hand. */
  function FeaturesOfFirst(hands: seq<Hand>, k: nat): seq<Coord>
    requires k <= |hands|
  {
    if k == 0 then [] else FeaturesOfFirst(hands, k - 1) + HandFeatures(hands[k - 1])
  }

  /** The feature list of a frame: only the first two hands count, hand 0's
      features come before hand 1's. */
  function FeatureVector(hands: seq<Hand>): (r: seq<Coord>)
    ensures |hands| == 0 ==> r == []
    ensures |hands| == 1 ==> r == HandFeatures(hands[0])
    ensures |hands| >= 2 ==> r == HandFeatures(hands[0]) + HandFeatures(hands[1])
  {
    var k := if |hands| < MaxHands then |hands| else MaxHands;
    assert k >= 1 ==> FeaturesOfFirst(hands, 1) == HandFeatures(hands[0]) by {
      if k >= 1 {
        assert FeaturesOfFirst(hands, 1) == [] + HandFeatures(hands[0]);
      }
    }
    FeaturesOfFirst(hands, k)
  }

  /** The detector's nested loop: over the first two hands, over every
      landmark, appending the triple of each kept index. */
  method ExtractLandmarks(hands: seq<Hand>) returns (data: seq<Coord>)
    ensures data == FeatureVector(hands)
  {
    data := [];
    var numHands := if |hands| < MaxHands then |hands| else MaxHands;
    var handIdx := 0;
    while handIdx < numHands
      invariant 0 <= handIdx <= numHands
      invariant data == FeaturesOfFirst(hands, handIdx)
    {
      var hand := hands[handIdx];
      var idx := 0;
      while idx < |hand|
        invariant 0 <= idx <= |hand|
        invariant data == FeaturesOfFirst(hands, handIdx) + HandFeatures(hand[..idx])
      {
        HandFeaturesPrefix(hand, idx);
        if Kept(idx) {
          data := data + Triple(hand[idx]);
        }
        idx := idx + 1;
      }
      assert hand[..|hand|] == hand;
      assert FeaturesOfFirst(hands, handIdx + 1) == FeaturesOfFirst(hands, handIdx) + HandFeatures(hand);
      handIdx := handIdx + 1;
    }
  }

  /** Features of a hand grow one landmark at a time. */
  lemma HandFeaturesPrefix(h: Hand, i: nat)
    requires i < |h|
    ensures HandFeatures(h[..i + 1]) == HandFeatures(h[..i]) + (if Kept(i) then Triple(h[i]) else [])
  {
    assert h[..i + 1][..i] == h[..i];
    HandFeaturesUnfold(h[..i + 1]);
  }

  /** The number of kept indices below each n up to 18, one step at a time. */
  lemma KeptCountTable()
    ensures KeptCount(1) == 1 && KeptCount(2) == 2 && KeptCount(5) == 3 && KeptCount(9) == 4
    ensures KeptCount(13) == 5 && KeptCount(17) == 6 && KeptCount(18) == 7
  {
    assert KeptCount(1) == 1;
    assert KeptCount(2) == 2;
    assert KeptCount(3) == 3;
    assert KeptCount(4) == 3;
    assert KeptCount(5) == 3;
    assert KeptCount(6) == 4;
    assert KeptCount(7) == 4;
    assert KeptCount(8) == 4;
    assert KeptCount(9) == 4;
    assert KeptCount(10) == 5;
    assert KeptCount(11) == 5;
    assert KeptCount(12) == 5;
    assert KeptCount(13) == 5;
    assert KeptCount(14) == 6;
    assert KeptCount(15) == 6;
    assert KeptCount(16) == 6;
    assert KeptCount(17) == 6;
    assert KeptCount(18) == 7;
  }

  /** Every index from 18 on lies above all kept indices. */
  lemma {:induction false} KeptCountFull(n: nat)
    requires n >= 18
    ensures KeptCount(n) == |KeptIndices|
    decreases n
  {
    if n == 18 {
      KeptCountTable();
    } else {
      KeptCountFull(n - 1);
    }
  }

  /** When more than j kept indices lie below n, the one of rank j is among them. */
  lemma {:induction false} KeptBelow(n: nat, j: nat)
    requires j < KeptCount(n)
    ensures j < |KeptIndices| && KeptIndices[j] < n
    decreases n
  {
    if j < KeptCount(n - 1) {
      KeptBelow(n - 1, j);
    } else {
      KeptRank(n - 1);
    }
  }

  /** A kept index is the one of rank "number of kept indices below it". */
  lemma KeptRank(i: nat)
    requires Kept(i)
    ensures KeptCount(i) < |KeptIndices| && KeptIndices[KeptCount(i)] == i
  {
    KeptCountTable();
  }

  /** The j-th triple of the features of the landmarks before the last one
      stays in place when the last landmark is added. */
  lemma HandFeaturesOrderStep(h: Hand, j: nat, k: nat)
    requires |h| > 0 && k < |h| - 1 && 3 * j + 3 <= |HandFeatures(h[..|h| - 1])|
    requires HandFeatures(h[..|h| - 1])[3 * j..3 * j + 3] == Triple(h[..|h| - 1][k])
    ensures HandFeatures(h)[3 * j..3 * j + 3] == Triple(h[k])
  {
    HandFeaturesGrow(h);
    SliceOfPrefix(HandFeatures(h[..|h| - 1]), HandFeatures(h), 3 * j, 3 * j + 3);
  }

  /** Adding a landmark only appends to the features. */
  lemma HandFeaturesGrow(h: Hand)
    requires |h| > 0
    ensures HandFeatures(h[..|h| - 1]) <= HandFeatures(h)
  {
    HandFeaturesUnfold(h);
  }

  lemma SliceOfPrefix(p: seq<Coord>, q: seq<Coord>, a: nat, b: nat)
    requires p <= q && a <= b <= |p|
    ensures q[a..b] == p[a..b]
  {
  }

  lemma HandFeaturesUnfold(h: Hand)
    requires |h| > 0
    ensures HandFeatures(h) == HandFeatures(h[..|h| - 1]) + (if Kept(|h| - 1) then Triple(h[|h| - 1]) else [])
  {
  }

  /** The triple of a kept last landmark comes right after those before it. */
  lemma HandFeaturesOrderLast(h: Hand, j: nat)
    requires |h| > 0 && Kept(|h| - 1) && j == KeptCount(|h| - 1)
    ensures j < |KeptIndices| && KeptIndices[j] == |h| - 1
    ensures HandFeatures(h)[3 * j..3 * j + 3] == Triple(h[|h| - 1])
  {
    KeptRank(|h| - 1);
    LastTriple(h);
  }

  /** The features of a hand whose last landmark is kept end in its triple. */
  lemma LastTriple(h: Hand)
    requires |h| > 0 && Kept(|h| - 1)
    ensures HandFeatures(h)[3 * KeptCount(|h| - 1)..3 * KeptCount(|h| - 1) + 3] == Triple(h[|h| - 1])
  {
    var prefix := HandFeatures(h[..|h| - 1]);
    HandFeaturesUnfold(h);
    SliceBehind(prefix, Triple(h[|h| - 1]));
  }

  /** The part of a concatenation behind its first part is the second part. */
  lemma SliceBehind(p: seq<Coord>, t: seq<Coord>)
    ensures (p + t)[|p|..|p| + |t|] == t
  {
  }

  /** Order and contents: the j-th triple of a hand's features is the triple
      of the hand's j-th kept landmark. */
  lemma {:induction false} HandFeaturesOrder(h: Hand, j: nat)
    requires j < KeptCount(|h|)
    ensures j < |KeptIndices| && KeptIndices[j] < |h|
    ensures HandFeatures(h)[3 * j..3 * j + 3] == Triple(h[KeptIndices[j]])
    decreases |h|
  {
    KeptBelow(|h|, j);
    var n := |h|;
    if j < KeptCount(n - 1) {
      HandFeaturesOrder(h[..n - 1], j);
      HandFeaturesOrderStep(h, j, KeptIndices[j]);
    } else {
      HandFeaturesOrderLast(h, j);
    }
  }

  /** With the detector's 21-landmark hands (any hand of at least 18
      landmarks), a frame yields 0, 21 or 42 entries: 21 per hand, for at
      most two hands. */
  lemma FeatureVectorLength(hands: seq<Hand>)
    requires forall k :: 0 <= k < |hands| ==> |hands[k]| >= 18
    ensures |FeatureVector(hands)| == 21 * (if |hands| < 2 then |hands| else 2)
    ensures |FeatureVector(hands)| in {0, 21, 42}
  {
    if |hands| >= 1 {
      KeptCountFull(|hands[0]|);
    }
    if |hands| >= 2 {
      KeptCountFull(|hands[1]|);
    }
  }
}
