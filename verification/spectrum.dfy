/**
 * The chart drawn from the prepared trait set: the tick marks of the spectrum line,
 * the mean indicator, and one bubble per trait. Scores stay in half-units, the mean
 * is a real in score units, and heights are in hundredths of a plot unit.
 */
module Spectrum {
  import opened Text
  import opened Traits
  import opened Scale

  function Sum(xs: seq<int>): int {
    if |xs| == 0 then 0 else Sum(xs[..|xs| - 1]) + xs[|xs| - 1]
  }

  /** A sum of values that all lie in [lo, hi] lies between |xs|·lo and |xs|·hi. */
  lemma {:induction false} SumBounds(xs: seq<int>, lo: int, hi: int)
    requires forall i :: 0 <= i < |xs| ==> lo <= xs[i] <= hi
    ensures |xs| * lo <= Sum(xs) <= |xs| * hi
  {
    if |xs| > 0 {
      SumBounds(xs[..|xs| - 1], lo, hi);
    }
  }

  /** The smallest of a non-empty list of scores. */
  function MinOf(xs: seq<int>): (m: int)
    requires |xs| > 0
    ensures m in xs && forall i :: 0 <= i < |xs| ==> m <= xs[i]
  {
    if |xs| == 1 then xs[0]
    else
      var rest := MinOf(xs[1..]);
      if xs[0] <= rest then xs[0] else rest
  }

  /** The largest of a non-empty list of scores. */
  function MaxOf(xs: seq<int>): (m: int)
    requires |xs| > 0
    ensures m in xs && forall i :: 0 <= i < |xs| ==> xs[i] <= m
  {
    if |xs| == 1 then xs[0]
    else
      var rest := MaxOf(xs[1..]);
      if xs[0] >= rest then xs[0] else rest
  }

  /** `np.mean(scores) if scores else 0`, in score units, for half-unit scores. */
  function Mean(xs: seq<int>): (m: real)
    ensures |xs| == 0 ==> m == 0.0
    ensures |xs| > 0 ==> m * (2 * |xs|) as real == Sum(xs) as real
  {
    if |xs| == 0 then 0.0 else (Sum(xs) as real) / ((2 * |xs|) as real)
  }

  /** The mean of a non-empty list lies between its smallest and its largest score. */
  lemma MeanBetween(xs: seq<int>)
    requires |xs| > 0
    ensures (MinOf(xs) as real) / 2.0 <= Mean(xs) <= (MaxOf(xs) as real) / 2.0
  {
    var n := |xs|;
    var lo := MinOf(xs);
    var hi := MaxOf(xs);
    SumBounds(xs, lo, hi);
    QuotientBetween(Sum(xs), n, lo, hi);
  }

  /** If n·lo <= s <= n·hi with n > 0, then lo/2 <= s/(2n) <= hi/2. */
  lemma QuotientBetween(s: int, n: int, lo: int, hi: int)
    requires n > 0 && n * lo <= s <= n * hi
    ensures (lo as real) / 2.0 <= (s as real) / ((2 * n) as real) <= (hi as real) / 2.0
  {
    var q := (s as real) / ((2 * n) as real);
    var c := (2 * n) as real;
    assert q * c == s as real;
    assert (q - (lo as real) / 2.0) * c == s as real - (n * lo) as real;
    assert ((hi as real) / 2.0 - q) * c == (n * hi) as real - s as real;
    NonNegativeFactor(q - (lo as real) / 2.0, c);
    NonNegativeFactor((hi as real) / 2.0 - q, c);
  }

  /** A product with a positive factor is non-negative only if the other factor is. */
  lemma NonNegativeFactor(a: real, c: real)
    requires c > 0.0 && a * c >= 0.0
    ensures a >= 0.0
  {
  }

  /** For scores on the scale the mean lies in [-5.0, 5.0]; with no scores it is exactly 0. */
  lemma MeanOnScale(xs: seq<int>)
    requires forall i :: 0 <= i < |xs| ==> OnGrid(xs[i])
    ensures -5.0 <= Mean(xs) <= 5.0
  {
    if |xs| > 0 {
      MeanBetween(xs);
    }
  }

  /** Height of a trait's marker, in hundredths: every bubble sits at 0.4. */
  const MarkerHeight: int := 40

  /** Height of the i-th trait's label, in hundredths: `0.35 + 0.08 * ((idx % 3) - 1)`. */
  function LabelHeight(idx: nat): (y: int)
    ensures y == 27 || y == 35 || y == 43
  {
    35 + 8 * ((idx % 3) - 1)
  }

  /** The i-th trait's slot in the 10-colour palette. */
  function PaletteSlot(idx: nat): (slot: nat)
    ensures slot < 10
  {
    idx % 10
  }

  /** Label heights take exactly three levels, 0.27, 0.35 and 0.43, by index mod 3, and two
      labels share a height exactly when their indices agree mod 3. */
  lemma LabelHeightLevels(i: nat, j: nat)
    ensures i % 3 == 0 ==> LabelHeight(i) == 27
    ensures i % 3 == 1 ==> LabelHeight(i) == 35
    ensures i % 3 == 2 ==> LabelHeight(i) == 43
    ensures LabelHeight(i) == LabelHeight(j) <==> i % 3 == j % 3
  {
  }

  /** Three consecutive traits get three different label heights, and ten consecutive traits get
      ten different colours; the pattern then repeats. */
  lemma NeighboursDiffer(i: nat, j: nat)
    requires i < j
    ensures j < i + 3 ==> LabelHeight(i) != LabelHeight(j)
    ensures j < i + 10 ==> PaletteSlot(i) != PaletteSlot(j)
    ensures LabelHeight(i + 3) == LabelHeight(i) && PaletteSlot(i + 10) == PaletteSlot(i)
  {
    if j < i + 3 {
      CloseResidues3(i, j);
    }
    if j < i + 10 {
      CloseResidues10(i, j);
    }
    assert i + 3 == 3 * (i / 3 + 1) + i % 3;
    assert i + 10 == 10 * (i / 10 + 1) + i % 10;
  }

  /** Two numbers less than 3 apart differ mod 3. */
  lemma CloseResidues3(i: nat, j: nat)
    requires i < j < i + 3
    ensures i % 3 != j % 3
  {
    var q, r := i / 3, i % 3;
    assert i == 3 * q + r;
    if r + (j - i) < 3 {
      assert j == 3 * q + (r + (j - i));
    } else {
      assert j == 3 * (q + 1) + (r + (j - i) - 3);
    }
  }

  /** Two numbers less than 10 apart differ mod 10. */
  lemma CloseResidues10(i: nat, j: nat)
    requires i < j < i + 10
    ensures i % 10 != j % 10
  {
    var q, r := i / 10, i % 10;
    assert i == 10 * q + r;
    if r + (j - i) < 10 {
      assert j == 10 * q + (r + (j - i));
    } else {
      assert j == 10 * (q + 1) + (r + (j - i) - 10);
    }
  }

  /** One trait's bubble: its name, its score as x (half-units), the heights of marker and
      label (hundredths), and its palette slot. */
  datatype Bubble = Bubble(name: string, x: int, markerY: int, labelY: int, slot: nat)

  /** The bubbles of the trait set, one per pair, in order. */
  function Bubbles(ps: seq<Pair>): (r: seq<Bubble>)
    ensures |r| == |ps|
    ensures forall k :: 0 <= k < |r| ==> r[k].name == ps[k].name && r[k].x == ps[k].score
    ensures forall k :: 0 <= k < |r| ==> r[k].markerY == MarkerHeight
  {
    seq(|ps|, k requires 0 <= k < |ps| =>
      Bubble(ps[k].name, ps[k].score, MarkerHeight, LabelHeight(k), PaletteSlot(k)))
  }

  /** The layout of a bubble depends only on its own pair and its position: adding traits at the
      end leaves the earlier bubbles exactly as they were. */
  lemma BubblesPrefixStable(p: seq<Pair>, q: seq<Pair>)
    ensures Bubbles(p + q)[..|p|] == Bubbles(p)
  {
  }

  /** The input-dependent part of the chart: the x-position of the mean line and the bubbles.
      The background bands and the ticks (`Ticks`) are the same on every pass. */
  datatype Picture = Picture(mean: real, bubbles: seq<Bubble>)

  /** One render pass from the rows as entered: blank-named rows are dropped, the mean is taken
      over the remaining scores (0 when none remain), and each remaining trait gets a bubble. */
  function Render(names: seq<string>, scores: seq<int>): (pic: Picture)
    ensures |pic.bubbles| == |Kept(Zip(names, scores))|
    ensures pic.mean == Mean(Prepare(names, scores).1)
    ensures |Kept(Zip(names, scores))| == 0 ==> pic.mean == 0.0
  {
    var prepared := Prepare(names, scores);
    Picture(Mean(prepared.1), Bubbles(Zip(prepared.0, prepared.1)))
  }

  /** The mean line of a render pass with some non-blank row is the average of exactly the
      non-blank rows' scores: times their count it gives back the sum of those scores. */
  lemma RenderMeanIsAverage(names: seq<string>, scores: seq<int>)
    requires |Kept(Zip(names, scores))| > 0
    ensures var idx := Kept(Zip(names, scores));
            var kept := Prepare(names, scores).1;
            && |kept| == |idx|
            && (forall k :: 0 <= k < |idx| ==> idx[k] < |scores| && kept[k] == scores[idx[k]])
            && Render(names, scores).mean * (2 * |kept|) as real == Sum(kept) as real
  {
    var kept := Prepare(names, scores).1;
    assert Render(names, scores).mean == Mean(kept);
  }

  /** Each bubble stands for one non-blank row, in row order: the k-th bubble carries the name and
      sits at the score of the k-th non-blank row (the mean line is `RenderMeanIsAverage`). */
  lemma RenderFollowsRows(names: seq<string>, scores: seq<int>, k: nat)
    requires k < |Render(names, scores).bubbles|
    ensures var idx := Kept(Zip(names, scores));
            var b := Render(names, scores).bubbles[k];
            && idx[k] < |names| && idx[k] < |scores|
            && b.name == names[idx[k]] && !IsBlank(b.name)
            && b.x == scores[idx[k]]
            && b.labelY == LabelHeight(k) && b.slot == PaletteSlot(k)
  {
  }

  /** With no non-blank rows the chart has no bubbles and the mean line sits at 0. */
  lemma RenderEmpty(names: seq<string>, scores: seq<int>)
    requires forall i :: 0 <= i < |names| ==> IsBlank(names[i])
    ensures Render(names, scores).bubbles == []
    ensures Render(names, scores).mean == 0.0
  {
    var ps := Zip(names, scores);
    if |Kept(ps)| > 0 {
      assert Kept(ps)[0] in Kept(ps);
    }
  }

  /** When every entered score is on the scale, the mean line lies within [-5.0, 5.0]. */
  lemma RenderMeanOnScale(names: seq<string>, scores: seq<int>)
    requires forall i :: 0 <= i < |scores| ==> OnGrid(scores[i])
    ensures -5.0 <= Render(names, scores).mean <= 5.0
  {
    var prepared := Prepare(names, scores);
    MeanOnScale(prepared.1);
  }

  /** Both names of the two-trait example are kept. */
  lemma OppositePairKept()
    ensures Kept(Zip(["Nurturing", "Stoic"], [-9, 9])) == [0, 1]
  {
    var ps := Zip(["Nurturing", "Stoic"], [-9, 9]);
    assert ps[0].name == "Nurturing" && ps[1].name == "Stoic";
    assert !IsBlank(ps[0].name) by {
      assert !IsSpace('N');
    }
    assert !IsBlank(ps[1].name) by {
      assert !IsSpace('S');
    }
    var idx := Kept(ps);
    assert 0 in idx && 1 in idx;
    var a :| 0 <= a < |idx| && idx[a] == 0;
    var b :| 0 <= b < |idx| && idx[b] == 1;
    assert a < b;
  }

  /** Two opposite traits: the mean is neutral and the bubbles sit at -4.5 and 4.5. */
  lemma RenderOppositePair()
    ensures var pic := Render(["Nurturing", "Stoic"], [-9, 9]);
            pic.mean == 0.0 && |pic.bubbles| == 2 && pic.bubbles[0].x == -9 && pic.bubbles[1].x == 9
  {
    OppositePairKept();
    var prepared := Prepare(["Nurturing", "Stoic"], [-9, 9]);
    assert prepared.1 == [-9, 9];
    assert Sum([-9, 9]) == 0 by {
      assert [-9, 9][..1] == [-9];
      assert [-9][..0] == [];
    }
  }
}
