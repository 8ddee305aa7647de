/**
 * The fixed bipolar score scale: 21 half-step values from 5F (-5.0) through neutral
 * 0 to 5M (5.0), and the labels drawn for it. Scores are held in half-units, so the
 * score -4.5 is the integer -9 and the scale is the integers -10..10.
 */
module Scale {
  import opened Text
  import opened Wrappers

  /** The slider's option list, in half-units, lowest first. */
  const Options: seq<int> :=
    [-10, -9, -8, -7, -6, -5, -4, -3, -2, -1, 0, 1, 2, 3, 4, 5, 6, 7, 8, 9, 10]

  /** A half-unit score is on the scale when it lies in [-5.0, 5.0]. */
  predicate OnGrid(h: int) {
    -10 <= h <= 10
  }

  /** The option list is exactly the 21 half-steps from -5.0 to 5.0, in increasing order. */
  lemma OptionsAreGrid()
    ensures |Options| == 21
    ensures forall k :: 0 <= k < |Options| ==> Options[k] == k - 10
    ensures forall h :: h in Options <==> OnGrid(h)
  {
    forall h | OnGrid(h)
      ensures h in Options
    {
      assert Options[h + 10] == h;
    }
  }

  /** The polarity letter: F on the feminine side, M on the masculine side, none at neutral. */
  function Suffix(x: int): string {
    if x < 0 then "F" else if x > 0 then "M" else ""
  }

  function Abs(x: int): nat {
    if x < 0 then -x else x
  }

  /** Python's `str(abs(x))` for the float x = h / 2: the whole part, a point, then 0 or 5. */
  function HalfMagnitude(h: int): (r: string)
    ensures |r| >= 3 && AllDigits(r[..|r| - 2]) && r[|r| - 2] == '.'
    ensures r[|r| - 1] == '5' <==> h % 2 == 1
    ensures r[|r| - 1] == '0' <==> h % 2 == 0
  {
    NatToString(Abs(h) / 2) + "." + (if Abs(h) % 2 == 0 then "0" else "5")
  }

  /** The slider's label for half-unit score h: `4.5F`, `0.0`, `5.0M`. */
  function SliderLabel(h: int): (r: string)
    ensures |r| >= 3
    ensures r[|r| - 1] == 'F' <==> h < 0
    ensures r[|r| - 1] == 'M' <==> h > 0
  {
    HalfMagnitude(h) + Suffix(h)
  }

  /** The label under integer tick i of the spectrum line: `5F`, `0`, `3M`. */
  function TickLabel(i: int): (r: string)
    ensures |r| >= 1
    ensures r[|r| - 1] == 'F' <==> i < 0
    ensures r[|r| - 1] == 'M' <==> i > 0
  {
    NatToString(Abs(i)) + Suffix(i)
  }

  /** Splits a trailing polarity letter off a label: the rest and the sign it stands for. */
  function SplitSuffix(s: string): (string, int) {
    if |s| > 0 && s[|s| - 1] == 'F' then (s[..|s| - 1], -1)
    else if |s| > 0 && s[|s| - 1] == 'M' then (s[..|s| - 1], 1)
    else (s, 0)
  }

  /** Applies a sign to a magnitude, rejecting a letter on zero and a missing letter on non-zero. */
  function Signed(mag: nat, sign: int): Option<int> {
    if (sign == 0) == (mag == 0) then Some(sign * mag) else None
  }

  /** Reads `W.0` or `W.5` back as a number of half-units. */
  function ParseHalfMagnitude(b: string): Option<nat> {
    if |b| >= 3 && b[|b| - 2] == '.' && (b[|b| - 1] == '0' || b[|b| - 1] == '5') && AllDigits(b[..|b| - 2])
    then Some(2 * ParseNat(b[..|b| - 2]) + (if b[|b| - 1] == '5' then 1 else 0))
    else None
  }

  /** Reads a slider label back as a half-unit score. */
  function ParseSliderLabel(s: string): Option<int> {
    var (body, sign) := SplitSuffix(s);
    match ParseHalfMagnitude(body)
    case None => None
    case Some(m) => Signed(m, sign)
  }

  /** Reads a tick label back as an integer position. */
  function ParseTickLabel(s: string): Option<int> {
    var (body, sign) := SplitSuffix(s);
    if |body| >= 1 && AllDigits(body) then Signed(ParseNat(body), sign) else None
  }

  /** The slider label names its score unambiguously: reading it back gives the score. */
  lemma SliderLabelRoundTrip(h: int)
    ensures ParseSliderLabel(SliderLabel(h)) == Some(h)
  {
    var m := HalfMagnitude(h);
    HalfMagnitudeRoundTrip(h);
    SplitDigitSuffix(m, h);
  }

  /** The magnitude part reads back as the number of half-units. */
  lemma HalfMagnitudeRoundTrip(h: int)
    ensures |HalfMagnitude(h)| >= 3 && HalfMagnitude(h)[|HalfMagnitude(h)| - 1] in {'0', '5'}
    ensures ParseHalfMagnitude(HalfMagnitude(h)) == Some(Abs(h))
  {
    var a := Abs(h);
    var w := NatToString(a / 2);
    var m := HalfMagnitude(h);
    assert m[..|m| - 2] == w;
    ParseNatToString(a / 2);
  }

  /** A polarity letter after a body that ends in a digit splits off again, with its sign. */
  lemma SplitDigitSuffix(m: string, h: int)
    requires |m| > 0 && m[|m| - 1] in {'0', '5'}
    ensures SplitSuffix(m + Suffix(h)) == (m, if h < 0 then -1 else if h > 0 then 1 else 0)
  {
    if h != 0 {
      assert (m + Suffix(h))[..|m|] == m;
    } else {
      assert m + Suffix(h) == m;
    }
  }

  /** The tick label names its position unambiguously: reading it back gives the position. */
  lemma TickLabelRoundTrip(i: int)
    ensures ParseTickLabel(TickLabel(i)) == Some(i)
  {
    var m := NatToString(Abs(i));
    ParseNatToString(Abs(i));
    assert SplitSuffix(TickLabel(i)).0 == m;
  }

  /** Distinct scores get distinct slider labels. */
  lemma SliderLabelInjective(a: int, b: int)
    requires SliderLabel(a) == SliderLabel(b)
    ensures a == b
  {
    SliderLabelRoundTrip(a);
    SliderLabelRoundTrip(b);
  }

  /** A score and its mirror image share the magnitude and differ only in the polarity letter,
      which is F exactly on the negative side and M exactly on the positive side. */
  lemma SliderLabelMirror(h: int)
    ensures SliderLabel(h) == HalfMagnitude(h) + Suffix(h)
    ensures SliderLabel(-h) == HalfMagnitude(h) + Suffix(-h)
    ensures Suffix(h) == "F" <==> h < 0
    ensures Suffix(h) == "M" <==> h > 0
    ensures Suffix(h) == "" <==> h == 0
    ensures h != 0 ==> SliderLabel(h) != SliderLabel(-h)
  {
    if h != 0 {
      assert SliderLabel(h)[|SliderLabel(h)| - 1] != SliderLabel(-h)[|SliderLabel(-h)| - 1];
    }
  }

  /** One marked point of the spectrum line. */
  datatype Tick = Tick(pos: int, caption: string, neutral: bool)

  /** The integer ticks -5..5 of the spectrum line, left to right; only 0 is drawn as neutral. */
  function Ticks(): (r: seq<Tick>)
    ensures |r| == 11
    ensures forall k :: 0 <= k < |r| ==> r[k].pos == k - 5 && r[k].caption == TickLabel(k - 5)
    ensures forall k :: 0 <= k < |r| ==> (r[k].neutral <==> r[k].pos == 0)
  {
    seq(11, k requires 0 <= k < 11 => Tick(k - 5, TickLabel(k - 5), k == 5))
  }

  /** No two ticks of the spectrum line carry the same label. */
  lemma TickLabelsDistinct(j: int, k: int)
    requires 0 <= j < 11 && 0 <= k < 11 && j != k
    ensures Ticks()[j].caption != Ticks()[k].caption
  {
    TickLabelRoundTrip(j - 5);
    TickLabelRoundTrip(k - 5);
  }
}
