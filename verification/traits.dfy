/**
 * Trait-set preparation: the entered names and scores are zipped into pairs and the
 * pairs whose name is blank are dropped, keeping order and keeping each name with
 * its own score.
 */
module Traits {
  import opened Text

  /** One entered trait: its name as typed and its half-unit score. */
  datatype Pair = Pair(name: string, score: int)

  function Min(a: int, b: int): int {
    if a < b then a else b
  }

  /** Python's `zip(names, scores)`: pairs up the two lists, stopping at the shorter. */
  function Zip(names: seq<string>, scores: seq<int>): (r: seq<Pair>)
    ensures |r| == Min(|names|, |scores|)
  {
    seq(Min(|names|, |scores|), k requires 0 <= k < Min(|names|, |scores|) => Pair(names[k], scores[k]))
  }

  /** Python's `zip(*pairs)`: splits pairs back into a name list and a score list. */
  function Unzip(ps: seq<Pair>): (r: (seq<string>, seq<int>))
    ensures |r.0| == |ps| && |r.1| == |ps|
  {
    (seq(|ps|, k requires 0 <= k < |ps| => ps[k].name), seq(|ps|, k requires 0 <= k < |ps| => ps[k].score))
  }

  /** Splitting pairs and zipping them again gives the same pairs. */
  lemma ZipUnzip(ps: seq<Pair>)
    ensures Zip(Unzip(ps).0, Unzip(ps).1) == ps
  {
  }

  /** Zipping two lists of equal length and splitting the pairs gives the two lists back. */
  lemma UnzipZip(names: seq<string>, scores: seq<int>)
    requires |names| == |scores|
    ensures Unzip(Zip(names, scores)) == (names, scores)
  {
    var r := Unzip(Zip(names, scores));
    assert r.0 == names;
    assert r.1 == scores;
  }

  /** The positions of the pairs whose name is not blank, in increasing order. */
  function Kept(ps: seq<Pair>): (idx: seq<nat>)
    ensures |idx| <= |ps|
    ensures forall a, b :: 0 <= a < b < |idx| ==> idx[a] < idx[b]
    ensures forall k :: 0 <= k < |idx| ==> idx[k] < |ps|
    ensures forall i :: 0 <= i < |ps| ==> (i in idx <==> !IsBlank(ps[i].name))
  {
    if |ps| == 0 then []
    else
      var front := ps[..|ps| - 1];
      var prev := Kept(front);
      assert forall i :: 0 <= i < |front| ==> ps[i] == front[i];
      if IsBlank(ps[|ps| - 1].name) then prev else prev + [|ps| - 1]
  }

  /** Python's `[(t, s) for t, s in pairs if t.strip() != ""]`. */
  function FilterBlank(ps: seq<Pair>): (r: seq<Pair>)
    ensures |r| <= |ps|
    ensures forall k :: 0 <= k < |r| ==> !IsBlank(r[k].name)
  {
    if |ps| == 0 then []
    else
      var prev := FilterBlank(ps[..|ps| - 1]);
      if IsBlank(ps[|ps| - 1].name) then prev else prev + [ps[|ps| - 1]]
  }

  /** The filter keeps exactly the non-blank pairs, in their original order, each pair intact:
      its k-th result is the input pair at the k-th non-blank position. */
  lemma {:induction false} FilterBlankKeepsNonBlankInOrder(ps: seq<Pair>)
    ensures |FilterBlank(ps)| == |Kept(ps)|
    ensures forall k :: 0 <= k < |Kept(ps)| ==> FilterBlank(ps)[k] == ps[Kept(ps)[k]]
  {
    if |ps| > 0 {
      var n := |ps|;
      var front := ps[..n - 1];
      FilterBlankKeepsNonBlankInOrder(front);
      var prev, idx := FilterBlank(front), Kept(front);
      var r, ix := FilterBlank(ps), Kept(ps);
      assert |r| == |ix|;
      forall k | 0 <= k < |ix|
        ensures r[k] == ps[ix[k]]
      {
        if k < |idx| {
          assert r[k] == prev[k] == front[idx[k]];
          assert ix[k] == idx[k];
        }
      }
    }
  }

  /** A pair survives the filter exactly when its name is not blank; the filter never invents a pair. */
  lemma FilterBlankMembership(ps: seq<Pair>, p: Pair)
    ensures p in FilterBlank(ps) <==> p in ps && !IsBlank(p.name)
  {
    FilterBlankKeepsNonBlankInOrder(ps);
    var r := FilterBlank(ps);
    var idx := Kept(ps);
    if p in r {
      var k :| 0 <= k < |r| && r[k] == p;
      assert ps[idx[k]] == p;
    }
    if p in ps && !IsBlank(p.name) {
      var i :| 0 <= i < |ps| && ps[i] == p;
      assert i in idx;
      var k :| 0 <= k < |idx| && idx[k] == i;
      assert r[k] == p;
    }
  }

  /** Filtering twice is filtering once. */
  lemma {:induction false} FilterBlankIdempotent(ps: seq<Pair>)
    ensures FilterBlank(FilterBlank(ps)) == FilterBlank(ps)
  {
    if |ps| > 0 {
      var front := ps[..|ps| - 1];
      FilterBlankIdempotent(front);
      var prev := FilterBlank(front);
      if !IsBlank(ps[|ps| - 1].name) {
        assert (prev + [ps[|ps| - 1]])[..|prev|] == prev;
      }
    }
  }

  /** The names and scores the chart is drawn from: the non-blank entries of the two lists,
      as two parallel lists of equal length (both empty when nothing survives). */
  function Prepare(names: seq<string>, scores: seq<int>): (r: (seq<string>, seq<int>))
    ensures |r.0| == |r.1| <= Min(|names|, |scores|)
    ensures forall k :: 0 <= k < |r.0| ==> !IsBlank(r.0[k])
    ensures |r.0| == |Kept(Zip(names, scores))|
    ensures forall k :: 0 <= k < |r.0| ==>
              var i := Kept(Zip(names, scores))[k];
              i < |names| && i < |scores| && r.0[k] == names[i] && r.1[k] == scores[i]
  {
    var ps := FilterBlank(Zip(names, scores));
    FilterBlankKeepsNonBlankInOrder(Zip(names, scores));
    Unzip(ps)
  }
}
