/**
 * The preset trait table: five categories of five traits each, every trait with a
 * fixed half-unit score, and the score lookup the preset sync uses.
 */
module Presets {
  import opened Wrappers
  import opened Scale

  datatype Preset = Preset(name: string, score: int)

  /** One category of the table; its traits are listed in the table's order. */
  datatype Category = Category(name: string, traits: seq<Preset>)

  /** The preset table, categories and traits in their declared order; scores in half-units. */
  const Groups: seq<Category> := [
    Category("Emotional Traits", [
      Preset("Nurturing", -9), Preset("Empathetic", -8), Preset("Stoic", 9),
      Preset("Patient", -7), Preset("Supportive", -7)]),
    Category("Cognitive Traits", [
      Preset("Analytical", 7), Preset("Decisive", 7), Preset("Creative", -5),
      Preset("Adaptable", 1), Preset("Responsible", 1)]),
    Category("Social Traits", [
      Preset("Assertive", 8), Preset("Charismatic", 5), Preset("Ambitious", 7),
      Preset("Dominant", 9), Preset("Independent", 5)]),
    Category("Physical/Practical Traits", [
      Preset("Athletic", 7), Preset("Handy", 6), Preset("Outdoorsy", 5),
      Preset("Organized", -3), Preset("Graceful", -9)]),
    Category("Style/Presentation", [
      Preset("Stylish", -6), Preset("Garish Style", -2), Preset("Reserved Style", 2),
      Preset("Masc Presenting", 10), Preset("Fem Presenting", -10)])
  ]

  /** Python's `trait in traits` for one category's dictionary. */
  predicate Contains(c: Category, t: string) {
    exists p :: p in c.traits && p.name == t
  }

  /** Every score listed in category `c` lies on the 21-value scale. */
  predicate CategoryOnGrid(c: Category) {
    forall k :: 0 <= k < |c.traits| ==> OnGrid(c.traits[k].score)
  }

  /** Every score in the table lies on the 21-value scale. */
  lemma PresetTableOnGrid()
    ensures forall i :: 0 <= i < |Groups| ==> CategoryOnGrid(Groups[i])
  {
    assert CategoryOnGrid(Groups[0]);
    assert CategoryOnGrid(Groups[1]);
    assert CategoryOnGrid(Groups[2]);
    assert CategoryOnGrid(Groups[3]);
    assert CategoryOnGrid(Groups[4]);
  }

  /** The score stored for `t` in one category's dictionary, if `t` is a key of it. */
  function ScoreIn(ps: seq<Preset>, t: string): (r: Option<int>)
    ensures r.None? <==> forall p :: p in ps ==> p.name != t
    ensures r.Some? ==> Preset(t, r.value) in ps
  {
    if |ps| == 0 then None
    else if ps[0].name == t then Some(ps[0].score)
    else ScoreIn(ps[1..], t)
  }

  /** The position of the first category that lists `t`, or |gs| when none does. */
  function FirstWith(gs: seq<Category>, t: string): (i: nat)
    ensures i <= |gs|
    ensures forall j :: 0 <= j < i ==> !Contains(gs[j], t)
    ensures i < |gs| ==> Contains(gs[i], t)
  {
    if |gs| == 0 then 0
    else if Contains(gs[0], t) then 0
    else 1 + FirstWith(gs[1..], t)
  }

  /** The score of `t` in the first category that contains it, if any does: Python's loop over
      the categories with `break` at the first hit and an `else` for no hit. */
  function Lookup(gs: seq<Category>, t: string): (r: Option<int>)
    ensures r.None? <==> forall c :: c in gs ==> !Contains(c, t)
    ensures r.Some? ==> FirstWith(gs, t) < |gs| && r == ScoreIn(gs[FirstWith(gs, t)].traits, t)
  {
    var i := FirstWith(gs, t);
    if i == |gs| then
      assert forall c :: c in gs ==> !Contains(c, t);
      None
    else ScoreIn(gs[i].traits, t)
  }

  /** The score a table gives `t`: its score in the first category that lists it, or 0.0 when
      no category does; on the scale whenever every category of the table is. */
  function TableScore(gs: seq<Category>, t: string): (r: int)
    requires forall i :: 0 <= i < |gs| ==> CategoryOnGrid(gs[i])
    ensures OnGrid(r)
    ensures (forall c :: c in gs ==> !Contains(c, t)) ==> r == 0
    ensures (exists c :: c in gs && Contains(c, t)) ==>
              exists i :: 0 <= i < |gs| && Preset(t, r) in gs[i].traits
                          && forall j :: 0 <= j < i ==> !Contains(gs[j], t)
  {
    var r := Lookup(gs, t);
    if r.None? then 0
    else
      var i := FirstWith(gs, t);
      assert CategoryOnGrid(gs[i]);
      var k :| 0 <= k < |gs[i].traits| && gs[i].traits[k] == Preset(t, r.value);
      r.value
  }

  /** The score the preset sync gives a newly inserted trait: the table lookup over the preset
      table, which is always on the scale. */
  function PresetScore(t: string): (r: int)
    ensures OnGrid(r)
  {
    PresetTableOnGrid();
    TableScore(Groups, t)
  }

  /** Stoic, listed under the emotional traits at 4.5, syncs with score 4.5. */
  lemma PresetScoreStoic()
    ensures PresetScore("Stoic") == 9
  {
    var ts := Groups[0].traits;
    assert ts[2] == Preset("Stoic", 9);
    assert Contains(Groups[0], "Stoic");
    assert FirstWith(Groups, "Stoic") == 0;
    assert ts[0].name != "Stoic" && ts[1].name != "Stoic";
    assert ScoreIn(ts[2..], "Stoic") == Some(9);
    assert ScoreIn(ts[1..], "Stoic") == Some(9) by {
      assert ts[1..][1..] == ts[2..];
    }
    assert ScoreIn(ts, "Stoic") == Some(9);
    PresetTableOnGrid();
  }

  /** The table has five categories of five traits each, in the declared order. */
  lemma PresetTableShape()
    ensures |Groups| == 5
    ensures forall i :: 0 <= i < |Groups| ==> |Groups[i].traits| == 5
    ensures Groups[0].name == "Emotional Traits" && Groups[4].name == "Style/Presentation"
  {
  }
}
