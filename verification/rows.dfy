/**
 * The editable row list kept across page runs: two parallel lists, the trait names
 * and their half-unit scores, plus the preset selection seen on the previous run.
 * Three operations edit it: deleting a row, growing a blank row when the last typed
 * name is filled in, and syncing newly selected presets in just before the last row.
 */
module Rows {
  import opened Text
  import opened Traits
  import opened Presets

  /** The session's row state: names, scores and the preset selection last synced. */
  datatype Session = Session(names: seq<string>, scores: seq<int>, lastPreset: seq<string>)

  /** The two row lists are parallel. */
  predicate Wf(s: Session) {
    |s.names| == |s.scores|
  }

  /** The state after the first run: one blank row scored 0.0 and no presets seen. */
  function Init(): (s: Session)
    ensures Wf(s) && |s.names| == 1 && IsBlank(s.names[0]) && s.lastPreset == []
    ensures s.names == [""] && s.scores == [0]
  {
    Session([""], [0], [])
  }

  /** `xs` without its i-th element (Python's `xs.pop(i)`, keeping the list). */
  function RemoveAt<T>(xs: seq<T>, i: nat): (r: seq<T>)
    requires i < |xs|
    ensures |r| == |xs| - 1
    ensures forall j :: 0 <= j < i ==> r[j] == xs[j]
    ensures forall j :: i <= j < |r| ==> r[j] == xs[j + 1]
  {
    xs[..i] + xs[i + 1..]
  }

  /** Python's `xs.insert(-1, x)`: x goes just before the last element, or alone into an empty list. */
  function InsertBeforeLast<T>(xs: seq<T>, x: T): (r: seq<T>)
    ensures |r| == |xs| + 1
  {
    var i := if |xs| == 0 then 0 else |xs| - 1;
    xs[..i] + [x] + xs[i..]
  }

  /** On a non-empty list the new element lands just before the last one, which stays last, and
      everything before it is untouched; on an empty list it becomes the only element. The element
      counts grow by exactly the inserted one. */
  lemma InsertBeforeLastShape<T>(xs: seq<T>, x: T)
    ensures var r := InsertBeforeLast(xs, x);
            && multiset(r) == multiset(xs) + multiset{x}
            && (|xs| == 0 ==> r == [x])
            && (|xs| > 0 ==> r[..|xs| - 1] == xs[..|xs| - 1] && r[|xs| - 1] == x && r[|xs|] == xs[|xs| - 1])
  {
    var i := if |xs| == 0 then 0 else |xs| - 1;
    assert xs == xs[..i] + xs[i..];
  }

  /** The delete button of row i: the row's name and score go, every other row stays in order. */
  function Delete(s: Session, i: nat): (r: Session)
    requires i < |s.names| && i < |s.scores|
    ensures |r.names| == |s.names| - 1 && |r.scores| == |s.scores| - 1
    ensures forall j :: 0 <= j < i ==> r.names[j] == s.names[j] && r.scores[j] == s.scores[j]
    ensures forall j :: i <= j < |r.names| ==> r.names[j] == s.names[j + 1]
    ensures forall j :: i <= j < |r.scores| ==> r.scores[j] == s.scores[j + 1]
    ensures r.lastPreset == s.lastPreset
  {
    Session(RemoveAt(s.names, i), RemoveAt(s.scores, i), s.lastPreset)
  }

  /** Deleting keeps the lists parallel and every surviving name with its own score: the rows
      after deletion are the rows before, less the i-th one. */
  lemma DeleteKeepsPairs(s: Session, i: nat)
    requires Wf(s) && i < |s.names|
    ensures Wf(Delete(s, i))
    ensures Zip(Delete(s, i).names, Delete(s, i).scores) == RemoveAt(Zip(s.names, s.scores), i)
    ensures multiset(Delete(s, i).names) + multiset{s.names[i]} == multiset(s.names)
  {
    var n := s.names;
    assert n == n[..i] + [n[i]] + n[i + 1..];
  }

  /** Deleting the only row of the first-run state leaves no rows at all, so the next run has no
      last typed name for growth to look at. */
  lemma DeleteOnlyRowEmpties()
    ensures Delete(Init(), 0).names == [] && Delete(Init(), 0).scores == []
  {
  }

  /** The first-run state is stable: an untouched blank row does not grow, an empty preset
      selection syncs nothing, and typing a name into the blank row grows exactly one new
      blank row after it. */
  lemma InitStable(typed: seq<string>)
    requires |typed| > 0
    ensures IsBlank(typed[|typed| - 1]) ==> Grow(Init(), typed) == Init()
    ensures Sync(Init(), []) == Init()
    ensures !IsBlank(typed[|typed| - 1]) ==> Grow(Init(), typed).names == ["", ""]
  {
  }

  /** Row growth: when the last typed name is not blank, one blank row scored 0.0 is appended;
      otherwise nothing changes. `typed` holds the names as typed on this run, one per row. */
  function Grow(s: Session, typed: seq<string>): (r: Session)
    requires |typed| > 0
    ensures |r.names| >= |s.names| && |r.scores| >= |s.scores|
    ensures !IsBlank(typed[|typed| - 1]) ==> |r.names| == |s.names| + 1 && |r.scores| == |s.scores| + 1
    ensures r.names[..|s.names|] == s.names && r.scores[..|s.scores|] == s.scores
    ensures !IsBlank(typed[|typed| - 1]) ==> r.names[|s.names|] == "" && IsBlank(r.names[|s.names|]) && r.scores[|s.scores|] == 0
    ensures IsBlank(typed[|typed| - 1]) ==> r == s
    ensures r.lastPreset == s.lastPreset
  {
    if !IsBlank(typed[|typed| - 1]) then
      Session(s.names + [""], s.scores + [0], s.lastPreset)
    else s
  }

  /** Growth keeps the lists parallel, and it changes the state exactly when the last typed
      name, once stripped, is not empty. */
  lemma GrowChangesIffLastFilled(s: Session, typed: seq<string>)
    requires Wf(s) && |typed| > 0
    ensures Wf(Grow(s, typed))
    ensures Grow(s, typed) != s <==> Strip(typed[|typed| - 1]) != ""
  {
    BlankIffStripEmpty(typed[|typed| - 1]);
    if !IsBlank(typed[|typed| - 1]) {
      assert |Grow(s, typed).names| != |s.names|;
    }
  }

  /** The selected traits that were not already rows, in selection order. */
  function NewTraits(selected: seq<string>, existing: set<string>): (r: seq<string>)
    ensures |r| <= |selected|
  {
    if |selected| == 0 then []
    else (if selected[0] in existing then [] else [selected[0]]) + NewTraits(selected[1..], existing)
  }

  /** A trait is new exactly when it is selected and not already present. */
  lemma {:induction false} NewTraitsMembers(selected: seq<string>, existing: set<string>, t: string)
    ensures t in NewTraits(selected, existing) <==> t in selected && t !in existing
  {
    if |selected| > 0 {
      NewTraitsMembers(selected[1..], existing, t);
      assert selected == [selected[0]] + selected[1..];
    }
  }

  /** The scores `scoreOf` gives a list of traits. */
  function ScoresOf(ts: seq<string>, scoreOf: string -> int): (r: seq<int>)
    ensures |r| == |ts| && forall k :: 0 <= k < |ts| ==> r[k] == scoreOf(ts[k])
  {
    if |ts| == 0 then [] else [scoreOf(ts[0])] + ScoresOf(ts[1..], scoreOf)
  }

  /** One step of the sync loop: trait t goes in before the last row with the score `scoreOf` gives it. */
  function InsertPreset(s: Session, t: string, scoreOf: string -> int): (r: Session)
    ensures |r.names| == |s.names| + 1 && |r.scores| == |s.scores| + 1
    ensures multiset(r.names) == multiset(s.names) + multiset{t}
    ensures multiset(r.scores) == multiset(s.scores) + multiset{scoreOf(t)}
    ensures r.lastPreset == s.lastPreset
  {
    InsertBeforeLastShape(s.names, t);
    InsertBeforeLastShape(s.scores, scoreOf(t));
    Session(InsertBeforeLast(s.names, t), InsertBeforeLast(s.scores, scoreOf(t)), s.lastPreset)
  }

  /** The sync loop: each selected trait not in `existing` (the names before the loop) is inserted,
      scored by `scoreOf` (the preset lookup, in `Sync`). */
  function InsertAll(s: Session, selected: seq<string>, existing: set<string>, scoreOf: string -> int): (r: Session)
    ensures |r.names| == |s.names| + |NewTraits(selected, existing)|
    ensures |r.scores| == |s.scores| + |NewTraits(selected, existing)|
    ensures r.lastPreset == s.lastPreset
    decreases |selected|
  {
    if |selected| == 0 then s
    else
      var next := if selected[0] in existing then s else InsertPreset(s, selected[0], scoreOf);
      InsertAll(next, selected[1..], existing, scoreOf)
  }

  /** The names present before a sync: Python's `set(traits_state)`. */
  function NameSet(names: seq<string>): set<string> {
    set t | t in names
  }

  /** Preset sync: when the selection differs from the one last seen, every selected trait that
      was not a row before the sync is inserted before the last row, and the selection is recorded. */
  function Sync(s: Session, selected: seq<string>): (r: Session)
    ensures r.lastPreset == selected
    ensures selected == s.lastPreset ==> r == s
    ensures |r.names| - |s.names| == |r.scores| - |s.scores|
  {
    if selected == s.lastPreset then s
    else InsertAll(s, selected, NameSet(s.names), PresetScore).(lastPreset := selected)
  }

  /** Repeated `insert(-1, …)` of `items`, first to last. */
  function InsertEach<T>(xs: seq<T>, items: seq<T>): (r: seq<T>)
    ensures |r| == |xs| + |items|
    decreases |items|
  {
    if |items| == 0 then xs else InsertEach(InsertBeforeLast(xs, items[0]), items[1..])
  }

  /** Inserting items one by one before the last element places them, in order, between the
      untouched front of the list and its last element. */
  lemma {:induction false} InsertEachClosedForm<T>(xs: seq<T>, items: seq<T>)
    requires |xs| > 0
    ensures InsertEach(xs, items) == xs[..|xs| - 1] + items + [xs[|xs| - 1]]
    decreases |items|
  {
    var n := |xs|;
    if |items| == 0 {
      assert xs == xs[..n - 1] + [xs[n - 1]];
    } else {
      var next := InsertBeforeLast(xs, items[0]);
      InsertBeforeLastShape(xs, items[0]);
      InsertEachClosedForm(next, items[1..]);
      assert next[..n] == xs[..n - 1] + [items[0]];
      assert items == [items[0]] + items[1..];
      assert next[..n] + items[1..] == xs[..n - 1] + items;
    }
  }

  /** The sync loop inserts the new traits into the name list and their scores into the score list. */
  lemma {:induction false} InsertAllProjects(s: Session, selected: seq<string>, existing: set<string>,
                                             scoreOf: string -> int)
    ensures var added := NewTraits(selected, existing);
            InsertAll(s, selected, existing, scoreOf)
              == Session(InsertEach(s.names, added), InsertEach(s.scores, ScoresOf(added, scoreOf)), s.lastPreset)
    decreases |selected|
  {
    if |selected| > 0 {
      var t := selected[0];
      var rest := selected[1..];
      if t in existing {
        InsertAllProjects(s, rest, existing, scoreOf);
        assert NewTraits(selected, existing) == NewTraits(rest, existing);
      } else {
        InsertAllProjects(InsertPreset(s, t, scoreOf), rest, existing, scoreOf);
        var added := NewTraits(selected, existing);
        assert added == [t] + NewTraits(rest, existing);
        assert added[1..] == NewTraits(rest, existing);
        var sc := ScoresOf(added, scoreOf);
        assert sc[0] == scoreOf(t);
        assert sc[1..] == ScoresOf(NewTraits(rest, existing), scoreOf);
      }
    }
  }

  /** The sync loop in closed form: the rows before the last keep their order, the new traits
      follow them in selection order with their scores, and the last row stays last. */
  lemma InsertAllClosedForm(s: Session, selected: seq<string>, existing: set<string>, scoreOf: string -> int)
    requires |s.names| > 0 && |s.scores| > 0
    ensures var r := InsertAll(s, selected, existing, scoreOf);
            var n := |s.names|;
            var m := |s.scores|;
            && r.names == s.names[..n - 1] + NewTraits(selected, existing) + [s.names[n - 1]]
            && r.scores == s.scores[..m - 1] + ScoresOf(NewTraits(selected, existing), scoreOf) + [s.scores[m - 1]]
  {
    var added := NewTraits(selected, existing);
    InsertAllProjects(s, selected, existing, scoreOf);
    InsertEachClosedForm(s.names, added);
    InsertEachClosedForm(s.scores, ScoresOf(added, scoreOf));
  }

  /** A sync that sees a new selection, in closed form: the new traits (those selected and absent
      before) go, in selection order and with their preset scores, between the earlier rows and
      the last row. */
  lemma SyncClosedForm(s: Session, selected: seq<string>)
    requires |s.names| > 0 && |s.scores| > 0 && selected != s.lastPreset
    ensures var r := Sync(s, selected);
            var added := NewTraits(selected, NameSet(s.names));
            && r.names == s.names[..|s.names| - 1] + added + [s.names[|s.names| - 1]]
            && r.scores == s.scores[..|s.scores| - 1] + ScoresOf(added, PresetScore) + [s.scores[|s.scores| - 1]]
  {
    InsertAllClosedForm(s, selected, NameSet(s.names), PresetScore);
  }

  /** Sync keeps the lists parallel, leaves the last row where and what it was, and leaves the
      rows before it untouched and in order. */
  lemma SyncKeepsRows(s: Session, selected: seq<string>)
    requires Wf(s) && |s.names| > 0
    ensures var r := Sync(s, selected);
            var n := |s.names|;
            && Wf(r)
            && |r.names| >= n
            && r.names[|r.names| - 1] == s.names[n - 1]
            && r.scores[|r.scores| - 1] == s.scores[n - 1]
            && r.names[..n - 1] == s.names[..n - 1]
            && r.scores[..n - 1] == s.scores[..n - 1]
  {
    if selected != s.lastPreset {
      var r := Sync(s, selected);
      var added := NewTraits(selected, NameSet(s.names));
      SyncClosedForm(s, selected);
      KeepsEnds(s.names, added, r.names);
      KeepsEnds(s.scores, ScoresOf(added, PresetScore), r.scores);
    }
  }

  /** Inserting before the last element keeps the front in place and the last element last. */
  lemma KeepsEnds<T>(xs: seq<T>, added: seq<T>, r: seq<T>)
    requires |xs| > 0 && r == xs[..|xs| - 1] + added + [xs[|xs| - 1]]
    ensures |r| == |xs| + |added|
    ensures r[|r| - 1] == xs[|xs| - 1] && r[..|xs| - 1] == xs[..|xs| - 1]
  {
  }

  /** Every row a sync inserts is a selected trait that was not a row before. */
  lemma SyncInsertsOnlyNewSelected(s: Session, selected: seq<string>, k: int)
    requires Wf(s) && |s.names| > 0 && selected != s.lastPreset
    requires |s.names| - 1 <= k < |s.names| - 1 + |NewTraits(selected, NameSet(s.names))|
    ensures k < |Sync(s, selected).names| - 1
    ensures Sync(s, selected).names[k] in selected && Sync(s, selected).names[k] !in s.names
  {
    var ex := NameSet(s.names);
    var added := NewTraits(selected, ex);
    var j := k - (|s.names| - 1);
    SyncClosedForm(s, selected);
    InsertedAt(s.names, added, Sync(s, selected).names, k);
    NewTraitsMembers(selected, ex, added[j]);
  }

  /** Inside the inserted block, position k holds item k - (|xs| - 1). */
  lemma InsertedAt<T>(xs: seq<T>, added: seq<T>, r: seq<T>, k: int)
    requires |xs| > 0 && r == xs[..|xs| - 1] + added + [xs[|xs| - 1]]
    requires |xs| - 1 <= k < |r| - 1
    ensures 0 <= k - (|xs| - 1) < |added| && r[k] == added[k - (|xs| - 1)]
  {
  }

  /** Every row a sync inserts carries the preset score of its trait. */
  lemma SyncInsertedScore(s: Session, selected: seq<string>, k: int)
    requires Wf(s) && |s.names| > 0 && selected != s.lastPreset
    requires |s.names| - 1 <= k < |s.names| - 1 + |NewTraits(selected, NameSet(s.names))|
    ensures k < |Sync(s, selected).names| - 1 && k < |Sync(s, selected).scores| - 1
    ensures Sync(s, selected).scores[k] == PresetScore(Sync(s, selected).names[k])
  {
    var r := Sync(s, selected);
    var added := NewTraits(selected, NameSet(s.names));
    var j := k - (|s.names| - 1);
    SyncClosedForm(s, selected);
    InsertedAt(s.names, added, r.names, k);
    InsertedAt(s.scores, ScoresOf(added, PresetScore), r.scores, k);
    assert ScoresOf(added, PresetScore)[j] == PresetScore(added[j]);
  }

  /** A trait that was already a row is not inserted again: it occurs as often after the sync as before. */
  lemma SyncNoReinsert(s: Session, selected: seq<string>, t: string)
    requires |s.names| > 0 && |s.scores| > 0 && t in s.names
    ensures multiset(Sync(s, selected).names)[t] == multiset(s.names)[t]
  {
    if selected != s.lastPreset {
      var ex := NameSet(s.names);
      var added := NewTraits(selected, ex);
      SyncClosedForm(s, selected);
      NewTraitsMembers(selected, ex, t);
      CountUnchangedByOthers(s.names, added, Sync(s, selected).names, t);
    }
  }

  /** Putting items other than t before the last element does not change how often t occurs. */
  lemma CountUnchangedByOthers(xs: seq<string>, added: seq<string>, r: seq<string>, t: string)
    requires |xs| > 0 && t !in added
    requires r == xs[..|xs| - 1] + added + [xs[|xs| - 1]]
    ensures multiset(r)[t] == multiset(xs)[t]
  {
    var front, last := xs[..|xs| - 1], [xs[|xs| - 1]];
    assert xs == front + last;
    assert multiset(added)[t] == 0;
    assert multiset(r) == multiset(front) + multiset(added) + multiset(last);
  }

  /** After a sync that sees a new selection, every selected trait is a row. */
  lemma SyncCoversSelection(s: Session, selected: seq<string>, t: string)
    requires |s.names| > 0 && |s.scores| > 0 && selected != s.lastPreset && t in selected
    ensures t in Sync(s, selected).names
  {
    var ex := NameSet(s.names);
    SyncClosedForm(s, selected);
    NewTraitsMembers(selected, ex, t);
    KeptOrAdded(s.names, NewTraits(selected, ex), Sync(s, selected).names, t);
  }

  /** After inserting before the last element, the list holds every old element and every item. */
  lemma KeptOrAdded(xs: seq<string>, added: seq<string>, r: seq<string>, t: string)
    requires |xs| > 0 && (t in xs || t in added)
    requires r == xs[..|xs| - 1] + added + [xs[|xs| - 1]]
    ensures t in r
  {
    if t in xs {
      assert xs == xs[..|xs| - 1] + [xs[|xs| - 1]];
    }
  }

  /** Syncing the same selection a second time changes nothing. */
  lemma SyncIdempotent(s: Session, selected: seq<string>)
    ensures Sync(Sync(s, selected), selected) == Sync(s, selected)
  {
  }
}
