/** The selection list `selectedFeatures` and what the checkbox handler
    and the checkbox restore do with it, as functions on values. */
module Selection {
  import opened Records

  /** `selectedFeatures.some(sf => sf.category === category && sf.feature === feature)`. */
  function Contains(list: seq<SelectedFeature>, sf: SelectedFeature): (r: bool)
    ensures r <==> sf in list
  {
    |list| > 0 && (list[0] == sf || Contains(list[1..], sf))
  }

  /** Whether a checkbox with these attributes is ticked by `restoreCheckboxes`:
      an absent attribute (`undefined`) equals no stored string. */
  function IsChecked(list: seq<SelectedFeature>, category: Option<string>, feature: Option<string>): (r: bool)
    ensures r <==> category.Some? && feature.Some? && SelectedFeature(category.value, feature.value) in list
  {
    category.Some? && feature.Some? && Contains(list, SelectedFeature(category.value, feature.value))
  }

  /** `selectedFeatures.filter(sf => !(sf.category === category && sf.feature === feature))`:
      every copy of `sf` goes, every other entry stays as often as it was there. */
  function Without(list: seq<SelectedFeature>, sf: SelectedFeature): (r: seq<SelectedFeature>)
    ensures multiset(r) == multiset(list)[sf := 0]
    ensures forall x :: x in r <==> x in list && x != sf
  {
    if list == [] then []
    else
      assert list == [list[0]] + list[1..];
      (if list[0] == sf then [] else [list[0]]) + Without(list[1..], sf)
  }

  /** Filtering keeps the order of what it keeps: it works on each part
      of the list separately. */
  lemma {:induction false} WithoutDistributes(a: seq<SelectedFeature>, b: seq<SelectedFeature>, sf: SelectedFeature)
    ensures Without(a + b, sf) == Without(a, sf) + Without(b, sf)
  {
    if a == [] {
      assert a + b == b;
    } else {
      assert (a + b)[1..] == a[1..] + b;
      WithoutDistributes(a[1..], b, sf);
    }
  }

  /** Unticking a pair that is not in the list leaves the list as it is. */
  lemma {:induction false} WithoutAbsent(list: seq<SelectedFeature>, sf: SelectedFeature)
    requires sf !in list
    ensures Without(list, sf) == list
  {
    if list != [] {
      TailOf(list, sf);
      WithoutAbsent(list[1..], sf);
      assert list == [list[0]] + list[1..];
    }
  }

  lemma TailOf(list: seq<SelectedFeature>, sf: SelectedFeature)
    requires list != [] && sf !in list
    ensures sf !in list[1..]
    ensures Without(list, sf) == [list[0]] + Without(list[1..], sf)
  {
    assert list[0] in list;
    forall k | 0 <= k < |list[1..]| ensures list[1..][k] != sf {
      assert list[1..][k] == list[k + 1];
    }
  }

  /** A change event of a checkbox: its two attributes and its new `checked`. */
  datatype Change = Change(category: Option<string>, feature: Option<string>, checked: bool)
  {
    /** The guard `if (!category || !feature) return;` lets this change through. */
    predicate Valid()
    {
      Truthy(category) && Truthy(feature)
    }

    /** The pair this change is about, once the guard has let it through. */
    function Target(): SelectedFeature
      requires Valid()
    {
      SelectedFeature(category.value, feature.value)
    }
  }

  /** What `handleCheckboxChange` does to the list: nothing when an
      attribute is missing or empty; otherwise the pair is appended when
      the box is ticked and every copy of it removed when it is unticked. */
  function Toggle(list: seq<SelectedFeature>, change: Change): (r: seq<SelectedFeature>)
    ensures !change.Valid() ==> r == list
    ensures change.Valid() ==> (change.Target() in r <==> change.checked)
    ensures change.Valid() && change.checked ==> multiset(r)[change.Target()] == multiset(list)[change.Target()] + 1
    ensures change.Valid() && change.checked ==> |r| == |list| + 1 && r[..|list|] == list && r[|list|] == change.Target()
    ensures forall sf :: (!change.Valid() || sf != change.Target()) ==> multiset(r)[sf] == multiset(list)[sf]
  {
    if !change.Valid() then list
    else if change.checked then list + [change.Target()]
    else Without(list, change.Target())
  }

  /** After one change, a pair is in the list exactly when the change ticks
      it, or when the change is not about it and it was there before. */
  lemma ToggleMembership(list: seq<SelectedFeature>, change: Change, sf: SelectedFeature)
    ensures sf in Toggle(list, change) <==>
      if change.Valid() && change.Target() == sf then change.checked else sf in list
  {
  }

  /** The list after a run of change events, in the order they happened. */
  function Replay(list: seq<SelectedFeature>, changes: seq<Change>): seq<SelectedFeature>
  {
    if changes == [] then list
    else Toggle(Replay(list, changes[..|changes| - 1]), changes[|changes| - 1])
  }

  /** The `checked` value of the last change about `sf` that passed the guard. */
  function LastWord(changes: seq<Change>, sf: SelectedFeature): Option<bool>
  {
    if changes == [] then None
    else
      var last := changes[|changes| - 1];
      if last.Valid() && last.Target() == sf then Some(last.checked)
      else LastWord(changes[..|changes| - 1], sf)
  }

  /** Whatever the order of events, a pair is selected exactly when the
      last change about it ticked it (or, with no such change, when it
      was selected at the start). */
  lemma {:induction false} ReplayMembership(list: seq<SelectedFeature>, changes: seq<Change>, sf: SelectedFeature)
    ensures sf in Replay(list, changes) <==>
      match LastWord(changes, sf)
      case Some(checked) => checked
      case None => sf in list
  {
    if changes != [] {
      var before := changes[..|changes| - 1];
      ReplayMembership(list, before, sf);
      ToggleMembership(Replay(list, before), changes[|changes| - 1], sf);
    }
  }

  predicate NoDuplicates(list: seq<SelectedFeature>)
  {
    forall i, j :: 0 <= i < j < |list| ==> list[i] != list[j]
  }

  lemma {:induction false} WithoutKeepsDistinct(list: seq<SelectedFeature>, sf: SelectedFeature)
    requires NoDuplicates(list)
    ensures NoDuplicates(Without(list, sf))
  {
    if list != [] {
      WithoutKeepsDistinct(list[1..], sf);
      var rest := Without(list[1..], sf);
      assert list[0] !in list[1..] by {
        forall k | 0 <= k < |list[1..]| ensures list[1..][k] != list[0] { assert list[1..][k] == list[k + 1]; }
      }
      assert list[0] !in rest;
    }
  }

  /** The list stays free of duplicates as long as a box is only ticked
      while its pair is absent, which a checkbox's own on/off state ensures. */
  lemma ToggleKeepsDistinct(list: seq<SelectedFeature>, change: Change)
    requires NoDuplicates(list)
    requires change.Valid() && change.checked ==> change.Target() !in list
    ensures NoDuplicates(Toggle(list, change))
  {
    if change.Valid() && !change.checked {
      WithoutKeepsDistinct(list, change.Target());
    }
  }
}
