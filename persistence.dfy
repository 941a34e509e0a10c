/** `saveState` and `loadState`: the selection and the notes kept in the
    session store across page loads. */
module Persistence {
  import opened Records
  import opened Store
  import Json

  const FeaturesKey := "selectedFeatures"
  const NotesKey := "projectNotes"

  /** The session store after `saveState`: the list as JSON, the notes as they are. */
  function Saved(session: map<string, string>, list: seq<SelectedFeature>, notes: string): (r: map<string, string>)
    ensures Truthy(Get(r, FeaturesKey))
    ensures Get(r, NotesKey) == Some(notes)
    ensures forall k :: k != FeaturesKey && k != NotesKey ==> Get(r, k) == Get(session, k)
  {
    session[FeaturesKey := Json.FeaturesText(list)][NotesKey := notes]
  }

  /** The two fields after `loadState`, and whether it restored the checkboxes. */
  datatype Loaded = Loaded(features: seq<SelectedFeature>, notes: string, restored: bool)

  /** A stored list that is not empty text replaces the list (None where
      `JSON.parse` throws, before the notes are touched); stored notes that
      are not empty text replace the notes. */
  function Load(session: map<string, string>, list: seq<SelectedFeature>, notes: string): (r: Option<Loaded>)
    ensures r.None? ==> Truthy(Get(session, FeaturesKey))
    ensures r.Some? ==> (r.value.restored <==> Truthy(Get(session, FeaturesKey)))
    ensures r.Some? && !r.value.restored ==> r.value.features == list
    ensures r.Some? && !Truthy(Get(session, NotesKey)) ==> r.value.notes == notes
  {
    var savedFeatures := Get(session, FeaturesKey);
    var savedNotes := Get(session, NotesKey);
    var features := if Truthy(savedFeatures) then Json.ParseFeatures(savedFeatures.value) else Some(list);
    if features.None? then None
    else Some(Loaded(features.value, if Truthy(savedNotes) then savedNotes.value else notes, Truthy(savedFeatures)))
  }

  /** Loading what was saved gives back the saved list and, unless they
      were empty, the saved notes; empty notes leave the current ones. */
  lemma SaveLoadRoundTrip(session: map<string, string>, list: seq<SelectedFeature>, notes: string,
                          current: seq<SelectedFeature>, currentNotes: string)
    ensures Load(Saved(session, list, notes), current, currentNotes) ==
      Some(Loaded(list, if notes != "" then notes else currentNotes, true))
  {
    Json.ParseFeaturesOfText(list);
    assert Json.FeaturesText(list) != "" by {
      assert Json.FeaturesText(list)[0] == '[';
    }
  }

  /** On a page load with nothing saved yet, the fields keep their initial values. */
  lemma LoadNothing(session: map<string, string>, list: seq<SelectedFeature>, notes: string)
    requires FeaturesKey !in session && NotesKey !in session
    ensures Load(session, list, notes) == Some(Loaded(list, notes, false))
  {
  }
}
