/** `FeatureChecklistApp`: the state the page keeps and the handlers that
    change it. The page's markup is reduced to what the handlers read and
    write: the checkboxes with their data attributes, whether the summary
    container and the visitor-count element exist, and the view the summary
    container shows. */
module App {
  import opened Records
  import opened JsText
  import opened JsNumber
  import opened JsSort
  import opened Store
  import opened Selection
  import opened Summary
  import Json
  import Export
  import Visitor
  import Persistence

  /** An `input[type="checkbox"]` of the page: its `data-category` and
      `data-feature` attributes (None when the markup has none) and its
      `checked` state. */
  class Checkbox {
    const category: Option<string>
    const feature: Option<string>
    var checked: bool

    constructor(category: Option<string>, feature: Option<string>, checked: bool)
      ensures this.category == category && this.feature == feature && this.checked == checked
    {
      this.category := category;
      this.feature := feature;
      this.checked := checked;
    }
  }

  class App {
    var currentPage: Value
    var selectedFeatures: seq<SelectedFeature>
    /** None until `Start` has read or made the visit record. */
    var visitorData: Option<VisitorData>
    var projectNotes: string
    /** What the summary container shows; None until it is first filled. */
    var summary: Option<SummaryView>

    const session: Storage
    const local: Storage
    const checkboxes: seq<Checkbox>
    const hasSummaryContainer: bool
    const hasCountElement: bool

    /** The two stores are two different objects. */
    predicate Valid()
    {
      session != local
    }

    /** The field initialisers; the rest of the constructor is `Start`. */
    constructor(session: Storage, local: Storage, checkboxes: seq<Checkbox>,
                hasSummaryContainer: bool, hasCountElement: bool)
      requires session != local
      ensures Valid()
      ensures this.session == session && this.local == local && this.checkboxes == checkboxes
      ensures this.hasSummaryContainer == hasSummaryContainer && this.hasCountElement == hasCountElement
      ensures currentPage == Int(1) && selectedFeatures == [] && projectNotes == ""
      ensures visitorData == None && summary == None
    {
      this.session := session;
      this.local := local;
      this.checkboxes := checkboxes;
      this.hasSummaryContainer := hasSummaryContainer;
      this.hasCountElement := hasCountElement;
      currentPage := Int(1);
      selectedFeatures := [];
      visitorData := None;
      projectNotes := "";
      summary := None;
    }

    /** The constructor body after the field initialisers. Returns false
        where the constructor throws: a stored record or list that
        `JSON.parse` rejects, or a null count that `updateVisitorDisplay`
        calls `toString` on. */
    method Start(now: string) returns (ok: bool)
      requires Valid()
      modifies this, session, local, checkboxes
      ensures var v := Visitor.Initialize(old(session.items), old(local.items), now);
        && local.items == v.local
        && session.items == v.session
        && visitorData == (if v.record.Some? then v.record else old(visitorData))
        && (v.record.None? ==> !ok && selectedFeatures == old(selectedFeatures) && projectNotes == old(projectNotes))
        && (v.record.Some? ==>
              var loaded := Persistence.Load(v.session, old(selectedFeatures), old(projectNotes));
              && (loaded.None? ==> !ok && selectedFeatures == old(selectedFeatures) && projectNotes == old(projectNotes))
              && (loaded.Some? ==>
                    && selectedFeatures == loaded.value.features
                    && projectNotes == loaded.value.notes
                    && ok == !(hasCountElement && v.record.value.count.Null?)))
      // the boxes are restored exactly when a record was set up and a list was read
      ensures var v := Visitor.Initialize(old(session.items), old(local.items), now);
        var loaded := Persistence.Load(v.session, old(selectedFeatures), old(projectNotes));
        var restoring := v.record.Some? && loaded.Some? && loaded.value.restored;
        && (restoring ==> Restored())
        && (!restoring ==> forall i :: 0 <= i < |checkboxes| ==> checkboxes[i].checked == old(checkboxes[i].checked))
      ensures currentPage == if ok then Int(1) else old(currentPage)
      ensures summary == old(summary)
    {
      var record := InitializeVisitorData(now);
      if record.None? {
        return false;
      }
      visitorData := record;
      ok := Resume(record.value);
    }

    /** The constructor after the visit record is set up: `loadState`,
        `updateVisitorDisplay` (which throws on a null count) and page 1. */
    method Resume(record: VisitorData) returns (ok: bool)
      modifies this`selectedFeatures, this`projectNotes, this`currentPage, this`summary, checkboxes
      ensures var loaded := Persistence.Load(session.items, old(selectedFeatures), old(projectNotes));
        var restoring := loaded.Some? && loaded.value.restored;
        && (loaded.None? ==> !ok && selectedFeatures == old(selectedFeatures) && projectNotes == old(projectNotes))
        && (loaded.Some? ==>
              && selectedFeatures == loaded.value.features
              && projectNotes == loaded.value.notes
              && ok == !(hasCountElement && record.count.Null?))
        && (restoring ==> Restored())
        && (!restoring ==> forall i :: 0 <= i < |checkboxes| ==> checkboxes[i].checked == old(checkboxes[i].checked))
      ensures currentPage == if ok then Int(1) else old(currentPage)
      ensures summary == old(summary)
    {
      ok := LoadState();
      if !ok {
        return;
      }
      // updateVisitorDisplay: `count.toString()` throws on a null count
      if hasCountElement && record.count.Null? {
        return false;
      }
      NavigateToPage(Int(1));
    }

    /** `initializeVisitorData`, with the visit time passed in. */
    method InitializeVisitorData(now: string) returns (record: Option<VisitorData>)
      requires Valid()
      modifies session, local
      ensures var v := Visitor.Initialize(old(session.items), old(local.items), now);
        record == v.record && session.items == v.session && local.items == v.local
    {
      var existing := session.GetItem(Visitor.RecordKey);
      if Truthy(existing) {
        record := Json.ParseVisitor(existing.value);
        return;
      }
      var stored := local.GetItem(Visitor.CounterKey);
      var count := Increment(ParseInt(if Truthy(stored) then stored.value else "0"));
      local.SetItem(Visitor.CounterKey, ToString(count));
      var newData := VisitorData(count, Visitor.UnknownLocation, now);
      session.SetItem(Visitor.RecordKey, Json.VisitorText(newData));
      record := Some(newData);
    }

    /** `loadState`; returns false where `JSON.parse` throws, and then
        neither field nor any checkbox has changed. */
    method LoadState() returns (ok: bool)
      modifies this`selectedFeatures, this`projectNotes, checkboxes
      ensures var loaded := Persistence.Load(session.items, old(selectedFeatures), old(projectNotes));
        && ok == loaded.Some?
        && (ok ==> selectedFeatures == loaded.value.features && projectNotes == loaded.value.notes)
        && (!ok ==> selectedFeatures == old(selectedFeatures) && projectNotes == old(projectNotes))
        && (ok && loaded.value.restored ==> Restored())
        && (!(ok && loaded.value.restored) ==>
              forall i :: 0 <= i < |checkboxes| ==> checkboxes[i].checked == old(checkboxes[i].checked))
    {
      var savedFeatures := session.GetItem(Persistence.FeaturesKey);
      var savedNotes := session.GetItem(Persistence.NotesKey);
      if Truthy(savedFeatures) {
        var parsed := Json.ParseFeatures(savedFeatures.value);
        if parsed.None? {
          return false;
        }
        selectedFeatures := parsed.value;
        RestoreCheckboxes();
      }
      if Truthy(savedNotes) {
        projectNotes := savedNotes.value;
      }
      ok := true;
    }

    /** Every checkbox shows whether its pair is selected. */
    predicate Restored()
      reads this, checkboxes
    {
      forall i :: 0 <= i < |checkboxes| ==>
        checkboxes[i].checked == IsChecked(selectedFeatures, checkboxes[i].category, checkboxes[i].feature)
    }

    /** `restoreCheckboxes`: each box is ticked exactly when its pair is in
        the list. */
    method RestoreCheckboxes()
      modifies checkboxes
      ensures Restored()
    {
      var i := 0;
      while i < |checkboxes|
        invariant 0 <= i <= |checkboxes|
        invariant forall k :: 0 <= k < i ==>
          checkboxes[k].checked == IsChecked(selectedFeatures, checkboxes[k].category, checkboxes[k].feature)
      {
        var box := checkboxes[i];
        box.checked := IsChecked(selectedFeatures, box.category, box.feature);
        i := i + 1;
      }
    }

    /** `saveState`. */
    method SaveState()
      requires Valid()
      modifies session
      ensures session.items == Persistence.Saved(old(session.items), selectedFeatures, projectNotes)
    {
      session.SetItem(Persistence.FeaturesKey, Json.FeaturesText(selectedFeatures));
      session.SetItem(Persistence.NotesKey, projectNotes);
    }

    /** `handleCheckboxChange`: with both attributes given, a ticked box's
        pair is appended and an unticked box's pair removed, then the state
        is saved and the summary redrawn; otherwise nothing happens. */
    method HandleCheckboxChange(box: Checkbox)
      requires Valid()
      modifies this`selectedFeatures, this`summary, session
      ensures var change := Change(box.category, box.feature, box.checked);
        && selectedFeatures == Toggle(old(selectedFeatures), change)
        && (change.Valid() ==>
              && session.items == Persistence.Saved(old(session.items), selectedFeatures, projectNotes)
              && summary == (if hasSummaryContainer then Some(SummaryOf(selectedFeatures)) else old(summary)))
        && (!change.Valid() ==> session.items == old(session.items) && summary == old(summary))
    {
      var category, feature := box.category, box.feature;
      if !Truthy(category) || !Truthy(feature) {
        return;
      }
      var sf := SelectedFeature(category.value, feature.value);
      if box.checked {
        selectedFeatures := selectedFeatures + [sf];
      } else {
        selectedFeatures := Without(selectedFeatures, sf);
      }
      SaveState();
      UpdateSummaryPage();
    }

    /** The `input` listener of the notes text area. */
    method EditNotes(value: string)
      requires Valid()
      modifies this`projectNotes, session
      ensures projectNotes == value
      ensures session.items == Persistence.Saved(old(session.items), selectedFeatures, value)
    {
      projectNotes := value;
      SaveState();
    }

    /** The `click` listener of a navigation link: its `data-page`
        attribute, or `'1'` when it has none, read with `parseInt`. */
    method FollowLink(page: Option<string>)
      modifies this`currentPage, this`summary
      ensures currentPage == ParseInt(if Truthy(page) then page.value else "1")
      ensures summary ==
        if currentPage == Int(10) && hasSummaryContainer then Some(SummaryOf(selectedFeatures)) else old(summary)
    {
      NavigateToPage(ParseInt(if Truthy(page) then page.value else "1"));
    }

    /** `navigateToPage`: the page is always recorded; the summary is
        redrawn only for page 10. */
    method NavigateToPage(pageNumber: Value)
      modifies this`currentPage, this`summary
      ensures currentPage == pageNumber
      ensures summary ==
        if pageNumber == Int(10) && hasSummaryContainer then Some(SummaryOf(selectedFeatures)) else old(summary)
    {
      currentPage := pageNumber;
      if pageNumber == Int(10) {
        UpdateSummaryPage();
      }
    }

    /** `updateSummaryPage`: without a container nothing happens. */
    method UpdateSummaryPage()
      modifies this`summary
      ensures summary == if hasSummaryContainer then Some(SummaryOf(selectedFeatures)) else old(summary)
    {
      if !hasSummaryContainer {
        return;
      }
      summary := Some(SummaryOf(selectedFeatures));
    }

    /** `downloadMarkdown`, with the date passed in: the text it downloads. */
    method DownloadMarkdown(date: string) returns (markdown: string)
      ensures markdown == Export.Checklist(selectedFeatures, projectNotes, date)
    {
      markdown := Export.Title;
      markdown := markdown + Export.Field(Export.DateLabel, date);
      markdown := markdown + Export.Rule;
      ghost var header := markdown;
      assert header == Export.Header(date);
      if |selectedFeatures| == 0 {
        markdown := markdown + Export.NoneSelected;
      } else {
        markdown := markdown + Export.SelectedHeading;
        markdown := AppendBlocks(markdown, selectedFeatures);
        Assoc(header, Export.SelectedHeading, Export.Blocks(Project(selectedFeatures)));
      }
      ghost var selection := markdown;
      assert selection == Export.Header(date) + Export.SelectionSection(selectedFeatures);
      if Trim(projectNotes) != "" {
        markdown := markdown + Export.Rule;
        markdown := markdown + Export.NotesHeading;
        markdown := markdown + (projectNotes + "\n\n");
        Assoc(selection, Export.Rule, Export.NotesHeading);
        Assoc(selection, Export.Rule + Export.NotesHeading, projectNotes + "\n\n");
        Assoc(Export.Rule + Export.NotesHeading, projectNotes, "\n\n");
      } else {
        assert markdown == selection + "";
      }
      assert markdown == selection + Export.NotesSection(projectNotes);
      markdown := markdown + Export.Rule;
      markdown := markdown + Export.Footer;
    }

    /** `downloadVisitorStats`: the text it downloads. */
    method DownloadVisitorStats() returns (markdown: string)
      requires visitorData.Some?
      ensures markdown == Export.VisitorStats(visitorData.value)
    {
      var d := visitorData.value;
      markdown := Export.StatsTitle;
      markdown := markdown + Export.Field(Export.CountLabel, ToString(d.count));
      markdown := markdown + Export.Field(Export.LocationLabel, d.location);
      markdown := markdown + Export.Field(Export.TimeLabel, d.visitTime);
      markdown := markdown + Export.Rule;
      markdown := markdown + Export.Footer;
    }
  }

  /** The selection part of `downloadMarkdown` after its heading: the
      list grouped by the `reduce`, then one block per sorted category. */
  method AppendBlocks(markdown: string, list: seq<SelectedFeature>) returns (result: string)
    ensures result == markdown + Export.Blocks(Project(list))
  {
    var grouped := Group(list);
    var categories := Sort(grouped.keys);
    ProjectShape(list);
    result := AppendCategories(markdown, categories, grouped.lists);
  }

  /** The `forEach` over the sorted categories: a heading, the category's
      sorted features and a blank line each. */
  method AppendCategories(markdown: string, categories: seq<string>, lists: map<string, seq<string>>)
    returns (result: string)
    requires forall c :: c in categories ==> c in lists
    ensures result == markdown + Export.Blocks(GroupsFor(categories, lists))
  {
    ghost var groups := GroupsFor(categories, lists);
    result := markdown;
    var i := 0;
    while i < |categories|
      invariant 0 <= i <= |categories| == |groups|
      invariant result == markdown + Export.Blocks(groups[..i])
    {
      var category := categories[i];
      ghost var before := result;
      result := AppendBlock(result, category, Sort(lists[category]));
      BlockStep(markdown, before, groups, i);
      i := i + 1;
    }
    assert groups[..i] == groups;
  }

  /** One category: its heading, its features and a blank line. */
  method AppendBlock(markdown: string, category: string, features: seq<string>) returns (result: string)
    ensures result == markdown + Export.Block(CategoryGroup(category, features))
  {
    var heading := Export.Field(Export.CategoryLabel, category);
    result := markdown + heading;
    result := AppendItems(result, features);
    result := result + "\n";
    Assoc(markdown, heading, Export.Items(features));
    Assoc(markdown, heading + Export.Items(features), "\n");
  }

  /** The inner `forEach`: one `- [ ] ` line per feature. */
  method AppendItems(markdown: string, features: seq<string>) returns (result: string)
    ensures result == markdown + Export.Items(features)
  {
    result := markdown;
    var j := 0;
    while j < |features|
      invariant 0 <= j <= |features|
      invariant result == markdown + Export.Items(features[..j])
    {
      Assoc(markdown, Export.Items(features[..j]), Export.Item(features[j]));
      Export.ItemsAppend(features[..j], features[j]);
      assert features[..j + 1] == features[..j] + [features[j]];
      result := result + Export.Item(features[j]);
      j := j + 1;
    }
    assert features[..j] == features;
  }

  /** One pass of the outer loop of `AppendBlocks` appends the block of
      the `i`-th group. */
  lemma BlockStep(start: string, before: string, groups: seq<CategoryGroup>, i: nat)
    requires i < |groups|
    requires before == start + Export.Blocks(groups[..i])
    ensures before + Export.Block(groups[i]) == start + Export.Blocks(groups[..i + 1])
  {
    var g := groups[i];
    assert groups[..i + 1] == groups[..i] + [g];
    Export.BlocksAppend(groups[..i], g);
    Assoc(start, Export.Blocks(groups[..i]), Export.Block(g));
  }
}
