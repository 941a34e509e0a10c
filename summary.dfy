/** The projection that `updateSummaryPage` and `downloadMarkdown` share:
    the selection list grouped by category with `reduce`, the categories
    sorted, and the features of each category sorted. */
module Summary {
  import opened Records
  import opened JsSort

  /** The object the `reduce` builds: its keys, kept in insertion order,
      and the array of features under each key. `Object.keys` would list
      index-like keys such as "2" first; that order is never observed,
      because the keys are sorted before use. */
  datatype Grouped = Grouped(keys: seq<string>, lists: map<string, seq<string>>)

  /** One category with its features, as the summary and the export show it. */
  datatype CategoryGroup = CategoryGroup(category: string, features: seq<string>)

  predicate Distinct(s: seq<string>)
  {
    forall i, j :: 0 <= i < j < |s| ==> s[i] != s[j]
  }

  /** The `reduce` callback: create the key's array when the key is new,
      then push the feature onto it. */
  function AddFeature(acc: Grouped, sf: SelectedFeature): Grouped
  {
    if sf.category in acc.lists then
      Grouped(acc.keys, acc.lists[sf.category := acc.lists[sf.category] + [sf.feature]])
    else
      Grouped(acc.keys + [sf.category], acc.lists[sf.category := [sf.feature]])
  }

  /** One step of the `reduce`: the feature goes at the end of its
      category's array, a key is appended exactly when that array is
      created, and every other category keeps its array. */
  lemma AddFeatureEffect(acc: Grouped, sf: SelectedFeature)
    ensures var r := AddFeature(acc, sf);
      && r.lists[sf.category] == (if sf.category in acc.lists then acc.lists[sf.category] else []) + [sf.feature]
      && r.keys == (if sf.category in acc.lists then acc.keys else acc.keys + [sf.category])
      && (forall c :: c != sf.category ==> (c in r.lists <==> c in acc.lists))
      && (forall c :: c != sf.category && c in acc.lists ==> r.lists[c] == acc.lists[c])
  {
  }

  /** `selectedFeatures.reduce(callback, {})`: a left fold over the list. */
  function Group(list: seq<SelectedFeature>): (g: Grouped)
    ensures forall c :: c in g.keys <==> c in g.lists
    ensures Distinct(g.keys)
  {
    if list == [] then Grouped([], map[])
    else AddFeature(Group(list[..|list| - 1]), list[|list| - 1])
  }

  /** The categories that occur in the list. */
  function CategoriesOf(list: seq<SelectedFeature>): set<string>
  {
    set sf | sf in list :: sf.category
  }

  /** The features filed under `category`, in list order; a reference
      definition that does not go through the `reduce`. */
  function FeaturesIn(list: seq<SelectedFeature>, category: string): seq<string>
  {
    if list == [] then []
    else (if list[0].category == category then [list[0].feature] else []) + FeaturesIn(list[1..], category)
  }

  lemma {:induction false} FeaturesInAppend(list: seq<SelectedFeature>, sf: SelectedFeature, category: string)
    ensures FeaturesIn(list + [sf], category) ==
      FeaturesIn(list, category) + (if sf.category == category then [sf.feature] else [])
  {
    if list == [] {
      assert list + [sf] == [sf];
    } else {
      var head := if list[0].category == category then [list[0].feature] else [];
      var last := if sf.category == category then [sf.feature] else [];
      assert (list + [sf])[0] == list[0];
      assert (list + [sf])[1..] == list[1..] + [sf];
      FeaturesInAppend(list[1..], sf, category);
      assert head + (FeaturesIn(list[1..], category) + last) == head + FeaturesIn(list[1..], category) + last;
    }
  }

  /** The `reduce` files each feature under its own category, keeps the
      list's order within a category and drops nothing, duplicates included. */
  lemma {:induction false} GroupedFeatures(list: seq<SelectedFeature>)
    ensures Group(list).lists.Keys == CategoriesOf(list)
    ensures forall c | c in Group(list).lists :: Group(list).lists[c] == FeaturesIn(list, c)
  {
    if list != [] {
      var init, last := list[..|list| - 1], list[|list| - 1];
      assert list == init + [last];
      GroupedFeatures(init);
      assert CategoriesOf(list) == CategoriesOf(init) + {last.category};
      forall c | c in Group(list).lists ensures Group(list).lists[c] == FeaturesIn(list, c) {
        FeaturesInAppend(init, last, c);
        if c != last.category {
          assert c in CategoriesOf(init);
        } else if c !in CategoriesOf(init) {
          assert FeaturesIn(init, c) == [] by { FeaturesInAbsent(init, c); }
        }
      }
    }
  }

  lemma {:induction false} FeaturesInAbsent(list: seq<SelectedFeature>, category: string)
    requires category !in CategoriesOf(list)
    ensures FeaturesIn(list, category) == []
  {
    if list != [] {
      assert list[0] in list;
      assert CategoriesOf(list[1..]) <= CategoriesOf(list) by {
        forall c | c in CategoriesOf(list[1..]) ensures c in CategoriesOf(list) {
          var sf :| sf in list[1..] && sf.category == c;
          assert sf in list;
        }
      }
      FeaturesInAbsent(list[1..], category);
    }
  }

  /** A feature occurs under `category` as often as its pair occurs in the list. */
  lemma {:induction false} FeaturesInCount(list: seq<SelectedFeature>, category: string, feature: string)
    ensures multiset(FeaturesIn(list, category))[feature] == multiset(list)[SelectedFeature(category, feature)]
  {
    if list != [] {
      FeaturesInCount(list[1..], category, feature);
      FeaturesInFirst(list, category, feature);
      assert list == [list[0]] + list[1..];
    }
  }

  /** The count of a feature under a category, split at the first pair. */
  lemma FeaturesInFirst(list: seq<SelectedFeature>, category: string, feature: string)
    requires list != []
    ensures multiset(FeaturesIn(list, category))[feature] ==
      multiset([list[0]])[SelectedFeature(category, feature)] + multiset(FeaturesIn(list[1..], category))[feature]
  {
    var head := if list[0].category == category then [list[0].feature] else [];
    assert FeaturesIn(list, category) == head + FeaturesIn(list[1..], category);
    assert multiset(head)[feature] == multiset([list[0]])[SelectedFeature(category, feature)];
  }

  /** The groups for the given categories, each with its features sorted:
      `grouped[category].sort()` inside `forEach`. */
  function GroupsFor(categories: seq<string>, lists: map<string, seq<string>>): (r: seq<CategoryGroup>)
    requires forall c :: c in categories ==> c in lists
    ensures |r| == |categories|
    ensures forall i :: 0 <= i < |r| ==> r[i] == CategoryGroup(categories[i], Sort(lists[categories[i]]))
  {
    if categories == [] then []
    else [CategoryGroup(categories[0], Sort(lists[categories[0]]))] + GroupsFor(categories[1..], lists)
  }

  /** `Object.keys(grouped).sort()` and, for each of those keys, the sorted features. */
  function Project(list: seq<SelectedFeature>): (r: seq<CategoryGroup>)
    ensures |r| == |Group(list).keys|
  {
    var g := Group(list);
    var categories := Sort(g.keys);
    assert forall c :: c in categories ==> c in g.lists by {
      forall c | c in categories ensures c in g.lists {
        assert c in multiset(categories);
      }
    }
    GroupsFor(categories, g.lists)
  }

  /** The projection, group by group: the `i`-th sorted category and its
      sorted features. */
  lemma ProjectShape(list: seq<SelectedFeature>)
    ensures var g := Group(list);
      var categories := Sort(g.keys);
      && (forall c :: c in categories ==> c in g.lists)
      && |Project(list)| == |categories|
      && forall i :: 0 <= i < |categories| ==>
           Project(list)[i] == CategoryGroup(categories[i], Sort(g.lists[categories[i]]))
  {
    var g := Group(list);
    var categories := Sort(g.keys);
    forall c | c in categories ensures c in g.lists {
      assert c in multiset(categories);
    }
  }

  function CategoryList(groups: seq<CategoryGroup>): (r: seq<string>)
    ensures |r| == |groups|
    ensures forall i :: 0 <= i < |r| ==> r[i] == groups[i].category
  {
    if groups == [] then [] else [groups[0].category] + CategoryList(groups[1..])
  }

  /** Each category a distinct sequence holds once, and no other. */
  lemma {:induction false} DistinctCount(s: seq<string>, x: string)
    requires Distinct(s)
    ensures multiset(s)[x] == if x in s then 1 else 0
  {
    if s != [] {
      assert s == [s[0]] + s[1..];
      assert Distinct(s[1..]) by {
        forall i, j | 0 <= i < j < |s[1..]| ensures s[1..][i] != s[1..][j] {
          assert s[1..][i] == s[i + 1] && s[1..][j] == s[j + 1];
        }
      }
      DistinctCount(s[1..], x);
      if s[0] == x {
        assert x !in s[1..] by {
          forall k | 0 <= k < |s[1..]| ensures s[1..][k] != x { assert s[1..][k] == s[k + 1]; }
        }
      }
    }
  }

  /** A rearrangement of a distinct sequence is distinct. */
  lemma DistinctPermutation(a: seq<string>, b: seq<string>)
    requires Distinct(a) && multiset(a) == multiset(b)
    ensures Distinct(b)
  {
    forall i, j | 0 <= i < j < |b| ensures b[i] != b[j] {
      if b[i] == b[j] {
        assert b == b[..j] + b[j..];
        assert b[i] in b[..j] && b[j] in b[j..];
        assert multiset(b)[b[i]] == multiset(b[..j])[b[i]] + multiset(b[j..])[b[i]];
        DistinctCount(a, b[i]);
        assert false;
      }
    }
  }

  /** The summary and the export list every category of the list once, in
      ascending order, and under each the features of that category, in
      ascending order, as often as the list holds them. */
  lemma ProjectSpec(list: seq<SelectedFeature>)
    ensures var r := Project(list);
      && Sorted(CategoryList(r))
      && Distinct(CategoryList(r))
      && (forall c :: c in CategoryList(r) <==> c in CategoriesOf(list))
      && (forall i :: 0 <= i < |r| ==> Sorted(r[i].features))
      && (forall i, f :: 0 <= i < |r| ==>
            multiset(r[i].features)[f] == multiset(list)[SelectedFeature(r[i].category, f)])
  {
    ProjectCategories(list);
    ProjectFeatures(list);
  }

  /** The categories of the projection are the grouped keys, sorted. */
  lemma ProjectCategoryList(list: seq<SelectedFeature>)
    ensures CategoryList(Project(list)) == Sort(Group(list).keys)
  {
    var r, categories := Project(list), Sort(Group(list).keys);
    assert forall i :: 0 <= i < |r| ==> r[i].category == categories[i];
  }

  lemma ProjectCategories(list: seq<SelectedFeature>)
    ensures var categories := CategoryList(Project(list));
      && Sorted(categories)
      && Distinct(categories)
      && (forall c :: c in categories <==> c in CategoriesOf(list))
  {
    var g := Group(list);
    var categories := Sort(g.keys);
    ProjectCategoryList(list);
    DistinctPermutation(g.keys, categories);
    GroupedFeatures(list);
    forall c ensures c in categories <==> c in CategoriesOf(list) {
      assert c in categories <==> c in multiset(g.keys);
    }
  }

  lemma ProjectFeatures(list: seq<SelectedFeature>)
    ensures var r := Project(list);
      && (forall i :: 0 <= i < |r| ==> Sorted(r[i].features))
      && (forall i, f :: 0 <= i < |r| ==>
            multiset(r[i].features)[f] == multiset(list)[SelectedFeature(r[i].category, f)])
  {
    var r := Project(list);
    forall i, f | 0 <= i < |r|
      ensures multiset(r[i].features)[f] == multiset(list)[SelectedFeature(r[i].category, f)]
    {
      ProjectGroup(list, i);
      FeaturesInCount(list, r[i].category, f);
    }
  }

  /** Each group holds the sorted features of its category. */
  lemma ProjectGroup(list: seq<SelectedFeature>, i: nat)
    requires i < |Project(list)|
    ensures Project(list)[i].features == Sort(FeaturesIn(list, Project(list)[i].category))
  {
    var g := Group(list);
    var categories := Sort(g.keys);
    GroupedFeatures(list);
    assert categories[i] in multiset(g.keys);
  }

  /** Lists holding the same pairs equally often have the same categories. */
  lemma SameCategories(a: seq<SelectedFeature>, b: seq<SelectedFeature>)
    requires multiset(a) == multiset(b)
    ensures multiset(Group(a).keys) == multiset(Group(b).keys)
  {
    GroupedFeatures(a);
    GroupedFeatures(b);
    assert CategoriesOf(a) == CategoriesOf(b) by {
      forall sf ensures sf in a <==> sf in b { assert sf in a <==> sf in multiset(a); }
    }
    forall x ensures multiset(Group(a).keys)[x] == multiset(Group(b).keys)[x] {
      DistinctCount(Group(a).keys, x);
      DistinctCount(Group(b).keys, x);
    }
  }

  /** ... and the same features under each category, equally often. */
  lemma SameFeatures(a: seq<SelectedFeature>, b: seq<SelectedFeature>, c: string)
    requires multiset(a) == multiset(b)
    requires c in Group(a).lists && c in Group(b).lists
    ensures Sort(Group(a).lists[c]) == Sort(Group(b).lists[c])
  {
    var fa, fb := FeaturesIn(a, c), FeaturesIn(b, c);
    GroupedFeatures(a);
    GroupedFeatures(b);
    assert Group(a).lists[c] == fa && Group(b).lists[c] == fb;
    assert multiset(fa) == multiset(fb) by {
      forall f ensures multiset(fa)[f] == multiset(fb)[f] {
        FeaturesInCount(a, c, f);
        FeaturesInCount(b, c, f);
      }
    }
    SortDependsOnElementsOnly(fa, fb);
  }

  /** The projection depends only on which pairs are selected and how
      often, never on the order in which they were ticked. */
  lemma ProjectOrderIndependent(a: seq<SelectedFeature>, b: seq<SelectedFeature>)
    requires multiset(a) == multiset(b)
    ensures Project(a) == Project(b)
  {
    var ga, gb := Group(a), Group(b);
    SameCategories(a, b);
    SortDependsOnElementsOnly(ga.keys, gb.keys);
    var categories := Sort(ga.keys);
    forall i | 0 <= i < |categories|
      ensures Project(a)[i] == Project(b)[i]
    {
      assert categories[i] in multiset(ga.keys);
      assert categories[i] in multiset(gb.keys);
      SameFeatures(a, b, categories[i]);
    }
  }

  /** No group without the list being non-empty, and none missing when it is. */
  lemma ProjectEmpty(list: seq<SelectedFeature>)
    ensures Project(list) == [] <==> list == []
  {
    if list != [] {
      GroupedFeatures(list);
      assert list[0].category in CategoriesOf(list);
      assert list[0].category in Group(list).keys;
      assert |Sort(Group(list).keys)| == |Group(list).keys| by {
        assert |multiset(Sort(Group(list).keys))| == |multiset(Group(list).keys)|;
      }
    }
  }

  /** What the summary container shows: the empty-state message, or the
      categories with their features. */
  datatype SummaryView = EmptyState | Categories(groups: seq<CategoryGroup>)

  /** `updateSummaryPage`, with its HTML markup abstracted to a view. */
  function SummaryOf(list: seq<SelectedFeature>): (r: SummaryView)
    ensures r.EmptyState? <==> |list| == 0
    ensures r.Categories? ==> |r.groups| > 0
  {
    if |list| == 0 then EmptyState else Categories(Project(list))
  }
}
