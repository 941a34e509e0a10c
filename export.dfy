/** The two Markdown downloads, `downloadMarkdown` and
    `downloadVisitorStats`, as the text they hand to the download, and
    line readers that take each text apart again: reading an export back
    yields the date, the grouped and sorted selection and the notes it was
    made from, so the text carries all of it and nothing else. */
module Export {
  import opened Records
  import opened JsText
  import opened JsNumber
  import opened Summary
  import opened Scan

  const Title := "# Website & App Features Checklist\n\n"
  const DateLabel := "**Date Generated:** "
  const Rule := "---\n\n"
  const NoneSelected := "No features selected.\n\n"
  const SelectedHeading := "## Selected Features\n\n"
  const CategoryLabel := "### "
  const ItemLabel := "- [ ] "
  const NotesHeading := "## Project Notes\n\n"
  const Footer := "_Generated by Feature Checklist App - net1io.com_\n"

  const StatsTitle := "# Visitor Statistics\n\n"
  const CountLabel := "**Total Visitors:** "
  const LocationLabel := "**Visitor Location:** "
  const TimeLabel := "**Visit Time:** "

  predicate OneLine(s: string)
  {
    '\n' !in s
  }

  /** A text that starts with another character does not start with `lit`. */
  lemma ExpectOther(lit: string, s: string)
    requires |lit| > 0 && |s| > 0 && lit[0] != s[0]
    ensures Expect(lit, s).None?
  {
  }

  lemma DigitsOneLine(d: string)
    requires AllDigits(d, 10)
    ensures OneLine(d)
  {
    forall i | 0 <= i < |d| ensures d[i] != '\n' {
      assert IsDigit(d[i], 10);
    }
  }

  // ---------------------------------------------------------------------
  // The checklist

  lemma Closing(front: string, last: string)
    ensures EndsWith(front + last, last)
  {
    assert (front + last)[|front|..] == last;
  }

  lemma PrefixGrows(p: string, a: string, b: string)
    requires p <= a
    ensures p <= a + b
  {
    assert (a + b)[..|p|] == a[..|p|];
  }

  /** A labelled line followed by a blank line. */
  function Field(tag: string, value: string): string
  {
    tag + value + "\n\n"
  }

  /** Everything before the selection: title, date line and rule. */
  function Header(date: string): string
  {
    Title + Field(DateLabel, date) + Rule
  }

  function Item(feature: string): string
  {
    ItemLabel + feature + "\n"
  }

  function Items(features: seq<string>): string
  {
    if features == [] then "" else Item(features[0]) + Items(features[1..])
  }

  /** A category heading, its items and the blank line that closes them. */
  function Block(g: CategoryGroup): string
  {
    Field(CategoryLabel, g.category) + Items(g.features) + "\n"
  }

  function Blocks(groups: seq<CategoryGroup>): string
  {
    if groups == [] then "" else Block(groups[0]) + Blocks(groups[1..])
  }

  /** The empty-list line, or the heading and one block per category. */
  function SelectionSection(list: seq<SelectedFeature>): string
  {
    if |list| == 0 then NoneSelected else SelectedHeading + Blocks(Project(list))
  }

  /** The notes section, written only when `notes.trim()` is not empty. */
  function NotesSection(notes: string): string
  {
    if Trim(notes) != "" then Rule + NotesHeading + notes + "\n\n" else ""
  }

  /** The text `downloadMarkdown` builds; `date` is the locale date string. */
  function Checklist(list: seq<SelectedFeature>, notes: string, date: string): (r: string)
    ensures Header(date) <= r
    ensures EndsWith(r, Footer)
  {
    var h, sel, notesPart := Header(date), SelectionSection(list), NotesSection(notes);
    PrefixGrows(h, h, sel);
    PrefixGrows(h, h + sel, notesPart);
    PrefixGrows(h, h + sel + notesPart, Rule);
    PrefixGrows(h, h + sel + notesPart + Rule, Footer);
    Closing(h + sel + notesPart + Rule, Footer);
    h + sel + notesPart + Rule + Footer
  }

  lemma {:induction false} ItemsAppend(features: seq<string>, feature: string)
    ensures Items(features + [feature]) == Items(features) + Item(feature)
  {
    if features == [] {
      assert features + [feature] == [feature];
    } else {
      assert (features + [feature])[1..] == features[1..] + [feature];
      ItemsAppend(features[1..], feature);
    }
  }

  lemma {:induction false} BlocksAppend(groups: seq<CategoryGroup>, g: CategoryGroup)
    ensures Blocks(groups + [g]) == Blocks(groups) + Block(g)
  {
    if groups == [] {
      assert groups + [g] == [g];
    } else {
      assert (groups + [g])[1..] == groups[1..] + [g];
      BlocksAppend(groups[1..], g);
    }
  }

  /** The export opens with the title, states after the header whether
      anything is selected, and always closes with a rule and the footer. */
  lemma ChecklistFraming(list: seq<SelectedFeature>, notes: string, date: string)
    ensures var md := Checklist(list, notes, date);
      && Title <= md
      && EndsWith(md, Rule + Footer)
      && (list == [] ==> NoneSelected <= md[|Header(date)|..])
      && (list != [] ==> SelectedHeading <= md[|Header(date)|..])
  {
    var h, sel, notesPart := Header(date), SelectionSection(list), NotesSection(notes);
    var md := Checklist(list, notes, date);
    Assoc(h + sel + notesPart, Rule, Footer);
    Assoc(h + sel, notesPart, Rule + Footer);
    Assoc(h, sel, notesPart + (Rule + Footer));
    var body := sel + (notesPart + (Rule + Footer));
    assert md[|h|..] == body;
    Assoc(Title + Field(DateLabel, date), Rule, body);
    Assoc(Title, Field(DateLabel, date), Rule + body);
    if list != [] {
      Assoc(SelectedHeading, Blocks(Project(list)), notesPart + (Rule + Footer));
    }
  }

  // ---------------------------------------------------------------------
  // Reading the checklist back

  /** The text before the first line break, and the text after it. */
  function ReadLine(s: string): (r: Option<(string, string)>)
    ensures r.Some? ==> |r.value.1| < |s|
  {
    if s == [] then None
    else if s[0] == '\n' then Some(([], s[1..]))
    else
      match ReadLine(s[1..])
      case None => None
      case Some((line, rest)) => Some(([s[0]] + line, rest))
  }

  lemma {:induction false} ReadLineOf(line: string, rest: string)
    requires OneLine(line)
    ensures ReadLine(line + "\n" + rest) == Some((line, rest))
  {
    if line != [] {
      assert (line + "\n" + rest)[1..] == line[1..] + "\n" + rest;
      ReadLineOf(line[1..], rest);
      assert [line[0]] + line[1..] == line;
    } else {
      assert line + "\n" + rest == "\n" + rest;
    }
  }

  /** A labelled line and the blank line after it. */
  function ReadField(tag: string, s: string): (r: Option<(string, string)>)
    ensures r.Some? ==> |r.value.1| < |s|
  {
    match Expect(tag, s)
    case None => None
    case Some(t) =>
      match ReadLine(t)
      case None => None
      case Some((value, u)) =>
        match Expect("\n", u)
        case None => None
        case Some(v) => Some((value, v))
  }

  lemma ReadFieldOf(tag: string, value: string, rest: string)
    requires OneLine(value)
    ensures ReadField(tag, Field(tag, value) + rest) == Some((value, rest))
  {
    assert Field(tag, value) + rest == tag + (value + "\n" + ("\n" + rest));
    ExpectLiteral(tag, value + "\n" + ("\n" + rest));
    ReadLineOf(value, "\n" + rest);
    ExpectLiteral("\n", rest);
  }

  /** Item lines up to the blank line that ends a block. */
  function ReadItems(s: string): (r: Option<(seq<string>, string)>)
    ensures r.Some? ==> |r.value.1| < |s|
    decreases |s|
  {
    match Expect("\n", s)
    case Some(t) => Some(([], t))
    case None =>
      match Expect(ItemLabel, s)
      case None => None
      case Some(t) =>
        match ReadLine(t)
        case None => None
        case Some((feature, u)) =>
          match ReadItems(u)
          case None => None
          case Some((features, v)) => Some(([feature] + features, v))
  }

  lemma {:induction false} ReadItemsOf(features: seq<string>, rest: string)
    requires forall f :: f in features ==> OneLine(f)
    ensures ReadItems(Items(features) + "\n" + rest) == Some((features, rest))
  {
    if features == [] {
      assert Items(features) + "\n" + rest == "\n" + rest;
      ExpectLiteral("\n", rest);
    } else {
      var f, more := features[0], Items(features[1..]);
      var tail := more + "\n" + rest;
      Assoc(Item(f), more, "\n");
      Assoc(Item(f), more + "\n", rest);
      Assoc(ItemLabel, f, "\n");
      Assoc(ItemLabel, f + "\n", tail);
      var s := Items(features) + "\n" + rest;
      assert s == ItemLabel + ((f + "\n") + tail);
      ExpectOther("\n", s);
      ExpectLiteral(ItemLabel, f + "\n" + tail);
      ReadLineOf(f, tail);
      assert f in features;
      assert forall g :: g in features[1..] ==> g in features;
      ReadItemsOf(features[1..], rest);
      assert [f] + features[1..] == features;
    }
  }

  /** Category blocks, as long as a category heading follows. */
  function ReadBlocks(s: string): (r: Option<(seq<CategoryGroup>, string)>)
    ensures r.Some? ==> |r.value.1| <= |s|
    decreases |s|
  {
    if Expect(CategoryLabel, s).None? then Some(([], s))
    else
      match ReadBlock(s)
      case None => None
      case Some((g, t)) =>
        match ReadBlocks(t)
        case None => None
        case Some((groups, u)) => Some(([g] + groups, u))
  }

  /** One category heading and the item lines under it. */
  function ReadBlock(s: string): (r: Option<(CategoryGroup, string)>)
    ensures r.Some? ==> |r.value.1| < |s|
  {
    match ReadField(CategoryLabel, s)
    case None => None
    case Some((category, t)) =>
      match ReadItems(t)
      case None => None
      case Some((features, u)) => Some((CategoryGroup(category, features), u))
  }

  lemma ReadBlockOf(g: CategoryGroup, rest: string)
    requires OneLine(g.category) && forall f :: f in g.features ==> OneLine(f)
    ensures ReadBlock(Block(g) + rest) == Some((g, rest))
    ensures Expect(CategoryLabel, Block(g) + rest).Some?
  {
    var heading, items := Field(CategoryLabel, g.category), Items(g.features);
    var tail := items + "\n" + rest;
    Assoc(heading, items, "\n");
    Assoc(heading, items + "\n", rest);
    ReadFieldOf(CategoryLabel, g.category, tail);
    ReadItemsOf(g.features, rest);
  }

  predicate GroupsOneLine(groups: seq<CategoryGroup>)
  {
    forall g :: g in groups ==> OneLine(g.category) && forall f :: f in g.features ==> OneLine(f)
  }

  lemma {:induction false} ReadBlocksOf(groups: seq<CategoryGroup>, rest: string)
    requires GroupsOneLine(groups)
    requires Expect(CategoryLabel, rest).None?
    ensures ReadBlocks(Blocks(groups) + rest) == Some((groups, rest))
  {
    if groups == [] {
      assert Blocks(groups) + rest == rest;
    } else {
      var g := groups[0];
      assert g in groups;
      var after := Blocks(groups[1..]) + rest;
      Assoc(Block(g), Blocks(groups[1..]), rest);
      ReadBlockOf(g, after);
      assert forall h :: h in groups[1..] ==> h in groups;
      ReadBlocksOf(groups[1..], rest);
      assert [g] + groups[1..] == groups;
    }
  }

  /** The empty-list line, or the heading followed by category blocks. */
  function ReadSelection(s: string): Option<(seq<CategoryGroup>, string)>
  {
    match Expect(NoneSelected, s)
    case Some(t) => Some(([], t))
    case None =>
      match Expect(SelectedHeading, s)
      case None => None
      case Some(t) => ReadBlocks(t)
  }

  /** The notes between the notes heading and the closing rule, or the
      empty string when the export has no notes section. */
  function ReadNotes(s: string): Option<string>
  {
    if s == Rule + Footer then Some("")
    else
      match Expect(Rule + NotesHeading, s)
      case None => None
      case Some(t) =>
        var closing := "\n\n" + Rule + Footer;
        if EndsWith(t, closing) then Some(t[..|t| - |closing|]) else None
  }

  /** What a checklist export says: its date, the categories with their
      features, and the notes (empty when the export shows none). */
  datatype ChecklistView = ChecklistView(date: string, groups: seq<CategoryGroup>, notes: string)

  function ReadChecklist(md: string): Option<ChecklistView>
  {
    match Expect(Title, md)
    case None => None
    case Some(s) =>
      match ReadField(DateLabel, s)
      case None => None
      case Some((date, t)) =>
        match Expect(Rule, t)
        case None => None
        case Some(u) =>
          match ReadSelection(u)
          case None => None
          case Some((groups, v)) =>
            match ReadNotes(v)
            case None => None
            case Some(notes) => Some(ChecklistView(date, groups, notes))
  }

  lemma ReadNotesOf(notes: string)
    ensures ReadNotes(NotesSection(notes) + Rule + Footer) == Some(if IsBlank(notes) then "" else notes)
  {
    TrimEmptyIffBlank(notes);
    if Trim(notes) != "" {
      ReadWrittenNotes(notes);
    } else {
      assert NotesSection(notes) + Rule + Footer == Rule + Footer;
    }
  }

  /** A written notes section reads back as the notes. */
  lemma ReadWrittenNotes(notes: string)
    requires Trim(notes) != ""
    ensures ReadNotes(NotesSection(notes) + Rule + Footer) == Some(notes)
  {
    var closing := "\n\n" + Rule + Footer;
    var s := NotesSection(notes) + Rule + Footer;
    Assoc(NotesSection(notes), Rule, Footer);
    Assoc(Rule + NotesHeading + notes, "\n\n", Rule + Footer);
    Assoc("\n\n", Rule, Footer);
    Assoc(Rule + NotesHeading, notes, closing);
    assert s == Rule + NotesHeading + (notes + closing);
    assert |s| != |Rule + Footer|;
    ExpectLiteral(Rule + NotesHeading, notes + closing);
    assert (notes + closing)[..|notes|] == notes;
    assert EndsWith(notes + closing, closing);
  }

  lemma ProjectOneLine(list: seq<SelectedFeature>)
    requires forall sf :: sf in list ==> OneLine(sf.category) && OneLine(sf.feature)
    ensures GroupsOneLine(Project(list))
  {
    var r := Project(list);
    ProjectSpec(list);
    forall g | g in r ensures OneLine(g.category) && forall f :: f in g.features ==> OneLine(f) {
      var i :| 0 <= i < |r| && r[i] == g;
      assert g.category in CategoryList(r);
      var sf :| sf in list && sf.category == g.category;
      forall f | f in g.features ensures OneLine(f) {
        assert multiset(r[i].features)[f] > 0;
        assert SelectedFeature(g.category, f) in list;
      }
    }
  }

  lemma ReadSelectionOf(list: seq<SelectedFeature>, rest: string)
    requires forall sf :: sf in list ==> OneLine(sf.category) && OneLine(sf.feature)
    requires Expect(CategoryLabel, rest).None?
    ensures ReadSelection(SelectionSection(list) + rest) == Some((Project(list), rest))
  {
    ProjectEmpty(list);
    if |list| == 0 {
      ExpectLiteral(NoneSelected, rest);
    } else {
      var s := SelectionSection(list) + rest;
      Assoc(SelectedHeading, Blocks(Project(list)), rest);
      ExpectOther(NoneSelected, s);
      ExpectLiteral(SelectedHeading, Blocks(Project(list)) + rest);
      ProjectOneLine(list);
      ReadBlocksOf(Project(list), rest);
    }
  }

  /** Reading the export back yields its date, the selection grouped by
      category with both levels sorted, and the notes when they are not
      blank: the text loses nothing it is meant to carry. */
  lemma ChecklistReadBack(list: seq<SelectedFeature>, notes: string, date: string)
    requires OneLine(date)
    requires forall sf :: sf in list ==> OneLine(sf.category) && OneLine(sf.feature)
    ensures ReadChecklist(Checklist(list, notes, date)) ==
      Some(ChecklistView(date, Project(list), if IsBlank(notes) then "" else notes))
  {
    var h, sel, notesPart := Header(date), SelectionSection(list), NotesSection(notes);
    var closing := notesPart + Rule + Footer;
    var afterRule := sel + closing;
    Assoc(h + sel + notesPart, Rule, Footer);
    Assoc(h + sel, notesPart, Rule + Footer);
    Assoc(notesPart, Rule, Footer);
    Assoc(h, sel, closing);
    Assoc(Title + Field(DateLabel, date), Rule, afterRule);
    Assoc(Title, Field(DateLabel, date), Rule + afterRule);
    ExpectLiteral(Title, Field(DateLabel, date) + (Rule + afterRule));
    ReadFieldOf(DateLabel, date, Rule + afterRule);
    ExpectLiteral(Rule, afterRule);
    ExpectOther(CategoryLabel, closing);
    ReadSelectionOf(list, closing);
    ReadNotesOf(notes);
  }

  // ---------------------------------------------------------------------
  // The visitor statistics

  /** The text `downloadVisitorStats` builds; the count is written as a
      template literal writes it. */
  function VisitorStats(d: VisitorData): (r: string)
    ensures StatsTitle <= r
    ensures EndsWith(r, Rule + Footer)
  {
    StatsTitle + Field(CountLabel, ToString(d.count)) + Field(LocationLabel, d.location)
      + Field(TimeLabel, d.visitTime) + Rule + Footer
  }

  function ReadVisitorStats(md: string): Option<VisitorData>
  {
    match Expect(StatsTitle, md)
    case None => None
    case Some(s) =>
      match ReadField(CountLabel, s)
      case None => None
      case Some((count, t)) =>
        match ReadField(LocationLabel, t)
        case None => None
        case Some((location, u)) =>
          match ReadField(TimeLabel, u)
          case None => None
          case Some((visitTime, v)) =>
            if v == Rule + Footer then Some(VisitorData(ParseInt(count), location, visitTime)) else None
  }

  /** The statistics text gives back the visit record, its count read
      with `parseInt`; only a null count, written as `null`, reads as NaN. */
  lemma VisitorStatsReadBack(d: VisitorData)
    requires OneLine(d.location) && OneLine(d.visitTime)
    ensures ReadVisitorStats(VisitorStats(d)) == Some(if d.count.Null? then d.(count := NaN) else d)
  {
    var countText := ToString(d.count);
    var countLine, locationLine, timeLine :=
      Field(CountLabel, countText), Field(LocationLabel, d.location), Field(TimeLabel, d.visitTime);
    var tail := timeLine + (Rule + Footer);
    var middle := locationLine + tail;
    Assoc(StatsTitle + countLine + locationLine + timeLine, Rule, Footer);
    Assoc(StatsTitle + countLine + locationLine, timeLine, Rule + Footer);
    Assoc(StatsTitle + countLine, locationLine, tail);
    Assoc(StatsTitle, countLine, middle);
    ExpectLiteral(StatsTitle, Field(CountLabel, countText) + middle);
    CountOneLine(d.count);
    ReadFieldOf(CountLabel, countText, middle);
    ReadFieldOf(LocationLabel, d.location, tail);
    ReadFieldOf(TimeLabel, d.visitTime, Rule + Footer);
    ParseIntOfShown(d.count);
  }

  /** A count is shown on one line. */
  lemma CountOneLine(v: Value)
    ensures OneLine(ToString(v))
  {
    match v
    case Int(n) =>
      DigitsOneLine(Decimal(if n < 0 then -n else n));
    case NaN =>
    case Null =>
  }

  /** A shown count read back with `parseInt`: only null changes, into NaN. */
  lemma ParseIntOfShown(v: Value)
    ensures ParseInt(ToString(v)) == if v.Null? then NaN else v
  {
    if v.Null? {
      TrimStartKeeps("null");
      assert LeadingDigits("null", 10) == [];
    } else {
      ParseIntOfToString(v);
    }
  }
}
