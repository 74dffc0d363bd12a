/** Resume templates and their sections (templates/serializers.py,
    templates/views.py): creating and updating a template together with
    its sections, and the filters of the template and section listings.
    The sections of every template live in one listing, as the database
    table holds them. */
module Templates {
  import opened Collections
  import opened Text

  /** A template.  `category` is `None` once its category is deleted. */
  datatype Template = Template(
    id: nat, name: string, description: string, category: Option<nat>, thumbnail: string,
    htmlStructure: string, cssStyles: string, isPremium: bool, isActive: bool)

  /** The fields of a stored section. */
  datatype SectionData = SectionData(name: string, htmlId: string, order: nat, isRequired: bool)

  /** The fields of a section as a request supplies them; `order` and
      `isRequired` may be omitted. */
  datatype SectionInput = SectionInput(name: string, htmlId: string, order: Option<nat>, isRequired: Option<bool>)

  /** The stored fields of a supplied section: an omitted `order` is 0 and
      an omitted `isRequired` is false, the model defaults. */
  function SectionFields(d: SectionInput): (r: SectionData)
    ensures r.name == d.name && r.htmlId == d.htmlId
    ensures r.order == (if d.order.Some? then d.order.value else 0)
    ensures r.isRequired == (if d.isRequired.Some? then d.isRequired.value else false)
  {
    SectionData(d.name, d.htmlId, OrElse(d.order, 0), OrElse(d.isRequired, false))
  }

  /** A stored section: its key and the template it belongs to. */
  datatype Section = Section(id: nat, template: nat, data: SectionData)

  /** The sections of template `t`, in listing order. */
  function SectionsOf(all: seq<Section>, t: nat): (r: seq<Section>)
    ensures forall s | s in r :: s in all && s.template == t
    ensures forall s | s in all && s.template == t :: s in r
  {
    Filter(all, (s: Section) => s.template == t)
  }

  /** The sections of every template other than `t`, in listing order. */
  function OtherSections(all: seq<Section>, t: nat): (r: seq<Section>)
    ensures forall s | s in r :: s in all && s.template != t
    ensures forall s | s in all && s.template != t :: s in r
  {
    Filter(all, (s: Section) => s.template != t)
  }

  /** The sections created for template `t` from `data`, one per entry and
      in the same order; the database hands out the keys `nextId`,
      `nextId + 1`, and so on. */
  function NewSections(t: nat, data: seq<SectionInput>, nextId: nat): (r: seq<Section>)
    ensures |r| == |data|
    ensures forall i :: 0 <= i < |r| ==> r[i] == Section(nextId + i, t, SectionFields(data[i]))
    decreases |data|
  {
    if |data| == 0 then []
    else [Section(nextId, t, SectionFields(data[0]))] + NewSections(t, data[1..], nextId + 1)
  }

  // ----- listing order -------------------------------------------------

  /** Sections list by ascending `order` (`Meta.ordering = ['order']`). */
  predicate SortedByOrder(s: seq<Section>)
  {
    forall i, j :: 0 <= i < j < |s| ==> s[i].data.order <= s[j].data.order
  }

  /** Ascending `order`, and rows with equal `order` in key order. */
  predicate OrderRanked(s: seq<Section>)
  {
    forall i, j :: 0 <= i < j < |s| ==>
      s[i].data.order < s[j].data.order || (s[i].data.order == s[j].data.order && s[i].id < s[j].id)
  }

  /** Keys increase along the sequence, as they do in a table listed by
      key. */
  predicate KeysIncreasing(s: seq<Section>)
  {
    forall i, j :: 0 <= i < j < |s| ==> s[i].id < s[j].id
  }

  /** Inserts `x` before the first section whose `order` is not smaller. */
  function InsertByOrder(x: Section, s: seq<Section>): (r: seq<Section>)
    ensures |r| == |s| + 1
    ensures forall y :: y in r <==> y == x || y in s
    decreases |s|
  {
    if |s| == 0 || x.data.order <= s[0].data.order then [x] + s
    else [s[0]] + InsertByOrder(x, s[1..])
  }

  /** The listing order of `s`: a stable sort by `order`, so sections with
      equal `order` keep their relative order in `s`. */
  function SortByOrder(s: seq<Section>): (r: seq<Section>)
    ensures |r| == |s|
    ensures forall y :: y in r <==> y in s
    decreases |s|
  {
    if |s| == 0 then [] else InsertByOrder(s[0], SortByOrder(s[1..]))
  }

  lemma {:induction false} InsertSorted(x: Section, s: seq<Section>)
    requires SortedByOrder(s)
    ensures SortedByOrder(InsertByOrder(x, s))
    decreases |s|
  {
    if |s| > 0 && x.data.order > s[0].data.order {
      InsertSorted(x, s[1..]);
      var rest := InsertByOrder(x, s[1..]);
      var r := InsertByOrder(x, s);
      assert r == [s[0]] + rest;
      forall i, j | 0 <= i < j < |r|
        ensures r[i].data.order <= r[j].data.order
      {
        if i > 0 {
          assert r[i] == rest[i - 1] && r[j] == rest[j - 1];
        } else if r[j] != x {
          assert r[j] in rest;
          var m :| 0 <= m < |s[1..]| && s[1..][m] == r[j];
          assert s[m + 1] == r[j];
        }
      }
    }
  }

  /** The listing is sorted by `order`. */
  lemma {:induction false} SortSorted(s: seq<Section>)
    ensures SortedByOrder(SortByOrder(s))
    decreases |s|
  {
    if |s| > 0 {
      SortSorted(s[1..]);
      InsertSorted(s[0], SortByOrder(s[1..]));
    }
  }

  lemma {:induction false} InsertRanked(x: Section, s: seq<Section>)
    requires OrderRanked(s)
    requires forall k :: 0 <= k < |s| ==> x.id < s[k].id
    ensures OrderRanked(InsertByOrder(x, s))
    decreases |s|
  {
    if |s| > 0 && x.data.order > s[0].data.order {
      InsertRanked(x, s[1..]);
      var rest := InsertByOrder(x, s[1..]);
      var r := InsertByOrder(x, s);
      assert r == [s[0]] + rest;
      forall i, j | 0 <= i < j < |r|
        ensures r[i].data.order < r[j].data.order
                || (r[i].data.order == r[j].data.order && r[i].id < r[j].id)
      {
        if i > 0 {
          assert r[i] == rest[i - 1] && r[j] == rest[j - 1];
        } else if r[j] != x {
          assert r[j] in rest;
          var m :| 0 <= m < |s[1..]| && s[1..][m] == r[j];
          assert s[m + 1] == r[j];
        }
      }
    }
  }

  /** Sorting sections listed in key order gives ascending `order`, with
      equal orders in key order. */
  lemma {:induction false} SortRanked(s: seq<Section>)
    requires KeysIncreasing(s)
    ensures OrderRanked(SortByOrder(s))
    decreases |s|
  {
    if |s| > 0 {
      var sorted := SortByOrder(s[1..]);
      SortRanked(s[1..]);
      forall k | 0 <= k < |sorted|
        ensures s[0].id < sorted[k].id
      {
        assert sorted[k] in s[1..];
        var m :| 0 <= m < |s[1..]| && s[1..][m] == sorted[k];
        assert s[m + 1] == sorted[k];
      }
      InsertRanked(s[0], sorted);
    }
  }

  lemma {:induction false} InsertPermutes(x: Section, s: seq<Section>)
    ensures multiset(InsertByOrder(x, s)) == multiset(s) + multiset{x}
    decreases |s|
  {
    if |s| > 0 && x.data.order > s[0].data.order {
      InsertPermutes(x, s[1..]);
      assert s == [s[0]] + s[1..];
    }
  }

  /** The listing holds every section exactly as often as `s` does. */
  lemma {:induction false} SortPermutes(s: seq<Section>)
    ensures multiset(SortByOrder(s)) == multiset(s)
    decreases |s|
  {
    if |s| > 0 {
      SortPermutes(s[1..]);
      InsertPermutes(s[0], SortByOrder(s[1..]));
      assert s == [s[0]] + s[1..];
    }
  }

  /** The listing of sections created from `data`: the supplied sections,
      sorted by `order`, with equal orders in the supplied order. */
  lemma ListedNewSections(t: nat, data: seq<SectionInput>, nextId: nat)
    ensures var added := NewSections(t, data, nextId);
            multiset(SortByOrder(added)) == multiset(added) && OrderRanked(SortByOrder(added))
  {
    var added := NewSections(t, data, nextId);
    SortPermutes(added);
    SortRanked(added);
  }

  /** What a create request carries; absent optional fields take the model
      defaults (empty description, thumbnail and styles, no category, not
      premium, active), absent sections mean none. */
  datatype TemplateInput = TemplateInput(
    name: string, description: Option<string>, category: Option<nat>, thumbnail: Option<string>,
    htmlStructure: string, cssStyles: Option<string>, isPremium: Option<bool>, isActive: Option<bool>,
    sections: Option<seq<SectionInput>>)

  /** A template together with the whole section listing after a write. */
  datatype Saved = Saved(template: Template, sections: seq<Section>)

  function OrElse<T>(o: Option<T>, default: T): (r: T)
    ensures o.Some? ==> r == o.value
    ensures o.None? ==> r == default
  {
    if o.Some? then o.value else default
  }

  /** `TemplateCreateUpdateSerializer.create`: the template with key `id`,
      and one new section per supplied entry, in order, appended to the
      listing. */
  function CreateTemplate(input: TemplateInput, id: nat, all: seq<Section>, nextId: nat): (r: Saved)
    ensures r.template == Template(id, input.name, OrElse(input.description, ""), input.category,
                                   OrElse(input.thumbnail, ""), input.htmlStructure, OrElse(input.cssStyles, ""),
                                   OrElse(input.isPremium, false), OrElse(input.isActive, true))
    ensures r.sections == all + NewSections(id, OrElse(input.sections, []), nextId)
  {
    Saved(Template(id, input.name, OrElse(input.description, ""), input.category,
                   OrElse(input.thumbnail, ""), input.htmlStructure, OrElse(input.cssStyles, ""),
                   OrElse(input.isPremium, false), OrElse(input.isActive, true)),
          all + NewSections(id, OrElse(input.sections, []), nextId))
  }

  /** The fields an update request may carry; absent ones are kept. */
  datatype TemplateChanges = TemplateChanges(
    name: Option<string>, description: Option<string>, category: Option<Option<nat>>, thumbnail: Option<string>,
    htmlStructure: Option<string>, cssStyles: Option<string>, isPremium: Option<bool>, isActive: Option<bool>,
    sections: Option<seq<SectionInput>>)

  /** The template with every supplied field written. */
  function ApplyFields(t: Template, c: TemplateChanges): (r: Template)
    ensures r.id == t.id
    ensures c == TemplateChanges(None, None, None, None, None, None, None, None, c.sections) ==> r == t
  {
    t.(name := OrElse(c.name, t.name), description := OrElse(c.description, t.description),
       category := OrElse(c.category, t.category), thumbnail := OrElse(c.thumbnail, t.thumbnail),
       htmlStructure := OrElse(c.htmlStructure, t.htmlStructure), cssStyles := OrElse(c.cssStyles, t.cssStyles),
       isPremium := OrElse(c.isPremium, t.isPremium), isActive := OrElse(c.isActive, t.isActive))
  }

  /** `TemplateCreateUpdateSerializer.update`: the supplied fields are
      written; a non-empty section list deletes the template's sections and
      appends the new ones, while an empty or absent list leaves the listing
      as it was. */
  function UpdateTemplate(t: Template, changes: TemplateChanges, all: seq<Section>, nextId: nat): (r: Saved)
    ensures r.template == ApplyFields(t, changes)
    ensures changes.sections.None? || |changes.sections.value| == 0 ==> r.sections == all
    ensures changes.sections.Some? && |changes.sections.value| > 0 ==>
              r.sections == OtherSections(all, t.id) + NewSections(t.id, changes.sections.value, nextId)
  {
    var data := OrElse(changes.sections, []);
    if |data| > 0 then Saved(ApplyFields(t, changes), OtherSections(all, t.id) + NewSections(t.id, data, nextId))
    else Saved(ApplyFields(t, changes), all)
  }

  /** Every field of the updated template is the supplied value, or the old
      one when none is supplied. */
  lemma UpdateWritesSuppliedFields(t: Template, c: TemplateChanges, all: seq<Section>, nextId: nat)
    ensures var u := UpdateTemplate(t, c, all, nextId).template;
            && u.id == t.id
            && (c.name.Some? ==> u.name == c.name.value) && (c.name.None? ==> u.name == t.name)
            && (c.description.Some? ==> u.description == c.description.value)
            && (c.description.None? ==> u.description == t.description)
            && (c.category.Some? ==> u.category == c.category.value) && (c.category.None? ==> u.category == t.category)
            && (c.thumbnail.Some? ==> u.thumbnail == c.thumbnail.value)
            && (c.thumbnail.None? ==> u.thumbnail == t.thumbnail)
            && (c.htmlStructure.Some? ==> u.htmlStructure == c.htmlStructure.value)
            && (c.htmlStructure.None? ==> u.htmlStructure == t.htmlStructure)
            && (c.cssStyles.Some? ==> u.cssStyles == c.cssStyles.value)
            && (c.cssStyles.None? ==> u.cssStyles == t.cssStyles)
            && (c.isPremium.Some? ==> u.isPremium == c.isPremium.value)
            && (c.isPremium.None? ==> u.isPremium == t.isPremium)
            && (c.isActive.Some? ==> u.isActive == c.isActive.value) && (c.isActive.None? ==> u.isActive == t.isActive)
  {
  }

  /** Sections built for `t` all belong to `t`. */
  lemma {:induction false} NewSectionsBelong(t: nat, data: seq<SectionInput>, nextId: nat)
    ensures SectionsOf(NewSections(t, data, nextId), t) == NewSections(t, data, nextId)
    ensures OtherSections(NewSections(t, data, nextId), t) == []
  {
    var added := NewSections(t, data, nextId);
    assert forall s :: s in added ==> s.template == t;
    FilterAll(added, (s: Section) => s.template == t);
    FilterNone(added, (s: Section) => s.template != t);
  }

  /** After a replacing update, the template's stored sections are exactly
      the supplied ones, listed sorted by `order` (equal orders in the
      supplied order), and every other template's sections are as they
      were. */
  lemma {:induction false} ReplaceSections(t: Template, c: TemplateChanges, all: seq<Section>, nextId: nat)
    requires c.sections.Some? && |c.sections.value| > 0
    ensures var r := UpdateTemplate(t, c, all, nextId).sections;
            && SectionsOf(r, t.id) == NewSections(t.id, c.sections.value, nextId)
            && OtherSections(r, t.id) == OtherSections(all, t.id)
    ensures var listed := ListSections(UpdateTemplate(t, c, all, nextId).sections, Some(t.id));
            && multiset(listed) == multiset(NewSections(t.id, c.sections.value, nextId))
            && OrderRanked(listed)
  {
    ListedNewSections(t.id, c.sections.value, nextId);
    var others := OtherSections(all, t.id);
    var added := NewSections(t.id, c.sections.value, nextId);
    FilterAppend(others, added, (s: Section) => s.template == t.id);
    FilterAppend(others, added, (s: Section) => s.template != t.id);
    FilterNone(others, (s: Section) => s.template == t.id);
    FilterAll(others, (s: Section) => s.template != t.id);
    NewSectionsBelong(t.id, c.sections.value, nextId);
  }

  /** A new template whose key no stored section uses gets exactly the
      supplied sections, listed sorted by `order` (equal orders in the
      supplied order), and the other sections stay as they were. */
  lemma {:induction false} CreateSectionsExact(input: TemplateInput, id: nat, all: seq<Section>, nextId: nat)
    requires forall s :: s in all ==> s.template != id
    ensures var r := CreateTemplate(input, id, all, nextId).sections;
            && SectionsOf(r, id) == NewSections(id, OrElse(input.sections, []), nextId)
            && OtherSections(r, id) == all
    ensures var listed := ListSections(CreateTemplate(input, id, all, nextId).sections, Some(id));
            && multiset(listed) == multiset(NewSections(id, OrElse(input.sections, []), nextId))
            && OrderRanked(listed)
  {
    ListedNewSections(id, OrElse(input.sections, []), nextId);
    var added := NewSections(id, OrElse(input.sections, []), nextId);
    FilterAppend(all, added, (s: Section) => s.template == id);
    FilterAppend(all, added, (s: Section) => s.template != id);
    FilterNone(all, (s: Section) => s.template == id);
    FilterAll(all, (s: Section) => s.template != id);
    NewSectionsBelong(id, OrElse(input.sections, []), nextId);
  }

  /** The `is_premium` query parameter reads as true exactly when it is
      "true" in any letter case. */
  predicate ReadsTrue(param: string)
  {
    LowerStr(param) == "true"
  }

  /** Whether a template is listed for the given query parameters: it is
      active, it has the requested category if one is requested, and its
      premium flag matches the `is_premium` parameter if one is given.
      `category` is `None` for an absent or empty parameter. */
  predicate Listed(t: Template, category: Option<nat>, premium: Option<string>)
  {
    && t.isActive
    && (category.Some? ==> t.category == category)
    && (premium.Some? ==> t.isPremium == ReadsTrue(premium.value))
  }

  /** `TemplateViewSet.get_queryset`: the active templates, narrowed by the
      category parameter when it is non-empty and by the premium parameter
      when it is present, in listing order. */
  function ListTemplates(ts: seq<Template>, category: Option<nat>, premium: Option<string>): (r: seq<Template>)
    ensures IsSubseq(r, ts)
    ensures forall t | t in r :: t in ts && Listed(t, category, premium)
    ensures forall t | t in ts && Listed(t, category, premium) :: t in r
  {
    var isActive := (t: Template) => t.isActive;
    var inCategory := (t: Template) => t.category == category;
    var premiumMatches := (t: Template) => premium.Some? && t.isPremium == ReadsTrue(premium.value);
    var active := Filter(ts, isActive);
    var byCategory := if category.Some? then Filter(active, inCategory) else active;
    var byPremium := if premium.Some? then Filter(byCategory, premiumMatches) else byCategory;
    assert IsSubseq(byPremium, ts) by {
      FilterSubseq(ts, isActive);
      if category.Some? {
        FilterSubseq(active, inCategory);
      } else {
        SubseqRefl(active);
      }
      if premium.Some? {
        FilterSubseq(byCategory, premiumMatches);
      } else {
        SubseqRefl(byCategory);
      }
      SubseqTrans(byCategory, active, ts);
      SubseqTrans(byPremium, byCategory, ts);
    }
    byPremium
  }

  /** The `is_premium` parameter reads as true exactly when it is four
      letters, each the lower- or upper-case letter of "true"; the listed
      templates are the premium ones then and the others for any other
      value. */
  lemma PremiumParameter(ts: seq<Template>, category: Option<nat>, p: string)
    ensures ReadsTrue(p) <==> |p| == 4 && forall i :: 0 <= i < 4 ==> p[i] == "true"[i] || p[i] == "TRUE"[i]
    ensures forall t | t in ListTemplates(ts, category, Some(p)) :: t.isPremium == ReadsTrue(p)
  {
    if ReadsTrue(p) {
      forall i | 0 <= i < 4
        ensures p[i] == "true"[i] || p[i] == "TRUE"[i]
      {
        assert Lower(p[i]) == LowerStr(p)[i] == "true"[i];
      }
    }
    if |p| == 4 && forall i :: 0 <= i < 4 ==> p[i] == "true"[i] || p[i] == "TRUE"[i] {
      forall i | 0 <= i < 4
        ensures LowerStr(p)[i] == "true"[i]
      {
        assert LowerStr(p)[i] == Lower(p[i]);
      }
      assert LowerStr(p) == "true";
    }
  }

  /** Spellings seen in requests: "TRUE" and "True" select premium
      templates, "1" and "yes" the others. */
  lemma PremiumSpellings(ts: seq<Template>, category: Option<nat>)
    ensures forall t | t in ListTemplates(ts, category, Some("TRUE")) :: t.isPremium
    ensures forall t | t in ListTemplates(ts, category, Some("True")) :: t.isPremium
    ensures forall t | t in ListTemplates(ts, category, Some("1")) :: !t.isPremium
    ensures forall t | t in ListTemplates(ts, category, Some("yes")) :: !t.isPremium
  {
    PremiumParameter(ts, category, "TRUE");
    PremiumParameter(ts, category, "True");
    PremiumParameter(ts, category, "1");
    PremiumParameter(ts, category, "yes");
  }

  /** `TemplateSectionViewSet.get_queryset`: every section, or only those of
      the requested template when the parameter is non-empty (`None` for an
      absent or empty parameter), listed by ascending `order`. */
  function ListSections(all: seq<Section>, template: Option<nat>): (r: seq<Section>)
    ensures forall s | s in r :: s in all && (template.Some? ==> s.template == template.value)
    ensures forall s | s in all && (template.Some? ==> s.template == template.value) :: s in r
    ensures template.None? ==> multiset(r) == multiset(all)
    ensures template.Some? ==> multiset(r) == multiset(SectionsOf(all, template.value))
    ensures SortedByOrder(r)
  {
    var chosen := if template.Some? then SectionsOf(all, template.value) else all;
    SortSorted(chosen);
    SortPermutes(chosen);
    SortByOrder(chosen)
  }

  /** The `sections` action of `TemplateViewSet`: the template is looked up
      among the templates its listing shows for the request's `category` and
      `is_premium` parameters, so an inactive or filtered-out template
      answers 404 (`None`); a listed one gets its sections, sorted by
      `order`, exactly as the section listing for that template. */
  function SectionsAction(ts: seq<Template>, all: seq<Section>, id: nat,
                          category: Option<nat>, premium: Option<string>): (r: Option<seq<Section>>)
    ensures r.Some? <==> exists t :: t in ts && t.id == id && Listed(t, category, premium)
    ensures r.Some? ==> multiset(r.value) == multiset(SectionsOf(all, id)) && SortedByOrder(r.value)
    ensures r.Some? ==> r.value == ListSections(all, Some(id))
  {
    if exists t | t in ListTemplates(ts, category, premium) :: t.id == id then
      Some(ListSections(all, Some(id)))
    else None
  }
}
