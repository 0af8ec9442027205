/** The playbook-section and checklist documents, their schema validators,
    and the pre-save hook both schemas carry: it derives the slug from the
    title when the title was modified and no slug is set. Mongoose runs the
    schema validators before a schema's own pre-save hooks, so `save()` is
    modelled in that order, beside the order the hook evidently expects. */
module Content {
  import opened Common
  import opened Strings
  import opened Slug

  /** The `lowercase` and `trim` setters of a `slug` path: the lower-cased
      string with only its leading and trailing white space removed. */
  function SlugSetter(s: string): (r: string)
    ensures forall k :: 0 <= k < |r| ==> !('A' <= r[k] <= 'Z')
    ensures Trim(r) == r
  {
    TrimIdempotent(Lower(s));
    TrimKeepsNoUpper(Lower(s));
    Trim(Lower(s))
  }

  /** The setters remove only white space, and only at the two ends of the
      lower-cased string. */
  lemma {:induction false} SlugSetterTrims(s: string)
    ensures exists i :: TrimmedAt(Lower(s), SlugSetter(s), i)
    ensures var r := SlugSetter(s); r == [] || (!IsSpace(r[0]) && !IsSpace(r[|r| - 1]))
  {
    TrimRemovesOnlyEnds(Lower(s));
    assert SlugSetter(s) == Trim(Lower(s));
  }

  /** Trimming a string without upper-case letters leaves none. */
  lemma TrimKeepsNoUpper(s: string)
    requires forall k :: 0 <= k < |s| ==> !('A' <= s[k] <= 'Z')
    ensures forall k :: 0 <= k < |Trim(s)| ==> !('A' <= Trim(s)[k] <= 'Z')
  {
    var i := TrimOffset(s);
  }

  /** A derived slug passes the setters unchanged. */
  lemma DerivedSlugPassesSetter(title: string)
    ensures SlugSetter(Slugify(title)) == Slugify(title)
  {
    SlugIsLower(Slugify(title));
    SlugIsTrimmed(Slugify(title));
  }

  /** The slug after the pre-save hook: when the title was modified and the
      slug is empty, the title's slug; otherwise the slug as it was. */
  function HookedSlug(titleModified: bool, title: string, slug: string): (r: string)
    ensures slug != "" || !titleModified ==> r == slug
    ensures titleModified && slug == "" ==> r == Slugify(title) && IsSlug(r)
  {
    if titleModified && slug == "" then
      DerivedSlugPassesSetter(title);
      SlugSetter(Slugify(title))
    else slug
  }

  /** The string path with `trim`, or `''` when absent (which `required`
      refuses like the empty string). */
  function TrimmedOrEmpty(s: Option<string>): (r: string)
    ensures s.None? ==> r == ""
    ensures s.Some? ==> r == Trim(s.value)
  {
    if s.Some? then Trim(s.value) else ""
  }

  // ---------------------------------------------------------------- sections

  /** A playbook section; `order` is `None` when absent. */
  datatype SectionDoc = SectionDoc(title: string, slug: string, icon: string, order: Option<int>,
                                   content: string, status: string)

  /** `new PlaybookSection(fields)`: the setters and the defaults. */
  function NewSection(title: Option<string>, slug: Option<string>, icon: Option<string>,
                      order: Option<int>, content: Option<string>, status: Option<string>): (d: SectionDoc)
    ensures d.title == TrimmedOrEmpty(title)
    ensures slug.None? ==> d.slug == ""
    ensures slug.Some? ==> d.slug == SlugSetter(slug.value)
    ensures icon.None? ==> d.icon == "FileText"
    ensures icon.Some? ==> d.icon == icon.value
    ensures content.None? ==> d.content == ""
    ensures content.Some? ==> d.content == content.value
    ensures status.None? ==> d.status == "published"
    ensures status.Some? ==> d.status == status.value
    ensures d.order == order
  {
    SectionDoc(TrimmedOrEmpty(title), if slug.Some? then SlugSetter(slug.value) else "",
               Default(icon, "FileText"), order, Default(content, ""), Default(status, "published"))
  }

  /** The section validators: title and slug required, order required and
      within 1..10, status one of the two enum values. */
  predicate SectionValid(d: SectionDoc) {
    && d.title != ""
    && d.slug != ""
    && d.order.Some? && 1 <= d.order.value <= 10
    && (d.status == "published" || d.status == "draft")
  }

  /** A new section validates exactly when title, slug and an order in range
      are given and the status, if given, is an enum value. */
  lemma NewSectionValidates(title: Option<string>, slug: Option<string>, icon: Option<string>,
                            order: Option<int>, content: Option<string>, status: Option<string>)
    ensures SectionValid(NewSection(title, slug, icon, order, content, status)) <==>
      && title.Some? && Trim(title.value) != ""
      && slug.Some? && SlugSetter(slug.value) != ""
      && order.Some? && 1 <= order.value <= 10
      && (status.None? || status.value == "published" || status.value == "draft")
  {
  }

  /** `section.save()` as Mongoose runs it: validators, then the hook, then
      the store. */
  function SaveSection(d: SectionDoc, titleModified: bool, fails: bool): (r: Result<SectionDoc>)
    ensures r.Ok? ==> SectionValid(r.value)
    ensures r.Ok? <==> SectionValid(d) && !fails
    ensures r.Ok? ==> r.value == d.(slug := HookedSlug(titleModified, d.title, d.slug))
  {
    if !SectionValid(d) then Err("validation failed")
    else if fails then Err("save failed")
    else Ok(d.(slug := HookedSlug(titleModified, d.title, d.slug)))
  }

  /** As written the hook never fires: a section that reaches it already has
      a slug, and a section with only a title is refused. */
  lemma SectionHookNeverFires(d: SectionDoc, titleModified: bool, fails: bool)
    ensures SaveSection(d, titleModified, fails).Ok? ==> SaveSection(d, titleModified, fails).value == d
    ensures d.slug == "" ==> SaveSection(d, titleModified, fails).Err?
  {
  }

  /** `save()` with the hook run before the validators, as the hook expects. */
  function SaveSectionHookFirst(d: SectionDoc, titleModified: bool, fails: bool): (r: Result<SectionDoc>)
    ensures r.Ok? ==> SectionValid(r.value)
  {
    var hooked := d.(slug := HookedSlug(titleModified, d.title, d.slug));
    if !SectionValid(hooked) then Err("validation failed")
    else if fails then Err("save failed")
    else Ok(hooked)
  }

  /** With the hook first, a section given a slug saves exactly as before. */
  lemma SectionHookFirstKeepsGivenSlug(d: SectionDoc, titleModified: bool, fails: bool)
    ensures d.slug != "" ==> SaveSectionHookFirst(d, titleModified, fails) == SaveSection(d, titleModified, fails)
  {
  }

  /** With the hook first, a section with a modified title and no slug is
      stored with its title's slug. */
  lemma SectionHookFirstDerivesSlug(d: SectionDoc, titleModified: bool, fails: bool)
    ensures d.slug == "" && titleModified && SaveSectionHookFirst(d, titleModified, fails).Ok? ==>
      SaveSectionHookFirst(d, titleModified, fails).value == d.(slug := Slugify(d.title))
  {
  }

  /** With the hook first, such a section saves exactly when the document with
      its title's slug validates, given that slug is not empty. */
  lemma SectionHookFirstSavesDerived(d: SectionDoc, titleModified: bool, fails: bool)
    ensures d.slug == "" && titleModified && !fails && Slugify(d.title) != "" ==>
      (SaveSectionHookFirst(d, titleModified, fails).Ok? <==> SectionValid(d.(slug := Slugify(d.title))))
  {
  }

  /** A section document being edited; `titleModified` is Mongoose's
      `isModified('title')`. */
  class Section {
    var title: string
    var slug: string
    var icon: string
    var order: Option<int>
    var content: string
    var status: string
    var titleModified: bool

    function Doc(): SectionDoc
      reads this
    {
      SectionDoc(title, slug, icon, order, content, status)
    }

    /** A new document: every given path counts as modified. */
    constructor (title: Option<string>, slug: Option<string>, icon: Option<string>,
                 order: Option<int>, content: Option<string>, status: Option<string>)
      ensures Doc() == NewSection(title, slug, icon, order, content, status)
      ensures titleModified == title.Some?
    {
      var d := NewSection(title, slug, icon, order, content, status);
      this.title := d.title;
      this.slug := d.slug;
      this.icon := d.icon;
      this.order := d.order;
      this.content := d.content;
      this.status := d.status;
      this.titleModified := title.Some?;
    }

    /** The pre-save hook: assigns the slug only when the title was
        modified and no slug is set; every other path is untouched. */
    method PreSave()
      modifies this
      ensures Doc() == old(Doc()).(slug := HookedSlug(old(titleModified), old(title), old(slug)))
      ensures titleModified == old(titleModified)
      ensures old(slug) != "" ==> slug == old(slug)
    {
      if titleModified && slug == "" {
        slug := SlugSetter(Slugify(title));
      }
    }

    /** `save()` as Mongoose runs it. The document is never changed: the
        validators refuse an empty slug before the hook could fill it. */
    method Save(fails: bool) returns (r: Result<SectionDoc>)
      modifies this
      ensures r == SaveSection(old(Doc()), old(titleModified), fails)
      ensures Doc() == old(Doc())
    {
      if !SectionValid(Doc()) {
        return Err("validation failed");
      }
      PreSave();
      if fails {
        return Err("save failed");
      }
      return Ok(Doc());
    }

    /** `save()` with the hook before the validators. */
    method SaveHookFirst(fails: bool) returns (r: Result<SectionDoc>)
      modifies this
      ensures r == SaveSectionHookFirst(old(Doc()), old(titleModified), fails)
      ensures Doc() == old(Doc()).(slug := HookedSlug(old(titleModified), old(title), old(slug)))
    {
      PreSave();
      if !SectionValid(Doc()) {
        return Err("validation failed");
      }
      if fails {
        return Err("save failed");
      }
      return Ok(Doc());
    }
  }

  // -------------------------------------------------------------- checklists

  datatype ChecklistItem = ChecklistItem(text: string, order: int)

  /** An item as the request gives it; `None` is an absent field. */
  datatype ItemInput = ItemInput(text: Option<string>, order: Option<int>)

  /** The item sub-document: `text` trimmed, `order` defaulting to 0. */
  function NewItem(input: ItemInput): (item: ChecklistItem)
    ensures item.text == TrimmedOrEmpty(input.text)
    ensures input.order.None? ==> item.order == 0
    ensures input.order.Some? ==> item.order == input.order.value
  {
    ChecklistItem(TrimmedOrEmpty(input.text), Default(input.order, 0))
  }

  function NewItems(inputs: seq<ItemInput>): (items: seq<ChecklistItem>)
    ensures |items| == |inputs|
    ensures forall k :: 0 <= k < |inputs| ==> items[k] == NewItem(inputs[k])
  {
    if inputs == [] then [] else [NewItem(inputs[0])] + NewItems(inputs[1..])
  }

  datatype ChecklistDoc = ChecklistDoc(title: string, slug: string, items: seq<ChecklistItem>, order: int)

  /** `new Checklist(fields)`: the setters and the defaults. */
  function NewChecklist(title: Option<string>, slug: Option<string>, items: seq<ItemInput>,
                        order: Option<int>): (d: ChecklistDoc)
    ensures d.title == TrimmedOrEmpty(title)
    ensures slug.None? ==> d.slug == ""
    ensures slug.Some? ==> d.slug == SlugSetter(slug.value)
    ensures |d.items| == |items| && forall k :: 0 <= k < |items| ==> d.items[k] == NewItem(items[k])
    ensures order.None? ==> d.order == 0
    ensures order.Some? ==> d.order == order.value
  {
    ChecklistDoc(TrimmedOrEmpty(title), if slug.Some? then SlugSetter(slug.value) else "",
                 NewItems(items), Default(order, 0))
  }

  /** The checklist validators: title and slug required, and every item's
      text required. */
  predicate ChecklistValid(d: ChecklistDoc) {
    && d.title != ""
    && d.slug != ""
    && forall k :: 0 <= k < |d.items| ==> d.items[k].text != ""
  }

  /** Every item input carries a text that is not blank. */
  predicate TextsGiven(inputs: seq<ItemInput>) {
    forall k :: 0 <= k < |inputs| ==> inputs[k].text.Some? && Trim(inputs[k].text.value) != ""
  }

  /** A new checklist validates exactly when title and slug are given and no
      item's text is absent or blank. */
  lemma NewChecklistValidates(title: Option<string>, slug: Option<string>, items: seq<ItemInput>,
                              order: Option<int>)
    ensures ChecklistValid(NewChecklist(title, slug, items, order)) <==>
      && title.Some? && Trim(title.value) != ""
      && slug.Some? && SlugSetter(slug.value) != ""
      && TextsGiven(items)
  {
    var d := NewChecklist(title, slug, items, order);
    ItemsFilledExactly(items, d.items);
  }

  /** Item by item, a created text is non-empty exactly when the input text
      is present and not blank. */
  lemma ItemsFilledExactly(inputs: seq<ItemInput>, items: seq<ChecklistItem>)
    requires |items| == |inputs| && forall k :: 0 <= k < |inputs| ==> items[k] == NewItem(inputs[k])
    ensures (forall k :: 0 <= k < |items| ==> items[k].text != "") <==> TextsGiven(inputs)
  {
    forall k | 0 <= k < |inputs|
      ensures items[k].text != "" <==> inputs[k].text.Some? && Trim(inputs[k].text.value) != ""
    {
      assert items[k].text == TrimmedOrEmpty(inputs[k].text);
    }
  }

  /** `checklist.save()` as Mongoose runs it. */
  function SaveChecklist(d: ChecklistDoc, titleModified: bool, fails: bool): (r: Result<ChecklistDoc>)
    ensures r.Ok? ==> ChecklistValid(r.value)
    ensures r.Ok? <==> ChecklistValid(d) && !fails
    ensures r.Ok? ==> r.value == d.(slug := HookedSlug(titleModified, d.title, d.slug))
  {
    if !ChecklistValid(d) then Err("validation failed")
    else if fails then Err("save failed")
    else Ok(d.(slug := HookedSlug(titleModified, d.title, d.slug)))
  }

  /** As written the checklist hook never fires either. */
  lemma ChecklistHookNeverFires(d: ChecklistDoc, titleModified: bool, fails: bool)
    ensures SaveChecklist(d, titleModified, fails).Ok? ==> SaveChecklist(d, titleModified, fails).value == d
    ensures d.slug == "" ==> SaveChecklist(d, titleModified, fails).Err?
  {
  }

  /** `save()` with the hook run before the validators. */
  function SaveChecklistHookFirst(d: ChecklistDoc, titleModified: bool, fails: bool): (r: Result<ChecklistDoc>)
    ensures r.Ok? ==> ChecklistValid(r.value)
  {
    var hooked := d.(slug := HookedSlug(titleModified, d.title, d.slug));
    if !ChecklistValid(hooked) then Err("validation failed")
    else if fails then Err("save failed")
    else Ok(hooked)
  }

  /** With the hook first, a checklist given a slug saves exactly as before. */
  lemma ChecklistHookFirstKeepsGivenSlug(d: ChecklistDoc, titleModified: bool, fails: bool)
    ensures d.slug != "" ==> SaveChecklistHookFirst(d, titleModified, fails) == SaveChecklist(d, titleModified, fails)
  {
  }

  /** With the hook first, a checklist with a modified title and no slug is
      stored with its title's slug. */
  lemma ChecklistHookFirstDerivesSlug(d: ChecklistDoc, titleModified: bool, fails: bool)
    ensures d.slug == "" && titleModified && SaveChecklistHookFirst(d, titleModified, fails).Ok? ==>
      SaveChecklistHookFirst(d, titleModified, fails).value == d.(slug := Slugify(d.title))
  {
  }

  /** With the hook first, such a checklist saves exactly when the document with
      its title's slug validates, given that slug is not empty. */
  lemma ChecklistHookFirstSavesDerived(d: ChecklistDoc, titleModified: bool, fails: bool)
    ensures d.slug == "" && titleModified && !fails && Slugify(d.title) != "" ==>
      (SaveChecklistHookFirst(d, titleModified, fails).Ok? <==> ChecklistValid(d.(slug := Slugify(d.title))))
  {
  }

  /** A checklist document being edited. */
  class Checklist {
    var title: string
    var slug: string
    var items: seq<ChecklistItem>
    var order: int
    var titleModified: bool

    function Doc(): ChecklistDoc
      reads this
    {
      ChecklistDoc(title, slug, items, order)
    }

    constructor (title: Option<string>, slug: Option<string>, items: seq<ItemInput>, order: Option<int>)
      ensures Doc() == NewChecklist(title, slug, items, order)
      ensures titleModified == title.Some?
    {
      var d := NewChecklist(title, slug, items, order);
      this.title := d.title;
      this.slug := d.slug;
      this.items := d.items;
      this.order := d.order;
      this.titleModified := title.Some?;
    }

    /** The pre-save hook, as on sections. */
    method PreSave()
      modifies this
      ensures Doc() == old(Doc()).(slug := HookedSlug(old(titleModified), old(title), old(slug)))
      ensures titleModified == old(titleModified)
      ensures old(slug) != "" ==> slug == old(slug)
    {
      if titleModified && slug == "" {
        slug := SlugSetter(Slugify(title));
      }
    }

    /** `save()` as Mongoose runs it; the document is never changed. */
    method Save(fails: bool) returns (r: Result<ChecklistDoc>)
      modifies this
      ensures r == SaveChecklist(old(Doc()), old(titleModified), fails)
      ensures Doc() == old(Doc())
    {
      if !ChecklistValid(Doc()) {
        return Err("validation failed");
      }
      PreSave();
      if fails {
        return Err("save failed");
      }
      return Ok(Doc());
    }

    /** `save()` with the hook before the validators. */
    method SaveHookFirst(fails: bool) returns (r: Result<ChecklistDoc>)
      modifies this
      ensures r == SaveChecklistHookFirst(old(Doc()), old(titleModified), fails)
      ensures Doc() == old(Doc()).(slug := HookedSlug(old(titleModified), old(title), old(slug)))
    {
      PreSave();
      if !ChecklistValid(Doc()) {
        return Err("validation failed");
      }
      if fails {
        return Err("save failed");
      }
      return Ok(Doc());
    }
  }

  /** POST /checklists: the slug is derived from the title in the route, the
      items default to none and the order to `order || 0`; a missing title
      throws (500), and so does a document the validators refuse. */
  function CreateChecklist(title: Option<string>, items: Option<seq<ItemInput>>, order: Option<int>,
                           fails: bool): (r: Result<ChecklistDoc>)
    ensures title.None? ==> r.Err?
    ensures r.Ok? ==>
      && title.Some? && r.value.title == Trim(title.value)
      && r.value.slug == Slugify(title.value) && IsSlug(r.value.slug) && r.value.slug != ""
      && (items.None? ==> r.value.items == [])
      && (items.Some? ==> r.value.items == NewItems(items.value))
      && r.value.order == OrZero(order)
    ensures title.Some? && Slugify(title.value) == "" ==> r.Err?
    // saved exactly when the title is not blank, its slug is not empty, every
    // item has a non-blank text, and the store does not fail
    ensures r.Ok? <==>
      && title.Some? && Trim(title.value) != "" && Slugify(title.value) != ""
      && (items.Some? ==> TextsGiven(items.value))
      && !fails
  {
    if title.None? then Err("Failed to create checklist")
    else
      var slug := Slugify(title.value);
      var d := NewChecklist(title, Some(slug), Default(items, []), Some(OrZero(order)));
      DerivedSlugPassesSetter(title.value);
      NewChecklistValidates(title, Some(slug), Default(items, []), Some(OrZero(order)));
      var saved := SaveChecklist(d, true, fails);
      if saved.Ok? then saved else Err("Failed to create checklist")
  }
}
