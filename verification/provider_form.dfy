/** The admin provider form (POST /providers): the multipart fields are
    strings, the category list arrives as JSON text, `bestFor` as a
    comma-separated list, and the legacy single `category` is derived from
    the list. */
module ProviderForm {
  import opened Common
  import opened Strings
  import opened ServiceProviderModel
  import opened Database
  import opened ProviderRoutes

  /** The request body fields; `None` is an absent field. */
  datatype Form = Form(
    name: Option<string>,
    description: Option<string>,
    logo: Option<string>,
    category: Option<string>,
    categories: Option<string>,
    priceRange: Option<string>,
    bestFor: Option<string>,
    contactWhatsApp: Option<string>,
    contactInstagram: Option<string>,
    contactWebsite: Option<string>,
    practicalNotes: Option<string>,
    featured: Option<bool>)

  /** The category list: from `categories` when it is non-empty (its JSON
      value `parsed`, or the raw text as a one-element list when it is not
      JSON), else from `category` as a one-element list, else empty. */
  function ParseCategories(categoriesField: Option<string>, parsed: Option<seq<Id>>,
                           categoryField: Option<string>): (r: seq<Id>)
    ensures Truthy(categoriesField) && parsed.Some? ==> r == parsed.value
    ensures Truthy(categoriesField) && parsed.None? ==> r == [categoriesField.value]
    ensures !Truthy(categoriesField) && Truthy(categoryField) ==> r == [categoryField.value]
    ensures !Truthy(categoriesField) && !Truthy(categoryField) ==> r == []
  {
    if Truthy(categoriesField) then
      if parsed.Some? then parsed.value else [categoriesField.value]
    else if Truthy(categoryField) then [categoryField.value]
    else []
  }

  /** `categories[0] || null`: the first listed category, unless the list is
      empty or its first entry is the empty string. */
  function LegacyCategory(categories: seq<Id>): (r: Option<Id>)
    ensures r.Some? ==> categories != [] && r.value == categories[0] && r.value != ""
    ensures r.None? <==> categories == [] || categories[0] == ""
  {
    if categories != [] && categories[0] != "" then Some(categories[0]) else None
  }

  /** `bestFor.split(',').map(s => s.trim())`, or `[]` when the field is
      absent or empty. */
  function ParseBestFor(field: Option<string>): (r: seq<string>)
    ensures !Truthy(field) ==> r == []
    ensures Truthy(field) ==> |r| == |Split(field.value, ',')|
    ensures Truthy(field) ==> forall k :: 0 <= k < |r| ==> r[k] == Trim(Split(field.value, ',')[k])
  {
    if Truthy(field) then TrimAll(Split(field.value, ',')) else []
  }

  /** Trimming a comma-free piece leaves a comma-free, trimmed entry. */
  lemma TrimmedPieceIsClean(piece: string)
    requires ',' !in piece
    ensures ',' !in Trim(piece) && Trim(Trim(piece)) == Trim(piece)
  {
    TrimIdempotent(piece);
    var i := TrimOffset(piece);
  }

  /** Every parsed `bestFor` entry is trimmed and free of commas. */
  lemma BestForEntriesAreClean(field: Option<string>)
    ensures forall k :: 0 <= k < |ParseBestFor(field)| ==>
      ',' !in ParseBestFor(field)[k] && Trim(ParseBestFor(field)[k]) == ParseBestFor(field)[k]
  {
    var r := ParseBestFor(field);
    if Truthy(field) {
      var pieces := Split(field.value, ',');
      forall k | 0 <= k < |r| ensures ',' !in r[k] && Trim(r[k]) == r[k] {
        TrimmedPieceIsClean(pieces[k]);
      }
    }
  }

  /** When no entry has spaces around it, joining the parsed list with
      commas gives back the field. */
  lemma BestForRoundTrip(s: string)
    requires s != []
    requires forall k :: 0 <= k < |Split(s, ',')| ==> Trim(Split(s, ',')[k]) == Split(s, ',')[k]
    ensures Join(ParseBestFor(Some(s)), ',') == s
  {
    assert ParseBestFor(Some(s)) == Split(s, ',');
    SplitJoin(s, ',');
  }

  /** `providerData`: the body with the parsed lists, the legacy category and
      the uploaded logo (as a data URL) in place of the raw fields. */
  function ProviderData(form: Form, parsed: Option<seq<Id>>, uploadedLogo: Option<string>): (input: ProviderInput)
    ensures input.categories == ParseCategories(form.categories, parsed, form.category)
    ensures input.category == LegacyCategory(input.categories)
    ensures input.bestFor == ParseBestFor(form.bestFor)
    ensures input.logo == if uploadedLogo.Some? then uploadedLogo else form.logo
  {
    var categories := ParseCategories(form.categories, parsed, form.category);
    ProviderInput(form.name, form.description,
                  if uploadedLogo.Some? then uploadedLogo else form.logo,
                  LegacyCategory(categories), categories, form.priceRange,
                  ParseBestFor(form.bestFor), form.contactWhatsApp, form.contactInstagram,
                  form.contactWebsite, form.practicalNotes, form.featured)
  }

  /** On a provider built from the form, the legacy category is one of its
      listed categories, so the listing's two-field category match agrees
      with the list alone. */
  lemma FormKeepsCategoriesConsistent(id: Id, form: Form, parsed: Option<seq<Id>>,
                                      uploadedLogo: Option<string>, now: Time, c: Id)
    ensures var built := BuildProvider(id, form, parsed, uploadedLogo, now);
      built.Ok? ==>
        && (built.value.category.Some? ==> built.value.category.value in built.value.categories)
        && (InCategory(c, built.value) <==> c in built.value.categories)
  {
  }

  /** Adding a provider under a fresh id keeps ids unique. */
  lemma AppendKeepsIdsUnique(ps: seq<Provider>, p: Provider)
    requires UniqueProviderIds(ps) && forall k :: 0 <= k < |ps| ==> ps[k].id != p.id
    ensures UniqueProviderIds(ps + [p])
  {
  }

  datatype CreateReply = Created(provider: Provider) | CreateFailed {
    function Status(): int { if Created? then 201 else 500 }
  }

  /** The document POST /providers saves: the schema applied to the
      parsed form, under the store's fresh id. */
  function BuildProvider(id: Id, form: Form, parsed: Option<seq<Id>>, uploadedLogo: Option<string>,
                         now: Time): (r: Result<Provider>)
    ensures r.Ok? ==> r.value.id == id
  {
    NewProvider(id, ProviderData(form, parsed, uploadedLogo), now)
  }

  /** POST /providers: builds the document from the form and saves it; a
      document that fails validation or a failing store answers 500 and
      stores nothing. The store supplies a fresh id. */
  method CreateProvider(db: Store, id: Id, form: Form, parsed: Option<seq<Id>>,
                        uploadedLogo: Option<string>, now: Time, fails: bool) returns (r: CreateReply)
    requires db.Valid()
    requires forall k :: 0 <= k < |db.providers| ==> db.providers[k].id != id
    modifies db`providers
    ensures db.Valid()
    ensures var built := BuildProvider(id, form, parsed, uploadedLogo, now);
      if built.Err? || fails then r == CreateFailed && db.providers == old(db.providers)
      else r == Created(built.value) && db.providers == old(db.providers) + [built.value]
  {
    var built := BuildProvider(id, form, parsed, uploadedLogo, now);
    if built.Err? || fails {
      return CreateFailed;
    }
    AppendKeepsIdsUnique(db.providers, built.value);
    db.providers := db.providers + [built.value];
    return Created(built.value);
  }
}
