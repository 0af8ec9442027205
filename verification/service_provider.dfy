/** The service-provider document of the directory. */
module ServiceProviderModel {
  import opened Common
  import opened Strings

  datatype PriceRange = Budget | Mid | Premium

  /** The enum value as stored and as compared by `$in`. */
  function PriceRangeName(p: PriceRange): string {
    match p
    case Budget => "budget"
    case Mid => "mid"
    case Premium => "premium"
  }

  /** The `enum` validator: only the three names are accepted. */
  function ParsePriceRange(s: string): (r: Option<PriceRange>)
    ensures r.Some? ==> PriceRangeName(r.value) == s
    ensures r.None? ==> forall p: PriceRange :: PriceRangeName(p) != s
  {
    if s == "budget" then Some(Budget)
    else if s == "mid" then Some(Mid)
    else if s == "premium" then Some(Premium)
    else None
  }

  lemma PriceRangeRoundTrip(p: PriceRange)
    ensures ParsePriceRange(PriceRangeName(p)) == Some(p)
  {
  }

  datatype Provider = Provider(
    id: Id,
    name: string,
    description: string,
    logo: string,
    category: Option<Id>,   // legacy single category
    categories: seq<Id>,
    priceRange: PriceRange,
    bestFor: seq<string>,
    contactWhatsApp: string,
    contactInstagram: string,
    contactWebsite: string,
    practicalNotes: string,
    featured: bool,
    createdAt: Time,
    updatedAt: Time)

  /** The fields a create request may carry; `None` is an absent field. */
  datatype ProviderInput = ProviderInput(
    name: Option<string>,
    description: Option<string>,
    logo: Option<string>,
    category: Option<Id>,
    categories: seq<Id>,
    priceRange: Option<string>,
    bestFor: seq<string>,
    contactWhatsApp: Option<string>,
    contactInstagram: Option<string>,
    contactWebsite: Option<string>,
    practicalNotes: Option<string>,
    featured: Option<bool>)

  function TrimAll(xs: seq<string>): (r: seq<string>)
    ensures |r| == |xs| && forall k :: 0 <= k < |xs| ==> r[k] == Trim(xs[k])
  {
    if xs == [] then [] else [Trim(xs[0])] + TrimAll(xs[1..])
  }

  /** `new ServiceProvider(data).save()`: `name` is trimmed and required (an
      empty string counts as missing), `priceRange` must be one of the enum
      names, absent strings default to '', the price range to `mid`,
      `featured` to false, and the creation time stamps both timestamps. */
  function NewProvider(id: Id, input: ProviderInput, now: Time): (r: Result<Provider>)
    ensures r.Ok? <==>
      && input.name.Some? && Trim(input.name.value) != ""
      && (input.priceRange.Some? ==> ParsePriceRange(input.priceRange.value).Some?)
    ensures r.Ok? ==>
      && r.value.id == id && r.value.name == Trim(input.name.value)
      && r.value.description == Default(input.description, "")
      && r.value.logo == Default(input.logo, "")
      && r.value.practicalNotes == Default(input.practicalNotes, "")
      && r.value.contactWhatsApp == Default(input.contactWhatsApp, "")
      && r.value.contactInstagram == Default(input.contactInstagram, "")
      && r.value.contactWebsite == Default(input.contactWebsite, "")
      && r.value.category == input.category && r.value.categories == input.categories
      && (input.priceRange.None? ==> r.value.priceRange == Mid)
      && (input.priceRange.Some? ==> PriceRangeName(r.value.priceRange) == input.priceRange.value)
      && (input.featured.None? ==> !r.value.featured)
      && (input.featured.Some? ==> r.value.featured == input.featured.value)
      && |r.value.bestFor| == |input.bestFor|
      && (forall k :: 0 <= k < |input.bestFor| ==> r.value.bestFor[k] == Trim(input.bestFor[k]))
      && r.value.createdAt == r.value.updatedAt == now
  {
    if input.name.None? || Trim(input.name.value) == "" then Err("name: Path `name` is required.")
    else
      var price := if input.priceRange.Some? then ParsePriceRange(input.priceRange.value) else Some(Mid);
      if price.None? then Err("priceRange: not a valid enum value")
      else
        Ok(Provider(id, Trim(input.name.value), Default(input.description, ""), Default(input.logo, ""),
                    input.category, input.categories, price.value, TrimAll(input.bestFor),
                    Default(input.contactWhatsApp, ""), Default(input.contactInstagram, ""),
                    Default(input.contactWebsite, ""), Default(input.practicalNotes, ""),
                    Default(input.featured, false), now, now))
  }
}
