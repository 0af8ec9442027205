/** The admin category endpoints: create and update derive the slug from the
    name; delete is guarded by a count of the providers still using the
    category. The category schema itself is not part of this model: saves
    are assumed to succeed unless the store fails. */
module CategoryAdmin {
  import opened Common
  import opened Slug
  import opened ServiceProviderModel
  import opened Database
  import opened ProviderRoutes

  datatype CategoryReply =
    | CategorySaved(category: Category)   // 201 on create, 200 on update
    | CategoryDeleted
    | CategoryInUse(count: nat, error: string)  // 400
    | CategoryNotFound                    // 404
    | CategoryFailed(error: string)       // 500

  /** The decimal digits of `n`. */
  function Decimal(n: nat): (s: string)
    ensures |s| >= 1 && forall k :: 0 <= k < |s| ==> '0' <= s[k] <= '9'
  {
    if n < 10 then [(48 + n) as char] else Decimal(n / 10) + [(48 + n % 10) as char]
  }

  /** The number a string of decimal digits denotes. */
  function DigitsValue(s: string): nat {
    if s == [] then 0
    else
      var d := s[|s| - 1] as int - 48;
      DigitsValue(s[..|s| - 1]) * 10 + (if 0 <= d <= 9 then d else 0)
  }

  /** The digits `Decimal` writes read back as the same number. */
  lemma {:induction false} DecimalRoundTrip(n: nat)
    ensures DigitsValue(Decimal(n)) == n
  {
    if n >= 10 {
      DecimalRoundTrip(n / 10);
      var s := Decimal(n);
      assert s[..|s| - 1] == Decimal(n / 10);
    }
  }

  /** The 400 message naming how many providers use the category. */
  function InUseMessage(count: nat): (m: string)
    ensures var p := "Cannot delete category. "; var q := " provider(s) are using it.";
      |m| > |p| + |q| && m[..|p|] == p && m[|m| - |q|..] == q &&
      DigitsValue(m[|p|..|m| - |q|]) == count
  {
    var p := "Cannot delete category. ";
    var q := " provider(s) are using it.";
    var m := p + Decimal(count) + q;
    DecimalRoundTrip(count);
    assert m[|p|..|m| - |q|] == Decimal(count);
    m
  }

  /** POST /categories: stores the name with its slug and `order || 0`. A
      missing name makes the slug expression throw (500). The store supplies
      a fresh id. */
  method CreateCategory(db: Store, id: Id, name: Option<string>, order: Option<int>, fails: bool)
    returns (r: CategoryReply)
    requires id !in db.categories
    modifies db`categories
    ensures name.None? || fails ==> r.CategoryFailed? && db.categories == old(db.categories)
    ensures name.Some? && !fails ==>
      && r == CategorySaved(Category(name.value, Slugify(name.value), OrZero(order)))
      && db.categories == old(db.categories)[id := r.category]
    ensures r.CategorySaved? ==> IsSlug(r.category.slug)
  {
    if name.None? {
      return CategoryFailed("Failed to create category");
    }
    var slug := Slugify(name.value);
    var category := Category(name.value, slug, OrZero(order));
    if fails {
      return CategoryFailed("Failed to create category");
    }
    db.categories := db.categories[id := category];
    return CategorySaved(category);
  }

  /** PUT /categories/:id: rewrites name and slug, and the order when one is
      given; 404 for an unknown id. */
  method UpdateCategory(db: Store, id: Id, name: Option<string>, order: Option<int>, fails: bool)
    returns (r: CategoryReply)
    modifies db`categories
    ensures name.None? || fails ==> r.CategoryFailed? && db.categories == old(db.categories)
    ensures name.Some? && !fails && id !in old(db.categories) ==>
      r == CategoryNotFound && db.categories == old(db.categories)
    ensures name.Some? && !fails && id in old(db.categories) ==>
      && r.CategorySaved?
      && r.category.name == name.value && r.category.slug == Slugify(name.value)
      && r.category.order == (if order.Some? then order.value else old(db.categories)[id].order)
      && db.categories == old(db.categories)[id := r.category]
  {
    if name.None? {
      return CategoryFailed("Failed to update category");
    }
    var slug := Slugify(name.value);
    if fails {
      return CategoryFailed("Failed to update category");
    }
    if id !in db.categories {
      return CategoryNotFound;
    }
    var old_ := db.categories[id];
    var category := Category(name.value, slug, if order.Some? then order.value else old_.order);
    db.categories := db.categories[id := category];
    return CategorySaved(category);
  }

  /** `countDocuments({ category: id })`: providers whose legacy field names
      the category. */
  function LegacyUsers(ps: seq<Provider>, id: Id): (n: nat)
    ensures n == 0 <==> forall k :: 0 <= k < |ps| ==> ps[k].category != Some(id)
    ensures n <= |ps|
  {
    if ps == [] then 0
    else (if ps[0].category == Some(id) then 1 else 0) + LegacyUsers(ps[1..], id)
  }

  /** Providers that refer to the category in either field, the way the
      listing's category filter finds them. */
  function ReferencingUsers(ps: seq<Provider>, id: Id): (n: nat)
    ensures n == 0 <==> forall k :: 0 <= k < |ps| ==> !InCategory(id, ps[k])
    ensures n >= LegacyUsers(ps, id)
  {
    if ps == [] then 0
    else (if InCategory(id, ps[0]) then 1 else 0) + ReferencingUsers(ps[1..], id)
  }

  /** DELETE /categories/:id as written: refused with the count when some
      provider's legacy `category` is the id (the `categories` list is not
      consulted); otherwise deleted, or 404. A count query that throws
      (`countFails`, which includes an id that is not an ObjectId) answers
      500. */
  method DeleteCategory(db: Store, id: Id, countFails: bool, fails: bool) returns (r: CategoryReply)
    modifies db`categories
    ensures countFails ==> r.CategoryFailed? && db.categories == old(db.categories)
    ensures !countFails && LegacyUsers(db.providers, id) > 0 ==>
      && r == CategoryInUse(LegacyUsers(db.providers, id), InUseMessage(LegacyUsers(db.providers, id)))
      && db.categories == old(db.categories)
    ensures !countFails && LegacyUsers(db.providers, id) == 0 && fails ==>
      r.CategoryFailed? && db.categories == old(db.categories)
    ensures !countFails && LegacyUsers(db.providers, id) == 0 && !fails && id !in old(db.categories) ==>
      r == CategoryNotFound && db.categories == old(db.categories)
    ensures !countFails && LegacyUsers(db.providers, id) == 0 && !fails && id in old(db.categories) ==>
      r == CategoryDeleted && db.categories == old(db.categories) - {id}
  {
    if countFails {
      return CategoryFailed("Failed to delete category");
    }
    var providerCount := LegacyUsers(db.providers, id);
    if providerCount > 0 {
      return CategoryInUse(providerCount, InUseMessage(providerCount));
    }
    if fails {
      return CategoryFailed("Failed to delete category");
    }
    if id !in db.categories {
      return CategoryNotFound;
    }
    db.categories := db.categories - {id};
    return CategoryDeleted;
  }

  /** The guard as written lets a category go while a provider still lists
      it in `categories`: a provider the form built with primary category `a`
      and `id` as a second one is not counted. */
  lemma LegacyGuardMissesListedUse(p: Provider, a: Id, id: Id)
    requires p.category == Some(a) && p.categories == [a, id] && a != id
    ensures LegacyUsers([p], id) == 0 && InCategory(id, p)
  {
  }

  /** DELETE /categories/:id with the guard counting both fields: a deleted
      category is referred to by no provider. */
  method DeleteCategoryChecked(db: Store, id: Id, countFails: bool, fails: bool) returns (r: CategoryReply)
    modifies db`categories
    ensures countFails ==> r.CategoryFailed? && db.categories == old(db.categories)
    ensures !countFails && ReferencingUsers(db.providers, id) > 0 ==>
      && r == CategoryInUse(ReferencingUsers(db.providers, id), InUseMessage(ReferencingUsers(db.providers, id)))
      && db.categories == old(db.categories)
    ensures !countFails && ReferencingUsers(db.providers, id) == 0 && fails ==>
      r.CategoryFailed? && db.categories == old(db.categories)
    ensures !countFails && ReferencingUsers(db.providers, id) == 0 && !fails && id !in old(db.categories) ==>
      r == CategoryNotFound && db.categories == old(db.categories)
    ensures !countFails && ReferencingUsers(db.providers, id) == 0 && !fails && id in old(db.categories) ==>
      r == CategoryDeleted && db.categories == old(db.categories) - {id}
    ensures r == CategoryDeleted ==> forall k :: 0 <= k < |db.providers| ==> !InCategory(id, db.providers[k])
  {
    if countFails {
      return CategoryFailed("Failed to delete category");
    }
    var providerCount := ReferencingUsers(db.providers, id);
    if providerCount > 0 {
      return CategoryInUse(providerCount, InUseMessage(providerCount));
    }
    if fails {
      return CategoryFailed("Failed to delete category");
    }
    if id !in db.categories {
      return CategoryNotFound;
    }
    db.categories := db.categories - {id};
    return CategoryDeleted;
  }
}
