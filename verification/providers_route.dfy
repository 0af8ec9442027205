/** The public provider directory: GET / (filtered, ranked listing) and
    GET /:id. The listing compiles its three query parameters into a Mongo
    filter document, evaluates it against every stored provider, and sorts
    the matches featured-first, then newest-first. */
module ProviderRoutes {
  import opened Common
  import opened Strings
  import opened ServiceProviderModel
  import opened Database

  /** A field condition of a filter document. */
  datatype Condition =
    | NameMatches(term: string)          // { name: { $regex: term, $options: 'i' } }
    | DescriptionMatches(term: string)   // { description: { $regex: term, $options: 'i' } }
    | CategoryIs(id: Id)                 // { category: id }
    | CategoriesContain(id: Id)          // { categories: id }, an array field
    | PriceRangeIn(ranges: seq<string>)  // { priceRange: { $in: ranges } }

  /** A filter document: its field conditions, its `$or` branches and its
      `$and` parts. An absent operator is the empty list; Mongo refuses an
      empty `$or` or `$and` array, so the two never meet. */
  datatype Filter = Filter(fields: seq<Condition>, or: seq<Filter>, and: seq<Filter>)

  /** `{}`. */
  const Everything := Filter([], [], [])

  function Leaf(c: Condition): Filter { Filter([c], [], []) }

  /** Whether one stored provider satisfies one field condition. The regex
      search is a case-insensitive substring search. */
  predicate Holds(c: Condition, p: Provider) {
    match c
    case NameMatches(term) => ContainsIgnoringCase(p.name, term)
    case DescriptionMatches(term) => ContainsIgnoringCase(p.description, term)
    case CategoryIs(id) => p.category == Some(id)
    case CategoriesContain(id) => id in p.categories
    case PriceRangeIn(ranges) => PriceRangeName(p.priceRange) in ranges
  }

  /** Mongo's reading of a filter document: every field condition holds,
      some `$or` branch matches (when there are any), and every `$and` part
      matches. */
  predicate Matches(q: Filter, p: Provider) {
    && (forall c :: c in q.fields ==> Holds(c, p))
    && (q.or != [] ==> exists g :: g in q.or && Matches(g, p))
    && (forall g :: g in q.and ==> Matches(g, p))
  }

  /** The three clauses a visitor can ask for, stated directly. */
  predicate SearchHit(term: string, p: Provider) {
    ContainsIgnoringCase(p.name, term) || ContainsIgnoringCase(p.description, term)
  }

  predicate InCategory(id: Id, p: Provider) {
    p.category == Some(id) || id in p.categories
  }

  predicate PriceIn(priceRange: string, p: Provider) {
    PriceRangeName(p.priceRange) in Split(priceRange, ',')
  }

  /** The reference meaning of a listing request: the conjunction of the
      clauses whose parameter is present and non-empty. */
  predicate Wanted(search: Option<string>, category: Option<string>, priceRange: Option<string>,
                   p: Provider) {
    && (Truthy(search) ==> SearchHit(search.value, p))
    && (Truthy(category) ==> InCategory(category.value, p))
    && (Truthy(priceRange) ==> PriceIn(priceRange.value, p))
  }

  /** The empty filter matches every provider. */
  lemma EverythingMatches(p: Provider)
    ensures Matches(Everything, p)
  {
  }

  /** A one-field document means its condition. */
  lemma LeafMeaning(c: Condition, p: Provider)
    ensures Matches(Leaf(c), p) <==> Holds(c, p)
  {
    assert Leaf(c).fields == [c];
  }

  /** An `$or` of two documents matches when either does. */
  lemma EitherMeaning(a: Filter, b: Filter, p: Provider)
    ensures Matches(Filter([], [a, b], []), p) <==> Matches(a, p) || Matches(b, p)
  {
    var q := Filter([], [a, b], []);
    if Matches(a, p) {
      assert a in q.or;
    } else if Matches(b, p) {
      assert b in q.or;
    }
  }

  /** An `$and` of two documents matches when both do. */
  lemma BothMeaning(a: Filter, b: Filter, p: Provider)
    ensures Matches(Filter([], [], [a, b]), p) <==> Matches(a, p) && Matches(b, p)
  {
    var q := Filter([], [], [a, b]);
    assert a in q.and && b in q.and;
  }

  /** `$and.push(g)` conjoins `g`. */
  lemma PushMeaning(q: Filter, g: Filter, p: Provider)
    ensures Matches(q.(and := q.and + [g]), p) <==> Matches(q, p) && Matches(g, p)
  {
    var q' := q.(and := q.and + [g]);
    assert g in q'.and;
    assert forall h :: h in q.and ==> h in q'.and;
    assert forall h :: h in q'.and ==> h in q.and || h == g;
  }

  /** Setting one more field conjoins its condition. */
  lemma AddFieldMeaning(q: Filter, c: Condition, p: Provider)
    ensures Matches(q.(fields := q.fields + [c]), p) <==> Matches(q, p) && Holds(c, p)
  {
    var q' := q.(fields := q.fields + [c]);
    assert c in q'.fields;
    assert forall d :: d in q.fields ==> d in q'.fields;
    assert forall d :: d in q'.fields ==> d in q.fields || d == c;
  }

  /** The search sub-document `{ $or: [name, description] }`. */
  function SearchOr(term: string): Filter {
    Filter([], [Leaf(NameMatches(term)), Leaf(DescriptionMatches(term))], [])
  }

  /** The category sub-document `{ $or: [category, categories] }`. */
  function CategoryOr(id: Id): Filter {
    Filter([], [Leaf(CategoryIs(id)), Leaf(CategoriesContain(id))], [])
  }

  /** The search sub-document means `SearchHit`. */
  lemma SearchOrMeaning(term: string, p: Provider)
    ensures Matches(SearchOr(term), p) <==> SearchHit(term, p)
  {
    EitherMeaning(Leaf(NameMatches(term)), Leaf(DescriptionMatches(term)), p);
    LeafMeaning(NameMatches(term), p);
    LeafMeaning(DescriptionMatches(term), p);
  }

  /** The category sub-document means `InCategory`. */
  lemma CategoryOrMeaning(id: Id, p: Provider)
    ensures Matches(CategoryOr(id), p) <==> InCategory(id, p)
  {
    EitherMeaning(Leaf(CategoryIs(id)), Leaf(CategoriesContain(id)), p);
    LeafMeaning(CategoryIs(id), p);
    LeafMeaning(CategoriesContain(id), p);
  }

  /** GET / lines building `queryFilter`: start from `{}`, set `$or` for a
      search, replace the filter by an `$and` of both `$or`s (or by the
      category `$or` alone) for a category, then push, wrap or set the price
      condition. Whatever subset of parameters is given, the filter means
      exactly the conjunction of the given clauses, and with none it is
      `{}`. */
  method CompileFilter(search: Option<string>, category: Option<string>, priceRange: Option<string>)
    returns (q: Filter)
    ensures forall p :: Matches(q, p) <==> Wanted(search, category, priceRange, p)
    ensures !Truthy(search) && !Truthy(category) && !Truthy(priceRange) ==> q == Everything
  {
    q := Everything;

    if Truthy(search) {
      q := q.(or := [Leaf(NameMatches(search.value)), Leaf(DescriptionMatches(search.value))]);
      assert q == SearchOr(search.value);
    }

    if Truthy(category) {
      var categoryCondition := Filter([], [Leaf(CategoryIs(category.value)), Leaf(CategoriesContain(category.value))], []);
      if Truthy(search) {
        q := Filter([], [], [
               Filter([], [Leaf(NameMatches(search.value)), Leaf(DescriptionMatches(search.value))], []),
               categoryCondition]);
      } else {
        q := categoryCondition;
      }
    }
    ghost var q1 := q;
    forall p ensures Matches(q1, p) <==> Wanted(search, category, None, p) {
      if Truthy(search) {
        SearchOrMeaning(search.value, p);
      }
      if Truthy(category) {
        CategoryOrMeaning(category.value, p);
        if Truthy(search) {
          BothMeaning(SearchOr(search.value), CategoryOr(category.value), p);
        }
      } else if !Truthy(search) {
        EverythingMatches(p);
      }
    }

    if Truthy(priceRange) {
      var ranges := Split(priceRange.value, ',');
      var priceCondition := Leaf(PriceRangeIn(ranges));
      if q.and != [] {
        q := q.(and := q.and + [priceCondition]);
      } else if q.or != [] {
        q := Filter([], [], [q, priceCondition]);
      } else {
        q := q.(fields := q.fields + [PriceRangeIn(ranges)]);
      }
      forall p ensures Matches(q, p) <==> Matches(q1, p) && PriceIn(priceRange.value, p) {
        LeafMeaning(PriceRangeIn(ranges), p);
        PushMeaning(q1, priceCondition, p);
        BothMeaning(q1, priceCondition, p);
        AddFieldMeaning(q1, PriceRangeIn(ranges), p);
      }
    }
  }

  /** `find(queryFilter)`: the stored providers the filter matches, in
      natural order. */
  function Select(q: Filter, ps: seq<Provider>): (r: seq<Provider>)
    ensures forall p :: p in r <==> p in ps && Matches(q, p)
    ensures |r| <= |ps|
  {
    if ps == [] then []
    else if Matches(q, ps[0]) then [ps[0]] + Select(q, ps[1..])
    else Select(q, ps[1..])
  }

  /** The providers a request asks for, by the reference meaning. */
  function Matching(ps: seq<Provider>, search: Option<string>, category: Option<string>,
                    priceRange: Option<string>): (r: seq<Provider>)
    ensures forall p :: p in r <==> p in ps && Wanted(search, category, priceRange, p)
  {
    if ps == [] then []
    else if Wanted(search, category, priceRange, ps[0]) then [ps[0]] + Matching(ps[1..], search, category, priceRange)
    else Matching(ps[1..], search, category, priceRange)
  }

  /** Two filters with the same meaning select the same providers. */
  lemma {:induction false} SelectByMeaning(q: Filter, ps: seq<Provider>, search: Option<string>,
                                           category: Option<string>, priceRange: Option<string>)
    requires forall p :: Matches(q, p) <==> Wanted(search, category, priceRange, p)
    ensures Select(q, ps) == Matching(ps, search, category, priceRange)
  {
    if ps != [] {
      SelectByMeaning(q, ps[1..], search, category, priceRange);
    }
  }

  /** With no parameters every provider is listed. */
  lemma {:induction false} NoParametersListsAll(ps: seq<Provider>)
    ensures Matching(ps, None, None, None) == ps
  {
    if ps != [] {
      NoParametersListsAll(ps[1..]);
    }
  }

  /** `sort({ featured: -1, createdAt: -1 })`: `a` may be listed before `b`. */
  predicate Before(a: Provider, b: Provider) {
    (a.featured && !b.featured) || (a.featured == b.featured && a.createdAt >= b.createdAt)
  }

  predicate Ranked(s: seq<Provider>) {
    forall i, j :: 0 <= i < j < |s| ==> Before(s[i], s[j])
  }

  /** Places `p` into a ranked list. */
  function Insert(p: Provider, s: seq<Provider>): (r: seq<Provider>)
    ensures multiset(r) == multiset(s) + multiset{p}
  {
    if s == [] then [p]
    else if Before(p, s[0]) then [p] + s
    else
      assert s == [s[0]] + s[1..];
      [s[0]] + Insert(p, s[1..])
  }

  /** A ranked list stays ranked under a new head ranked before all of it. */
  lemma ConsRanked(h: Provider, rest: seq<Provider>)
    requires Ranked(rest) && forall x :: x in rest ==> Before(h, x)
    ensures Ranked([h] + rest)
  {
    var r := [h] + rest;
    forall i, j | 0 <= i < j < |r| ensures Before(r[i], r[j]) {
      if i == 0 {
        assert r[j] == rest[j - 1];
      } else {
        assert r[i] == rest[i - 1] && r[j] == rest[j - 1];
      }
    }
  }

  /** Insertion keeps a list ranked. */
  lemma {:induction false} InsertKeepsRanked(p: Provider, s: seq<Provider>)
    requires Ranked(s)
    ensures Ranked(Insert(p, s))
  {
    if s != [] && !Before(p, s[0]) {
      var rest := Insert(p, s[1..]);
      InsertKeepsRanked(p, s[1..]);
      HeadBeforeTail(s);
      forall x | x in rest ensures Before(s[0], x) {
        assert x in multiset(rest);
        if x != p {
          assert x in multiset(s[1..]);
        }
      }
      ConsRanked(s[0], rest);
    }
  }

  /** The head of a ranked list is ranked before everything after it. */
  lemma HeadBeforeTail(s: seq<Provider>)
    requires Ranked(s) && s != []
    ensures forall x :: x in s[1..] ==> Before(s[0], x)
  {
    forall x | x in s[1..] ensures Before(s[0], x) {
      var k :| 0 <= k < |s| - 1 && s[1..][k] == x;
      assert s[k + 1] == x;
    }
  }

  /** The listing order: a ranked permutation of its input. */
  function Rank(s: seq<Provider>): (r: seq<Provider>)
    ensures Ranked(r)
    ensures multiset(r) == multiset(s)
  {
    if s == [] then []
    else
      assert s == [s[0]] + s[1..];
      InsertKeepsRanked(s[0], Rank(s[1..]));
      Insert(s[0], Rank(s[1..]))
  }

  /** Featured providers come first in any ranked list. */
  lemma FeaturedFirst(s: seq<Provider>, i: int, j: int)
    requires Ranked(s) && 0 <= i < |s| && 0 <= j < |s|
    requires s[i].featured && !s[j].featured
    ensures i < j
  {
  }

  /** Among providers equally featured, the newer comes first. */
  lemma NewestFirst(s: seq<Provider>, i: int, j: int)
    requires Ranked(s) && 0 <= i < j < |s| && s[i].featured == s[j].featured
    ensures s[i].createdAt >= s[j].createdAt
  {
    assert Before(s[i], s[j]);
  }

  /** GET /: the matching providers, each once per stored copy, ranked; 500
      when the store fails. */
  method ListProviders(db: Store, search: Option<string>, category: Option<string>,
                       priceRange: Option<string>, fails: bool) returns (r: Result<seq<Provider>>)
    ensures fails ==> r == Err("Failed to fetch providers")
    ensures !fails ==>
      && r.Ok?
      && multiset(r.value) == multiset(Matching(db.providers, search, category, priceRange))
      && Ranked(r.value)
  {
    var q := CompileFilter(search, category, priceRange);
    if fails {
      return Err("Failed to fetch providers");
    }
    SelectByMeaning(q, db.providers, search, category, priceRange);
    r := Ok(Rank(Select(q, db.providers)));
  }

  datatype ProviderReply = Found(provider: Provider) | NotFound | FetchFailed {
    function Status(): int {
      match this
      case Found(_) => 200
      case NotFound => 404
      case FetchFailed => 500
    }
  }

  /** GET /:id: the stored provider with that id, 404 when there is none,
      500 when the store fails. */
  function GetProvider(ps: seq<Provider>, id: Id, fails: bool): (r: ProviderReply)
    ensures fails <==> r == FetchFailed
    ensures r.Found? ==> r.provider in ps && r.provider.id == id
    ensures r == NotFound <==> !fails && forall p :: p in ps ==> p.id != id
  {
    if fails then FetchFailed
    else if ps == [] then NotFound
    else if ps[0].id == id then Found(ps[0])
    else GetProvider(ps[1..], id, false)
  }

  /** With unique ids, GET /:id answers the one stored provider with that id. */
  lemma GetProviderIsUnique(ps: seq<Provider>, id: Id, k: int)
    requires UniqueProviderIds(ps) && 0 <= k < |ps| && ps[k].id == id
    ensures GetProvider(ps, id, false) == Found(ps[k])
  {
    if k > 0 {
      assert ps[0].id != id;
      GetProviderIsUnique(ps[1..], id, k - 1);
    }
  }
}
