/** The document store the route handlers share: one field per collection.
    Collections looked up by id are maps; the provider collection is a
    sequence in natural (insertion) order, and the access log is append-only
    in the handlers modelled here. */
module Database {
  import opened Common
  import opened AccessCodeModel
  import opened AccessLogModel
  import opened ServiceProviderModel
  import opened UserProgressModel

  /** A provider category. The category schema is not part of this model;
      these are the fields the admin routes write. */
  datatype Category = Category(name: string, slug: string, order: int)

  /** Stored codes `a` and `b` carry the same code string. */
  ghost predicate SameCode(codes: map<Id, AccessCode>, a: Id, b: Id) {
    a in codes && b in codes && codes[a].code == codes[b].code
  }

  /** The unique index on `code`: no two stored access codes share a code. */
  ghost predicate UniqueCodes(codes: map<Id, AccessCode>) {
    forall a, b :: SameCode(codes, a, b) ==> a == b
  }

  /** Rewriting a stored code without changing its code string keeps the
      index unique. */
  lemma UniqueCodesAfterUpdate(codes: map<Id, AccessCode>, id: Id, c: AccessCode)
    requires UniqueCodes(codes) && id in codes && codes[id].code == c.code
    ensures UniqueCodes(codes[id := c])
  {
    var codes' := codes[id := c];
    forall a, b | SameCode(codes', a, b) ensures a == b {
      assert SameCode(codes, a, b);
    }
  }

  /** No two providers share an id. */
  ghost predicate UniqueProviderIds(ps: seq<Provider>) {
    forall i, j :: 0 <= i < j < |ps| ==> ps[i].id != ps[j].id
  }

  /** Every progress document is filed under its own session id and passed
      validation when it was saved. */
  ghost predicate ProgressKeyedBySession(progress: map<string, UserProgress>) {
    forall sid :: sid in progress ==> progress[sid].sessionId == sid && PassesValidation(progress[sid])
  }

  class Store {
    var accessCodes: map<Id, AccessCode>
    var accessLog: seq<AccessLogEntry>
    var providers: seq<Provider>
    var categories: map<Id, Category>
    var progress: map<string, UserProgress>

    ghost predicate Valid()
      reads this
    {
      && UniqueCodes(accessCodes)
      && UniqueProviderIds(providers)
      && ProgressKeyedBySession(progress)
    }

    constructor ()
      ensures Valid()
      ensures accessCodes == map[] && accessLog == [] && providers == []
      ensures categories == map[] && progress == map[]
    {
      accessCodes := map[];
      accessLog := [];
      providers := [];
      categories := map[];
      progress := map[];
    }
  }
}
