/** The admin access-code endpoints: create (with a duplicate check),
    generate (drawing random codes until one is unused), update, delete and
    toggle. Every write keeps the unique index on `code`. */
module AccessCodeAdmin {
  import opened Common
  import opened Strings
  import opened AccessCodeModel
  import opened Database

  /** The customer fields of a create or generate request. */
  datatype CodeRequest = CodeRequest(
    customerName: Option<string>,
    customerPhone: Option<string>,
    customerEmail: Option<string>,
    notes: Option<string>,
    maxUsage: Option<int>,
    expiresAt: Option<Time>)

  datatype CodeReply =
    | CodeSaved(accessCode: AccessCode)   // 201 on create, 200 on update and toggle
    | CodeDeleted
    | DuplicateCode                       // 400
    | CodeNotFound                        // 404
    | CodeFailed(error: string)           // 500
  {
    function Status(): int {
      match this
      case CodeSaved(_) => 200
      case CodeDeleted => 200
      case DuplicateCode => 400
      case CodeNotFound => 404
      case CodeFailed(_) => 500
    }
  }

  /** The document a create or generate request builds: the schema trims the
      code; the customer strings fall back to '', `maxUsage` to 0 (unlimited)
      and `expiresAt` to null; the code starts active and unused. */
  function CodeRecord(code: string, req: CodeRequest, now: Time): (c: AccessCode)
    ensures c.code == Trim(code)
    ensures c.customerName == OrElse(req.customerName, "")
    ensures c.customerPhone == OrElse(req.customerPhone, "")
    ensures c.customerEmail == OrElse(req.customerEmail, "")
    ensures c.notes == OrElse(req.notes, "")
    ensures c.maxUsage == OrZero(req.maxUsage) && c.expiresAt == req.expiresAt
    ensures c.isActive && c.usageCount == 0 && c.lastUsedAt == None && c.createdAt == now
  {
    NewAccessCode(code, now).(
      customerName := OrElse(req.customerName, ""),
      customerPhone := OrElse(req.customerPhone, ""),
      customerEmail := OrElse(req.customerEmail, ""),
      notes := OrElse(req.notes, ""),
      maxUsage := OrZero(req.maxUsage),
      expiresAt := req.expiresAt)
  }

  /** A new code admits its customer until it expires: unused, it cannot
      have reached a limit. */
  lemma NewRecordValidUntilExpiry(code: string, req: CodeRequest, now: Time, t: Time)
    ensures IsValid(CodeRecord(code, req, now), t) <==> req.expiresAt.None? || t <= req.expiresAt.value
  {
  }

  /** Some stored code already has code string `t`. */
  predicate CodeTaken(codes: map<Id, AccessCode>, t: string) {
    exists other :: other in codes && codes[other].code == t
  }

  /** Storing a record under a fresh id keeps the index unique when its code
      is not taken. */
  lemma InsertKeepsCodesUnique(codes: map<Id, AccessCode>, id: Id, c: AccessCode)
    requires UniqueCodes(codes) && id !in codes && !CodeTaken(codes, c.code)
    ensures UniqueCodes(codes[id := c])
  {
    var codes' := codes[id := c];
    forall o | o in codes ensures codes[o].code != c.code {
    }
    forall a, b | SameCode(codes', a, b) ensures a == b {
      if a != id && b != id {
        assert SameCode(codes, a, b);
      }
    }
  }

  /** `accessCode.save()` of a new record: the required and unique
      validators of `code`, then the store. */
  method SaveNewCode(db: Store, id: Id, c: AccessCode, fails: bool) returns (r: CodeReply)
    requires db.Valid() && id !in db.accessCodes
    modifies db`accessCodes
    ensures db.Valid()
    ensures c.code == "" || CodeTaken(old(db.accessCodes), c.code) || fails ==>
      r.CodeFailed? && db.accessCodes == old(db.accessCodes)
    ensures !(c.code == "" || CodeTaken(old(db.accessCodes), c.code) || fails) ==>
      r == CodeSaved(c) && db.accessCodes == old(db.accessCodes)[id := c]
  {
    if c.code == "" || CodeTaken(db.accessCodes, c.code) || fails {
      return CodeFailed("save failed");
    }
    InsertKeepsCodesUnique(db.accessCodes, id, c);
    db.accessCodes := db.accessCodes[id := c];
    return CodeSaved(c);
  }

  /** POST /access-codes: a missing code throws (500), and so does a failing
      duplicate lookup (`lookupFails`); a trimmed code that already exists is
      refused with 400 and nothing stored; otherwise one record with the
      trimmed code and the defaults is added (an empty code fails the
      `required` validator, 500). */
  method CreateAccessCode(db: Store, id: Id, code: Option<string>, req: CodeRequest, now: Time,
                          lookupFails: bool, fails: bool) returns (r: CodeReply)
    requires db.Valid() && id !in db.accessCodes
    modifies db`accessCodes
    ensures db.Valid()
    ensures code.None? || lookupFails ==>
      r == CodeFailed("Failed to create access code") && db.accessCodes == old(db.accessCodes)
    ensures code.Some? && !lookupFails && CodeTaken(old(db.accessCodes), Trim(code.value)) ==>
      r == DuplicateCode && db.accessCodes == old(db.accessCodes)
    ensures code.Some? && !lookupFails && !CodeTaken(old(db.accessCodes), Trim(code.value)) ==>
      if Trim(code.value) == "" || fails then
        r == CodeFailed("Failed to create access code") && db.accessCodes == old(db.accessCodes)
      else
        && r == CodeSaved(CodeRecord(code.value, req, now))
        && db.accessCodes == old(db.accessCodes)[id := CodeRecord(code.value, req, now)]
  {
    if code.None? {
      return CodeFailed("Failed to create access code");
    }
    var t := Trim(code.value);
    if lookupFails {
      return CodeFailed("Failed to create access code");
    }
    if CodeTaken(db.accessCodes, t) {
      return DuplicateCode;
    }
    var accessCode := CodeRecord(t, req, now);
    TrimIdempotent(code.value);
    r := SaveNewCode(db, id, accessCode, fails);
    if r.CodeFailed? {
      r := CodeFailed("Failed to create access code");
    }
  }

  /** The first `n` draws are all taken. */
  predicate AllTaken(codes: map<Id, AccessCode>, draws: seq<string>, n: int)
    requires n <= |draws|
  {
    forall j :: 0 <= j < n ==> CodeTaken(codes, draws[j])
  }

  /** How the generate loop ends: with an unused draw, with a lookup that
      throws, or (in this model, whose draws are finite) with every draw
      taken. */
  datatype Pick = Picked(code: string) | LookupFailed | Exhausted

  /** The generate loop over the random draws `draws`, where the lookup of
      draw `failsAt` (if any) throws: the first draw no stored code uses,
      unless a lookup throws before it is reached. */
  method PickUnusedCode(codes: map<Id, AccessCode>, draws: seq<string>, failsAt: Option<nat>)
    returns (r: Pick)
    ensures r.Picked? ==>
      exists k :: 0 <= k < |draws| && draws[k] == r.code && !CodeTaken(codes, draws[k]) &&
        AllTaken(codes, draws, k) && (failsAt.None? || k < failsAt.value)
    ensures r.LookupFailed? ==>
      failsAt.Some? && failsAt.value < |draws| && AllTaken(codes, draws, failsAt.value)
    ensures r.Exhausted? ==>
      AllTaken(codes, draws, |draws|) && (failsAt.None? || failsAt.value >= |draws|)
  {
    var i := 0;
    while i < |draws|
      invariant 0 <= i <= |draws|
      invariant AllTaken(codes, draws, i)
      invariant failsAt.None? || failsAt.value >= i
    {
      if failsAt == Some(i) {
        return LookupFailed;
      }
      var code := draws[i];
      if !CodeTaken(codes, code) {
        return Picked(code);
      }
      i := i + 1;
    }
    return Exhausted;
  }

  /** POST /access-codes/generate: picks an unused random code, then stores
      it with the request's customer fields and the defaults. A lookup that
      throws, or a failing save, answers 500 and stores nothing. */
  method GenerateAccessCode(db: Store, id: Id, draws: seq<string>, failsAt: Option<nat>,
                            req: CodeRequest, now: Time, fails: bool) returns (r: CodeReply)
    requires db.Valid() && id !in db.accessCodes
    modifies db`accessCodes
    ensures db.Valid()
    // the stored record is built from the first unused draw
    ensures r.CodeSaved? ==>
      exists k :: 0 <= k < |draws| && r.accessCode == CodeRecord(draws[k], req, now) &&
        !CodeTaken(old(db.accessCodes), draws[k]) && AllTaken(old(db.accessCodes), draws, k)
    ensures r.CodeSaved? ==>
      && !CodeTaken(old(db.accessCodes), r.accessCode.code)
      && r.accessCode.isActive && r.accessCode.usageCount == 0
      && db.accessCodes == old(db.accessCodes)[id := r.accessCode]
    ensures !r.CodeSaved? ==> r.CodeFailed? && db.accessCodes == old(db.accessCodes)
    // a failing save answers 500 and stores nothing
    ensures fails ==> r.CodeFailed? && db.accessCodes == old(db.accessCodes)
    // a throwing lookup before an unused draw is reached answers 500
    ensures failsAt.Some? && failsAt.value < |draws| && AllTaken(old(db.accessCodes), draws, failsAt.value) ==>
      r.CodeFailed?
    // with no fault and draws that are non-empty and untrimmable, some unused
    // draw means success
    ensures && !fails && failsAt.None?
            && (forall k :: 0 <= k < |draws| ==> draws[k] != "" && Trim(draws[k]) == draws[k])
            && (exists k :: 0 <= k < |draws| && !CodeTaken(old(db.accessCodes), draws[k]))
            ==> r.CodeSaved?
  {
    var pick := PickUnusedCode(db.accessCodes, draws, failsAt);
    if !pick.Picked? {
      return CodeFailed("Failed to generate access code");
    }
    var accessCode := CodeRecord(pick.code, req, now);
    r := SaveNewCode(db, id, accessCode, fails);
    if r.CodeFailed? {
      r := CodeFailed("Failed to generate access code");
    }
  }

  /** The fields PUT /access-codes/:id may carry; `None` is an absent field,
      which the update leaves alone. `expiresAt` may be sent as null. */
  datatype CodeUpdate = CodeUpdate(
    customerName: Option<string>,
    customerPhone: Option<string>,
    customerEmail: Option<string>,
    notes: Option<string>,
    isActive: Option<bool>,
    maxUsage: Option<int>,
    expiresAt: Option<Option<Time>>)

  /** The update applied to one record: the given fields replaced, and never
      the code, the usage count, the last use or the creation time. */
  function ApplyUpdate(c: AccessCode, u: CodeUpdate): (c': AccessCode)
    ensures c'.code == c.code && c'.usageCount == c.usageCount
    ensures c'.lastUsedAt == c.lastUsedAt && c'.createdAt == c.createdAt
    ensures u.customerName.Some? ==> c'.customerName == u.customerName.value
    ensures u.customerName.None? ==> c'.customerName == c.customerName
    ensures u.customerPhone.Some? ==> c'.customerPhone == u.customerPhone.value
    ensures u.customerPhone.None? ==> c'.customerPhone == c.customerPhone
    ensures u.customerEmail.Some? ==> c'.customerEmail == u.customerEmail.value
    ensures u.customerEmail.None? ==> c'.customerEmail == c.customerEmail
    ensures u.notes.Some? ==> c'.notes == u.notes.value
    ensures u.notes.None? ==> c'.notes == c.notes
    ensures u.isActive.Some? ==> c'.isActive == u.isActive.value
    ensures u.isActive.None? ==> c'.isActive == c.isActive
    ensures u.maxUsage.Some? ==> c'.maxUsage == u.maxUsage.value
    ensures u.maxUsage.None? ==> c'.maxUsage == c.maxUsage
    ensures u.expiresAt.Some? ==> c'.expiresAt == u.expiresAt.value
    ensures u.expiresAt.None? ==> c'.expiresAt == c.expiresAt
    ensures u == CodeUpdate(None, None, None, None, None, None, None) ==> c' == c
  {
    c.(customerName := Default(u.customerName, c.customerName),
       customerPhone := Default(u.customerPhone, c.customerPhone),
       customerEmail := Default(u.customerEmail, c.customerEmail),
       notes := Default(u.notes, c.notes),
       isActive := Default(u.isActive, c.isActive),
       maxUsage := Default(u.maxUsage, c.maxUsage),
       expiresAt := Default(u.expiresAt, c.expiresAt))
  }

  /** PUT /access-codes/:id: 404 for an unknown id; otherwise the update. */
  method UpdateAccessCode(db: Store, id: Id, u: CodeUpdate, fails: bool) returns (r: CodeReply)
    requires db.Valid()
    modifies db`accessCodes
    ensures db.Valid()
    ensures fails ==> r.CodeFailed? && db.accessCodes == old(db.accessCodes)
    ensures !fails && id !in old(db.accessCodes) ==> r == CodeNotFound && db.accessCodes == old(db.accessCodes)
    ensures !fails && id in old(db.accessCodes) ==>
      && r == CodeSaved(ApplyUpdate(old(db.accessCodes)[id], u))
      && db.accessCodes == old(db.accessCodes)[id := r.accessCode]
  {
    if fails {
      return CodeFailed("Failed to update access code");
    }
    if id !in db.accessCodes {
      return CodeNotFound;
    }
    var accessCode := ApplyUpdate(db.accessCodes[id], u);
    UniqueCodesAfterUpdate(db.accessCodes, id, accessCode);
    db.accessCodes := db.accessCodes[id := accessCode];
    return CodeSaved(accessCode);
  }

  /** Removing a record keeps the index unique. */
  lemma RemoveKeepsCodesUnique(codes: map<Id, AccessCode>, id: Id)
    requires UniqueCodes(codes)
    ensures UniqueCodes(codes - {id})
  {
    forall a, b | SameCode(codes - {id}, a, b) ensures a == b {
      assert SameCode(codes, a, b);
    }
  }

  /** DELETE /access-codes/:id: removes the record, or 404. */
  method DeleteAccessCode(db: Store, id: Id, fails: bool) returns (r: CodeReply)
    requires db.Valid()
    modifies db`accessCodes
    ensures db.Valid()
    ensures fails ==> r.CodeFailed? && db.accessCodes == old(db.accessCodes)
    ensures !fails && id !in old(db.accessCodes) ==> r == CodeNotFound && db.accessCodes == old(db.accessCodes)
    ensures !fails && id in old(db.accessCodes) ==> r == CodeDeleted && db.accessCodes == old(db.accessCodes) - {id}
  {
    if fails {
      return CodeFailed("Failed to delete access code");
    }
    if id !in db.accessCodes {
      return CodeNotFound;
    }
    RemoveKeepsCodesUnique(db.accessCodes, id);
    db.accessCodes := db.accessCodes - {id};
    return CodeDeleted;
  }

  /** `accessCode.isActive = !accessCode.isActive`. */
  function Toggle(c: AccessCode): (c': AccessCode)
    ensures c'.isActive == !c.isActive
    ensures c' == c.(isActive := c'.isActive)
  {
    c.(isActive := !c.isActive)
  }

  /** Toggling twice restores the record. */
  lemma ToggleTwiceRestores(c: AccessCode)
    ensures Toggle(Toggle(c)) == c
  {
  }

  /** A deactivated code admits no one; toggling it back on restores its
      validity. */
  lemma ToggleControlsValidity(c: AccessCode, now: Time)
    ensures c.isActive ==> !IsValid(Toggle(c), now)
    ensures !c.isActive ==> (IsValid(Toggle(c), now) <==> !Expired(c, now) && !UsageExhausted(c))
  {
  }

  /** PATCH /access-codes/:id/toggle: flips `isActive` and saves; a lookup
      that throws (`findFails`, which includes an id that is not an ObjectId)
      answers 500; 404 for an unknown id; a failing save keeps the record. */
  method ToggleAccessCode(db: Store, id: Id, findFails: bool, fails: bool) returns (r: CodeReply)
    requires db.Valid()
    modifies db`accessCodes
    ensures db.Valid()
    ensures findFails ==> r.CodeFailed? && db.accessCodes == old(db.accessCodes)
    ensures !findFails && id !in old(db.accessCodes) ==>
      r == CodeNotFound && db.accessCodes == old(db.accessCodes)
    ensures !findFails && id in old(db.accessCodes) && fails ==>
      r.CodeFailed? && db.accessCodes == old(db.accessCodes)
    ensures !findFails && id in old(db.accessCodes) && !fails ==>
      && r == CodeSaved(Toggle(old(db.accessCodes)[id]))
      && db.accessCodes == old(db.accessCodes)[id := r.accessCode]
  {
    if findFails {
      return CodeFailed("Failed to toggle access code");
    }
    if id !in db.accessCodes {
      return CodeNotFound;
    }
    var accessCode := db.accessCodes[id];
    accessCode := Toggle(accessCode);
    if fails {
      return CodeFailed("Failed to toggle access code");
    }
    UniqueCodesAfterUpdate(db.accessCodes, id, accessCode);
    db.accessCodes := db.accessCodes[id := accessCode];
    return CodeSaved(accessCode);
  }
}
