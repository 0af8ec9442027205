/** The visitor login endpoints: POST /access (submit an access code),
    GET /check and POST /logout. */
module AuthRoutes {
  import opened Common
  import opened Strings
  import opened AccessCodeModel
  import opened AccessLogModel
  import opened Database
  import opened Sessions
  import opened AuthMiddleware

  /** Which store call throws, if any: the code lookup, the save of the code
      after `recordUsage`, or the save of the log entry. */
  datatype Fault = NoFault | LookupFails | CodeSaveFails | LogSaveFails

  /** The responses of POST /access. */
  datatype AccessReply =
    | Granted(customerName: string)
    | PasswordRequired
    | InvalidPassword
    | Deactivated
    | ExpiredCode
    | UsageLimitReached
    | ServerError
  {
    function Status(): int {
      match this
      case Granted(_) => 200
      case PasswordRequired => 400
      case ServerError => 500
      case _ => 401
    }

    function Message(): string {
      match this
      case Granted(_) => "Access granted"
      case PasswordRequired => "Password is required"
      case InvalidPassword => "Invalid password. Please try again."
      case Deactivated => "This access code has been deactivated."
      case ExpiredCode => "This access code has expired."
      case UsageLimitReached => "This access code has reached its usage limit."
      case ServerError => "Server error"
    }
  }

  /** `!password || !password.trim()`. */
  predicate IsBlankPassword(password: Option<string>) {
    password.None? || Trim(password.value) == ""
  }

  /** `AccessCode.findOne({ code })`: the id of the stored code equal to
      `code`, if any. */
  ghost function FindByCode(codes: map<Id, AccessCode>, code: string): (r: Option<Id>)
    ensures r.Some? ==> r.value in codes && codes[r.value].code == code
    ensures r.None? ==> forall id :: id in codes ==> codes[id].code != code
  {
    if exists id :: id in codes && codes[id].code == code then
      var id :| id in codes && codes[id].code == code; Some(id)
    else None
  }

  /** The message chosen for an existing code that fails `isValid`:
      deactivated, then expired, then usage limit, then the generic one. */
  function Rejection(c: AccessCode, now: Time): (r: AccessReply)
    ensures !c.isActive ==> r == Deactivated
    ensures c.isActive && Expired(c, now) ==> r == ExpiredCode
    ensures c.isActive && !Expired(c, now) && UsageExhausted(c) ==> r == UsageLimitReached
    ensures IsValid(c, now) ==> r == InvalidPassword
  {
    if !c.isActive then Deactivated
    else if c.expiresAt.Some? && now > c.expiresAt.value then ExpiredCode
    else if c.maxUsage > 0 && c.usageCount >= c.maxUsage then UsageLimitReached
    else InvalidPassword
  }

  /** With one reading of the clock the generic fallback message is never
      reached: an invalid code always fails one of the three named checks. */
  lemma RejectionIsAlwaysSpecific(c: AccessCode, now: Time)
    requires !IsValid(c, now)
    ensures Rejection(c, now) in {Deactivated, ExpiredCode, UsageLimitReached}
  {
  }

  /** The log entry built for an attempt with trimmed code `t`, before its
      outcome is known. */
  function AttemptEntry(codes: map<Id, AccessCode>, found: Option<Id>, t: string,
                        ip: string, userAgent: Option<string>, now: Time): (e: AccessLogEntry)
    requires found.Some? ==> found.value in codes
    ensures e.codeUsed == t && e.accessCode == found && !e.success && e.timestamp == now
    ensures e.customerName == if found.Some? then codes[found.value].customerName else ""
  {
    NewLogEntry(now).(ipAddress := ip, userAgent := OrElse(userAgent, ""), codeUsed := t,
                      accessCode := found,
                      customerName := if found.Some? then codes[found.value].customerName else "",
                      success := false)
  }

  /** What one POST /access does to the stores: the reply, the code store
      afterwards, the log entries appended, and the code the session is bound
      to when access is granted. */
  datatype Attempt = Attempt(reply: AccessReply, codes: map<Id, AccessCode>,
                             logged: seq<AccessLogEntry>, granted: Option<Id>)

  /** The handler once the lookup has answered `found` and the log entry has
      been built: unknown code, invalid code (with the prioritised message),
      or a valid code whose use is recorded before the entry is saved as a
      success. A failing save answers 500 at the point where it happens. */
  function Decide(codes: map<Id, AccessCode>, found: Option<Id>, entry: AccessLogEntry,
                  now: Time, fault: Fault): (a: Attempt)
    requires found.Some? ==> found.value in codes
    requires !entry.success && !fault.LookupFails?
    // at most one entry, and exactly one when every save succeeds; the entry
    // is the one built beforehand, marked successful exactly on a grant
    ensures |a.logged| <= 1 && (fault.NoFault? ==> |a.logged| == 1)
    ensures forall e :: e in a.logged ==> e == entry.(success := a.granted.Some?)
    ensures a.reply.Granted? <==> a.granted.Some?
    ensures a.reply == ServerError <==> a.logged == []
    ensures a.reply == ServerError ==> !fault.NoFault?
    // unknown code: generic 401, nothing but the log changes
    ensures found.None? ==>
      && a.codes == codes && a.granted == None
      && a.reply == (if fault.LogSaveFails? then ServerError else InvalidPassword)
    // invalid code: the prioritised 401, nothing but the log changes
    ensures found.Some? && !IsValid(codes[found.value], now) ==>
      && a.codes == codes && a.granted == None
      && a.reply == (if fault.LogSaveFails? then ServerError else Rejection(codes[found.value], now))
    // a grant records exactly one use of the matched, valid code
    ensures a.granted.Some? ==> fault.NoFault?
    ensures a.granted.Some? ==> a.granted == found
    ensures a.granted.Some? ==> IsValid(codes[found.value], now)
    ensures a.granted.Some? ==>
      && a.codes == codes[found.value := RecordUsage(codes[found.value], now)]
      && a.reply == Granted(codes[found.value].customerName)
    // a failing usage save stores nothing; only a failing log save after a
    // recorded use leaves the code store changed without a grant
    ensures fault.CodeSaveFails? ==> a.codes == codes && a.granted == None
    ensures a.granted.None? && !fault.LogSaveFails? ==> a.codes == codes
  {
    if found.None? then
      if fault.LogSaveFails? then Attempt(ServerError, codes, [], None)
      else Attempt(InvalidPassword, codes, [entry], None)
    else
      var c := codes[found.value];
      if !IsValid(c, now) then
        if fault.LogSaveFails? then Attempt(ServerError, codes, [], None)
        else Attempt(Rejection(c, now), codes, [entry], None)
      else if fault.CodeSaveFails? then Attempt(ServerError, codes, [], None)
      else
        var codes' := codes[found.value := RecordUsage(c, now)];
        if fault.LogSaveFails? then Attempt(ServerError, codes', [], None)
        else Attempt(Granted(c.customerName), codes', [entry.(success := true)], found)
  }

  /** The whole of POST /access as a function of the stored codes: the blank
      check, the lookup of the trimmed code, then `Decide`. */
  ghost function AttemptSpec(codes: map<Id, AccessCode>, password: Option<string>, ip: string,
                             userAgent: Option<string>, now: Time, fault: Fault): Attempt
  {
    if IsBlankPassword(password) then Attempt(PasswordRequired, codes, [], None)
    else if fault.LookupFails? then Attempt(ServerError, codes, [], None)
    else
      var t := Trim(password.value);
      var found := FindByCode(codes, t);
      Decide(codes, found, AttemptEntry(codes, found, t, ip, userAgent, now), now, fault)
  }

  /** A blank password is refused with 400 before any lookup, log entry or
      state change. */
  lemma BlankPasswordChangesNothing(codes: map<Id, AccessCode>, password: Option<string>, ip: string,
                                    userAgent: Option<string>, now: Time, fault: Fault)
    requires password.None? || IsBlank(password.value)
    ensures AttemptSpec(codes, password, ip, userAgent, now, fault) == Attempt(PasswordRequired, codes, [], None)
    ensures PasswordRequired.Status() == 400
  {
    if password.Some? {
      TrimEmptyIffBlank(password.value);
    }
  }

  /** Every non-blank attempt whose store calls succeed logs exactly one
      entry, recording the trimmed code and the time; an entry records
      success exactly when access was granted. */
  lemma OneEntryPerAttempt(codes: map<Id, AccessCode>, password: Option<string>, ip: string,
                           userAgent: Option<string>, now: Time, fault: Fault)
    ensures var a := AttemptSpec(codes, password, ip, userAgent, now, fault);
      && |a.logged| <= 1
      && (forall e :: e in a.logged ==> (e.success <==> a.granted.Some?))
      && (!IsBlankPassword(password) && fault.NoFault? ==>
            |a.logged| == 1 && a.logged[0].codeUsed == Trim(password.value) && a.logged[0].timestamp == now)
  {
    if !IsBlankPassword(password) && !fault.LookupFails? {
      var t := Trim(password.value);
      var found := FindByCode(codes, t);
      var entry := AttemptEntry(codes, found, t, ip, userAgent, now);
      var a := Decide(codes, found, entry, now, fault);
      assert AttemptSpec(codes, password, ip, userAgent, now, fault) == a;
      assert forall e :: e in a.logged ==> e.codeUsed == t && e.timestamp == now;
    }
  }

  /** An unknown code gets 401 with the generic message; its log entry has no
      code reference, an empty customer name and records failure. */
  lemma UnknownCodeRejected(codes: map<Id, AccessCode>, password: Option<string>, ip: string,
                            userAgent: Option<string>, now: Time)
    requires !IsBlankPassword(password) && FindByCode(codes, Trim(password.value)).None?
    ensures var a := AttemptSpec(codes, password, ip, userAgent, now, NoFault);
      && a.reply == InvalidPassword && a.reply.Status() == 401
      && a.codes == codes && a.granted == None
      && |a.logged| == 1 && a.logged[0].accessCode == None && a.logged[0].customerName == ""
      && !a.logged[0].success
  {
  }

  /** An existing code that fails `isValid` is refused with the prioritised
      message; its log entry references the code and records failure; the
      code store is unchanged. */
  lemma InvalidCodeRejected(codes: map<Id, AccessCode>, password: Option<string>, ip: string,
                            userAgent: Option<string>, now: Time, id: Id)
    requires UniqueCodes(codes)
    requires !IsBlankPassword(password) && id in codes && codes[id].code == Trim(password.value)
    requires !IsValid(codes[id], now)
    ensures var a := AttemptSpec(codes, password, ip, userAgent, now, NoFault);
      && a.reply == Rejection(codes[id], now)
      && a.reply in {Deactivated, ExpiredCode, UsageLimitReached}
      && a.reply.Status() == 401
      && a.codes == codes && a.granted == None
      && |a.logged| == 1 && a.logged[0].accessCode == Some(id) && !a.logged[0].success
      && a.logged[0].customerName == codes[id].customerName
  {
    LookupIsUnique(codes, Trim(password.value), id);
    RejectionIsAlwaysSpecific(codes[id], now);
  }

  /** A valid code is accepted: its use is recorded (count up by exactly one,
      last use stamped), no other stored code changes, the log entry records
      success, and the session is bound to that code. */
  lemma ValidCodeGranted(codes: map<Id, AccessCode>, password: Option<string>, ip: string,
                         userAgent: Option<string>, now: Time, id: Id)
    requires UniqueCodes(codes)
    requires !IsBlankPassword(password) && id in codes && codes[id].code == Trim(password.value)
    requires IsValid(codes[id], now)
    ensures var a := AttemptSpec(codes, password, ip, userAgent, now, NoFault);
      && a.reply == Granted(codes[id].customerName) && a.reply.Status() == 200
      && a.granted == Some(id)
      && a.codes.Keys == codes.Keys
      && a.codes[id].usageCount == codes[id].usageCount + 1
      && a.codes[id].lastUsedAt == Some(now)
      && (codes[id].maxUsage > 0 ==> a.codes[id].usageCount <= codes[id].maxUsage)
      && (forall other :: other in codes && other != id ==> a.codes[other] == codes[other])
      && |a.logged| == 1 && a.logged[0].success && a.logged[0].accessCode == Some(id)
  {
    var t := Trim(password.value);
    LookupIsUnique(codes, t, id);
    var entry := AttemptEntry(codes, Some(id), t, ip, userAgent, now);
    assert AttemptSpec(codes, password, ip, userAgent, now, NoFault) == Decide(codes, Some(id), entry, now, NoFault);
    if codes[id].maxUsage > 0 {
      RecordUsageWithinLimit(codes[id], now);
    }
  }

  /** A store failure is answered with 500, never with a credential verdict,
      and never grants access or saves a log entry. */
  lemma StoreFailuresAreServerErrors(codes: map<Id, AccessCode>, password: Option<string>, ip: string,
                                     userAgent: Option<string>, now: Time, fault: Fault)
    ensures var a := AttemptSpec(codes, password, ip, userAgent, now, fault);
      && (a.reply == ServerError ==> a.logged == [] && a.granted == None && !fault.NoFault?)
      && (!IsBlankPassword(password) && fault.LookupFails? ==> a == Attempt(ServerError, codes, [], None))
      && (fault.CodeSaveFails? ==> a.codes == codes && a.granted == None)
  {
  }

  /** With the unique index, the lookup finds the one code that matches. */
  lemma LookupIsUnique(codes: map<Id, AccessCode>, t: string, id: Id)
    requires UniqueCodes(codes) && id in codes && codes[id].code == t
    ensures FindByCode(codes, t) == Some(id)
  {
    assert SameCode(codes, id, FindByCode(codes, t).value);
  }

  /** An attempt keeps the unique index on codes. */
  lemma AttemptKeepsCodesUnique(codes: map<Id, AccessCode>, password: Option<string>, ip: string,
                                userAgent: Option<string>, now: Time, fault: Fault)
    requires UniqueCodes(codes)
    ensures UniqueCodes(AttemptSpec(codes, password, ip, userAgent, now, fault).codes)
  {
    var a := AttemptSpec(codes, password, ip, userAgent, now, fault);
    if a.codes != codes {
      var id := FindByCode(codes, Trim(password.value)).value;
      UniqueCodesAfterUpdate(codes, id, RecordUsage(codes[id], now));
    }
  }

  /** POST /access. */
  method SubmitCode(db: Store, sess: Session, password: Option<string>, ip: string,
                    userAgent: Option<string>, now: Time, fault: Fault) returns (reply: AccessReply)
    requires db.Valid()
    modifies db`accessCodes, db`accessLog, sess
    ensures db.Valid()
    ensures var a := AttemptSpec(old(db.accessCodes), password, ip, userAgent, now, fault);
      && reply == a.reply
      && db.accessCodes == a.codes
      && db.accessLog == old(db.accessLog) + a.logged
      && (a.granted.None? ==> unchanged(sess))
      && (a.granted.Some? ==>
            && Bound(sess, old(db.accessCodes), a.granted.value, now)
            && sess.isAdmin == old(sess.isAdmin)
            && sess.adminAuthenticatedAt == old(sess.adminAuthenticatedAt)
            && sess.cookieMaxAge == old(sess.cookieMaxAge))
    ensures reply.Granted? ==> RequireAuth(sess).Next?
  {
    if password.None? || Trim(password.value) == "" {
      return PasswordRequired;
    }
    var t := Trim(password.value);
    if fault.LookupFails? {
      return ServerError;
    }
    var found: Option<Id> := None;
    if exists id :: id in db.accessCodes && db.accessCodes[id].code == t {
      var id :| id in db.accessCodes && db.accessCodes[id].code == t;
      LookupIsUnique(db.accessCodes, t, id);
      found := Some(id);
    }
    var logEntry := AttemptEntry(db.accessCodes, found, t, ip, userAgent, now);
    reply := Settle(db, sess, found, logEntry, now, fault);
  }

  /** After a grant: the session is authenticated now, bound to code `id`
      and its customer name. (That the admin fields are untouched is stated
      beside each use, since it compares with the session before.) */
  ghost predicate Bound(sess: Session, codes: map<Id, AccessCode>, id: Id, now: Time)
    requires id in codes
    reads sess
  {
    && sess.isAuthenticated && sess.authenticatedAt == Some(now)
    && sess.accessCodeId == Some(id)
    && sess.customerName == Some(codes[id].customerName)
  }

  /** The part of POST /access after the lookup: log, check, record the use,
      bind the session. */
  method Settle(db: Store, sess: Session, found: Option<Id>, logEntry: AccessLogEntry,
                now: Time, fault: Fault) returns (reply: AccessReply)
    requires db.Valid()
    requires found.Some? ==> found.value in db.accessCodes
    requires !logEntry.success && !fault.LookupFails?
    modifies db`accessCodes, db`accessLog, sess
    ensures db.Valid()
    ensures var a := Decide(old(db.accessCodes), found, logEntry, now, fault);
      && reply == a.reply
      && db.accessCodes == a.codes
      && db.accessLog == old(db.accessLog) + a.logged
      && (a.granted.None? ==> unchanged(sess))
      && (a.granted.Some? ==>
            && Bound(sess, old(db.accessCodes), a.granted.value, now)
            && sess.isAdmin == old(sess.isAdmin)
            && sess.adminAuthenticatedAt == old(sess.adminAuthenticatedAt)
            && sess.cookieMaxAge == old(sess.cookieMaxAge))
  {
    if found.None? {
      if fault.LogSaveFails? {
        return ServerError;
      }
      db.accessLog := db.accessLog + [logEntry];
      return InvalidPassword;
    }

    var id := found.value;
    var accessCode := db.accessCodes[id];
    if !IsValid(accessCode, now) {
      if fault.LogSaveFails? {
        return ServerError;
      }
      db.accessLog := db.accessLog + [logEntry];
      if !accessCode.isActive {
        return Deactivated;
      }
      if accessCode.expiresAt.Some? && now > accessCode.expiresAt.value {
        return ExpiredCode;
      }
      if accessCode.maxUsage > 0 && accessCode.usageCount >= accessCode.maxUsage {
        return UsageLimitReached;
      }
      return InvalidPassword;
    }

    // recordUsage: bump the counter on the loaded document, then save it
    accessCode := RecordUsage(accessCode, now);
    if fault.CodeSaveFails? {
      return ServerError;
    }
    UniqueCodesAfterUpdate(db.accessCodes, id, accessCode);
    db.accessCodes := db.accessCodes[id := accessCode];

    var entry := logEntry.(success := true);
    if fault.LogSaveFails? {
      return ServerError;
    }
    db.accessLog := db.accessLog + [entry];

    sess.isAuthenticated := true;
    sess.authenticatedAt := Some(now);
    sess.accessCodeId := Some(id);
    sess.customerName := Some(accessCode.customerName);
    return Granted(accessCode.customerName);
  }

  /** The body of GET /check. */
  datatype CheckReply = CheckReply(authenticated: bool, authenticatedAt: Option<Time>,
                                   customerName: Option<string>)

  /** GET /check: reads the session only, and reports authenticated exactly
      when the visitor gate would let the request through. */
  function Check(s: Session?): (r: CheckReply)
    reads s
    ensures r.authenticated <==> s != null && s.isAuthenticated
    ensures r.authenticated <==> RequireAuth(s).Next?
    ensures r.authenticated ==> r.authenticatedAt == s.authenticatedAt && r.customerName == s.customerName
    ensures !r.authenticated ==> r.authenticatedAt == None && r.customerName == None
  {
    if s != null && s.isAuthenticated then CheckReply(true, s.authenticatedAt, s.customerName)
    else CheckReply(false, None, None)
  }

  datatype LogoutReply = LoggedOut | CouldNotLogOut {
    function Status(): int {
      if LoggedOut? then 200 else 500
    }
  }

  /** POST /logout: destroys the whole session (visitor and admin state); if
      the session store fails, answers 500 and keeps the session. */
  method Logout(sess: Session, destroyFails: bool) returns (reply: LogoutReply)
    modifies sess
    ensures destroyFails ==> reply == CouldNotLogOut && unchanged(sess)
    ensures !destroyFails ==> reply == LoggedOut && sess.IsCleared()
    ensures !destroyFails ==> RequireAuth(sess).Reject? && RequireAdmin(sess).Reject?
  {
    if destroyFails {
      return CouldNotLogOut;
    }
    sess.isAuthenticated := false;
    sess.authenticatedAt := None;
    sess.accessCodeId := None;
    sess.customerName := None;
    sess.isAdmin := false;
    sess.adminAuthenticatedAt := None;
    return LoggedOut;
  }
}
