/** The access-code document: a shared credential with an on/off switch, an
    optional expiry instant and an optional usage limit (0 means unlimited). */
module AccessCodeModel {
  import opened Common
  import opened Strings

  datatype AccessCode = AccessCode(
    code: string,
    customerName: string,
    customerPhone: string,
    customerEmail: string,
    notes: string,
    isActive: bool,
    usageCount: nat,
    maxUsage: int,
    lastUsedAt: Option<Time>,
    expiresAt: Option<Time>,
    createdAt: Time)

  /** A document built from only a code: the schema trims `code` and fills
      every other field with its default. */
  function NewAccessCode(code: string, now: Time): (c: AccessCode)
    ensures c.code == Trim(code)
    ensures c.customerName == c.customerPhone == c.customerEmail == c.notes == ""
    ensures c.isActive && c.usageCount == 0 && c.maxUsage == 0
    ensures c.lastUsedAt == None && c.expiresAt == None && c.createdAt == now
  {
    AccessCode(Trim(code), "", "", "", "", true, 0, 0, None, None, now)
  }

  /** `expiresAt && new Date() > expiresAt`: strictly past the expiry instant. */
  predicate Expired(c: AccessCode, now: Time) {
    c.expiresAt.Some? && now > c.expiresAt.value
  }

  /** `maxUsage > 0 && usageCount >= maxUsage`. */
  predicate UsageExhausted(c: AccessCode) {
    c.maxUsage > 0 && c.usageCount >= c.maxUsage
  }

  /** `isValid`: the three checks in the order the document method makes
      them, each returning false early. */
  function IsValid(c: AccessCode, now: Time): (ok: bool)
    ensures ok <==> c.isActive && !Expired(c, now) && !UsageExhausted(c)
  {
    if !c.isActive then false
    else if c.expiresAt.Some? && now > c.expiresAt.value then false
    else if c.maxUsage > 0 && c.usageCount >= c.maxUsage then false
    else true
  }

  /** `recordUsage`: one more use, stamped with the current time; every other
      field is kept. */
  function RecordUsage(c: AccessCode, now: Time): (c': AccessCode)
    ensures c'.usageCount == c.usageCount + 1 && c'.lastUsedAt == Some(now)
    ensures c' == c.(usageCount := c'.usageCount, lastUsedAt := c'.lastUsedAt)
  {
    c.(usageCount := c.usageCount + 1, lastUsedAt := Some(now))
  }

  /** A deactivated code is invalid whatever its expiry and usage. */
  lemma InactiveIsInvalid(c: AccessCode, now: Time)
    requires !c.isActive
    ensures !IsValid(c, now)
  {
  }

  /** The expiry comparison is strict: the code is still usable at the
      expiry instant itself and unusable one millisecond later. */
  lemma ExpiryIsStrict(c: AccessCode)
    requires c.isActive && !UsageExhausted(c) && c.expiresAt.Some?
    ensures IsValid(c, c.expiresAt.value)
    ensures !IsValid(c, c.expiresAt.value + 1)
  {
  }

  /** A limit of 0 never exhausts the code. */
  lemma ZeroMaxUsageIsUnlimited(c: AccessCode, now: Time)
    requires c.maxUsage == 0 && c.isActive && !Expired(c, now)
    ensures IsValid(c, now) && IsValid(RecordUsage(c, now), now)
  {
  }

  /** A freshly created code is valid at every instant. */
  lemma NewCodeIsValid(code: string, created: Time, now: Time)
    ensures IsValid(NewAccessCode(code, created), now)
  {
  }

  /** Recording a use only after `isValid` holds never lifts the count past a
      positive limit. */
  lemma RecordUsageWithinLimit(c: AccessCode, now: Time)
    requires IsValid(c, now) && c.maxUsage > 0
    ensures RecordUsage(c, now).usageCount <= c.maxUsage
  {
  }

  /** One login attempt as it affects the stored code: a use is recorded
      exactly when the code is valid. */
  function Redeem(c: AccessCode, now: Time): (c': AccessCode)
    ensures IsValid(c, now) ==> c' == RecordUsage(c, now)
    ensures !IsValid(c, now) ==> c' == c
  {
    if IsValid(c, now) then RecordUsage(c, now) else c
  }

  /** A series of login attempts with the same code, at the given instants. */
  function RedeemAll(c: AccessCode, times: seq<Time>): AccessCode
    decreases |times|
  {
    if times == [] then c else RedeemAll(Redeem(c, times[0]), times[1..])
  }

  /** Attempts never change anything but the usage count and the last-use
      stamp, and the count never goes down. */
  lemma {:induction false} RedeemAllKeepsSettings(c: AccessCode, times: seq<Time>)
    ensures var c' := RedeemAll(c, times);
      && c' == c.(usageCount := c'.usageCount, lastUsedAt := c'.lastUsedAt)
      && c.usageCount <= c'.usageCount <= c.usageCount + |times|
    decreases |times|
  {
    if times != [] {
      RedeemAllKeepsSettings(Redeem(c, times[0]), times[1..]);
    }
  }

  /** However many attempts are made, a positive limit is never exceeded. */
  lemma {:induction false} RedeemAllWithinLimit(c: AccessCode, times: seq<Time>)
    requires c.maxUsage > 0 && c.usageCount <= c.maxUsage
    ensures RedeemAll(c, times).usageCount <= c.maxUsage
    decreases |times|
  {
    if times != [] {
      RedeemAllWithinLimit(Redeem(c, times[0]), times[1..]);
    }
  }

  /** An active, non-expiring code with limit `maxUsage` accepts exactly the
      uses it has left: after that many attempts the count equals the limit
      and every later attempt is refused. */
  lemma {:induction false} LimitReachedAfterRemainingUses(c: AccessCode, times: seq<Time>, later: Time)
    requires c.isActive && c.expiresAt == None
    requires c.maxUsage > 0 && c.usageCount <= c.maxUsage
    requires |times| == c.maxUsage - c.usageCount
    ensures RedeemAll(c, times).usageCount == c.maxUsage
    ensures !IsValid(RedeemAll(c, times), later)
    decreases |times|
  {
    if times != [] {
      LimitReachedAfterRemainingUses(Redeem(c, times[0]), times[1..], later);
    }
  }
}
