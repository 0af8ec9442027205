# Kuwait Founder backend — a verified model of its core logic

The Kuwait Founder backend is an Express/Mongoose service. It serves a playbook
for new founders: sections, checklists and a directory of service providers.
The directory sits behind a visitor gate. A visitor enters an access code. The
code is looked up, checked (active, not expired, under its usage limit) and
logged. On success the visitor's session is marked authenticated. A separate
admin password guards the admin routes. Those routes manage providers,
categories, checklists and the access codes themselves.

This project models that logic in Dafny and proves what it promises:

- the access-code document and its validity check;
- the login state machine over the code store, the access log and the session;
- the two route guards;
- the provider filter compiler with its evaluator, and the listing order;
- per-session checklist progress (upsert and reset);
- the admin helpers:
  - slug derivation;
  - category and `bestFor` parsing;
  - the upload file filter;
  - access-code create, generate, update, delete and toggle;
  - category create, update and delete;
  - admin login and logout;
- the section and checklist documents with their slug-on-save hook.

The document store is one class (`Database.Store`) with one field per
collection. The route handlers that write to it are methods whose `modifies`
clauses name the collections they touch. The session is a class whose fields
the handlers set one by one. The pure parts of the code (validity, parsing,
slugs, filter meaning, ordering) are functions, with lemmas relating them.
Every store call of a modelled handler that can throw (a lookup, a count,
a save, a delete) is a boolean or `Fault` parameter that selects the
handler's 500 path. The lookups inside the generate loop throw at a chosen
draw, `failsAt`. The current time is an
integer parameter, read once per request.

Where the code does less than a reader of the service might expect, the
model follows the code:

- The public listing has no `limit`, `skip`, `seed`, pagination or shuffle.
  `routes/providers.js` reads only `search`, `category` and `priceRange`,
  and sorts featured first, then newest first. The model does the same.
- Category deletion should be blocked while any provider refers to the
  category, since the listing filter treats both category fields alike. The
  code counts only the legacy single `category` field. This is modelled as
  written and reported under Findings.
- A category's slug is not fixed once set: the category update route
  rewrites it from the new name. The model does the same.

## Model

| member | source | states |
|---|---|---|
| Strings.Trim | routes/auth.js:19 | the result is a contiguous piece of the input with no white space at either end |
| Strings.TrimRemovesOnlyEnds | routes/auth.js:19 | `trim()` removes only white space, and only before and after the piece it keeps: every character outside the result is white space |
| Strings.TrimEmptyIffBlank | routes/auth.js:11 | `password.trim()` is empty exactly when the password is all white space |
| Strings.TrimIdempotent | models/AccessCode.js:4-9 | trimming an already trimmed code changes nothing, so the schema's `trim` on a trimmed code is a no-op |
| Strings.Split | routes/providers.js:46 | `split(',')` yields at least one piece, and no piece contains the separator |
| Strings.SplitJoin | routes/providers.js:46 | joining the pieces of a split with the separator gives back the input |
| Strings.Contains | routes/providers.js:15-16 | true exactly when the pattern occurs at some position of the text |
| Slug.Slugify | routes/admin.js:236 | the slug has only a-z, 0-9 and '-', never two '-' in a row, and no '-' at either end |
| Slug.WordsAreWords | routes/admin.js:236 | every entry of the word list is a non-empty run of a-z and 0-9 |
| Slug.CollapseWords | routes/admin.js:236 | `replace(/[^a-z0-9]+/g, '-')` on a string that starts with a word gives its words joined by single hyphens, plus one hyphen when it ends outside [a-z0-9] |
| Slug.CollapseTail | routes/admin.js:236 | the same replacement on a string that starts outside [a-z0-9] puts one hyphen before the joined words; with no word it gives at most one hyphen |
| Slug.SlugifyJoinsWords | routes/admin.js:236 | the slug is exactly the maximal runs of a-z and 0-9 of the lower-cased input, in order, joined by single hyphens, or '' when there are none |
| Slug.SlugifyOfSlug | routes/admin.js:236 | any string that is already a slug is its own slug |
| Slug.SlugifyIdempotent | routes/admin.js:236 | the slug of a slug is the slug |
| Slug.SlugIsLower | models/Checklist.js:21-27 | the `lowercase` setter leaves a slug unchanged |
| Slug.SlugIsTrimmed | models/Checklist.js:21-27 | the `trim` setter leaves a slug unchanged |
| AccessCodeModel.NewAccessCode | models/AccessCode.js:3-50 | code trimmed; customer fields ''; active; usage 0; limit 0; last use and expiry null; created now |
| AccessCodeModel.IsValid | models/AccessCode.js:58-69 | valid exactly when active, not past the expiry, and not at a positive usage limit |
| AccessCodeModel.RecordUsage | models/AccessCode.js:72-76 | the usage count rises by exactly 1, the last use is now, and no other field changes |
| AccessCodeModel.InactiveIsInvalid | models/AccessCode.js:60 | an inactive code is invalid whatever its expiry and usage |
| AccessCodeModel.ExpiryIsStrict | models/AccessCode.js:63 | a code is still valid at its expiry instant and invalid one millisecond later |
| AccessCodeModel.ZeroMaxUsageIsUnlimited | models/AccessCode.js:66 | with limit 0 an active, unexpired code stays valid after a use |
| AccessCodeModel.NewCodeIsValid | models/AccessCode.js:26-45 | a freshly created code is valid at every instant |
| AccessCodeModel.RecordUsageWithinLimit | models/AccessCode.js:72-76 | a use recorded only when the code is valid and has a positive limit never takes the count past the limit |
| AccessCodeModel.Redeem | routes/auth.js:41-71 | an attempt records a use exactly when the code is valid, and otherwise leaves it alone |
| AccessCodeModel.RedeemAllKeepsSettings | routes/auth.js:71 | any series of attempts changes only the count and the last use; the count rises by at most one per attempt |
| AccessCodeModel.RedeemAllWithinLimit | models/AccessCode.js:66 | however many attempts are made, a positive limit is never exceeded |
| AccessCodeModel.LimitReachedAfterRemainingUses | models/AccessCode.js:66 | an active, non-expiring code accepts exactly its remaining uses, then refuses every later attempt |
| AccessLogModel.NewLogEntry | models/AccessLog.js:3-35 | a new entry has no code reference, '' strings, the creation time, and `success` true |
| UserProgressModel.NewUserProgress | routes/progress.js:28-33 | a new progress document has the session id, `visitorId` '' and an empty list |
| UserProgressModel.NewProgressValidatesIffSession | models/UserProgress.js:3-27 | a new progress document passes validation exactly when it has a session id |
| ServiceProviderModel.ParsePriceRange | models/ServiceProvider.js:25-29 | the enum accepts exactly the names of budget, mid and premium |
| ServiceProviderModel.PriceRangeRoundTrip | models/ServiceProvider.js:25-29 | parsing the stored name of a price range gives it back |
| ServiceProviderModel.NewProvider | models/ServiceProvider.js:3-56 | saves exactly when the trimmed name is non-empty and a given price range is valid; then the id, the trimmed name, each given string (description, logo, notes, contacts) or '', both category fields as given, the given price range or mid, the given `featured` or false, each `bestFor` entry trimmed, and both timestamps now |
| Database.UniqueCodesAfterUpdate | models/AccessCode.js:4-9 | rewriting a stored code without changing its code string keeps the unique index |
| AuthMiddleware.RequireAuth | middleware/auth.js:2-7 | passes exactly when a session exists with `isAuthenticated` set; otherwise 401 "Unauthorized. Please log in." |
| AuthMiddleware.RequireAdmin | middleware/auth.js:10-15 | passes exactly when a session exists with `isAdmin` set; otherwise 401 "Admin access required." |
| AuthMiddleware.GatesAreIndependent | middleware/auth.js:2-15 | the admin flag alone does not pass the visitor gate, and the visitor flag alone does not pass the admin gate |
| AuthMiddleware.NoSessionIsRefused | middleware/auth.js:2-15 | without a session both gates answer 401 |
| AuthRoutes.FindByCode | routes/auth.js:19 | the lookup returns a stored id with exactly that code, or none when no stored code has it |
| AuthRoutes.Rejection | routes/auth.js:45-67 | an invalid code's message in priority order: deactivated, then expired, then usage limit |
| AuthRoutes.RejectionIsAlwaysSpecific | routes/auth.js:45-67 | for an invalid code one of the three specific messages is always chosen, so the generic fallback is never reached |
| AuthRoutes.AttemptEntry | routes/auth.js:22-29 | the log entry records the trimmed code, the code's id and customer name (or null and ''), and failure |
| AuthRoutes.Decide | routes/auth.js:32-85 | at most one entry is logged, exactly one without a fault; success is logged only on a grant; unknown and invalid codes are refused with the store unchanged; a grant records one use |
| AuthRoutes.BlankPasswordChangesNothing | routes/auth.js:11-16 | a missing or blank password gets 400 with no lookup, no log entry and no change |
| AuthRoutes.OneEntryPerAttempt | routes/auth.js:19-74 | every attempt logs at most one entry, exactly one with the trimmed code when no store call fails; the entry records success exactly on a grant |
| AuthRoutes.UnknownCodeRejected | routes/auth.js:32-38 | an unknown code gets 401 "Invalid password"; its entry has no code and customer ''; nothing else changes |
| AuthRoutes.InvalidCodeRejected | routes/auth.js:41-67 | an existing invalid code gets 401 with the prioritised message; its entry references the code; codes unchanged |
| AuthRoutes.ValidCodeGranted | routes/auth.js:71-85 | a valid code is granted: its count rises by one, its last use is now, a limit is never exceeded, no other code changes, and the entry records success |
| AuthRoutes.StoreFailuresAreServerErrors | routes/auth.js:87-90 | a throwing store call gives 500, logs nothing and grants nothing; a failed use save leaves the codes unchanged |
| AuthRoutes.LookupIsUnique | models/AccessCode.js:4-9 | with the unique index the lookup returns the one code that matches |
| AuthRoutes.AttemptKeepsCodesUnique | routes/auth.js:71 | an attempt keeps the unique index on codes |
| AuthRoutes.SubmitCode | routes/auth.js:7-91 | POST /access does what `AttemptSpec` says to the codes, the log and the session; a grant binds the session to the code, opens the visitor gate, and leaves the admin flag, admin login time and cookie lifetime unchanged |
| AuthRoutes.Settle | routes/auth.js:32-85 | after the lookup: log, check, record the use and set the session as `Decide` says; the admin fields are never touched |
| AuthRoutes.Check | routes/auth.js:94-103 | reports authenticated exactly when the visitor gate passes, with the session's time and name, and reads nothing else |
| AuthRoutes.Logout | routes/auth.js:106-114 | destroying the session clears every flag and closes both gates; a failed destroy gives 500 and changes nothing |
| ProviderRoutes.EverythingMatches | routes/providers.js:10 | the empty filter `{}` matches every provider |
| ProviderRoutes.LeafMeaning | routes/providers.js:54 | a one-field filter means its condition |
| ProviderRoutes.EitherMeaning | routes/providers.js:14-17 | an `$or` of two filters matches when either does |
| ProviderRoutes.BothMeaning | routes/providers.js:30-38 | an `$and` of two filters matches when both do |
| ProviderRoutes.PushMeaning | routes/providers.js:50 | `$and.push(g)` conjoins `g` to the filter |
| ProviderRoutes.AddFieldMeaning | routes/providers.js:54 | setting one more field conjoins its condition |
| ProviderRoutes.SearchOrMeaning | routes/providers.js:13-18 | the search clause matches when the term occurs, ignoring case, in the name or the description |
| ProviderRoutes.CategoryOrMeaning | routes/providers.js:21-27 | the category clause matches when the legacy `category` is the id or `categories` contains it |
| ProviderRoutes.CompileFilter | routes/providers.js:8-56 | for every subset of parameters, the compiled filter matches exactly the providers that satisfy all supplied clauses; with none it is `{}` |
| ProviderRoutes.Select | routes/providers.js:59 | `find(filter)` returns exactly the stored providers the filter matches |
| ProviderRoutes.SelectByMeaning | routes/providers.js:59 | two filters with the same meaning select the same providers |
| ProviderRoutes.NoParametersListsAll | routes/providers.js:8-62 | with no search, category or price range, every stored provider is listed |
| ProviderRoutes.Rank | routes/providers.js:61 | the sort result is ranked featured first, then newest first, and is a permutation of its input |
| ProviderRoutes.FeaturedFirst | routes/providers.js:61 | in a ranked list every featured provider precedes every non-featured one |
| ProviderRoutes.NewestFirst | routes/providers.js:61 | in a ranked list, among equally featured providers, the newer comes first |
| ProviderRoutes.ListProviders | routes/providers.js:6-69 | GET / returns exactly the matching providers (as a multiset), ranked; a failing store gives 500 |
| ProviderRoutes.GetProvider | routes/providers.js:72-84 | GET /:id returns a stored provider with that id, 404 exactly when none has it, 500 when the store fails |
| ProviderRoutes.GetProviderIsUnique | routes/providers.js:74 | with unique ids, GET /:id returns the one provider with that id |
| ProgressRoutes.IndexOf | routes/progress.js:36-38 | `findIndex` gives the first entry for the checklist, or -1 exactly when there is none |
| ProgressRoutes.FindIndex | routes/progress.js:36-38 | the front-to-back scan returns the `findIndex` answer |
| ProgressRoutes.IndexOfFirst | routes/progress.js:36-38 | an entry for the checklist with none before it is the one `findIndex` names |
| ProgressRoutes.Without | routes/progress.js:63-65 | reset keeps exactly the entries of the other checklists |
| ProgressRoutes.WithoutCons | routes/progress.js:63-65 | the filter keeps the first entry exactly when it is for another checklist, then filters the rest |
| ProgressRoutes.WithoutAppend | routes/progress.js:63-65 | resetting a concatenation is the concatenation of the resets |
| ProgressRoutes.UpsertAbsentAppends | routes/progress.js:43-47 | saving for a checklist not yet present appends exactly one entry at the end |
| ProgressRoutes.UpsertPresentReplacesFirst | routes/progress.js:40-41 | saving for a present checklist replaces the items of its first entry only; length and every other entry stay |
| ProgressRoutes.UpsertThenLookup | routes/progress.js:40-47 | after a save, looking the checklist up yields the submitted items |
| ProgressRoutes.UpsertKeepsDistinct | routes/progress.js:40-47 | if no checklist appears twice before a save, none appears twice after it |
| ProgressRoutes.WithoutKeepsOrder | routes/progress.js:63-65 | reset twice equals reset once, and the entries of every other checklist keep their values and order |
| ProgressRoutes.WithoutAbsent | routes/progress.js:63-65 | reset of a checklist with no entry leaves the list unchanged |
| ProgressRoutes.GetProgress | routes/progress.js:7-19 | 401 behind the gate; 500 on a store failure; the session's list, or an empty list when it has no document |
| ProgressRoutes.SaveProgress | routes/progress.js:22-55 | stores the upserted list under the session, keeping a stored `visitorId` ('' for a new document) and changing no other document; 401 behind the gate; 500 with nothing stored on a failure or a missing session or checklist id |
| ProgressRoutes.ResetProgress | routes/progress.js:58-73 | removes the checklist's entries from the session's document if there is one, and reports success either way |
| AdminSession.AdminAuth | routes/admin.js:37-63 | no configured secret: 500 and no change; the exact secret sets the admin flag, time and 24-hour cookie; anything else 401 and no change; visitor fields never change |
| AdminSession.AdminCheck | routes/admin.js:66-74 | reports admin exactly when the admin gate passes, with the admin login time |
| AdminSession.AdminLogout | routes/admin.js:77-81 | clears only the admin flag and its time; a visitor login survives |
| UploadFilter.ExtNameShape | routes/admin.js:21 | the extension `path.extname` gives is empty or a '.' with no further '.' or '/', and is a suffix of the name |
| UploadFilter.FileFilter | routes/admin.js:19-27 | accepts exactly when the lower-cased extension and the MIME type both mention an image format; else "Only image files are allowed" |
| UploadFilter.NoExtensionRefused | routes/admin.js:21 | a name without '.' is refused whatever its MIME type |
| UploadFilter.UpperCaseMimeTypeRefused | routes/admin.js:22 | the MIME test is case-sensitive: a type with no lower-case letter is refused |
| UploadFilter.NoLowerCaseMentionsNoImage | routes/admin.js:20 | a text with no lower-case letter mentions no image format |
| ProviderForm.ParseCategories | routes/admin.js:131-141 | the list comes from `categories` (its JSON list, or the raw text alone), else from `category` alone, else is empty |
| ProviderForm.LegacyCategory | routes/admin.js:146 | the first listed category when there is one and it is not '', else null |
| ProviderForm.ParseBestFor | routes/admin.js:147 | the comma-split field with each piece trimmed, or empty when the field is absent or '' |
| ProviderForm.BestForEntriesAreClean | routes/admin.js:147 | every parsed `bestFor` entry is trimmed and free of commas |
| ProviderForm.BestForRoundTrip | routes/admin.js:147 | when no piece has spaces around it, joining the parsed list with commas gives back the field |
| ProviderForm.ProviderData | routes/admin.js:143-154 | the saved data carry the parsed lists, the legacy category from the list, and an uploaded logo in place of the field |
| ProviderForm.FormKeepsCategoriesConsistent | routes/admin.js:143-150 | on a provider built from the form the legacy category is in the list, so the listing's category match agrees with the list alone |
| ProviderForm.BuildProvider | routes/admin.js:143-155 | the document built from the form carries the store's id |
| ProviderForm.CreateProvider | routes/admin.js:128-163 | stores the built provider at the end of the collection, keeping ids unique; a refused document or store failure gives 500 and stores nothing |
| CategoryAdmin.CreateCategory | routes/admin.js:233-243 | stores the name with its slug (a valid slug) and the order; a missing name or store failure gives 500 and stores nothing |
| CategoryAdmin.UpdateCategory | routes/admin.js:246-262 | rewrites the name and slug, and the order when given; 404 for an unknown id; 500 on a missing name |
| CategoryAdmin.LegacyUsers | routes/admin.js:268 | the count is 0 exactly when no provider's legacy `category` is the id |
| CategoryAdmin.ReferencingUsers | routes/admin.js:268 | the count is 0 exactly when no provider refers to the category in either field; it is never below the legacy count |
| CategoryAdmin.DecimalRoundTrip | routes/admin.js:271 | the digits written for a count read back as the same number |
| CategoryAdmin.InUseMessage | routes/admin.js:269-273 | the 400 message is "Cannot delete category. ", the count in decimal, then " provider(s) are using it." |
| CategoryAdmin.DeleteCategory | routes/admin.js:265-282 | as written: a throwing count gives 500; a positive legacy count gives 400 with that count and its message, store unchanged; else deleted, 404 for an unknown id, or 500 when the delete fails |
| CategoryAdmin.LegacyGuardMissesListedUse | routes/admin.js:268 | a provider the form built with primary category a and categories [a, id] is not counted for id, yet the listing finds it under id |
| CategoryAdmin.DeleteCategoryChecked | routes/admin.js:265-282 | with the guard counting both fields: the same replies, and a deleted category is referred to by no provider |
| Common.OrZero | routes/admin.js:397 | a missing or zero `maxUsage` (and category `order` at routes/admin.js:237) falls back to 0; any other given number is kept |
| AccessCodeAdmin.CodeRecord | routes/admin.js:391-399 | the new record: trimmed code, customer strings '' when absent or empty, limit 0 when absent, no expiry when absent, active, unused, created now |
| AccessCodeAdmin.NewRecordValidUntilExpiry | routes/admin.js:391-399 | a created code is valid exactly until its expiry, or forever without one |
| AccessCodeAdmin.InsertKeepsCodesUnique | models/AccessCode.js:4-9 | adding a record whose code is not taken keeps the unique index |
| AccessCodeAdmin.SaveNewCode | routes/admin.js:401 | `save()` of a new record stores it unless its code is empty, already taken, or the store fails |
| AccessCodeAdmin.CreateAccessCode | routes/admin.js:381-407 | a missing code or a throwing duplicate lookup gives 500; a taken trimmed code gives 400; an empty code or a failing save gives 500; each of these leaves the store unchanged; otherwise exactly one record with the defaults is added |
| AccessCodeAdmin.PickUnusedCode | routes/admin.js:416-424 | the retry loop picks the first draw no stored code uses, with every earlier draw taken; it reports a throwing lookup only when every draw before it was taken, and exhaustion only when every draw is taken |
| AccessCodeAdmin.GenerateAccessCode | routes/admin.js:410-442 | the stored record is built from the first unused draw with the request's fields, is active and unused, and is the only change; a lookup that throws before an unused draw, or a failing save, gives 500 with the store unchanged; without faults an unused draw is always stored |
| AccessCodeAdmin.ApplyUpdate | routes/admin.js:449-460 | each given field (customer name, phone, email, notes, active flag, limit, expiry) takes the given value and each absent one keeps the stored value; the code, the usage count, the last use and the creation time never change |
| AccessCodeAdmin.UpdateAccessCode | routes/admin.js:445-471 | the record becomes `ApplyUpdate` of it, keeping the unique index; 404 for an unknown id; 500 with the store unchanged when the store fails |
| AccessCodeAdmin.DeleteAccessCode | routes/admin.js:474-484 | removes exactly that record, or 404 |
| AccessCodeAdmin.Toggle | routes/admin.js:494 | flips `isActive` and nothing else |
| AccessCodeAdmin.ToggleTwiceRestores | routes/admin.js:494 | toggling twice restores the record |
| AccessCodeAdmin.ToggleControlsValidity | routes/admin.js:494 | toggling an active code off makes it invalid; toggling it on makes it valid exactly when it is neither expired nor at its limit |
| AccessCodeAdmin.ToggleAccessCode | routes/admin.js:487-501 | a throwing lookup gives 500; 404 for an unknown id; a failing save gives 500; each of these keeps the store; otherwise the toggled record is stored |
| Content.SlugSetter | models/Checklist.js:21-27 | the stored slug has no upper-case letter and no white space at either end |
| Content.SlugSetterTrims | models/Checklist.js:21-27 | the setters remove only white space, and only at the two ends of the lower-cased string, leaving none at either end |
| Content.DerivedSlugPassesSetter | models/Checklist.js:40-43 | a slug derived from a title passes the setters unchanged |
| Content.HookedSlug | models/Checklist.js:38-46 | the hook derives the slug from the title only when the title was modified and no slug is set; a set slug is never overwritten |
| Content.NewSection | models/PlaybookSection.js:3-35 | a new section: title trimmed, slug lower-cased and trimmed, the order as given, and the given icon, content and status or else 'FileText', '' and 'published' |
| Content.NewSectionValidates | models/PlaybookSection.js:3-35 | a new section validates exactly when title and slug are given, the order is in 1..10, and a given status is published or draft |
| Content.SaveSection | models/PlaybookSection.js:40-48 | as Mongoose runs it (validators, then hook): saves exactly when the section validates and the store does not fail; the saved section is the input with the hooked slug, and passes validation |
| Content.SectionHookNeverFires | models/PlaybookSection.js:40-48 | as written a successful save never changes the section, and a section without a slug is always refused |
| Content.SaveSectionHookFirst | models/PlaybookSection.js:40-48 | with the hook first, a saved section passes validation |
| Content.SectionHookFirstKeepsGivenSlug | models/PlaybookSection.js:40-48 | with the hook first, a section that has a slug saves exactly as before |
| Content.SectionHookFirstDerivesSlug | models/PlaybookSection.js:40-48 | with the hook first, a section with a modified title and no slug is stored with its title's slug |
| Content.SectionHookFirstSavesDerived | models/PlaybookSection.js:40-48 | with the hook first, such a section saves exactly when the document carrying its title's (non-empty) slug validates |
| Content.Section.constructor | models/PlaybookSection.js:3-35 | a new document holds the schema defaults, with the title modified when one is given |
| Content.Section.PreSave | models/PlaybookSection.js:40-48 | the hook assigns the slug as `HookedSlug` says and changes no other field |
| Content.Section.Save | models/PlaybookSection.js:40-48 | `save()` answers as `SaveSection` and never changes the document |
| Content.Section.SaveHookFirst | models/PlaybookSection.js:40-48 | `save()` with the hook first answers as `SaveSectionHookFirst` |
| Content.NewItem | models/Checklist.js:3-13 | an item's text is trimmed and its order defaults to 0 |
| Content.NewChecklist | models/Checklist.js:15-35 | a new checklist: title trimmed, slug lower-cased and trimmed, one item per input built by `NewItem`, and the given order or 0 |
| Content.NewChecklistValidates | models/Checklist.js:3-35 | a new checklist validates exactly when title and slug are given and every item has non-blank text |
| Content.SaveChecklist | models/Checklist.js:38-46 | as Mongoose runs it: saves exactly when the checklist validates and the store does not fail; the saved checklist is the input with the hooked slug, and passes validation |
| Content.ChecklistHookNeverFires | models/Checklist.js:38-46 | as written a successful save never changes the checklist, and one without a slug is always refused |
| Content.SaveChecklistHookFirst | models/Checklist.js:38-46 | with the hook first, a saved checklist passes validation |
| Content.ChecklistHookFirstKeepsGivenSlug | models/Checklist.js:38-46 | with the hook first, a checklist that has a slug saves exactly as before |
| Content.ChecklistHookFirstDerivesSlug | models/Checklist.js:38-46 | with the hook first, a checklist with a modified title and no slug is stored with its title's slug |
| Content.ChecklistHookFirstSavesDerived | models/Checklist.js:38-46 | with the hook first, such a checklist saves exactly when the document carrying its title's (non-empty) slug validates |
| Content.Checklist.constructor | models/Checklist.js:15-35 | a new document holds the schema defaults, with the title modified when one is given |
| Content.Checklist.PreSave | models/Checklist.js:38-46 | the hook assigns the slug as `HookedSlug` says and changes no other field |
| Content.Checklist.Save | models/Checklist.js:38-46 | `save()` answers as `SaveChecklist` and never changes the document |
| Content.Checklist.SaveHookFirst | models/Checklist.js:38-46 | `save()` with the hook first answers as `SaveChecklistHookFirst` |
| Content.CreateChecklist | routes/admin.js:297-313 | POST /checklists saves exactly when the title is not blank, its slug is not empty, every given item has non-blank text, and the store does not fail; then the trimmed title, the title's slug, the built items (none by default) and the given order, 0 when absent or 0 |

## Left out

- `seed.js` is not part of this model. It is fixture data plus database connection and process exit.
- `index.js` is not part of this model. It is Express, Mongo, session-store and CORS wiring, cookie lifetimes, static files and the error middleware.
- `routes/sections.js` and `routes/checklists.js` are not part of this model. They are plain `find().sort()` and `findOne({ slug })` reads.
- The admin listing endpoints (GET sections, providers, categories, checklists, access codes, access log) and GET /stats are plain reads and counts; they are not modelled.
- The admin updates of sections, providers and checklists, provider delete, checklist delete and access-log clear are plain `findByIdAndUpdate` / `findByIdAndDelete` / `deleteMany` calls; they are not modelled. The category and access-code writes are.
- The admin handlers are modelled as they run after `requireAdmin` has passed; the gate itself is `AuthMiddleware.RequireAdmin`.
- Pagination, `hasMore` and seeded or random ordering do not exist in `routes/providers.js`; only the featured/newest order is modelled.
- `$regex` search is modelled as a case-insensitive substring match on ASCII letters. Regular-expression metacharacters in the search text are out of scope.
- `toLowerCase` is modelled on ASCII letters only; other characters are left unchanged, as for Unicode letters without case.
- `JSON.parse` of the `categories` field is abstract: its outcome is the parameter `parsed` (`None` when the text is not JSON). A JSON value that is not a list of ids is not modelled.
- Base64 conversion of an uploaded logo and multer's storage and size limit are left out; the uploaded logo arrives as an optional data-URL string.
- `path.extname` is modelled for names without trailing separators.
- `populate`, `lean` and index definitions are left out; ids are compared as strings, and ObjectId casting failures are covered only by the store-failure parameters.
- `AccessCodeAdmin.PickUnusedCode`: `Math.random` is replaced by a finite sequence of draws; the source loops until a draw is unused, while the model reports a 500 when every draw collides (`Exhausted`). A throwing lookup is one chosen draw index, `failsAt`.
- `recordUsage` is a non-atomic read-modify-write; races between simultaneous logins are not modelled (the model is sequential).
- Wall-clock time is one integer per request; session and cookie expiry are not modelled (the admin cookie lifetime is recorded as a value).
- Express query values that are arrays, and request-body values that are not strings, are not modelled; absent values are `None`.
- `featured` arriving as a form string is not cast; the form carries it as an optional boolean.
- `ProgressRoutes.SaveProgress`: an absent `completedItems` is modelled as an empty list.
- `AccessCodeAdmin.ApplyUpdate` and `CategoryAdmin.UpdateCategory` read a field that is absent from the request body as left unchanged by `findByIdAndUpdate`, which is how Mongoose treats undefined keys in an update (it strips them); the Mongoose version the service runs is not part of this model.
- The category schema is not part of this model; a category save succeeds unless the store fails.
- The unique index on section and checklist slugs is not modelled.

## Findings

| source | as written | input that shows it | evidently intended | confidence | as-written member | corrected member |
|---|---|---|---|---|---|---|
| routes/admin.js:268 | the delete guard counts only providers whose legacy `category` is the id | a provider built by the admin form with `category` = a and `categories` = [a, id]: the count for id is 0, so id is deleted while the provider still lists it | refuse the delete while any provider refers to the category in either field, as the listing's category filter does | not executed | CategoryAdmin.DeleteCategory, CategoryAdmin.LegacyGuardMissesListedUse | CategoryAdmin.DeleteCategoryChecked |
| models/PlaybookSection.js:40-48 | the slug hook is a pre-save hook, but Mongoose runs the validators before it and `slug` is required | a section with a title, an order and no slug: validation refuses it, so the hook never fills the slug; on any save that passes, the slug is already set and the hook does nothing | derive the slug from the title before validation (for example in a pre-validate hook) | not executed | Content.SaveSection, Content.SectionHookNeverFires | Content.SaveSectionHookFirst, Content.SectionHookFirstDerivesSlug |
| models/Checklist.js:38-46 | the same hook on checklists, with the same order | a checklist with only a title: refused by the `required` validator on `slug` | derive the slug before validation | not executed | Content.SaveChecklist, Content.ChecklistHookNeverFires | Content.SaveChecklistHookFirst, Content.ChecklistHookFirstDerivesSlug |
