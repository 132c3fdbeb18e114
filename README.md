# Privacy-aware profiles and vouching of mozillians.org, in Dafny

This project models the core of the mozillians.org phonebook (a Django site): the tier-based
privacy projection of a user profile, the vouch rules, and the helpers around them. It covers:

- **Privacy levels and clearance** (`PrivacyLevels`). The four privacy constants are model
  parameters, and a larger number means a more public setting. A field is hidden from a viewer
  when its `privacy_<f>` column is below the viewer's clearance. `privacy_level` gives the
  viewer's clearance: PRIVATE for a superuser, EMPLOYEES for the `staff` group, MOZILLIANS for a
  vouched user, PUBLIC otherwise.
- **Profiles** (`Profiles`). `privacy_fields()` derives the controlled fields from the model's
  field names, keeping a class-level cache. `__getattribute__` decides what each attribute read
  returns under the transient `_privacy_level`. `set_privacy_level`,
  `set_instance_privacy_level` and `save` are methods of a `UserProfile` class.
- **Related rows** (`Relations`). Identity links, external accounts and vouches are sequences
  of records. The module holds the privacy-aware resolvers (`_identity_profiles`,
  `_alternate_emails`, `_primary_email`, `_vouched_by`, `_vouches`) and `is_vouchable`.
- **Identity links** (`Identities`):
  - provider classification of an Auth0 user id;
  - `IdpProfile.save` over an identity table, with the table's uniqueness invariants.
- **Admin** (`UsersAdmin`):
  - the "public profiles" `Q` object, built in a loop;
  - the public-profile list filter;
  - the `update_vouch_flags` action over a queryset of profile objects.
- **Locales in paths** (`UrlResolvers`): `find_supported`, `split_path`, and `Prefixer`.
- **Site URLs** (`CommonUtils`): `absolutify` and the disabled spam check.
- **Search indexing** (`SearchIndexes`):
  - the loop that keeps one identity per email;
  - the email choice of the profile index.
- **Phonebook views** (`PhonebookViews`). Covers the view-as clearance, the clearance used for
  another user's profile, and the order of the access gates of `view_profile`. Also covers the
  guard and the removal of `delete_identity`.

Python's semantics are written out where they matter:

- A transient level counts as set only when it is neither `None` nor `0` (truthiness).
- `str.lstrip`, `str.partition`, `split('-', 1)[0]` and `str(port)` are defined in `Strings`.
- A Python `dict` iterated in order is a sequence of pairs, looked up first match first.

Two behaviours of the code worth noting:

- `is_vouchable` refuses a repeated vouch only when there is a voucher. With no voucher a
  previous anonymous vouch never blocks (models.py:344).
- `_vouches` tests the *vouchee* of each vouch also for `vouches_made` and `vouches_received`.
  For received vouches the vouchee is the profile itself, so a profile under a clearance sees
  all of its received vouches or none (`Relations.ReceivedAllOrNothing`).

## Model

| member | source | states |
|---|---|---|
| PrivacyLevels.Clearance | mozillians/users/models.py:281-289 | the viewer's clearance is always one of the four constants |
| PrivacyLevels.ClearanceIsLeastQualifying | mozillians/users/models.py:281-289 | with ordered constants, the precedence superuser, staff, vouched, public picks the most privileged clearance the viewer qualifies for |
| PrivacyLevels.ClearanceMonotone | mozillians/users/models.py:281-289 | more standing never gives a less privileged clearance |
| PrivacyLevels.ClearanceIsSet | mozillians/users/models.py:166-175 | a clearance is a set `_privacy_level` iff it is not `0`; with no constant `0`, every clearance is |
| PrivacyLevels.SuperuserSeesEverything | mozillians/users/models.py:283-284 | a superuser's clearance hides no field set to one of the constants, and it is set iff PRIVATE is not `0` |
| PrivacyLevels.PublicSeesOnlyPublic | mozillians/users/models.py:287-289 | an unvouched viewer outside staff sees a field iff its privacy is PUBLIC, under a clearance that is set iff PUBLIC is not `0` |
| Profiles.PrivacyFieldsOf | mozillians/users/models.py:78-103 | the keys of `privacy_fields()` are exactly `email` and the names that do not start with `privacy_` and have a `privacy_<name>` sibling; `email` maps to `''`, every other key to its hidden default (empty queryset for many-to-many, else the field default) |
| Profiles.PrivacyFieldsAreNotPrivacyColumns | mozillians/users/models.py:85-100 | no key of `privacy_fields()` starts with `privacy_` |
| Profiles.UserProfileControlled | mozillians/users/models.py:85-88 | among `UserProfile`'s names, exactly `full_name` and `date_mozillian` are controlled |
| Profiles.UserProfilePrivacyDefault | mozillians/users/models.py:34-50 | under constants that agree with the migrations, every privacy column of `UserProfile` defaults to MOZILLIANS |
| Profiles.UserProfilePrivacyFields | mozillians/users/models.py:43-124 | for `UserProfile` as declared, `privacy_fields()` is `{full_name: '', date_mozillian: None, email: ''}`; `privacy_title` controls nothing |
| Profiles.PrivacyFieldsCache.constructor | mozillians/users/models.py:52 | the cache starts empty |
| Profiles.PrivacyFieldsCache.Clear | mozillians/users/models.py:57-63 | clearing empties the cache and keeps it consistent |
| Profiles.PrivacyFieldsCache.PrivacyFields | mozillians/users/models.py:65-103 | the loop computes `privacy_fields()` on the first call, then the cache holds it; a filled cache is returned unchanged |
| Profiles.GetAttribute | mozillians/users/models.py:137-175 | special names go to their resolver; with no clearance set, or for an uncontrolled name, a read returns the stored value |
| Profiles.ScopedRead | mozillians/users/models.py:171-175 | under a clearance, a controlled field reads as its hidden default iff its privacy is below the clearance, else as its stored value |
| Profiles.PrivacyColumnReadIsRaw | mozillians/users/models.py:165-175 | a `privacy_<f>` column always reads as stored, whatever the clearance |
| Profiles.HiddenReadIgnoresStoredValue | mozillians/users/models.py:171-173 | a hidden field's read does not depend on its stored value |
| Profiles.VisibleAtLowerClearance | mozillians/users/models.py:171-175 | a field visible at a clearance stays visible at every more privileged clearance |
| Profiles.WithPrivacy | mozillians/users/models.py:325-328 | the privacy column of every given field holds the level; the keys are the old ones plus those columns; every other attribute keeps its value |
| Profiles.WithPrivacySets | mozillians/users/models.py:325-328 | after setting the level, every controlled field has privacy `level`; every other attribute keeps its value |
| Profiles.CheckIsPublic | mozillians/users/models.py:300-307 | the loop returns true iff some controlled field has its privacy column set to PUBLIC |
| Profiles.SetPublicMakesPublic | mozillians/users/models.py:300-307 | `set_privacy_level(PUBLIC)` makes a profile with a controlled field `is_public` |
| Profiles.UserProfile.constructor | mozillians/users/models.py:44 | a loaded profile carries no clearance |
| Profiles.UserProfile.SetInstancePrivacyLevel | mozillians/users/models.py:321-323 | sets the transient clearance and nothing else |
| Profiles.UserProfile.Save | mozillians/users/models.py:349-353 | resets the clearance to `None` and persists the attributes unchanged |
| Profiles.UserProfile.SetPrivacyLevel | mozillians/users/models.py:325-330 | the privacy column of every controlled field becomes `level`; with `save`, the row is written and the clearance reset, and without it nothing else changes |
| Relations.FilterAccountsPrivacy | mozillians/users/models.py:177-180 | with a clearance, exactly the rows whose privacy is at least the clearance; with none, all rows |
| Relations.IdentityProfiles | mozillians/users/models.py:195-199 | exactly the profile's identities visible at the clearance |
| Relations.AlternateEmails | mozillians/users/models.py:189-193 | exactly the profile's EMAIL accounts visible at the clearance |
| Relations.PrimaryEmail | mozillians/users/models.py:208-229 | unscoped: the email of the first contact identity, else the user's; scoped with identities: the email of the first contact identity whose privacy is at least the clearance, else `''`; scoped without: the hidden default iff `privacy_email` is below the clearance, else the user's email |
| Relations.Earliest | mozillians/users/models.py:234-238 | the chosen vouch is one of the rows and no row is earlier |
| Relations.VouchesFromVouchers | mozillians/users/models.py:234-235 | exactly the vouches received from an existing voucher |
| Relations.VouchedBy | mozillians/users/models.py:231-247 | `None` without vouches; otherwise the voucher of the earliest vouch, and under a clearance only if some controlled field of it is at least the clearance; the returned voucher is scoped like the caller |
| Relations.Relation | mozillians/users/models.py:262-274 | `vouches_made` holds exactly the vouches with this voucher, `vouches_received` exactly those with this vouchee |
| Relations.VisibleVouches | mozillians/users/models.py:249-260 | exactly the rows whose vouchee shows some controlled field at the clearance |
| Relations.VouchIds | mozillians/users/models.py:252-257 | an id is collected iff some row with that id has a vouchee showing some field at the clearance |
| Relations.Vouches | mozillians/users/models.py:249-260 | with distinct ids, `_vouches` returns the visible vouches in relation order |
| Relations.RelatedVouches | mozillians/users/models.py:262-274 | under a clearance, the visible part of the relation; without one, the whole relation |
| Relations.ReceivedAllOrNothing | mozillians/users/models.py:253-258 | as written, under a clearance a profile sees all of its received vouches or none |
| Relations.IsVouchable | mozillians/users/models.py:332-347 | false when the voucher cannot vouch, when the limit is reached, or when this voucher already vouched; with no voucher, true iff below the limit; true in every other case |
| Relations.VouchableInsertKeepsInvariants | mozillians/users/models.py:332-347 | a vouch `is_vouchable` allows keeps `unique_together = ('vouchee', 'voucher')` and the vouch count limit |
| Identities.ProviderType | mozillians/users/models.py:400-417 | the result is one of `PROVIDER_TYPES`, and LDAP whenever `ad|` occurs |
| Identities.FirstMarker | mozillians/users/models.py:400-417 | UNKNOWN when no marker occurs; otherwise the type of the first marker in list order that occurs |
| Identities.ProviderTypeIsFirstMarker | mozillians/users/models.py:400-417 | `get_provider_type` is "first marker wins" over `ad|`, `oauth2|firefoxaccounts`, `github|`, `google-oauth2|`, `email|` |
| Identities.UnknownIffNoMarker | mozillians/users/models.py:400-417 | UNKNOWN iff none of the markers occurs |
| Identities.MarkerPrefixedId | mozillians/users/models.py:400-417 | an Auth0 id that starts with a provider's marker is never UNKNOWN, and gets that provider unless it also carries a marker tried earlier |
| Identities.Prepared | mozillians/users/models.py:424-428 | the type is recomputed; the identity is the contact iff it was or the profile had no contact; nothing else changes |
| Identities.Upsert | mozillians/users/models.py:430 | the written row is in the table, rows with other ids are kept, and no other row has its id |
| Identities.UpsertKeepsInvariants | mozillians/users/models.py:444-445 | a non-conflicting write keeps ids distinct and `unique_together = ('profile', 'type', 'email')` |
| Identities.ProfileAfterSave | mozillians/users/models.py:432-439 | a contact identity sets `privacy_email` to its privacy; a primary one sets `auth0_user_id`; no other attribute changes |
| Identities.IdpProfile.Save | mozillians/users/models.py:419-439 | fields become `Prepared`; the write succeeds iff no other row holds the triple; on success the table is upserted and the profile updated and saved, on failure table and profile are unchanged |
| Identities.SaveKeepsSiblings | mozillians/users/models.py:424-439 | saving never removes or alters another identity of the table |
| Identities.SaveProvidesContact | mozillians/users/models.py:425-428 | after saving an identity of a profile without a contact identity, the saved identity is the contact |
| Identities.SaveKeepsOtherContact | mozillians/users/models.py:425-428 | an existing contact identity survives the save of another identity, and the saved identity keeps its own contact flag |
| UsersAdmin.OrQ | mozillians/users/admin.py:22 | combining with the empty `Q()` gives the other operand |
| UsersAdmin.OrQMatches | mozillians/users/admin.py:22 | a disjunction matches iff one operand does |
| UsersAdmin.BuildPublicProfilesQ | mozillians/users/admin.py:19-22 | the query is `Q()` iff there are no controlled fields, and otherwise matches a profile iff `is_public` holds |
| UsersAdmin.FilterQ | mozillians/users/admin.py:69 | exactly the matching profiles |
| UsersAdmin.ExcludeQ | mozillians/users/admin.py:71 | exactly the non-matching profiles; excluding `Q()` keeps everything |
| UsersAdmin.PublicProfileFilter | mozillians/users/admin.py:64-71 | no value keeps the queryset, `'True'` filters, any other value excludes |
| UsersAdmin.PublicProfileFilterPartitions | mozillians/users/admin.py:64-71 | `'True'` and any other value split the queryset: each profile is on exactly one side, and the sides' multisets add up to the queryset |
| UsersAdmin.PublicProfileFilterIsPublic | mozillians/users/admin.py:19-71 | with the built query, `'True'` keeps exactly the public profiles and any other value exactly the others |
| UsersAdmin.VouchFlags | mozillians/users/admin.py:30-32 | `is_vouched` iff some vouch was received, `can_vouch` iff at least the threshold |
| UsersAdmin.VouchFlagsMeaning | mozillians/users/admin.py:30-32 | the two flags are added; with a threshold of at least 1, `can_vouch` implies `is_vouched`; no other attribute changes |
| UsersAdmin.VouchFlagsIdempotent | mozillians/users/admin.py:28-33 | recomputing with the same vouches changes nothing |
| UsersAdmin.UpdateVouchFlags | mozillians/users/admin.py:28-33 | every selected profile gets the flags of its received-vouch count and is saved, even when it appears twice in the queryset |
| UrlResolvers.Lookup | mozillians/common/urlresolvers.py:57-58 | `None` iff no entry has the key; otherwise the value of the first entry with it |
| UrlResolvers.FindSupported | mozillians/common/urlresolvers.py:39-42 | at most one value per map entry (which values and in what order: `FindSupportedMembership`, `FindSupportedFirst`) |
| UrlResolvers.FindSupportedMembership | mozillians/common/urlresolvers.py:39-42 | a value is returned iff some entry that shares the language part of `test.lower()` has it |
| UrlResolvers.FindSupportedFirst | mozillians/common/urlresolvers.py:39-42 | the first value returned is that of the first entry, in map order, that shares the language |
| UrlResolvers.FindSupportedEmpty | mozillians/common/urlresolvers.py:39-42 | nothing is returned when no entry shares the language |
| UrlResolvers.SplitPathCases | mozillians/common/urlresolvers.py:45-64 | exact key match gives its value and the rest; else the first same-language value and the rest; else `''` and the whole slash-stripped path |
| UrlResolvers.SplitPath | mozillians/common/urlresolvers.py:45-64 | the locale is `''` or a value of the map; the path is a suffix of the requested path |
| UrlResolvers.NewPrefixer | mozillians/common/urlresolvers.py:69-76 | the shortened path is `split_path`'s path; the locale is `LANGUAGE_CODE` whatever the path |
| UrlResolvers.GetLanguageIgnoresRequest | mozillians/common/urlresolvers.py:69-83 | `get_language` ignores the request: prefixers for any two request paths have the same locale, `LANGUAGE_CODE`, and fix every path the same way |
| UrlResolvers.Fix | mozillians/common/urlresolvers.py:78-83 | `SCRIPT_NAME + '/' + LANGUAGE_CODE + '/' +` the path without its leading slashes |
| UrlResolvers.SplitFixRoundTrip | mozillians/common/urlresolvers.py:45-83 | with an empty script name, `split_path` of a fixed path gives back the language and the stripped path |
| CommonUtils.SiteUrl | mozillians/common/utils.py:11-21 | a non-empty `SITE_URL` is used as is; else protocol and domain, with `:port` only off the default ports |
| CommonUtils.Absolutify | mozillians/common/utils.py:9-23 | `SiteUrl(s) + url`: `SITE_URL + url` when that setting is present, else protocol and domain, with `:port` unless the port is the protocol's default, then `url`; so the result ends with `url` |
| CommonUtils.AbsolutifyPortRoundTrip | mozillians/common/utils.py:20-21 | off the default ports, the digits after the domain's `:` denote the port |
| CommonUtils.AkismetSpamCheck | mozillians/common/utils.py:26-29 | always `None` |
| SearchIndexes.Kept | mozillians/users/search_indexes.py:62-65 | the kept identities are identities of the table with the same set of emails |
| SearchIndexes.KeptIds | mozillians/users/search_indexes.py:56-65 | the loop collects the ids of the kept identities, in order |
| SearchIndexes.KeptDistinctEmails | mozillians/users/search_indexes.py:60-65 | the kept identities have pairwise distinct emails |
| SearchIndexes.KeptCoversEmails | mozillians/users/search_indexes.py:62-65 | every email of the table is carried by a kept identity |
| SearchIndexes.KeptIsFirst | mozillians/users/search_indexes.py:62-64 | each kept identity is the first, in iteration order, with its email |
| SearchIndexes.KeptCount | mozillians/users/search_indexes.py:58-66 | as many identities are kept as there are distinct emails |
| SearchIndexes.KeptIdsAreIds | mozillians/users/search_indexes.py:58-66 | every kept id is the id of an identity |
| SearchIndexes.IndexQueryset | mozillians/users/search_indexes.py:66 | exactly the identities whose id is among the kept ids |
| SearchIndexes.IndexQuerysetIsKept | mozillians/users/search_indexes.py:56-66 | with distinct ids, `index_queryset` returns exactly the kept identities |
| SearchIndexes.PrepareEmail | mozillians/users/search_indexes.py:32-36 | `''` when the profile has identities; without identities, the user's email when unscoped, and under a clearance the hidden default when `privacy_email` is below it, else the user's email |
| PhonebookViews.ViewAsLevel | mozillians/phonebook/views.py:37-44 | the view-as clearance, when there is one, is one of the constants |
| PhonebookViews.ViewAsModes | mozillians/phonebook/views.py:37-44 | `anonymous`, `mozillian`, `employee`, `private` give PUBLIC, MOZILLIANS, EMPLOYEES, PRIVATE; `myself`, no value and any other value give `None` |
| PhonebookViews.ViewAsAnonymousIsPublicView | mozillians/phonebook/views.py:37-72 | viewing oneself as `anonymous` uses an anonymous viewer's clearance |
| PhonebookViews.OtherProfileClearance | mozillians/phonebook/views.py:68-72 | another user's profile is always read under one of the constants: PUBLIC for an anonymous viewer, the viewer's own `privacy_level` for a logged-in one |
| PhonebookViews.ScopeForViewer | mozillians/phonebook/views.py:68-72 | the profile's clearance becomes PUBLIC for an anonymous viewer and the viewer's own `privacy_level` otherwise, and nothing else changes |
| PhonebookViews.ViewProfile | mozillians/phonebook/views.py:34-79 | one's own profile renders under the view-as clearance; login is required iff the viewer is anonymous and no public profile has the name; home iff another's non-public profile is asked for by an unvouched user; 404 only for a missing or incomplete profile; another's profile renders only when it exists, is complete, and is public or the viewer is vouched, and then under `OtherProfileClearance` (PUBLIC, or the logged-in viewer's `privacy_level`) |
| PhonebookViews.AnonymousNonPublicGoesToLogin | mozillians/phonebook/views.py:53-58 | an anonymous request for a non-public profile goes to login, whether the profile exists or not |
| PhonebookViews.UnvouchedNonPublicGoesHome | mozillians/phonebook/views.py:60-63 | an unvouched user asking for another's non-public profile is sent home |
| PhonebookViews.OthersRenderScoped | mozillians/phonebook/views.py:65-72 | another's profile renders only when it exists and is complete, under one of the four constants; that clearance is set whenever no constant is `0`; for an anonymous viewer it hides every non-PUBLIC field and is set iff PUBLIC is not `0` |
| PhonebookViews.PublicProfileRendersForAll | mozillians/phonebook/views.py:53-72 | an existing, complete, public profile renders for every viewer |
| PhonebookViews.DeleteIdentityOutcome | mozillians/phonebook/views.py:143-158 | not found iff the requester owns no identity with that id; deleted iff such an identity is neither primary nor contact |
| PhonebookViews.WithoutDeletable | mozillians/phonebook/views.py:147-150 | exactly the rows that are not the deletable identity remain, and every row with another id stays |
| PhonebookViews.DeleteIdentity | mozillians/phonebook/views.py:137-158 | the outcome is `DeleteIdentityOutcome`; only a deletion changes the table, and only by removing the deletable identity |
| PhonebookViews.DeleteKeepsOthers | mozillians/phonebook/views.py:147-150 | another identity, or a primary or contact one, is never deleted |

## Left out

- Django's ORM and persistence. Tables are in-memory sequences of records, and querysets are sequences. Table order stands for iteration order: `Vouch.Meta.ordering = ['-date']` and `UserProfile.Meta.ordering` are not re-applied. Ids are given, not assigned by the database. `save` cascades and signals (mozillians/users/signals.py) are not modelled.
- `_accounts`, because it refers to `ExternalAccount.TYPE_WEBSITE`, which the `ExternalAccount` class does not define.
- `auto_vouch`, which `save` calls with `autovouch=True`, because the file does not define it. `UserProfile.Save` models the save without `autovouch`.
- `_is_public_indexable`, because `PUBLIC_INDEXABLE_FIELDS` comes from mozillians/users/managers.py, which is not part of this model. The privacy constants come from that file too and are parameters here; only MOZILLIANS = 3 and PUBLIC = 4 are pinned by the migration (`PrivacyLevels.AgreesWithMigrations`). Whether a clearance is a set `_privacy_level` therefore depends on the constants being non-zero (`Levels.NonZero`), which the lemmas state as a hypothesis where they need it.
- The `public()` and `privacy_level(...)` manager queries, for the same reason. `view_profile` receives their answers as the booleans of `Target`, and the view-as clearance as a value.
- Python's object model. `__getattribute__` is a function over the attribute map. The special resolvers are separate functions, and `GetAttribute` returns which resolver a special name goes to.
- Queryset relations are passed in as arguments, namely the profile's identities, its privacy columns and its user's email. The `email` returned by `PrimaryEmail` reads these inputs.
- Profiles.GetAttribute: a controlled field without its privacy column reads as `NoAttribute`, where Python raises `AttributeError`.
- Relations.VouchedBy: a voucher without one of the privacy columns reads that column as 0, where Python raises `AttributeError`.
- Relations.Vouches: requires distinct vouch ids (a primary key) for `filter(pk__in=...)` to keep relation order without duplicates.
- UsersAdmin.UpdateVouchFlags: requires profiles freshly loaded from the queryset, which carry no clearance. Under a clearance, `vouches_received` would be filtered by `_vouches`.
- URL reversing, the thread-local prefix, middleware, URL confs, authentication, forms, rendering, messages, redirects and the other views. These are HTTP plumbing, or they depend on libraries not shown.
- `get_type_display` and the success and error messages of `delete_identity`.
- The `IntegrityError` of a conflicting identity save. It is modelled as `ok = false`, with nothing written.
- Lower-casing is ASCII-only. `str.lower` also maps non-ASCII letters.
- The search-index fields other than `email`, the `complete()` manager, and the date-based admin filters. They depend on code not shown or on clocks.
