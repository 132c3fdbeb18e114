/** The decision rules inside the phonebook views (mozillians/phonebook/views.py): the
    clearance a profile page is shown under, the order of the access gates of
    `view_profile`, and the guard and removal of `delete_identity`. */
module PhonebookViews {
  import opened Wrappers
  import opened Seqs
  import opened PrivacyLevels
  import opened Profiles
  import opened Relations
  import Identities

  /** `privacy_mappings.get(view_as, None)`, with `view_as` defaulting to `'myself'`: the
      clearance one's own profile is shown under; `None` shows everything. */
  function ViewAsLevel(levels: Levels, viewAs: Option<string>): (r: Option<int>)
    ensures r.Some? ==> levels.IsLevel(r.value)
  {
    var mode := viewAs.GetOr("myself");
    if mode == "anonymous" then Some(levels.public)
    else if mode == "mozillian" then Some(levels.mozillians)
    else if mode == "employee" then Some(levels.employees)
    else if mode == "private" then Some(levels.private)
    else None
  }

  /** The four named modes give their level; `myself`, a missing value and any unrecognised
      value all show the profile unrestricted. */
  lemma ViewAsModes(levels: Levels, other: string)
    requires other != "anonymous" && other != "mozillian" && other != "employee" && other != "private"
    ensures ViewAsLevel(levels, Some("anonymous")) == Some(levels.public)
    ensures ViewAsLevel(levels, Some("mozillian")) == Some(levels.mozillians)
    ensures ViewAsLevel(levels, Some("employee")) == Some(levels.employees)
    ensures ViewAsLevel(levels, Some("private")) == Some(levels.private)
    ensures ViewAsLevel(levels, None) == None && ViewAsLevel(levels, Some("myself")) == None
    ensures ViewAsLevel(levels, Some(other)) == None
  {
  }

  /** Viewing oneself as `anonymous` shows exactly what an anonymous viewer of the profile
      would be shown. */
  lemma ViewAsAnonymousIsPublicView(levels: Levels)
    ensures ViewAsLevel(levels, Some("anonymous")) == OtherProfileClearance(levels, Anonymous)
  {
  }

  /** Who makes the request. */
  datatype Viewer = Anonymous | Authenticated(username: string, isSuperuser: bool, inStaffGroup: bool, isVouched: bool)

  /** The clearance another user's profile is shown under: PUBLIC, replaced by the viewer's
      own `privacy_level` when they are logged in. */
  function OtherProfileClearance(levels: Levels, viewer: Viewer): (c: Option<int>)
    ensures c.Some? && levels.IsLevel(c.value)
    ensures viewer.Anonymous? ==> c == Some(levels.public)
    ensures viewer.Authenticated? ==>
      c == Some(Clearance(levels, viewer.isSuperuser, viewer.inStaffGroup, viewer.isVouched))
  {
    match viewer
    case Anonymous => Some(levels.public)
    case Authenticated(_, su, staff, vouched) => Some(Clearance(levels, su, staff, vouched))
  }

  /** The two `set_instance_privacy_level` calls of `view_profile` on another user's profile. */
  method ScopeForViewer(profile: UserProfile, levels: Levels, viewer: Viewer)
    modifies profile
    ensures profile.privacyLevel == OtherProfileClearance(levels, viewer)
    ensures profile.attrs == old(profile.attrs) && profile.persisted == old(profile.persisted)
  {
    profile.SetInstancePrivacyLevel(Some(levels.public));
    if viewer.Authenticated? {
      profile.SetInstancePrivacyLevel(Some(Clearance(levels, viewer.isSuperuser, viewer.inStaffGroup, viewer.isVouched)));
    }
  }

  /** What the database says about the requested username: some profile has it, some public
      profile has it (the `public()` manager query), some profile with it has a non-empty
      `full_name`. */
  datatype Target = Target(exists_: bool, publicExists: bool, complete: bool)

  /** How `view_profile` ends. */
  datatype Outcome = Render(clearance: Option<int>) | LoginRequired | HomeRedirect | NotFound

  /** `view_profile`'s decision: one's own profile renders under the view-as clearance;
      another's passes the login gate and the vouched gate unless it is public, then the 404
      check, then renders under the viewer's clearance. */
  function ViewProfile(levels: Levels, viewer: Viewer, username: string, viewAs: Option<string>,
                       target: Target): (o: Outcome)
    ensures viewer.Authenticated? && viewer.username == username ==> o == Render(ViewAsLevel(levels, viewAs))
    ensures o == LoginRequired <==> viewer.Anonymous? && !target.publicExists
    ensures o == HomeRedirect <==>
      viewer.Authenticated? && viewer.username != username && !viewer.isVouched && !target.publicExists
    ensures o == NotFound ==> !target.exists_ || !target.complete
    ensures o.Render? && !(viewer.Authenticated? && viewer.username == username) ==>
      target.exists_ && target.complete && (target.publicExists || (viewer.Authenticated? && viewer.isVouched))
      && o.clearance == OtherProfileClearance(levels, viewer)
  {
    if viewer.Authenticated? && viewer.username == username then Render(ViewAsLevel(levels, viewAs))
    else if !target.publicExists && viewer.Anonymous? then LoginRequired
    else if !target.publicExists && !viewer.isVouched then HomeRedirect
    else if !target.exists_ || !target.complete then NotFound
    else Render(OtherProfileClearance(levels, viewer))
  }

  /** The gates run before the 404 check: an anonymous viewer asking for a username with no
      public profile is sent to log in, whether or not such a profile exists. */
  lemma AnonymousNonPublicGoesToLogin(levels: Levels, username: string, viewAs: Option<string>, target: Target)
    requires !target.publicExists
    ensures ViewProfile(levels, Anonymous, username, viewAs, target) == LoginRequired
  {
  }

  /** An unvouched user asking for someone else's non-public profile is sent home. */
  lemma UnvouchedNonPublicGoesHome(levels: Levels, viewer: Viewer, viewAs: Option<string>, username: string, target: Target)
    requires viewer.Authenticated? && !viewer.isVouched && viewer.username != username && !target.publicExists
    ensures ViewProfile(levels, viewer, username, viewAs, target) == HomeRedirect
  {
  }

  /** Another user's profile renders only when it exists and is complete, and then under
      one of the four constants; that clearance is set, so the profile is never read
      unrestricted, whenever no constant is `0` (with PRIVATE `0` a superuser reads it
      unrestricted). For an anonymous viewer the clearance hides every field not set to
      PUBLIC and is set unless PUBLIC is `0`. */
  lemma OthersRenderScoped(levels: Levels, viewer: Viewer, username: string, viewAs: Option<string>, target: Target,
                           fieldPrivacy: int)
    requires levels.Ordered() && levels.IsLevel(fieldPrivacy)
    requires !(viewer.Authenticated? && viewer.username == username)
    ensures ViewProfile(levels, viewer, username, viewAs, target).Render? ==>
      target.exists_ && target.complete && ViewProfile(levels, viewer, username, viewAs, target).clearance.Some?
      && levels.IsLevel(ViewProfile(levels, viewer, username, viewAs, target).clearance.value)
    ensures ViewProfile(levels, viewer, username, viewAs, target).Render? && levels.NonZero() ==>
      IsSet(ViewProfile(levels, viewer, username, viewAs, target).clearance)
    ensures ViewProfile(levels, viewer, username, viewAs, target).Render? && viewer.Anonymous? ==>
      (Hidden(fieldPrivacy, ViewProfile(levels, viewer, username, viewAs, target).clearance.value)
       <==> fieldPrivacy != levels.public)
      && (IsSet(ViewProfile(levels, viewer, username, viewAs, target).clearance) <==> levels.public != 0)
  {
    PublicSeesOnlyPublic(levels, fieldPrivacy);
  }

  /** A profile with a public field renders for anyone once it exists and is complete. */
  lemma PublicProfileRendersForAll(levels: Levels, viewer: Viewer, username: string, viewAs: Option<string>,
                                   target: Target)
    requires target.publicExists && target.exists_ && target.complete
    ensures ViewProfile(levels, viewer, username, viewAs, target).Render?
  {
  }

  /** How `delete_identity` ends: 404 for an identity the requester does not own, deleted, or
      refused for a primary or contact identity. */
  datatype DeleteOutcome = DeleteNotFound | Deleted | Refused

  /** The identity is the requester's and is neither primary nor the contact identity. */
  predicate Deletable(r: IdpRow, owner: nat, pk: nat) {
    r.profile == owner && r.id == pk && !r.primary && !r.primaryContact
  }

  /** `delete_identity`'s guards over the identity table. */
  function DeleteIdentityOutcome(rows: seq<IdpRow>, owner: nat, pk: nat): (o: DeleteOutcome)
    ensures o == DeleteNotFound <==> !exists r :: r in rows && r.profile == owner && r.id == pk
    ensures o == Deleted <==> exists r :: r in rows && Deletable(r, owner, pk)
  {
    if !exists r :: r in rows && r.profile == owner && r.id == pk then DeleteNotFound
    else if exists r :: r in rows && Deletable(r, owner, pk) then Deleted
    else Refused
  }

  /** The test a row passes to survive the deletion. */
  function Survives(owner: nat, pk: nat): IdpRow -> bool {
    (r: IdpRow) => !Deletable(r, owner, pk)
  }

  /** The table after `idp_query.delete()`: the requested deletable identity is gone, and
      every other row is kept in order. */
  function WithoutDeletable(rows: seq<IdpRow>, owner: nat, pk: nat): (r: seq<IdpRow>)
    ensures forall x :: x in r <==> x in rows && !Deletable(x, owner, pk)
    ensures forall x :: x in rows && x.id != pk ==> x in r
  {
    FilterMembership(rows, Survives(owner, pk));
    Filter(rows, Survives(owner, pk))
  }

  /** `delete_identity` on the identity table. */
  method DeleteIdentity(table: Identities.IdentityTable, owner: nat, pk: nat) returns (o: DeleteOutcome)
    modifies table
    ensures o == DeleteIdentityOutcome(old(table.rows), owner, pk)
    ensures o == Deleted ==> table.rows == WithoutDeletable(old(table.rows), owner, pk)
    ensures o != Deleted ==> table.rows == old(table.rows)
  {
    var owned := Filter(table.rows, (r: IdpRow) => r.profile == owner && r.id == pk);
    FilterMembership(table.rows, (r: IdpRow) => r.profile == owner && r.id == pk);
    if owned == [] {
      return DeleteNotFound;
    }
    assert owned[0] in owned;
    var deletable := Filter(owned, (r: IdpRow) => !r.primary && !r.primaryContact);
    FilterMembership(owned, (r: IdpRow) => !r.primary && !r.primaryContact);
    if deletable != [] {
      assert deletable[0] in deletable;
      table.rows := WithoutDeletable(table.rows, owner, pk);
      return Deleted;
    }
    return Refused;
  }

  /** Deleting never touches another identity, and a primary or contact identity is never
      deleted. */
  lemma DeleteKeepsOthers(rows: seq<IdpRow>, owner: nat, pk: nat, x: IdpRow)
    requires x in rows
    ensures x.id != pk || x.profile != owner || x.primary || x.primaryContact ==> x in WithoutDeletable(rows, owner, pk)
  {
  }
}
