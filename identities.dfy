/** Identity-provider links of a profile (`IdpProfile` in mozillians/users/models.py): the
    provider classification of an Auth0 user id, and `save`, which assigns a default contact
    identity and copies the contact's privacy and the primary id onto the profile. */
module Identities {
  import opened Wrappers
  import opened Seqs
  import opened Strings
  import opened Profiles
  import opened Relations

  const ProviderUnknown: int := 0
  const ProviderPasswordless: int := 10
  const ProviderGoogle: int := 20
  const ProviderGithub: int := 30
  const ProviderFirefoxAccounts: int := 31
  const ProviderLdap: int := 40

  /** One of the `PROVIDER_TYPES` choices. */
  predicate IsProviderType(t: int) {
    t == ProviderUnknown || t == ProviderPasswordless || t == ProviderGoogle
    || t == ProviderGithub || t == ProviderFirefoxAccounts || t == ProviderLdap
  }

  /** `get_provider_type`: the provider of the first marker found in the Auth0 user id. */
  function ProviderType(auth0UserId: string): (t: int)
    ensures IsProviderType(t)
    ensures Contains(auth0UserId, "ad|") ==> t == ProviderLdap
  {
    if Contains(auth0UserId, "ad|") then ProviderLdap
    else if Contains(auth0UserId, "oauth2|firefoxaccounts") then ProviderFirefoxAccounts
    else if Contains(auth0UserId, "github|") then ProviderGithub
    else if Contains(auth0UserId, "google-oauth2|") then ProviderGoogle
    else if Contains(auth0UserId, "email|") then ProviderPasswordless
    else ProviderUnknown
  }

  /** The markers `get_provider_type` looks for, in the order it tries them. */
  const ProviderMarkers: seq<(string, int)> := [
    ("ad|", ProviderLdap),
    ("oauth2|firefoxaccounts", ProviderFirefoxAccounts),
    ("github|", ProviderGithub),
    ("google-oauth2|", ProviderGoogle),
    ("email|", ProviderPasswordless)
  ]

  /** A table-driven reading of the same rule: the provider of the first marker of the
      list that occurs in the id, UNKNOWN when none does. */
  function FirstMarker(markers: seq<(string, int)>, id: string): (t: int)
    ensures (forall i :: 0 <= i < |markers| ==> !Contains(id, markers[i].0)) ==> t == ProviderUnknown
    ensures (exists i :: 0 <= i < |markers| && Contains(id, markers[i].0)) ==>
      exists i :: 0 <= i < |markers| && Contains(id, markers[i].0) && t == markers[i].1 &&
        forall j :: 0 <= j < i ==> !Contains(id, markers[j].0)
    decreases |markers|
  {
    if markers == [] then ProviderUnknown
    else if Contains(id, markers[0].0) then markers[0].1
    else
      var t := FirstMarker(markers[1..], id);
      assert forall i :: 1 <= i < |markers| ==> markers[i] == markers[1..][i - 1];
      t
  }

  /** `get_provider_type` is exactly "first marker wins" over the five markers in the
      order of the source; in particular UNKNOWN means that no marker occurs. */
  lemma ProviderTypeIsFirstMarker(id: string)
    ensures ProviderType(id) == FirstMarker(ProviderMarkers, id)
  {
    var m := ProviderMarkers;
    var m4 := m[4..];
    assert m4 == [("email|", ProviderPasswordless)] && m4[1..] == [];
    assert FirstMarker(m4, id) == if Contains(id, "email|") then ProviderPasswordless else ProviderUnknown;
    var m3 := m[3..];
    assert m3[0].0 == "google-oauth2|" && m3[1..] == m4;
    var m2 := m[2..];
    assert m2[0].0 == "github|" && m2[1..] == m3;
    var m1 := m[1..];
    assert m1[0].0 == "oauth2|firefoxaccounts" && m1[1..] == m2;
    assert m[0].0 == "ad|" && m[1..] == m1;
  }

  /** The UNKNOWN provider is given exactly to ids carrying none of the markers. */
  lemma UnknownIffNoMarker(id: string)
    ensures ProviderType(id) == ProviderUnknown <==>
      forall i :: 0 <= i < |ProviderMarkers| ==> !Contains(id, ProviderMarkers[i].0)
  {
    ProviderTypeIsFirstMarker(id);
    var m := ProviderMarkers;
    assert forall i :: 0 <= i < |m| ==> m[i].1 != ProviderUnknown;
  }

  /** An Auth0 id that starts with a provider's marker is never UNKNOWN, and it is
      classified under that provider unless it also carries a marker tried earlier. */
  lemma MarkerPrefixedId(i: nat, rest: string)
    requires i < |ProviderMarkers|
    ensures ProviderType(ProviderMarkers[i].0 + rest) != ProviderUnknown
    ensures ProviderType(ProviderMarkers[i].0 + rest) == ProviderMarkers[i].1
      || exists j :: 0 <= j < i && Contains(ProviderMarkers[i].0 + rest, ProviderMarkers[j].0)
  {
    var id := ProviderMarkers[i].0 + rest;
    ContainsAt(id, ProviderMarkers[i].0, 0);
    ProviderTypeIsFirstMarker(id);
    UnknownIffNoMarker(id);
  }

  /** The profile already has a contact identity in the table. */
  predicate HasContact(rows: seq<IdpRow>, profile: nat) {
    exists r :: r in rows && r.profile == profile && r.primaryContact
  }

  /** The instance's fields as `save` writes them: the provider type is recomputed, and the
      identity becomes the contact when the table held none for its profile. */
  function Prepared(rows: seq<IdpRow>, row: IdpRow): (r: IdpRow)
    ensures r.providerType == Some(ProviderType(row.auth0UserId))
    ensures r.primaryContact <==> row.primaryContact || !HasContact(rows, row.profile)
    ensures r.(providerType := row.providerType, primaryContact := row.primaryContact) == row
  {
    row.(providerType := Some(ProviderType(row.auth0UserId)),
         primaryContact := row.primaryContact || !HasContact(rows, row.profile))
  }

  /** Another row already holds the `unique_together = ('profile', 'type', 'email')` triple. */
  predicate Conflicts(rows: seq<IdpRow>, row: IdpRow) {
    exists r :: r in rows && r.id != row.id && r.profile == row.profile
      && r.providerType == row.providerType && r.email == row.email
  }

  /** Writing a row: replaces the row with the same id, or appends it when there is none. */
  function Upsert(rows: seq<IdpRow>, row: IdpRow): (r: seq<IdpRow>)
    ensures row in r
    ensures forall x :: x in r && x.id != row.id ==> x in rows
    ensures forall x :: x in rows && x.id != row.id ==> x in r
    ensures forall x :: x in r && x.id == row.id ==> x == row
  {
    if exists i :: 0 <= i < |rows| && rows[i].id == row.id then
      var r := seq(|rows|, i requires 0 <= i < |rows| => if rows[i].id == row.id then row else rows[i]);
      var k :| 0 <= k < |rows| && rows[k].id == row.id;
      assert r[k] == row;
      assert forall x :: x in r ==> exists i :: 0 <= i < |rows| && x == r[i];
      assert forall i :: 0 <= i < |rows| && rows[i].id != row.id ==> r[i] == rows[i];
      r
    else rows + [row]
  }

  /** The ids of the table are distinct (its primary key). */
  predicate DistinctIdpIds(rows: seq<IdpRow>) {
    forall i, j :: 0 <= i < |rows| && 0 <= j < |rows| && rows[i].id == rows[j].id ==> i == j
  }

  /** The table respects `unique_together = ('profile', 'type', 'email')`. */
  predicate UniqueIdpTriples(rows: seq<IdpRow>) {
    forall i, j :: 0 <= i < |rows| && 0 <= j < |rows| && i != j ==>
      !(rows[i].profile == rows[j].profile && rows[i].providerType == rows[j].providerType
        && rows[i].email == rows[j].email)
  }

  /** A write that does not conflict keeps both table invariants. */
  lemma UpsertKeepsInvariants(rows: seq<IdpRow>, row: IdpRow)
    requires DistinctIdpIds(rows) && UniqueIdpTriples(rows) && !Conflicts(rows, row)
    ensures DistinctIdpIds(Upsert(rows, row)) && UniqueIdpTriples(Upsert(rows, row))
  {
    var out := Upsert(rows, row);
    // Every position holds its old row, or `row` where the old row had `row`'s id or
    // where `row` was appended.
    assert forall i :: 0 <= i < |out| ==>
      (i < |rows| && rows[i].id != row.id && out[i] == rows[i]) || out[i] == row;
    assert forall i :: 0 <= i < |out| && out[i] == row ==> i >= |rows| || rows[i].id == row.id;
    forall i, j | 0 <= i < |out| && 0 <= j < |out| && i != j
      ensures out[i].id != out[j].id
    {
    }
    forall i, j | 0 <= i < |out| && 0 <= j < |out| && i != j
      ensures !(out[i].profile == out[j].profile && out[i].providerType == out[j].providerType
                && out[i].email == out[j].email)
    {
      if out[i] != row && out[j] != row {
        assert out[i] == rows[i] && out[j] == rows[j];
      } else if out[i] == row {
        assert out[j] != row;
        assert out[j] in rows;
      } else {
        assert out[i] in rows;
      }
    }
  }

  /** The profile's attributes after an identity save: the contact's privacy becomes
      `privacy_email`, and a primary identity's Auth0 id becomes the profile's. */
  function ProfileAfterSave(attrs: map<string, Value>, row: IdpRow): (r: map<string, Value>)
    ensures row.primaryContact ==> "privacy_email" in r && r["privacy_email"] == Int(row.privacy)
    ensures row.primary ==> "auth0_user_id" in r && r["auth0_user_id"] == Text(row.auth0UserId)
    ensures r.Keys <= attrs.Keys + {"privacy_email", "auth0_user_id"}
    ensures forall k :: k in attrs && k != "privacy_email" && k != "auth0_user_id" ==> k in r && r[k] == attrs[k]
    ensures !row.primaryContact && !row.primary ==> r == attrs
  {
    var withPrivacy := if row.primaryContact then attrs["privacy_email" := Int(row.privacy)] else attrs;
    if row.primary then withPrivacy["auth0_user_id" := Text(row.auth0UserId)] else withPrivacy
  }

  /** The identity table. */
  class IdentityTable {
    var rows: seq<IdpRow>

    constructor (rows: seq<IdpRow>)
      ensures this.rows == rows
    {
      this.rows := rows;
    }

  }

  /** An `IdpProfile` instance: its field values and the profile instance it points to. */
  class IdpProfile {
    var fields: IdpRow
    const profile: UserProfile

    constructor (fields: IdpRow, profile: UserProfile)
      requires fields.profile == profile.id
      ensures this.fields == fields && this.profile == profile
    {
      this.fields := fields;
      this.profile := profile;
    }

    /** `save`: recomputes the type, makes this the contact when the profile has none, writes
        the row (refused, leaving table and profile untouched, when another row holds the
        same profile, type and email), then updates and saves the profile. */
    method Save(table: IdentityTable) returns (ok: bool)
      requires fields.profile == profile.id
      modifies this, table, profile
      ensures fields == Prepared(old(table.rows), old(fields))
      ensures ok <==> !Conflicts(old(table.rows), fields)
      ensures ok ==> table.rows == Upsert(old(table.rows), fields)
      ensures ok ==> profile.attrs == ProfileAfterSave(old(profile.attrs), fields)
      ensures ok ==> profile.persisted == profile.attrs && profile.privacyLevel == None
      ensures !ok ==> table.rows == old(table.rows)
      ensures !ok ==> profile.attrs == old(profile.attrs)
      ensures !ok ==> profile.persisted == old(profile.persisted) && profile.privacyLevel == old(profile.privacyLevel)
    {
      fields := Prepared(table.rows, fields);
      if Conflicts(table.rows, fields) {
        return false;
      }
      table.rows := Upsert(table.rows, fields);
      profile.attrs := ProfileAfterSave(profile.attrs, fields);
      profile.Save();
      return true;
    }
  }

  /** `save` never clears a sibling identity's `primary` or `primary_contact_identity`:
      every other row of the table is kept as it was. */
  lemma SaveKeepsSiblings(rows: seq<IdpRow>, row: IdpRow, sibling: IdpRow)
    requires sibling in rows && sibling.id != row.id
    ensures sibling in Upsert(rows, Prepared(rows, row))
  {
  }

  /** After a save of an identity of a profile that had no contact identity, the profile
      has one: the saved identity. */
  lemma SaveProvidesContact(rows: seq<IdpRow>, row: IdpRow)
    requires !HasContact(rows, row.profile)
    ensures Prepared(rows, row).primaryContact
    ensures HasContact(Upsert(rows, Prepared(rows, row)), row.profile)
  {
    assert Prepared(rows, row) in Upsert(rows, Prepared(rows, row));
  }

  /** A profile's contact identity survives the save of another of its identities. */
  lemma SaveKeepsOtherContact(rows: seq<IdpRow>, row: IdpRow, contact: IdpRow)
    requires contact in rows && contact.profile == row.profile && contact.primaryContact && contact.id != row.id
    ensures Prepared(rows, row).primaryContact == row.primaryContact
    ensures HasContact(Upsert(rows, Prepared(rows, row)), row.profile)
  {
    assert contact in Upsert(rows, Prepared(rows, row));
  }
}
