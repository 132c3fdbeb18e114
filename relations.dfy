/** The related tables of a profile (identity links, external accounts, vouches) and the
    privacy-aware resolvers `__getattribute__` hands its special names to, with the vouch
    eligibility rule of mozillians/users/models.py. */
module Relations {
  import opened Wrappers
  import opened Seqs
  import opened PrivacyLevels
  import opened Profiles

  /** A row of the `IdpProfile` table. `providerType` is `None` until the row is saved. */
  datatype IdpRow = IdpRow(id: nat, profile: nat, providerType: Option<int>, auth0UserId: string,
                           primary: bool, email: string, privacy: int, primaryContact: bool,
                           username: string)

  /** A row of the `ExternalAccount` table. */
  datatype AccountRow = AccountRow(id: nat, user: nat, identifier: string, accountType: string, privacy: int)

  const TypeEmail: string := "EMAIL"

  /** A row of the `Vouch` table; `voucher` is `None` for an automatic vouch or once the
      voucher was deleted. */
  datatype VouchRow = VouchRow(id: nat, vouchee: nat, voucher: Option<nat>, description: string,
                               autovouch: bool, date: int)

  /** `_filter_accounts_privacy`: with a clearance set, only the rows whose own privacy is
      at least the clearance; with none, all rows. */
  function FilterAccountsPrivacy<T(!new)>(rows: seq<T>, privacyOf: T -> int, level: Option<int>): (r: seq<T>)
    ensures !IsSet(level) ==> r == rows
    ensures IsSet(level) ==> forall x :: x in r <==> x in rows && privacyOf(x) >= level.value
  {
    if IsSet(level) then
      FilterMembership(rows, AtLeast(privacyOf, level.value));
      Filter(rows, AtLeast(privacyOf, level.value))
    else rows
  }

  /** The test `privacy >= level` of `_filter_accounts_privacy`. */
  function AtLeast<T>(privacyOf: T -> int, level: int): T -> bool {
    x => privacyOf(x) >= level
  }

  /** The `privacy` column of an identity row. */
  function IdpPrivacy(x: IdpRow): int {
    x.privacy
  }

  /** The `primary_contact_identity` flag of an identity row. */
  predicate IsContact(x: IdpRow) {
    x.primaryContact
  }

  /** A contact identity that a clearance of `level` may see. */
  function VisibleContact(level: int): IdpRow -> bool {
    (x: IdpRow) => x.primaryContact && x.privacy >= level
  }

  /** The identity rows of a profile (`idp_profiles`), in table order. */
  function IdpsOf(table: seq<IdpRow>, profile: nat): (r: seq<IdpRow>)
    ensures forall x :: x in r <==> x in table && x.profile == profile
  {
    FilterMembership(table, (x: IdpRow) => x.profile == profile);
    Filter(table, (x: IdpRow) => x.profile == profile)
  }

  /** `_identity_profiles`: the profile's identities that the clearance may see. */
  function IdentityProfiles(table: seq<IdpRow>, profile: nat, level: Option<int>): (r: seq<IdpRow>)
    ensures !IsSet(level) ==> r == IdpsOf(table, profile)
    ensures forall x :: x in r <==>
      x in table && x.profile == profile && (IsSet(level) ==> x.privacy >= level.value)
  {
    FilterAccountsPrivacy(IdpsOf(table, profile), IdpPrivacy, level)
  }

  /** `_alternate_emails`: the profile's external accounts of type EMAIL that the
      clearance may see. */
  function AlternateEmails(accounts: seq<AccountRow>, profile: nat, level: Option<int>): (r: seq<AccountRow>)
    ensures forall x :: x in r <==>
      x in accounts && x.user == profile && x.accountType == TypeEmail && (IsSet(level) ==> x.privacy >= level.value)
  {
    var own := Filter(accounts, (x: AccountRow) => x.user == profile && x.accountType == TypeEmail);
    FilterMembership(accounts, (x: AccountRow) => x.user == profile && x.accountType == TypeEmail);
    FilterAccountsPrivacy(own, (x: AccountRow) => x.privacy, level)
  }

  /** The rows of `rows` that are contact identities, in order. */
  function Contacts(rows: seq<IdpRow>): (r: seq<IdpRow>)
    ensures forall x :: x in r <==> x in rows && x.primaryContact
  {
    FilterMembership(rows, IsContact);
    Filter(rows, IsContact)
  }

  /** `r` is the email of the first row of `rows`, by position, that passes `test`, or
      `fallback` when no row does. */
  predicate FirstEmailOr(rows: seq<IdpRow>, test: IdpRow -> bool, r: Value, fallback: Value) {
    ((forall i :: 0 <= i < |rows| ==> !test(rows[i])) ==> r == fallback)
    && forall i :: 0 <= i < |rows| && test(rows[i]) && (forall j :: 0 <= j < i ==> !test(rows[j])) ==>
         r == Text(rows[i].email)
  }

  /** `_primary_email`, over the profile's identities `idps`, its `privacy_email` column and
      its user's email. Unscoped, the email of the first contact identity, else the user's.
      Scoped and with identities, that of the first contact identity the clearance may see,
      else `''`; scoped without identities, the user's email unless `privacy_email` hides it. */
  function PrimaryEmail(idps: seq<IdpRow>, privacyEmail: int, userEmail: string,
                        pf: map<string, Value>, level: Option<int>): (r: Value)
    requires "email" in pf
    ensures !IsSet(level) ==> FirstEmailOr(idps, IsContact, r, Text(userEmail))
    ensures IsSet(level) && idps != [] ==> FirstEmailOr(idps, VisibleContact(level.value), r, Text(""))
    ensures IsSet(level) && idps == [] ==>
      r == (if Hidden(privacyEmail, level.value) then pf["email"] else Text(userEmail))
  {
    if IsSet(level) && idps != [] then
      var contacts := Contacts(FilterAccountsPrivacy(idps, IdpPrivacy, level));
      FilterFilter(idps, AtLeast(IdpPrivacy, level.value), IsContact, VisibleContact(level.value));
      FilterHead(idps, VisibleContact(level.value));
      if contacts != [] then Text(contacts[0].email) else Text("")
    else if IsSet(level) && Hidden(privacyEmail, level.value) then pf["email"]
    else
      var contacts := Contacts(idps);
      FilterHead(idps, IsContact);
      if contacts != [] then Text(contacts[0].email) else Text(userEmail)
  }

  /** Some controlled field of the profile has privacy at least `level`, reading a missing
      privacy column as `missing`. */
  predicate Shows(attrs: map<string, Value>, pf: map<string, Value>, level: int, missing: int) {
    exists f :: f in pf && PrivacyOr(attrs, f, missing) >= level
  }

  /** A profile instance loaded for row `id`, with its transient clearance. */
  datatype Scoped = Scoped(id: nat, level: Option<int>)

  /** The vouches a profile received from a voucher that still exists. */
  function VouchesFromVouchers(vouches: seq<VouchRow>, vouchee: nat): (r: seq<VouchRow>)
    ensures forall v :: v in r <==> v in vouches && v.vouchee == vouchee && v.voucher.Some?
  {
    FilterMembership(vouches, (v: VouchRow) => v.vouchee == vouchee && v.voucher.Some?);
    Filter(vouches, (v: VouchRow) => v.vouchee == vouchee && v.voucher.Some?)
  }

  /** The earliest of the vouches (the first one among equally early ones). */
  function Earliest(rows: seq<VouchRow>): (r: VouchRow)
    requires rows != []
    ensures r in rows && forall x :: x in rows ==> r.date <= x.date
  {
    if |rows| == 1 then rows[0]
    else
      var rest := Earliest(rows[1..]);
      if rows[0].date <= rest.date then rows[0] else rest
  }

  /** `_vouched_by`: the voucher of the earliest vouch, loaded under the same clearance and
      returned only if some controlled field of it is at least that clearance; `None` when
      nobody vouched. */
  function VouchedBy(vouches: seq<VouchRow>, profiles: map<nat, map<string, Value>>, pf: map<string, Value>,
                     self: nat, level: Option<int>): (r: Option<Scoped>)
    requires forall v :: v in vouches && v.voucher.Some? ==> v.voucher.value in profiles
    ensures VouchesFromVouchers(vouches, self) == [] ==> r == None
    ensures r.Some? ==> r.value.id == Earliest(VouchesFromVouchers(vouches, self)).voucher.value
    ensures r.Some? ==> forall v :: v in vouches && v.vouchee == self && v.voucher.Some? ==>
      Earliest(VouchesFromVouchers(vouches, self)).date <= v.date
    ensures !IsSet(level) ==> (r.Some? <==> VouchesFromVouchers(vouches, self) != []) && (r.Some? ==> r.value.level == None)
    ensures IsSet(level) && VouchesFromVouchers(vouches, self) != [] ==>
      (r.Some? <==> Shows(profiles[Earliest(VouchesFromVouchers(vouches, self)).voucher.value], pf, level.value, 0))
    ensures IsSet(level) && r.Some? ==> r.value.level == level
  {
    var received := VouchesFromVouchers(vouches, self);
    if received == [] then None
    else
      var first := Earliest(received);
      var voucher := first.voucher.value;
      if IsSet(level) then
        if Shows(profiles[voucher], pf, level.value, 0) then Some(Scoped(voucher, level)) else None
      else Some(Scoped(voucher, None))
  }

  /** Which side of a vouch a profile is on: `vouches_made` or `vouches_received`. */
  datatype VouchRelation = Made | Received

  /** The test a vouch passes to be on the given side of profile `self`. */
  function OnSide(self: nat, kind: VouchRelation): VouchRow -> bool {
    (v: VouchRow) => if kind == Made then v.voucher == Some(self) else v.vouchee == self
  }

  /** The vouches a profile made or received, in table order. */
  function Relation(table: seq<VouchRow>, self: nat, kind: VouchRelation): (r: seq<VouchRow>)
    ensures kind == Made ==> forall v :: v in r <==> v in table && v.voucher == Some(self)
    ensures kind == Received ==> forall v :: v in r <==> v in table && v.vouchee == self
  {
    FilterMembership(table, OnSide(self, kind));
    Filter(table, OnSide(self, kind))
  }

  /** The vouchee of the vouch shows some controlled field at the clearance (a missing
      privacy column counting as 0). */
  predicate VoucheeShows(profiles: map<nat, map<string, Value>>, pf: map<string, Value>, level: int, v: VouchRow) {
    v.vouchee in profiles && Shows(profiles[v.vouchee], pf, level, 0)
  }

  /** What `_vouches` keeps: the vouches whose vouchee shows some field at the clearance. */
  function VisibleVouches(rows: seq<VouchRow>, profiles: map<nat, map<string, Value>>, pf: map<string, Value>,
                          level: int): (r: seq<VouchRow>)
    ensures forall v :: v in r <==> v in rows && VoucheeShows(profiles, pf, level, v)
  {
    FilterMembership(rows, (v: VouchRow) => VoucheeShows(profiles, pf, level, v));
    Filter(rows, (v: VouchRow) => VoucheeShows(profiles, pf, level, v))
  }

  /** The loop of `_vouches`: collects the id of every vouch once per controlled field of
      its vouchee whose privacy is at least the clearance. */
  method VouchIds(rows: seq<VouchRow>, profiles: map<nat, map<string, Value>>, pf: map<string, Value>,
                  level: int) returns (ids: seq<nat>)
    requires forall v :: v in rows ==> v.vouchee in profiles
    ensures forall id :: id in ids <==> exists v :: v in rows && v.id == id && VoucheeShows(profiles, pf, level, v)
  {
    ids := [];
    var i := 0;
    while i < |rows|
      invariant 0 <= i <= |rows|
      invariant forall id :: id in ids <==>
        exists v :: v in rows[..i] && v.id == id && VoucheeShows(profiles, pf, level, v)
    {
      var vouch := rows[i];
      var vouchee := profiles[vouch.vouchee];
      ghost var before := ids;
      var remaining := pf.Keys;
      while remaining != {}
        invariant remaining <= pf.Keys
        invariant forall id :: id in ids <==> (id in before ||
          (id == vouch.id && exists f :: f in pf.Keys - remaining && PrivacyOr(vouchee, f, 0) >= level))
        decreases remaining
      {
        var field :| field in remaining;
        if PrivacyOr(vouchee, field, 0) >= level {
          ids := ids + [vouch.id];
        }
        remaining := remaining - {field};
      }
      assert rows[..i + 1] == rows[..i] + [vouch];
      i := i + 1;
    }
    assert rows[..i] == rows;
  }

  /** The ids of the rows are distinct, as primary keys are. */
  predicate DistinctIds(rows: seq<VouchRow>) {
    forall i, j :: 0 <= i < |rows| && 0 <= j < |rows| && rows[i].id == rows[j].id ==> i == j
  }

  /** `_vouches(type)`: the rows of the relation whose vouchee shows some field at the
      clearance, in the relation's order. */
  method Vouches(rows: seq<VouchRow>, profiles: map<nat, map<string, Value>>, pf: map<string, Value>,
                 level: int) returns (r: seq<VouchRow>)
    requires forall v :: v in rows ==> v.vouchee in profiles
    requires DistinctIds(rows)
    ensures r == VisibleVouches(rows, profiles, pf, level)
  {
    var ids := VouchIds(rows, profiles, pf, level);
    r := Filter(rows, (v: VouchRow) => v.id in ids);
    forall v | v in rows
      ensures (v.id in ids) == VoucheeShows(profiles, pf, level, v)
    {
      if v.id in ids {
        var w :| w in rows && w.id == v.id && VoucheeShows(profiles, pf, level, w);
        var i, j :| 0 <= i < |rows| && rows[i] == v && 0 <= j < |rows| && rows[j] == w;
      }
    }
    FilterCongruent(rows, (v: VouchRow) => v.id in ids, (v: VouchRow) => VoucheeShows(profiles, pf, level, v));
  }

  /** `_vouches_made` / `_vouches_received`: the relation filtered by `_vouches` under a
      clearance, the whole relation without one. */
  method RelatedVouches(table: seq<VouchRow>, self: nat, kind: VouchRelation,
                        profiles: map<nat, map<string, Value>>, pf: map<string, Value>,
                        level: Option<int>) returns (r: seq<VouchRow>)
    requires forall v :: v in table ==> v.vouchee in profiles
    requires DistinctIds(table)
    ensures IsSet(level) ==> r == VisibleVouches(Relation(table, self, kind), profiles, pf, level.value)
    ensures !IsSet(level) ==> r == Relation(table, self, kind)
  {
    var rows := Relation(table, self, kind);
    if IsSet(level) {
      forall i, j | 0 <= i < |rows| && 0 <= j < |rows| && rows[i].id == rows[j].id
        ensures i == j
      {
        SubsequenceIndex(table, rows, kind, self, i, j);
      }
      r := Vouches(rows, profiles, pf, level.value);
    } else {
      r := rows;
    }
  }

  /** Two rows of a relation with equal ids are the same row when the table's ids are
      distinct. */
  lemma SubsequenceIndex(table: seq<VouchRow>, rows: seq<VouchRow>, kind: VouchRelation, self: nat, i: int, j: int)
    requires DistinctIds(table) && rows == Relation(table, self, kind)
    requires 0 <= i < |rows| && 0 <= j < |rows| && rows[i].id == rows[j].id
    ensures i == j
  {
    FilteredDistinct(table, OnSide(self, kind));
  }

  /** The tail of a sequence with distinct ids has distinct ids, none equal to the head's. */
  lemma DistinctTail(s: seq<VouchRow>)
    requires s != [] && DistinctIds(s)
    ensures DistinctIds(s[1..])
    ensures forall y :: y in s[1..] ==> y.id != s[0].id
  {
    forall i, j | 0 <= i < |s[1..]| && 0 <= j < |s[1..]| && s[1..][i].id == s[1..][j].id
      ensures i == j
    {
      assert s[i + 1].id == s[j + 1].id;
    }
    forall y | y in s[1..]
      ensures y.id != s[0].id
    {
      var k :| 0 <= k < |s[1..]| && s[1..][k] == y;
      assert s[k + 1] == y;
    }
  }

  /** Putting a row with a fresh id in front keeps ids distinct. */
  lemma DistinctCons(x: VouchRow, rest: seq<VouchRow>)
    requires DistinctIds(rest) && forall y :: y in rest ==> y.id != x.id
    ensures DistinctIds([x] + rest)
  {
    var r := [x] + rest;
    forall i, j | 0 <= i < |r| && 0 <= j < |r| && r[i].id == r[j].id
      ensures i == j
    {
      if i > 0 {
        assert r[i] in rest;
      }
      if j > 0 {
        assert r[j] in rest;
      }
      if i > 0 && j > 0 {
        assert rest[i - 1].id == rest[j - 1].id;
      }
    }
  }

  /** Filtering keeps ids distinct. */
  lemma {:induction false} FilteredDistinct(s: seq<VouchRow>, p: VouchRow -> bool)
    requires DistinctIds(s)
    ensures DistinctIds(Filter(s, p))
    decreases |s|
  {
    if s != [] {
      DistinctTail(s);
      FilteredDistinct(s[1..], p);
      if p(s[0]) {
        DistinctCons(s[0], Filter(s[1..], p));
      }
    }
  }

  /** As written, `_vouches` checks the vouchee also for `vouches_received`, where the
      vouchee is the profile itself: under a clearance the profile sees all of its received
      vouches or none of them, whoever the vouchers are. */
  lemma ReceivedAllOrNothing(table: seq<VouchRow>, self: nat, profiles: map<nat, map<string, Value>>,
                             pf: map<string, Value>, level: int)
    ensures VisibleVouches(Relation(table, self, Received), profiles, pf, level) == Relation(table, self, Received)
         || VisibleVouches(Relation(table, self, Received), profiles, pf, level) == []
  {
    var rows := Relation(table, self, Received);
    var keep := v => VoucheeShows(profiles, pf, level, v);
    if self in profiles && Shows(profiles[self], pf, level, 0) {
      FilterAll(rows, keep);
    } else {
      FilterNone(rows, keep);
    }
  }

  /** The profile whose vouch eligibility is asked about: its id and `can_vouch`. */
  datatype Voucher = Voucher(id: nat, canVouch: bool)

  /** `is_vouchable(voucher)` over what `vouches_received` returns for the vouchee. */
  function IsVouchable(received: seq<VouchRow>, voucher: Option<Voucher>, limit: int): (ok: bool)
    ensures voucher.Some? && !voucher.value.canVouch ==> !ok
    ensures |received| >= limit ==> !ok
    ensures voucher.Some? && (exists v :: v in received && v.voucher == Some(voucher.value.id)) ==> !ok
    ensures voucher.None? ==> (ok <==> |received| < limit)
    ensures (voucher.Some? && voucher.value.canVouch && |received| < limit &&
             forall v :: v in received ==> v.voucher != Some(voucher.value.id)) ==> ok
  {
    if voucher.Some? && !voucher.value.canVouch then false
    else if |received| >= limit then false
    else if voucher.Some? && exists v :: v in received && v.voucher == Some(voucher.value.id) then false
    else true
  }

  /** `unique_together = ('vouchee', 'voucher')`: no two rows share a vouchee and a
      non-null voucher (SQL lets null vouchers repeat). */
  ghost predicate UniqueVouchPairs(table: seq<VouchRow>) {
    forall i, j :: 0 <= i < j < |table| && table[i].voucher.Some? ==>
      !(table[i].vouchee == table[j].vouchee && table[i].voucher == table[j].voucher)
  }

  /** Every profile has received at most `limit` vouches. */
  ghost predicate WithinVouchLimit(table: seq<VouchRow>, limit: int) {
    forall p: nat :: |Relation(table, p, Received)| <= limit
  }

  /** The received relation after appending a row. */
  lemma ReceivedAfterAppend(table: seq<VouchRow>, row: VouchRow, p: nat)
    ensures Relation(table + [row], p, Received) ==
      Relation(table, p, Received) + (if row.vouchee == p then [row] else [])
  {
    FilterAppend(table, [row], OnSide(p, Received));
  }

  /** Inserting a vouch that `is_vouchable` (asked of the unscoped vouchee) allows keeps both
      table invariants: the pair stays unique and the vouchee stays within the limit. */
  lemma VouchableInsertKeepsInvariants(table: seq<VouchRow>, voucher: Option<Voucher>, row: VouchRow, limit: int)
    requires UniqueVouchPairs(table) && WithinVouchLimit(table, limit)
    requires IsVouchable(Relation(table, row.vouchee, Received), voucher, limit)
    requires row.voucher == (if voucher.Some? then Some(voucher.value.id) else None)
    ensures UniqueVouchPairs(table + [row])
    ensures WithinVouchLimit(table + [row], limit)
  {
    var t := table + [row];
    forall i, j | 0 <= i < j < |t| && t[i].voucher.Some?
      ensures !(t[i].vouchee == t[j].vouchee && t[i].voucher == t[j].voucher)
    {
      if j == |table| && t[i].vouchee == row.vouchee && t[i].voucher == row.voucher {
        assert false;
      }
    }
    forall p: nat
      ensures |Relation(t, p, Received)| <= limit
    {
      ReceivedAfterAppend(table, row, p);
    }
  }
}
