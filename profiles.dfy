/** The privacy-aware profile object of mozillians/users/models.py: which fields are
    privacy-controlled, the class-level cache of that set, what an attribute read returns
    under a viewer's clearance, and the writes that touch the privacy state. */
module Profiles {
  import opened Wrappers
  import opened Strings
  import opened PrivacyLevels

  /** A stored attribute value. `NoRows` is the empty queryset used as the hidden
      default of a many-to-many field. */
  datatype Value = Null | Text(s: string) | Int(n: int) | Bool(b: bool) | Date(day: int) | NoRows

  /** What `_meta.get_field(name)` tells about a field: its default and whether it is a
      many-to-many relation. */
  datatype FieldInfo = FieldInfo(default: Value, manyToMany: bool)

  const PrivacyPrefix: string := "privacy_"

  /** The name of the column holding the privacy setting of field `f`. */
  function PrivacyAttr(f: string): string {
    PrivacyPrefix + f
  }

  /** A name is privacy-controlled when it is not itself a privacy column and a
      `privacy_<name>` sibling is among the field names. */
  predicate IsControlled(names: seq<string>, n: string) {
    !StartsWith(n, PrivacyPrefix) && PrivacyAttr(n) in names
  }

  /** The value shown in place of a hidden field: the empty queryset for a many-to-many
      field, the field's own default otherwise. */
  function HiddenDefault(f: FieldInfo): Value {
    if f.manyToMany then NoRows else f.default
  }

  /** The controlled fields found among `seen`, each with its hidden default. */
  function ControlledAmong(names: seq<string>, getField: string -> FieldInfo, seen: set<string>): map<string, Value> {
    map n | n in seen && IsControlled(names, n) :: HiddenDefault(getField(n))
  }

  /** `privacy_fields()` over the model's field names (names and column names, as
      `_meta.get_fields()` lists them): its keys are exactly the synthetic `email` and the
      controlled names; `email` maps to `''` and every other key to its field's hidden
      default. */
  function PrivacyFieldsOf(names: seq<string>, getField: string -> FieldInfo): (r: map<string, Value>)
    ensures forall k :: k in r <==> k == "email" || (k in names && IsControlled(names, k))
    ensures r["email"] == Text("")
    ensures forall k :: k in r && k != "email" ==> r[k] == HiddenDefault(getField(k))
  {
    ControlledAmong(names, getField, set n | n in names)["email" := Text("")]
  }

  /** No key of `privacy_fields()` is itself a privacy column. */
  lemma PrivacyFieldsAreNotPrivacyColumns(names: seq<string>, getField: string -> FieldInfo, k: string)
    requires k in PrivacyFieldsOf(names, getField)
    ensures !StartsWith(k, PrivacyPrefix)
  {
    if k == "email" {
      assert k[0] != PrivacyPrefix[0];
    }
  }

  /** The field names and column names of `UserProfile` as the file declares them
      (reverse relations included by their related names). */
  const UserProfileFieldNames: seq<string> := [
    "id", "user", "user_id", "full_name", "is_vouched", "can_vouch", "last_updated",
    "date_mozillian", "auth0_user_id", "is_staff", "privacy_full_name", "privacy_email",
    "privacy_date_mozillian", "privacy_title", "idp_profiles", "vouches_received",
    "vouches_made", "externalaccount"]

  /** MOZILLIANS as the migrations fix it: the default of every `PrivacyField`. */
  const MigratedMozillians: int := 3

  /** `UserProfile._meta.get_field`: the declared defaults; the privacy columns default
      to MOZILLIANS. */
  function UserProfileField(n: string): FieldInfo {
    if n == "full_name" then FieldInfo(Text(""), false)
    else if n == "date_mozillian" then FieldInfo(Null, false)
    else if n == "is_vouched" || n == "can_vouch" || n == "is_staff" then FieldInfo(Bool(false), false)
    else if n == "auth0_user_id" then FieldInfo(Text(""), false)
    else if StartsWith(n, PrivacyPrefix) then FieldInfo(Int(MigratedMozillians), false)
    else FieldInfo(Null, false)
  }

  /** Under constants that agree with the migrations, every privacy column of `UserProfile`
      defaults to MOZILLIANS. */
  lemma UserProfilePrivacyDefault(levels: Levels, n: string)
    requires AgreesWithMigrations(levels)
    requires n in UserProfileFieldNames && StartsWith(n, PrivacyPrefix)
    ensures UserProfileField(n).default == Int(levels.mozillians) && !UserProfileField(n).manyToMany
  {
    assert n[0] == n[..|PrivacyPrefix|][0] == 'p';
  }

  /** The only names of `UserProfile` starting with `p` are its four privacy columns. */
  lemma UserProfileNamesStartingWithP(x: string)
    requires x in UserProfileFieldNames && |x| > 0 && x[0] == 'p'
    ensures x == "privacy_full_name" || x == "privacy_email" || x == "privacy_date_mozillian" || x == "privacy_title"
  {
  }

  /** `email` and `title` are not among `UserProfile`'s names. */
  lemma EmailAndTitleNotUserProfileNames()
    ensures "email" !in UserProfileFieldNames && "title" !in UserProfileFieldNames
  {
  }

  /** What the four privacy columns control, by name. */
  lemma PrivacyColumnSuffixes()
    ensures "privacy_full_name"[8..] == "full_name" && "privacy_email"[8..] == "email"
    ensures "privacy_date_mozillian"[8..] == "date_mozillian" && "privacy_title"[8..] == "title"
  {
  }

  /** Only `full_name` and `date_mozillian` have a privacy sibling among `UserProfile`'s names. */
  lemma UserProfileSiblings(k: string)
    requires k in UserProfileFieldNames && PrivacyPrefix + k in UserProfileFieldNames
    ensures k == "full_name" || k == "date_mozillian"
  {
    var x := PrivacyPrefix + k;
    assert x[0] == 'p';
    UserProfileNamesStartingWithP(x);
    assert k == x[8..];
    EmailAndTitleNotUserProfileNames();
    PrivacyColumnSuffixes();
  }


  /** `full_name` and `date_mozillian` are controlled in `UserProfile`. */
  lemma UserProfileControlsNameAndDate()
    ensures IsControlled(UserProfileFieldNames, "full_name")
    ensures IsControlled(UserProfileFieldNames, "date_mozillian")
  {
    assert PrivacyAttr("full_name") == UserProfileFieldNames[10];
    assert PrivacyAttr("date_mozillian") == UserProfileFieldNames[12];
    assert "full_name"[0] != PrivacyPrefix[0];
    assert "date_mozillian"[0] != PrivacyPrefix[0];
  }

  /** Exactly `full_name` and `date_mozillian` are controlled among `UserProfile`'s names. */
  lemma UserProfileControlled(k: string)
    ensures k in UserProfileFieldNames && IsControlled(UserProfileFieldNames, k) <==>
      k == "full_name" || k == "date_mozillian"
  {
    UserProfileControlsNameAndDate();
    assert UserProfileFieldNames[3] == "full_name" && UserProfileFieldNames[7] == "date_mozillian";
    if k in UserProfileFieldNames && IsControlled(UserProfileFieldNames, k) {
      UserProfileSiblings(k);
    }
  }

  /** Key by key, the controlled fields of `UserProfile` and their hidden defaults. */
  lemma UserProfileControlledAmong(k: string)
    ensures var m := ControlledAmong(UserProfileFieldNames, UserProfileField, set n | n in UserProfileFieldNames);
      (k in m <==> k == "full_name" || k == "date_mozillian")
      && (k == "full_name" ==> m[k] == Text(""))
      && (k == "date_mozillian" ==> m[k] == Null)
  {
    UserProfileControlled(k);
  }

  /** For `UserProfile` as declared, the controlled fields are `full_name` (hidden as `''`),
      `date_mozillian` (hidden as `None`) and `email` (hidden as `''`); `privacy_title` has
      no `title` field and controls nothing. */
  lemma UserProfilePrivacyFields()
    ensures PrivacyFieldsOf(UserProfileFieldNames, UserProfileField) ==
      map["full_name" := Text(""), "date_mozillian" := Null, "email" := Text("")]
  {
    var m := ControlledAmong(UserProfileFieldNames, UserProfileField, set n | n in UserProfileFieldNames);
    var target := map["full_name" := Text(""), "date_mozillian" := Null];
    forall k
      ensures (k in m <==> k in target) && (k in m ==> m[k] == target[k])
    {
      UserProfileControlledAmong(k);
    }
    SameEntries(m, target);
  }

  /** Maps with the same keys and the same value at each key are equal. */
  lemma SameEntries(m: map<string, Value>, target: map<string, Value>)
    requires forall k :: (k in m <==> k in target) && (k in m ==> m[k] == target[k])
    ensures m == target
  {
  }



  /** `CACHED_PRIVACY_FIELDS`: the class-level cache of `privacy_fields()` for a model with
      the given field names. */
  class PrivacyFieldsCache {
    const names: seq<string>
    const getField: string -> FieldInfo
    var cached: Option<map<string, Value>>

    /** A filled cache holds exactly what `privacy_fields()` computes. */
    ghost predicate Valid()
      reads this
    {
      cached.Some? ==> cached.value == PrivacyFieldsOf(names, getField)
    }

    constructor (names: seq<string>, getField: string -> FieldInfo)
      ensures Valid() && this.names == names && this.getField == getField && cached == None
    {
      this.names := names;
      this.getField := getField;
      cached := None;
    }

    /** `clear_privacy_fields_cache`. */
    method Clear()
      modifies this
      ensures Valid() && cached == None
    {
      cached := None;
    }

    /** `privacy_fields()`: computes the map on the first call and returns the cached map,
        unchanged, on every later call until the cache is cleared. */
    method PrivacyFields() returns (pf: map<string, Value>)
      requires Valid()
      modifies this
      ensures Valid() && cached == Some(pf)
      ensures pf == PrivacyFieldsOf(names, getField)
      ensures old(cached).Some? ==> pf == old(cached).value
    {
      if cached.None? {
        var fieldNames := set n | n in names;
        var remaining := fieldNames;
        var found: map<string, Value> := map[];
        while remaining != {}
          invariant remaining <= fieldNames
          invariant found == ControlledAmong(names, getField, fieldNames - remaining)
          decreases remaining
        {
          var name :| name in remaining;
          if StartsWith(name, PrivacyPrefix) || PrivacyAttr(name) !in names {
            // a privacy column or an uncontrolled field
          } else {
            found := found[name := HiddenDefault(getField(name))];
          }
          ghost var before := fieldNames - remaining;
          remaining := remaining - {name};
          assert fieldNames - remaining == before + {name};
        }
        assert fieldNames - remaining == fieldNames;
        cached := Some(found["email" := Text("")]);
      }
      pf := cached.value;
    }
  }

  /** The names that `__getattribute__` sends to a dedicated resolver. */
  const SpecialFunctions: map<string, string> := map[
    "accounts" := "_accounts",
    "alternate_emails" := "_alternate_emails",
    "email" := "_primary_email",
    "is_public_indexable" := "_is_public_indexable",
    "vouches_made" := "_vouches_made",
    "vouches_received" := "_vouches_received",
    "vouched_by" := "_vouched_by",
    "identity_profiles" := "_identity_profiles"
  ]

  /** The outcome of an attribute read: the resolver it is handed to, a value, or
      Python's `AttributeError`. */
  datatype Read = Resolver(property: string) | Found(value: Value) | NoAttribute

  /** The stored value of an attribute, ignoring privacy. */
  function Stored(attrs: map<string, Value>, name: string): Read {
    if name in attrs then Found(attrs[name]) else NoAttribute
  }

  /** The value of the `privacy_<f>` column, when it is present. */
  function PrivacyOf(attrs: map<string, Value>, f: string): Option<int> {
    if PrivacyAttr(f) in attrs && attrs[PrivacyAttr(f)].Int? then Some(attrs[PrivacyAttr(f)].n) else None
  }

  /** `getattr(profile, 'privacy_<f>', missing)`. */
  function PrivacyOr(attrs: map<string, Value>, f: string, missing: int): int {
    PrivacyOf(attrs, f).GetOr(missing)
  }

  /** Every controlled field has its privacy column. */
  predicate HasPrivacyColumns(attrs: map<string, Value>, pf: map<string, Value>) {
    forall f :: f in pf ==> PrivacyOf(attrs, f).Some?
  }

  /** `__getattribute__`: special names go to their resolvers; with no clearance set, or
      for an uncontrolled name, the stored value; otherwise the hidden default when the
      field's privacy is below the clearance, and the stored value when it is not. */
  function GetAttribute(attrs: map<string, Value>, pf: map<string, Value>, level: Option<int>, name: string): (r: Read)
    ensures name in SpecialFunctions ==> r == Resolver(SpecialFunctions[name])
    ensures name !in SpecialFunctions && !IsSet(level) ==> r == Stored(attrs, name)
    ensures name !in SpecialFunctions && name !in pf ==> r == Stored(attrs, name)
  {
    if name in SpecialFunctions then Resolver(SpecialFunctions[name])
    else if !IsSet(level) || name !in pf then Stored(attrs, name)
    else
      match PrivacyOf(attrs, name)
      case None => NoAttribute
      case Some(p) => if Hidden(p, level.value) then Found(pf[name]) else Stored(attrs, name)
  }

  /** Under a clearance, a controlled field reads as its hidden default exactly when its
      privacy is below the clearance, and as its stored value otherwise. */
  lemma ScopedRead(attrs: map<string, Value>, pf: map<string, Value>, level: Option<int>, name: string)
    requires IsSet(level) && name in pf && name !in SpecialFunctions && PrivacyOf(attrs, name).Some?
    ensures Hidden(PrivacyOf(attrs, name).value, level.value) ==>
      GetAttribute(attrs, pf, level, name) == Found(pf[name])
    ensures !Hidden(PrivacyOf(attrs, name).value, level.value) ==>
      GetAttribute(attrs, pf, level, name) == Stored(attrs, name)
  {
  }

  /** Reading a privacy column through `__getattribute__` gives its stored value whatever
      the clearance: no key of `privacy_fields()` and no special name is a privacy column. */
  lemma PrivacyColumnReadIsRaw(attrs: map<string, Value>, names: seq<string>, getField: string -> FieldInfo,
                               level: Option<int>, f: string)
    ensures GetAttribute(attrs, PrivacyFieldsOf(names, getField), level, PrivacyAttr(f)) == Stored(attrs, PrivacyAttr(f))
  {
    var c := PrivacyAttr(f);
    assert c[..|PrivacyPrefix|] == PrivacyPrefix;
    if c in PrivacyFieldsOf(names, getField) {
      PrivacyFieldsAreNotPrivacyColumns(names, getField, c);
      assert false;
    }
    assert c[0] == 'p';
    assert c !in SpecialFunctions;
  }

  /** A hidden field leaks nothing: two profiles that differ only in the stored value of
      that field read the same. */
  lemma HiddenReadIgnoresStoredValue(attrs: map<string, Value>, pf: map<string, Value>, level: Option<int>,
                                     name: string, other: Value)
    requires IsSet(level) && name in pf && name !in SpecialFunctions
    requires name != PrivacyAttr(name)
    requires PrivacyOf(attrs, name).Some? && Hidden(PrivacyOf(attrs, name).value, level.value)
    ensures GetAttribute(attrs[name := other], pf, level, name) == GetAttribute(attrs, pf, level, name)
  {
    assert PrivacyOf(attrs[name := other], name) == PrivacyOf(attrs, name);
  }

  /** A field visible at one clearance stays visible at every lower (more privileged) one. */
  lemma VisibleAtLowerClearance(attrs: map<string, Value>, pf: map<string, Value>, c: int, c': int, name: string)
    requires c != 0 && c' != 0 && c' <= c
    requires name in pf && name !in SpecialFunctions && name in attrs
    requires GetAttribute(attrs, pf, Some(c), name) == Stored(attrs, name)
    ensures GetAttribute(attrs, pf, Some(c'), name) == Stored(attrs, name)
  {
  }

  /** The privacy columns of the given fields. */
  function PrivacyColumns(fields: set<string>): set<string> {
    set f | f in fields :: PrivacyAttr(f)
  }

  /** The attributes after the privacy column of every field in `fields` is set to `level`. */
  function WithPrivacy(attrs: map<string, Value>, fields: set<string>, level: int): (r: map<string, Value>)
    ensures r.Keys == attrs.Keys + PrivacyColumns(fields)
    ensures forall f :: f in fields ==> r[PrivacyAttr(f)] == Int(level)
    ensures forall k :: k in attrs && k !in PrivacyColumns(fields) ==> r[k] == attrs[k]
  {
    map k | k in attrs.Keys + PrivacyColumns(fields) :: if k in PrivacyColumns(fields) then Int(level) else attrs[k]
  }

  /** Setting one more column extends `WithPrivacy` by that column. */
  lemma WithPrivacyStep(attrs: map<string, Value>, done: set<string>, f: string, level: int)
    ensures WithPrivacy(attrs, done + {f}, level) == WithPrivacy(attrs, done, level)[PrivacyAttr(f) := Int(level)]
  {
    assert PrivacyColumns(done + {f}) == PrivacyColumns(done) + {PrivacyAttr(f)};
  }

  /** After `set_privacy_level(level)` every controlled field has privacy `level`, and
      every attribute that is not one of their privacy columns keeps its value. */
  lemma WithPrivacySets(attrs: map<string, Value>, fields: set<string>, level: int, f: string, k: string)
    requires f in fields
    ensures PrivacyOf(WithPrivacy(attrs, fields, level), f) == Some(level)
    ensures k in attrs && k !in PrivacyColumns(fields) ==> WithPrivacy(attrs, fields, level)[k] == attrs[k]
  {
    assert PrivacyAttr(f) in PrivacyColumns(fields);
  }

  /** Some controlled field has its privacy set to PUBLIC. */
  predicate IsPublic(attrs: map<string, Value>, pf: map<string, Value>, public: int) {
    exists f :: f in pf && PrivacyOf(attrs, f) == Some(public)
  }

  /** `is_public`: looks through the controlled fields for one whose privacy column is
      PUBLIC, and stops at the first. */
  method CheckIsPublic(attrs: map<string, Value>, pf: map<string, Value>, public: int) returns (b: bool)
    ensures b == IsPublic(attrs, pf, public)
  {
    var remaining := pf.Keys;
    while remaining != {}
      invariant remaining <= pf.Keys
      invariant forall f :: f in pf.Keys - remaining ==> PrivacyOf(attrs, f) != Some(public)
      decreases remaining
    {
      var field :| field in remaining;
      if PrivacyOf(attrs, field) == Some(public) {
        return true;
      }
      remaining := remaining - {field};
    }
    return false;
  }

  /** `set_privacy_level(PUBLIC)` makes a profile public. */
  lemma SetPublicMakesPublic(attrs: map<string, Value>, pf: map<string, Value>, public: int)
    requires pf != map[]
    ensures IsPublic(WithPrivacy(attrs, pf.Keys, public), pf, public)
  {
    var f :| f in pf;
    WithPrivacySets(attrs, pf.Keys, public, f, f);
  }

  /** A profile instance: its attributes as loaded or assigned, the row as last saved, and
      the transient clearance `_privacy_level` under which it is being read. */
  class UserProfile {
    const id: nat
    var attrs: map<string, Value>
    var persisted: map<string, Value>
    var privacyLevel: Option<int>

    /** A profile loaded from its row carries no clearance (the class default `None`). */
    constructor (id: nat, row: map<string, Value>)
      ensures this.id == id && attrs == row && persisted == row && privacyLevel == None
    {
      this.id := id;
      attrs := row;
      persisted := row;
      privacyLevel := None;
    }

    /** `set_instance_privacy_level`. */
    method SetInstancePrivacyLevel(level: Option<int>)
      modifies this
      ensures privacyLevel == level
      ensures attrs == old(attrs) && persisted == old(persisted)
    {
      privacyLevel := level;
    }

    /** `save`: resets the transient clearance and writes the attributes to the row. */
    method Save()
      modifies this
      ensures privacyLevel == None && persisted == attrs && attrs == old(attrs)
    {
      privacyLevel := None;
      persisted := attrs;
    }

    /** `set_privacy_level(level, save)`: sets `privacy_<f>` of every controlled field and
        saves when asked to. */
    method SetPrivacyLevel(pf: map<string, Value>, level: int, save: bool)
      modifies this
      ensures attrs == WithPrivacy(old(attrs), pf.Keys, level)
      ensures save ==> persisted == attrs && privacyLevel == None
      ensures !save ==> persisted == old(persisted) && privacyLevel == old(privacyLevel)
    {
      var remaining := pf.Keys;
      while remaining != {}
        invariant remaining <= pf.Keys
        invariant attrs == WithPrivacy(old(attrs), pf.Keys - remaining, level)
        invariant persisted == old(persisted) && privacyLevel == old(privacyLevel)
        decreases remaining
      {
        var field :| field in remaining;
        WithPrivacyStep(old(attrs), pf.Keys - remaining, field, level);
        attrs := attrs[PrivacyAttr(field) := Int(level)];
        ghost var before := pf.Keys - remaining;
        remaining := remaining - {field};
        assert pf.Keys - remaining == before + {field};
      }
      assert pf.Keys - remaining == pf.Keys;
      if save {
        Save();
      }
    }
  }
}
