/** The privacy tiers of a profile field and the clearance of a viewer
    (mozillians/users/models.py, `privacy_level`; the constants live in managers.py). */
module PrivacyLevels {
  import opened Wrappers

  /** The four privacy constants, which are parameters of this model: the larger the
      number, the more public the setting. */
  datatype Levels = Levels(private: int, employees: int, mozillians: int, public: int) {

    predicate Ordered() {
      private < employees < mozillians < public
    }

    /** No constant is `0`, so every clearance is truthy and `_privacy_level` is set
        whenever one was assigned. */
    predicate NonZero() {
      private != 0 && employees != 0 && mozillians != 0 && public != 0
    }

    /** `x` is one of the four constants. */
    predicate IsLevel(x: int) {
      x == private || x == employees || x == mozillians || x == public
    }
  }

  /** What the migrations fix of the constants: MOZILLIANS is 3 and PUBLIC is 4. */
  predicate AgreesWithMigrations(levels: Levels) {
    levels.mozillians == 3 && levels.public == 4
  }

  /** Python truthiness of the transient `_privacy_level`: neither `None` nor `0`. */
  predicate IsSet(level: Option<int>) {
    level.Some? && level.value != 0
  }

  /** A field whose `privacy_<f>` is below the viewer's clearance is hidden from that viewer. */
  predicate Hidden(fieldPrivacy: int, clearance: int) {
    fieldPrivacy < clearance
  }

  /** `privacy_level`: the clearance of a viewer, from the strongest standing they hold. */
  function Clearance(levels: Levels, isSuperuser: bool, inStaffGroup: bool, isVouched: bool): (c: int)
    ensures levels.IsLevel(c)
  {
    if isSuperuser then levels.private
    else if inStaffGroup then levels.employees
    else if isVouched then levels.mozillians
    else levels.public
  }

  /** The clearances a viewer qualifies for: PUBLIC always, the others by standing. */
  predicate Qualifies(levels: Levels, isSuperuser: bool, inStaffGroup: bool, isVouched: bool, x: int) {
    x == levels.public
    || (isVouched && x == levels.mozillians)
    || (inStaffGroup && x == levels.employees)
    || (isSuperuser && x == levels.private)
  }

  /** With ordered constants the precedence of `privacy_level` picks the least (most
      privileged) clearance the viewer qualifies for. */
  lemma ClearanceIsLeastQualifying(levels: Levels, isSuperuser: bool, inStaffGroup: bool, isVouched: bool)
    requires levels.Ordered()
    ensures Qualifies(levels, isSuperuser, inStaffGroup, isVouched, Clearance(levels, isSuperuser, inStaffGroup, isVouched))
    ensures forall x :: Qualifies(levels, isSuperuser, inStaffGroup, isVouched, x) ==>
      Clearance(levels, isSuperuser, inStaffGroup, isVouched) <= x
  {
  }

  /** More standing never raises the clearance, so it never hides more. */
  lemma ClearanceMonotone(levels: Levels, su: bool, staff: bool, vouched: bool, su': bool, staff': bool, vouched': bool)
    requires levels.Ordered()
    requires (su ==> su') && (staff ==> staff') && (vouched ==> vouched')
    ensures Clearance(levels, su', staff', vouched') <= Clearance(levels, su, staff, vouched)
  {
  }

  /** Every clearance is a set `_privacy_level` exactly when the constant it is is not `0`;
      with non-zero constants, every clearance is. */
  lemma ClearanceIsSet(levels: Levels, isSuperuser: bool, inStaffGroup: bool, isVouched: bool)
    ensures IsSet(Some(Clearance(levels, isSuperuser, inStaffGroup, isVouched)))
      <==> Clearance(levels, isSuperuser, inStaffGroup, isVouched) != 0
    ensures levels.NonZero() ==> IsSet(Some(Clearance(levels, isSuperuser, inStaffGroup, isVouched)))
  {
  }

  /** A superuser's clearance hides no field set to one of the four constants; it is a set
      clearance unless PRIVATE is `0`, when the profile reads unrestricted. */
  lemma SuperuserSeesEverything(levels: Levels, staff: bool, vouched: bool, fieldPrivacy: int)
    requires levels.Ordered() && levels.IsLevel(fieldPrivacy)
    ensures !Hidden(fieldPrivacy, Clearance(levels, true, staff, vouched))
    ensures IsSet(Some(Clearance(levels, true, staff, vouched))) <==> levels.private != 0
  {
  }

  /** An anonymous or unvouched viewer sees exactly the fields set to PUBLIC, under a
      clearance that is set unless PUBLIC is `0`. */
  lemma PublicSeesOnlyPublic(levels: Levels, fieldPrivacy: int)
    requires levels.Ordered() && levels.IsLevel(fieldPrivacy)
    ensures !Hidden(fieldPrivacy, Clearance(levels, false, false, false)) <==> fieldPrivacy == levels.public
    ensures IsSet(Some(Clearance(levels, false, false, false))) <==> levels.public != 0
  {
  }

}
