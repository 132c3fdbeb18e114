/** The profile admin of mozillians/users/admin.py: the "public profiles" query built from
    the controlled fields, the public-profile list filter, and the action that recomputes
    the vouch flags of the selected profiles. */
module UsersAdmin {
  import opened Wrappers
  import opened Seqs
  import opened Profiles
  import opened Relations

  /** A Django `Q` object restricted to what the admin builds: the empty `Q()`, one equality
      lookup, and disjunction. */
  datatype Q = Empty | Eq(key: string, value: int) | Or(left: Q, right: Q)

  /** `a | b`: combining with an empty `Q` gives the other operand. */
  function OrQ(a: Q, b: Q): (r: Q)
    ensures a == Empty ==> r == b
    ensures b == Empty ==> r == a
  {
    if b == Empty then a else if a == Empty then b else Or(a, b)
  }

  /** Whether a profile row satisfies the query; `Q()` puts no restriction. */
  predicate Matches(q: Q, attrs: map<string, Value>) {
    match q
    case Empty => true
    case Eq(key, value) => key in attrs && attrs[key] == Int(value)
    case Or(l, r) => Matches(l, attrs) || Matches(r, attrs)
  }

  /** Disjunction matches a row iff one of its operands does (unless both are `Q()`). */
  lemma OrQMatches(a: Q, b: Q, attrs: map<string, Value>)
    requires a != Empty && b != Empty
    ensures Matches(OrQ(a, b), attrs) <==> Matches(a, attrs) || Matches(b, attrs)
  {
  }

  /** The rows the query built so far must match: one of the done fields is PUBLIC. */
  ghost predicate SomeDonePublic(attrs: map<string, Value>, done: set<string>, public: int) {
    exists f :: f in done && PrivacyOf(attrs, f) == Some(public)
  }

  /** The construction of `Q_PUBLIC_PROFILES`: `|=` of `privacy_<f> = PUBLIC` over the
      controlled fields. It matches exactly the profiles `is_public` accepts, and is the empty
      `Q()` only when there are no controlled fields. */
  method BuildPublicProfilesQ(pf: map<string, Value>, public: int) returns (q: Q)
    ensures pf == map[] <==> q == Empty
    ensures pf != map[] ==> forall attrs :: Matches(q, attrs) <==> IsPublic(attrs, pf, public)
  {
    q := Empty;
    var remaining := pf.Keys;
    while remaining != {}
      invariant remaining <= pf.Keys
      invariant q == Empty <==> remaining == pf.Keys
      invariant q != Empty ==> forall attrs :: Matches(q, attrs) <==> SomeDonePublic(attrs, pf.Keys - remaining, public)
      decreases remaining
    {
      var field :| field in remaining;
      ghost var done := pf.Keys - remaining;
      var clause := Eq(PrivacyAttr(field), public);
      forall attrs
        ensures Matches(clause, attrs) <==> PrivacyOf(attrs, field) == Some(public)
      {
      }
      if q != Empty {
        forall attrs
          ensures Matches(OrQ(q, clause), attrs) <==> SomeDonePublic(attrs, done + {field}, public)
        {
          OrQMatches(q, clause, attrs);
        }
      } else {
        assert done == {};
        forall attrs
          ensures Matches(clause, attrs) <==> SomeDonePublic(attrs, done + {field}, public)
        {
        }
      }
      q := OrQ(q, clause);
      remaining := remaining - {field};
      assert pf.Keys - remaining == done + {field};
    }
    assert pf.Keys - remaining == pf.Keys;
  }

  /** The query as a test on rows, and its negation. */
  function Matcher(q: Q): map<string, Value> -> bool {
    x => Matches(q, x)
  }

  function NonMatcher(q: Q): map<string, Value> -> bool {
    x => !Matches(q, x)
  }

  /** `queryset.filter(q)`. */
  function FilterQ(qs: seq<map<string, Value>>, q: Q): (r: seq<map<string, Value>>)
    ensures forall x :: x in r <==> x in qs && Matches(q, x)
  {
    FilterMembership(qs, Matcher(q));
    Filter(qs, Matcher(q))
  }

  /** `queryset.exclude(q)`; excluding `Q()` excludes nothing. */
  function ExcludeQ(qs: seq<map<string, Value>>, q: Q): (r: seq<map<string, Value>>)
    ensures q == Empty ==> r == qs
    ensures q != Empty ==> forall x :: x in r <==> x in qs && !Matches(q, x)
  {
    if q == Empty then qs
    else
      FilterMembership(qs, NonMatcher(q));
      Filter(qs, NonMatcher(q))
  }

  /** `PublicProfileFilter.queryset`: no value keeps the queryset; `'True'` keeps the public
      profiles; any other value keeps the others. */
  function PublicProfileFilter(value: Option<string>, qs: seq<map<string, Value>>, q: Q): (r: seq<map<string, Value>>)
    ensures value == None ==> r == qs
    ensures value == Some("True") ==> r == FilterQ(qs, q)
    ensures value.Some? && value != Some("True") ==> r == ExcludeQ(qs, q)
  {
    if value.None? then qs
    else if value.value == "True" then FilterQ(qs, q)
    else ExcludeQ(qs, q)
  }

  /** With a non-empty query, `'True'` and any other value split the queryset in two: every
      profile lands on exactly one side, and the sides together are the queryset. */
  lemma PublicProfileFilterPartitions(qs: seq<map<string, Value>>, q: Q, other: string)
    requires q != Empty && other != "True"
    ensures multiset(PublicProfileFilter(Some("True"), qs, q)) + multiset(PublicProfileFilter(Some(other), qs, q))
      == multiset(qs)
    ensures forall x :: x in qs ==>
      (x in PublicProfileFilter(Some("True"), qs, q) <==> x !in PublicProfileFilter(Some(other), qs, q))
  {
    FilterPartition(qs, Matcher(q), NonMatcher(q));
  }

  /** For the query built from the controlled fields, `'True'` keeps exactly the profiles
      `is_public` accepts and any other value exactly the rest. */
  lemma PublicProfileFilterIsPublic(pf: map<string, Value>, public: int, q: Q, qs: seq<map<string, Value>>,
                                    other: string)
    requires pf != map[] && q != Empty && other != "True"
    requires forall attrs :: Matches(q, attrs) <==> IsPublic(attrs, pf, public)
    ensures forall x :: x in PublicProfileFilter(Some("True"), qs, q) <==> x in qs && IsPublic(x, pf, public)
    ensures forall x :: x in PublicProfileFilter(Some(other), qs, q) <==> x in qs && !IsPublic(x, pf, public)
  {
  }

  /** The flags `update_vouch_flags` writes for a profile with `count` received vouches:
      vouched iff it received some vouch, able to vouch iff it received at least the
      threshold. */
  function VouchFlags(attrs: map<string, Value>, count: nat, threshold: int): (r: map<string, Value>)
    ensures "is_vouched" in r && r["is_vouched"] == Bool(count > 0)
    ensures "can_vouch" in r && r["can_vouch"] == Bool(count >= threshold)
  {
    attrs["can_vouch" := Bool(count >= threshold)]["is_vouched" := Bool(count > 0)]
  }

  /** The action adds the two flags and changes no other attribute; with a threshold of at
      least 1, being able to vouch implies being vouched. */
  lemma VouchFlagsMeaning(attrs: map<string, Value>, count: nat, threshold: int)
    ensures VouchFlags(attrs, count, threshold).Keys == attrs.Keys + {"can_vouch", "is_vouched"}
    ensures forall k :: k in attrs && k != "can_vouch" && k != "is_vouched" ==>
      VouchFlags(attrs, count, threshold)[k] == attrs[k]
    ensures threshold >= 1 && VouchFlags(attrs, count, threshold)["can_vouch"] == Bool(true) ==>
      VouchFlags(attrs, count, threshold)["is_vouched"] == Bool(true)
  {
  }

  /** Running the action again with the same vouches changes nothing. */
  lemma VouchFlagsIdempotent(attrs: map<string, Value>, count: nat, threshold: int)
    ensures VouchFlags(VouchFlags(attrs, count, threshold), count, threshold) == VouchFlags(attrs, count, threshold)
  {
  }

  /** `update_vouch_flags`: for every selected profile, counts its received vouches, sets
      `can_vouch` and `is_vouched` from the count, and saves it. Profiles come fresh from the
      queryset, so they carry no clearance and the count is the unfiltered one. */
  method UpdateVouchFlags(queryset: seq<UserProfile>, vouches: seq<VouchRow>, threshold: int)
    requires forall p :: p in queryset ==> p.privacyLevel == None
    modifies set p | p in queryset
    ensures forall p :: p in queryset ==>
      p.attrs == VouchFlags(old(p.attrs), |Relation(vouches, p.id, Received)|, threshold)
      && p.persisted == p.attrs && p.privacyLevel == None
  {
    ghost var done: set<UserProfile> := {};
    var i := 0;
    while i < |queryset|
      invariant 0 <= i <= |queryset|
      invariant forall j :: 0 <= j < i ==> queryset[j] in done
      invariant forall p :: p in queryset && p in done ==>
        p.attrs == VouchFlags(old(p.attrs), |Relation(vouches, p.id, Received)|, threshold)
        && p.persisted == p.attrs && p.privacyLevel == None
      invariant forall p :: p in queryset && p !in done ==> p.attrs == old(p.attrs) && p.privacyLevel == None
    {
      var profile := queryset[i];
      var count := |Relation(vouches, profile.id, Received)|;
      VouchFlagsIdempotent(old(profile.attrs), count, threshold);
      profile.attrs := VouchFlags(profile.attrs, count, threshold);
      profile.Save();
      done := done + {profile};
      i := i + 1;
    }
  }
}
