/** The search indexes of mozillians/users/search_indexes.py: identities are indexed once
    per email, and a profile's own email only when it has no identities. */
module SearchIndexes {
  import opened Wrappers
  import opened PrivacyLevels
  import opened Profiles
  import opened Relations
  import Identities

  /** The emails of the rows. */
  function Emails(rows: seq<IdpRow>): set<string> {
    set r | r in rows :: r.email
  }

  /** Appending a row adds its email. */
  lemma EmailsAppend(k: seq<IdpRow>, x: IdpRow)
    ensures Emails(k + [x]) == Emails(k) + {x.email}
  {
    assert forall r :: r in k + [x] <==> r in k || r == x;
  }

  /** The rows `index_queryset` keeps, in iteration order: each row whose email no earlier
      row carried. */
  function Kept(rows: seq<IdpRow>): (k: seq<IdpRow>)
    ensures forall x :: x in k ==> x in rows
    ensures Emails(k) == Emails(rows)
    decreases |rows|
  {
    if rows == [] then []
    else
      var prefix := rows[..|rows| - 1];
      var last := rows[|rows| - 1];
      var k := Kept(prefix);
      assert rows == prefix + [last];
      EmailsAppend(prefix, last);
      EmailsAppend(k, last);
      if last.email in Emails(k) then k else k + [last]
  }

  /** One more row: kept when its email is new. */
  lemma KeptStep(rows: seq<IdpRow>, i: nat)
    requires i < |rows|
    ensures Kept(rows[..i + 1]) ==
      if rows[i].email in Emails(Kept(rows[..i])) then Kept(rows[..i]) else Kept(rows[..i]) + [rows[i]]
  {
    assert rows[..i + 1][..i] == rows[..i];
  }

  /** The ids of the rows, in order. */
  function Ids(rows: seq<IdpRow>): (ids: seq<nat>)
    ensures |ids| == |rows| && forall i :: 0 <= i < |rows| ==> ids[i] == rows[i].id
  {
    seq(|rows|, i requires 0 <= i < |rows| => rows[i].id)
  }

  /** `IdpProfileIndex.index_queryset`'s loop: walks the identities, keeping the id of each
      one whose email is not yet in the set of seen emails. */
  method KeptIds(rows: seq<IdpRow>) returns (ids: seq<nat>)
    ensures ids == Ids(Kept(rows))
  {
    ids := [];
    var uniqueEmails: set<string> := {};
    ghost var kept: seq<IdpRow> := [];
    var i := 0;
    while i < |rows|
      invariant 0 <= i <= |rows|
      invariant kept == Kept(rows[..i]) && ids == Ids(kept)
      invariant uniqueEmails == Emails(kept)
    {
      var idp := rows[i];
      KeptStep(rows, i);
      if idp.email !in uniqueEmails {
        ids := ids + [idp.id];
        uniqueEmails := uniqueEmails + {idp.email};
        EmailsAppend(kept, idp);
        assert Ids(kept + [idp]) == Ids(kept) + [idp.id];
        kept := kept + [idp];
      }
      i := i + 1;
    }
    assert rows[..i] == rows;
  }

  /** `index_queryset`: the identities whose id was kept, in table order. */
  function IndexQueryset(rows: seq<IdpRow>, ids: seq<nat>): (r: seq<IdpRow>)
    ensures forall x :: x in r <==> x in rows && x.id in ids
  {
    Seqs.FilterMembership(rows, (x: IdpRow) => x.id in ids);
    Seqs.Filter(rows, (x: IdpRow) => x.id in ids)
  }

  /** The kept rows have pairwise distinct emails. */
  lemma {:induction false} KeptDistinctEmails(rows: seq<IdpRow>)
    ensures forall i, j :: 0 <= i < j < |Kept(rows)| ==> Kept(rows)[i].email != Kept(rows)[j].email
    decreases |rows|
  {
    if rows != [] {
      var n := |rows| - 1;
      var prefix := rows[..n];
      var k := Kept(prefix);
      KeptDistinctEmails(prefix);
      KeptStep(rows, n);
      assert rows[..n + 1] == rows;
      if rows[n].email !in Emails(k) {
        var out := k + [rows[n]];
        forall i | 0 <= i < |k|
          ensures k[i].email != rows[n].email
        {
          assert k[i] in k;
        }
        assert forall i :: 0 <= i < |k| ==> out[i] == k[i];
      }
    }
  }

  /** Every email of the identity table is carried by some kept row. */
  lemma KeptCoversEmails(rows: seq<IdpRow>, r: IdpRow)
    requires r in rows
    ensures exists x :: x in Kept(rows) && x.email == r.email
  {
    assert r.email in Emails(rows);
  }

  /** Each kept row is the first row, in iteration order, that carries its email. */
  lemma {:induction false} KeptIsFirst(rows: seq<IdpRow>, x: IdpRow)
    requires x in Kept(rows)
    ensures exists i :: 0 <= i < |rows| && rows[i] == x && forall j :: 0 <= j < i ==> rows[j].email != x.email
    decreases |rows|
  {
    var n := |rows| - 1;
    var prefix := rows[..n];
    var k := Kept(prefix);
    KeptStep(rows, n);
    assert rows[..n + 1] == rows;
    if x in k {
      KeptIsFirst(prefix, x);
      var i :| 0 <= i < |prefix| && prefix[i] == x && forall j :: 0 <= j < i ==> prefix[j].email != x.email;
      assert forall j :: 0 <= j <= i ==> rows[j] == prefix[j];
      assert 0 <= i < |rows| && rows[i] == x && forall j :: 0 <= j < i ==> rows[j].email != x.email;
    } else {
      assert Kept(rows) == k + [rows[n]];
      assert x == rows[n];
      assert rows[n].email !in Emails(prefix);
      forall j | 0 <= j < n
        ensures rows[j].email != x.email
      {
        assert prefix[j] in prefix;
        assert prefix[j].email in Emails(prefix);
      }
      assert 0 <= n < |rows| && rows[n] == x && forall j :: 0 <= j < n ==> rows[j].email != x.email;
    }
  }

  /** Appending a row adds one email exactly when its email is new. */
  lemma EmailsCountAppend(k: seq<IdpRow>, x: IdpRow)
    ensures |Emails(k + [x])| == |Emails(k)| + (if x.email in Emails(k) then 0 else 1)
  {
    EmailsAppend(k, x);
  }

  /** One more row: kept when its email is new. */
  lemma KeptSnoc(prefix: seq<IdpRow>, x: IdpRow)
    ensures Kept(prefix + [x]) == if x.email in Emails(Kept(prefix)) then Kept(prefix) else Kept(prefix) + [x]
  {
    assert (prefix + [x])[..|prefix|] == prefix;
  }

  /** The count step: one more row keeps the kept rows as many as the emails. */
  lemma KeptCountSnoc(prefix: seq<IdpRow>, x: IdpRow)
    requires |Kept(prefix)| == |Emails(prefix)|
    ensures |Kept(prefix + [x])| == |Emails(prefix + [x])|
  {
    var k := Kept(prefix);
    KeptSnoc(prefix, x);
    EmailsCountAppend(prefix, x);
    if x.email !in Emails(k) {
      EmailsCountAppend(k, x);
    }
  }

  /** As many rows are kept as there are distinct emails. */
  lemma {:induction false} KeptCount(rows: seq<IdpRow>)
    ensures |Kept(rows)| == |Emails(rows)|
    decreases |rows|
  {
    if rows != [] {
      var n := |rows| - 1;
      KeptCount(rows[..n]);
      assert rows == rows[..n] + [rows[n]];
      KeptCountSnoc(rows[..n], rows[n]);
    }
  }

  /** Every kept id is an id of the table. */
  lemma KeptIdsAreIds(rows: seq<IdpRow>)
    ensures forall id :: id in Ids(Kept(rows)) ==> exists r :: r in rows && r.id == id
  {
    var k := Kept(rows);
    forall id | id in Ids(k)
      ensures exists r :: r in rows && r.id == id
    {
      var n :| 0 <= n < |k| && Ids(k)[n] == id;
      assert k[n] in rows;
    }
  }

  /** With distinct ids, a row is determined by its id. */
  lemma SameIdSameRow(rows: seq<IdpRow>, x: IdpRow, y: IdpRow)
    requires Identities.DistinctIdpIds(rows) && x in rows && y in rows && x.id == y.id
    ensures x == y
  {
    var i :| 0 <= i < |rows| && rows[i] == x;
    var j :| 0 <= j < |rows| && rows[j] == y;
  }

  /** An id is among the ids of `k` exactly when some row of `k` carries it. */
  lemma InIds(k: seq<IdpRow>, id: nat)
    ensures id in Ids(k) <==> exists y :: y in k && y.id == id
  {
    if id in Ids(k) {
      var n :| 0 <= n < |k| && Ids(k)[n] == id;
      assert k[n] in k;
    }
    if exists y :: y in k && y.id == id {
      var y :| y in k && y.id == id;
      var n :| 0 <= n < |k| && k[n] == y;
      assert Ids(k)[n] == id;
    }
  }

  /** With distinct identity ids, the final `filter(id__in=idps_ids)` gives back exactly the
      kept identities. */
  lemma IndexQuerysetIsKept(rows: seq<IdpRow>)
    requires Identities.DistinctIdpIds(rows)
    ensures forall x :: x in IndexQueryset(rows, Ids(Kept(rows))) <==> x in Kept(rows)
  {
    var k := Kept(rows);
    forall x
      ensures x in rows && x.id in Ids(k) <==> x in k
    {
      InIds(k, x.id);
      if x in rows && x.id in Ids(k) {
        var y :| y in k && y.id == x.id;
        SameIdSameRow(rows, x, y);
      }
    }
  }

  /** `UserProfileIndex.prepare_email`: the profile's email, read as `email` is read on the
      profile, when it has no identities, and `''` otherwise. */
  function PrepareEmail(idps: seq<IdpRow>, privacyEmail: int, userEmail: string,
                        pf: map<string, Value>, level: Option<int>): (r: Value)
    requires "email" in pf
    ensures idps != [] ==> r == Text("")
    ensures idps == [] && !IsSet(level) ==> r == Text(userEmail)
    ensures idps == [] && IsSet(level) ==>
      r == (if Hidden(privacyEmail, level.value) then pf["email"] else Text(userEmail))
  {
    if idps == [] then PrimaryEmail(idps, privacyEmail, userEmail, pf, level) else Text("")
  }
}
