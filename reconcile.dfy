/** The reconciliation algorithm as a function of the contact table: match,
    expand to whole clusters, let the oldest primary win and demote the
    others, add a secondary when the request brings a new value, and report
    the resolved cluster. The class in module Store runs the same algorithm
    step by step on a mutable table and is proved to agree with it. */
module Reconciliation {
  import opened Contacts
  import opened Table
  import opened Response

  datatype Outcome = Outcome(table: ContactTable, contact: ConsolidatedContact)

  /** The element with the smallest creation tick; on a tie the earlier one,
      as a stable ascending sort followed by taking element 0 would give. */
  function OldestPrimary(ps: seq<Contact>): (r: Contact)
    requires ps != []
    ensures r in ps
    ensures forall c :: c in ps ==> r.createdAt <= c.createdAt
    decreases |ps|
  {
    if |ps| == 1 then ps[0]
    else
      var rest := OldestPrimary(ps[1..]);
      if ps[0].createdAt <= rest.createdAt then ps[0] else rest
  }

  /** The request brings an email or a phone number the cluster lacks. */
  predicate HasNewInfo(cluster: seq<Contact>, email: Option<string>, phone: Option<string>)
    ensures HasNewInfo(cluster, email, phone) ==> Present(email) || Present(phone)
    ensures (exists c :: c in cluster && c.email == email && c.phoneNumber == phone) ==>
      !HasNewInfo(cluster, email, phone)
  {
    (Present(email) && !SomeEmail(cluster, email)) || (Present(phone) && !SomePhone(cluster, phone))
  }

  /** The view reported for the cluster whose primary is `primary`. */
  function ClusterView(rows: seq<Contact>, primary: Contact): ConsolidatedContact {
    ConsolidatedView(primary, Secondaries(FullCluster(rows, primary.id)))
  }

  // ---------------------------------------------------------------------------
  // The steps of the algorithm

  function Matches(t: ContactTable, email: Option<string>, phone: Option<string>): seq<Contact> {
    FindMatchingContacts(t.rows, Normalize(email), Normalize(phone))
  }

  /** Matched rows are live rows of the table. */
  predicate FromTable(t: ContactTable, matches: seq<Contact>) {
    forall m :: m in matches ==> m in t.rows && Live(m)
  }

  function Expansion(t: ContactTable, matches: seq<Contact>): seq<Contact> {
    ClusterQuery(t.rows, Roots(matches))
  }

  lemma MatchesInExpansion(t: ContactTable, matches: seq<Contact>)
    requires FromTable(t, matches)
    ensures forall m :: m in matches ==> m in Expansion(t, matches)
  {
    forall m | m in matches
      ensures m in Expansion(t, matches)
    {
      assert RootId(m) in Roots(matches);
    }
  }

  /** The primaries of the touched clusters are the live primary rows whose
      id is a root. */
  lemma ExpansionPrimaries(t: ContactTable, matches: seq<Contact>)
    requires WellFormed(t)
    ensures forall c :: c in Primaries(Expansion(t, matches)) <==>
      c in t.rows && Live(c) && IsPrimary(c) && c.id in Roots(matches)
  {
    forall c | c in t.rows && Live(c) && IsPrimary(c)
      ensures c.linkedId.None?
    {
      var i :| 0 <= i < |t.rows| && t.rows[i] == c;
    }
  }

  /** Some touched cluster has a live primary. */
  lemma ExpansionHasPrimary(t: ContactTable, matches: seq<Contact>)
    requires WellFormed(t) && FromTable(t, matches) && matches != []
    ensures Primaries(Expansion(t, matches)) != []
  {
    var m := matches[0];
    assert m in matches && m in t.rows;
    var i :| 0 <= i < |t.rows| && t.rows[i] == m;
    assert RootId(m) in Roots(matches);
    if IsPrimary(m) {
      assert m in Expansion(t, matches);
      assert m in Primaries(Expansion(t, matches));
    } else {
      var k :| 0 <= k < i && IsLivePrimaryAt(t.rows, k, m.linkedId.value);
      assert t.rows[k] in Expansion(t, matches);
      assert t.rows[k] in Primaries(Expansion(t, matches));
    }
  }

  lemma ExpansionFacts(t: ContactTable, matches: seq<Contact>)
    requires WellFormed(t) && FromTable(t, matches) && matches != []
    ensures forall m :: m in matches ==> m in Expansion(t, matches)
    ensures forall c :: c in Primaries(Expansion(t, matches)) <==>
      c in t.rows && Live(c) && IsPrimary(c) && c.id in Roots(matches)
    ensures Primaries(Expansion(t, matches)) != []
  {
    MatchesInExpansion(t, matches);
    ExpansionPrimaries(t, matches);
    ExpansionHasPrimary(t, matches);
  }

  function Winner(t: ContactTable, matches: seq<Contact>): Contact
    requires WellFormed(t) && FromTable(t, matches) && matches != []
  {
    ExpansionHasPrimary(t, matches);
    OldestPrimary(Primaries(Expansion(t, matches)))
  }

  /** The ids of the primaries that lose to the winner. */
  function Losers(t: ContactTable, matches: seq<Contact>): set<int>
    requires WellFormed(t) && FromTable(t, matches) && matches != []
  {
    IdsOf(Primaries(Expansion(t, matches))) - {Winner(t, matches).id}
  }

  function Merged(t: ContactTable, matches: seq<Contact>): ContactTable
    requires WellFormed(t) && FromTable(t, matches) && matches != []
  {
    t.(rows := DemoteAll(t.rows, Losers(t, matches), Winner(t, matches).id))
  }

  /** `reconcileIdentity` on table `t`: the new table and the response. */
  function Reconcile(t: ContactTable, email: Option<string>, phone: Option<string>): (o: Outcome)
    requires WellFormed(t)
    ensures |t.rows| <= |o.table.rows| <= |t.rows| + 1
    ensures o.table.nextId - t.nextId == o.table.clock - t.clock == |o.table.rows| - |t.rows|
  {
    var e, p := Normalize(email), Normalize(phone);
    var matches := Matches(t, email, phone);
    if matches == [] then
      var c := Created(t, e, p, None, Primary);
      Outcome(Insert(t, c), ConsolidatedView(c, []))
    else
      var winner := Winner(t, matches);
      var merged := Merged(t, matches);
      var t2 := if HasNewInfo(FullCluster(merged.rows, winner.id), e, p)
        then Insert(merged, Created(merged, e, p, Some(winner.id), Secondary))
        else merged;
      Outcome(t2, ConsolidatedView(winner, Secondaries(FullCluster(t2.rows, winner.id))))
  }

  /** The primary the response is about: the new contact when nothing
      matched, the winner otherwise. */
  function ResolvedPrimary(t: ContactTable, email: Option<string>, phone: Option<string>): Contact
    requires WellFormed(t)
  {
    var matches := Matches(t, email, phone);
    if matches == [] then Created(t, Normalize(email), Normalize(phone), None, Primary)
    else Winner(t, matches)
  }
}
