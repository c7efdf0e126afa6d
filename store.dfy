/** The service as it runs: a mutable contact store whose reconciliation
    method follows the source step by step (queries, creates, the demotion
    loop, the map that merges matches with their clusters, the response
    builder), proved to agree with the function `Reconcile`. */
module Store {
  import opened Contacts
  import opened Table
  import opened Response
  import opened Reconciliation
  import opened Properties

  /** No two entries share an id: the keys of a map from id to contact. */
  predicate DistinctIds(s: seq<Contact>) {
    forall i, j :: 0 <= i < j < |s| ==> s[i].id != s[j].id
  }

  /** `Map.set(c.id, c)` on a map kept as its values in insertion order: an
      entry with the same id is replaced where it stands, otherwise `c` is
      appended. */
  function MapSet(m: seq<Contact>, c: Contact): (r: seq<Contact>)
    ensures forall x :: x in r <==> x == c || (x in m && x.id != c.id)
    ensures DistinctIds(m) ==> DistinctIds(r)
  {
    if exists k :: 0 <= k < |m| && m[k].id == c.id then
      var r := seq(|m|, i requires 0 <= i < |m| => if m[i].id == c.id then c else m[i]);
      assert forall x :: x in m && x.id != c.id ==> x in r by {
        forall x | x in m && x.id != c.id ensures x in r {
          var i :| 0 <= i < |m| && m[i] == x;
          assert r[i] == x;
        }
      }
      var k :| 0 <= k < |m| && m[k].id == c.id;
      assert r[k] == c;
      r
    else
      m + [c]
  }

  /** The oldest element does not depend on the order of a list of rows. */
  lemma OldestIgnoresOrder(rows: seq<Contact>, ps: seq<Contact>, qs: seq<Contact>)
    requires Ordered(rows) && ps != [] && qs != []
    requires forall x :: x in ps ==> x in rows
    requires forall x :: x in ps <==> x in qs
    ensures OldestPrimary(ps) == OldestPrimary(qs)
  {
    var a, b := OldestPrimary(ps), OldestPrimary(qs);
    assert a.createdAt <= b.createdAt && b.createdAt <= a.createdAt;
    SameRow(rows, a, b);
  }

  /** The primaries among the matches and their clusters are the primaries of
      the touched clusters. */
  lemma ExpandedPrimaries(t: ContactTable, matches: seq<Contact>, all: seq<Contact>)
    requires WellFormed(t) && FromTable(t, matches) && matches != []
    requires forall c :: c in all <==> c in matches || c in Expansion(t, matches)
    ensures forall c :: c in Filter(all, IsPrimary) <==> c in Primaries(Expansion(t, matches))
  {
    MatchesInExpansion(t, matches);
  }

  /** `primaries.slice(1)` after sorting: every primary except the winner
      (the entries carry distinct ids, so this removes exactly the head). */
  function AllBut(ps: seq<Contact>, id: int): (r: seq<Contact>)
    ensures forall c :: c in r <==> c in ps && c.id != id
  {
    Filter(ps, (c: Contact) => c.id != id)
  }

  lemma AllButIds(ps: seq<Contact>, qs: seq<Contact>, id: int)
    requires forall c :: c in ps <==> c in qs
    ensures IdsOf(AllBut(ps, id)) == IdsOf(qs) - {id}
  {
    forall x | x in IdsOf(qs) - {id}
      ensures x in IdsOf(AllBut(ps, id))
    {
      var c :| c in qs && c.id == x;
      assert c in AllBut(ps, id);
    }
  }

  class ContactStore {
    var rows: seq<Contact>
    var nextId: int
    var clock: int

    function Snapshot(): ContactTable
      reads this
    {
      ContactTable(rows, nextId, clock)
    }

    /** The store is well formed and no value is shared across clusters. */
    predicate Valid()
      reads this
    {
      WellFormed(Snapshot()) && ValuesSeparated(rows)
    }

    /** An empty store; ids start at 1 as an autoincrement column does. */
    constructor ()
      ensures Snapshot() == ContactTable([], 1, 0) && Valid()
    {
      rows := [];
      nextId := 1;
      clock := 0;
    }

    /** `createContact`: the next id, the current tick, not deleted. */
    method CreateContact(email: Option<string>, phone: Option<string>,
                         linkedId: Option<int>, precedence: LinkPrecedence) returns (c: Contact)
      modifies this
      ensures c == Created(old(Snapshot()), email, phone, linkedId, precedence)
      ensures Snapshot() == Insert(old(Snapshot()), c)
      ensures old(Valid()) && FitsTable(old(rows), c) ==> Valid()
    {
      c := Contact(nextId, email, phone, linkedId, precedence, clock, None);
      ghost var t0 := Snapshot();
      if Valid() && FitsTable(rows, c) {
        InsertKeepsValid(t0, c);
      }
      rows := rows + [c];
      nextId := nextId + 1;
      clock := clock + 1;
    }

    /** `expandToFullCluster`: the matches and every live member of their
        clusters, each once. */
    method ExpandToFullCluster(contacts: seq<Contact>) returns (all: seq<Contact>)
      requires Ordered(rows) && forall c :: c in contacts ==> c in rows
      ensures DistinctIds(all)
      ensures forall c :: c in all <==> c in contacts || c in ClusterQuery(rows, Roots(contacts))
    {
      var allIds: set<int> := {};
      all := [];
      for i := 0 to |contacts|
        invariant allIds == Roots(contacts[..i])
        invariant DistinctIds(all)
        invariant forall x :: x in all <==> x in contacts[..i]
      {
        var contact := contacts[i];
        var rootId := if contact.linkPrecedence == Primary then contact.id
          else if contact.linkedId.Some? then contact.linkedId.value
          else contact.id;
        assert contacts[..i + 1] == contacts[..i] + [contact];
        RootsAppend(contacts[..i], contact);
        allIds := allIds + {rootId};
        forall x | x in all && x.id == contact.id
          ensures x == contact
        {
          SameRow(rows, x, contact);
        }
        all := MapSet(all, contact);
      }
      assert contacts[..|contacts|] == contacts;

      var clusterContacts := ClusterQuery(rows, allIds);
      for j := 0 to |clusterContacts|
        invariant DistinctIds(all)
        invariant forall x :: x in all <==> x in contacts || x in clusterContacts[..j]
      {
        var c := clusterContacts[j];
        assert clusterContacts[..j + 1] == clusterContacts[..j] + [c];
        forall x | x in all && x.id == c.id
          ensures x == c
        {
          SameRow(rows, x, c);
        }
        all := MapSet(all, c);
      }
      assert clusterContacts[..|clusterContacts|] == clusterContacts;
    }

    /** `demotePrimariesToSecondary`: each primary becomes a secondary of the
        new primary, then its live secondaries are re-linked. */
    method DemotePrimariesToSecondary(toDemote: seq<Contact>, newPrimaryId: int)
      requires forall p :: p in toDemote ==> p.id != newPrimaryId
      modifies this
      ensures rows == DemoteAll(old(rows), IdsOf(toDemote), newPrimaryId)
      ensures nextId == old(nextId) && clock == old(clock)
      ensures old(Valid()) && Demotable(old(rows), IdsOf(toDemote), newPrimaryId) ==> Valid()
    {
      if Valid() && Demotable(rows, IdsOf(toDemote), newPrimaryId) {
        DemoteKeepsValid(Snapshot(), IdsOf(toDemote), newPrimaryId);
      }
      DemoteNothing(rows, newPrimaryId);
      for i := 0 to |toDemote|
        invariant rows == DemoteAll(old(rows), IdsOf(toDemote[..i]), newPrimaryId)
        invariant nextId == old(nextId) && clock == old(clock)
      {
        var primary := toDemote[i];
        assert toDemote[..i + 1] == toDemote[..i] + [primary];
        assert IdsOf(toDemote[..i + 1]) == IdsOf(toDemote[..i]) + {primary.id};
        assert primary in toDemote;
        DemoteStep(old(rows), IdsOf(toDemote[..i]), primary.id, newPrimaryId);
        rows := SetSecondary(rows, primary.id, newPrimaryId);
        rows := Relink(rows, primary.id, newPrimaryId);
      }
      assert toDemote[..|toDemote|] == toDemote;
    }

    /** `reconcileIdentity`: the new state and the response are those of
        `Reconcile` on the old state, and the store stays well formed. */
    method ReconcileIdentity(email: Option<string>, phone: Option<string>) returns (r: ConsolidatedContact)
      requires Valid()
      modifies this
      ensures Valid()
      ensures Outcome(Snapshot(), r) == Reconcile(old(Snapshot()), email, phone)
    {
      ghost var t0 := Snapshot();
      ReconcilePreservesWellFormed(t0, email, phone);
      var normalizedEmail, normalizedPhone := Normalize(email), Normalize(phone);

      var matchingContacts := FindMatchingContacts(rows, normalizedEmail, normalizedPhone);
      assert matchingContacts == Matches(t0, email, phone);
      if |matchingContacts| == 0 {
        var newContact := CreateContact(normalizedEmail, normalizedPhone, None, Primary);
        r := BuildResponse(newContact, []);
        ReconcilePreservesSeparation(t0, email, phone);
        return;
      }

      MatchesFromTable(t0, email, phone);
      var allContacts := ExpandToFullCluster(matchingContacts);
      var primaries := Filter(allContacts, IsPrimary);
      ExpandedPrimaries(t0, matchingContacts, allContacts);
      ghost var touched := Primaries(Expansion(t0, matchingContacts));
      ExpansionHasPrimary(t0, matchingContacts);
      ghost var winner := Winner(t0, matchingContacts);
      assert winner in touched && winner in primaries;

      var primaryContact: Contact;
      if |primaries| > 1 {
        primaryContact := OldestPrimary(primaries);
        OldestIgnoresOrder(rows, touched, primaries);
        var primariesToDemote := AllBut(primaries, primaryContact.id);
        AllButIds(primaries, touched, primaryContact.id);
        DemotePrimariesToSecondary(primariesToDemote, primaryContact.id);
      } else {
        primaryContact := primaries[0];
        SingleTouchedPrimary(t0, matchingContacts, primaries);
        DemoteNothing(rows, primaryContact.id);
      }
      assert Snapshot() == Merged(t0, matchingContacts);

      var freshCluster := FullCluster(rows, primaryContact.id);
      var hasNewEmail := Present(normalizedEmail) && !SomeEmail(freshCluster, normalizedEmail);
      var hasNewPhone := Present(normalizedPhone) && !SomePhone(freshCluster, normalizedPhone);
      if hasNewEmail || hasNewPhone {
        var _ := CreateContact(normalizedEmail, normalizedPhone, Some(primaryContact.id), Secondary);
      }

      var finalCluster := FullCluster(rows, primaryContact.id);
      var secondaryContacts := Secondaries(finalCluster);
      r := BuildResponse(primaryContact, secondaryContacts);
      ReconcilePreservesSeparation(t0, email, phone);
    }
  }

  /** With a single primary in the touched clusters, it is the winner and
      nothing is demoted. */
  lemma SingleTouchedPrimary(t: ContactTable, matches: seq<Contact>, primaries: seq<Contact>)
    requires WellFormed(t) && FromTable(t, matches) && matches != []
    requires |primaries| == 1
    requires forall c :: c in primaries <==> c in Primaries(Expansion(t, matches))
    ensures primaries[0] == Winner(t, matches) && Losers(t, matches) == {}
  {
    var ps := Primaries(Expansion(t, matches));
    ExpansionHasPrimary(t, matches);
    SingleElement(primaries, ps, OldestPrimary(ps));
  }

  /** A list with one element holds only that element. */
  lemma SingleElement(primaries: seq<Contact>, ps: seq<Contact>, w: Contact)
    requires |primaries| == 1 && w in ps
    requires forall c :: c in primaries <==> c in ps
    ensures primaries[0] == w && IdsOf(ps) - {w.id} == {}
  {
    assert primaries[0] in primaries;
    forall c | c in ps
      ensures c == w
    {
    }
  }
}
