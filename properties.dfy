/** What reconciliation guarantees: the new-identity case, the merge rule
    (oldest primary wins), flattening, when a secondary is created, the
    cluster invariant, the shape of the response and idempotence. */
module Properties {
  import opened Contacts
  import opened Table
  import opened Response
  import opened Reconciliation

  // ---------------------------------------------------------------------------
  // Facts about the winner and the merge

  lemma MatchesFromTable(t: ContactTable, email: Option<string>, phone: Option<string>)
    ensures FromTable(t, Matches(t, email, phone))
  {
  }

  /** Every root a match resolves to is the id of a live primary row. */
  lemma RootsAreLivePrimaries(t: ContactTable, matches: seq<Contact>)
    requires WellFormed(t) && FromTable(t, matches)
    ensures forall r :: r in Roots(matches) ==> exists k :: IsLivePrimaryAt(t.rows, k, r)
  {
    forall r | r in Roots(matches)
      ensures exists k :: IsLivePrimaryAt(t.rows, k, r)
    {
      var c :| c in matches && RootId(c) == r;
      var i :| 0 <= i < |t.rows| && t.rows[i] == c;
      if IsPrimary(c) {
        assert IsLivePrimaryAt(t.rows, i, r);
      } else {
        var k :| 0 <= k < i && IsLivePrimaryAt(t.rows, k, c.linkedId.value);
      }
    }
  }

  lemma WinnerIsLivePrimary(t: ContactTable, matches: seq<Contact>) returns (w: nat)
    requires WellFormed(t) && FromTable(t, matches) && matches != []
    ensures w < |t.rows| && t.rows[w] == Winner(t, matches)
    ensures IsLivePrimaryAt(t.rows, w, Winner(t, matches).id)
  {
    ExpansionFacts(t, matches);
    var winner := Winner(t, matches);
    assert winner in Primaries(Expansion(t, matches));
    w :| 0 <= w < |t.rows| && t.rows[w] == winner;
  }

  /** The touched roots are the winner and the losers. */
  lemma RootsSplit(t: ContactTable, matches: seq<Contact>)
    requires WellFormed(t) && FromTable(t, matches) && matches != []
    ensures Roots(matches) == Losers(t, matches) + {Winner(t, matches).id}
  {
    RootsAreTouchedPrimaryIds(t, matches);
    ExpansionHasPrimary(t, matches);
    var ps := Primaries(Expansion(t, matches));
    assert Winner(t, matches) in ps;
  }

  /** The roots are exactly the ids of the touched primaries. */
  lemma RootsAreTouchedPrimaryIds(t: ContactTable, matches: seq<Contact>)
    requires WellFormed(t) && FromTable(t, matches)
    ensures Roots(matches) == IdsOf(Primaries(Expansion(t, matches)))
  {
    ExpansionPrimaries(t, matches);
    RootsAreLivePrimaries(t, matches);
    var ps := Primaries(Expansion(t, matches));
    forall r | r in Roots(matches)
      ensures r in IdsOf(ps)
    {
      var k :| IsLivePrimaryAt(t.rows, k, r);
      assert t.rows[k] in ps;
    }
  }


  /** A loser is a live primary created after the winner. */
  lemma LoserIsNewerPrimary(t: ContactTable, matches: seq<Contact>, i: int)
    requires WellFormed(t) && FromTable(t, matches) && matches != []
    requires 0 <= i < |t.rows| && t.rows[i].id in Losers(t, matches)
    ensures IsLivePrimaryAt(t.rows, i, t.rows[i].id)
    ensures Winner(t, matches).createdAt < t.rows[i].createdAt
  {
    ExpansionFacts(t, matches);
    var ps := Primaries(Expansion(t, matches));
    var winner := Winner(t, matches);
    assert winner in ps;
    var c :| c in ps && c.id == t.rows[i].id;
    SameRow(t.rows, c, t.rows[i]);
    DistinctRows(t.rows, c, winner);
  }

  lemma LosersAreNewer(t: ContactTable, matches: seq<Contact>)
    requires WellFormed(t) && FromTable(t, matches) && matches != []
    ensures forall i :: 0 <= i < |t.rows| && t.rows[i].id in Losers(t, matches) ==>
      IsLivePrimaryAt(t.rows, i, t.rows[i].id) && Winner(t, matches).createdAt < t.rows[i].createdAt
  {
    forall i | 0 <= i < |t.rows| && t.rows[i].id in Losers(t, matches)
      ensures IsLivePrimaryAt(t.rows, i, t.rows[i].id) && Winner(t, matches).createdAt < t.rows[i].createdAt
    {
      LoserIsNewerPrimary(t, matches, i);
    }
  }

  /** The winner is a live primary of a touched cluster, found at index `w`;
      the touched roots are the winner and the losers, and every loser is a
      live primary stored after the winner. */
  lemma WinnerFacts(t: ContactTable, matches: seq<Contact>) returns (w: nat)
    requires WellFormed(t) && FromTable(t, matches) && matches != []
    ensures w < |t.rows| && t.rows[w] == Winner(t, matches)
    ensures IsLivePrimaryAt(t.rows, w, Winner(t, matches).id)
    ensures Winner(t, matches).id !in Losers(t, matches)
    ensures Roots(matches) == Losers(t, matches) + {Winner(t, matches).id}
    ensures forall r :: r in Roots(matches) ==> exists k :: IsLivePrimaryAt(t.rows, k, r)
    ensures forall i :: 0 <= i < |t.rows| && t.rows[i].id in Losers(t, matches) ==>
      IsLivePrimaryAt(t.rows, i, t.rows[i].id) && w < i && Winner(t, matches).createdAt < t.rows[i].createdAt
  {
    w := WinnerIsLivePrimary(t, matches);
    RootsSplit(t, matches);
    RootsAreLivePrimaries(t, matches);
    LosersAreNewer(t, matches);
  }

  lemma MergedFacts(t: ContactTable, matches: seq<Contact>) returns (w: nat)
    requires WellFormed(t) && FromTable(t, matches) && matches != []
    ensures WellFormed(Merged(t, matches))
    ensures w < |t.rows| && t.rows[w] == Winner(t, matches)
    ensures Merged(t, matches).rows[w] == Winner(t, matches)
    ensures IsLivePrimaryAt(Merged(t, matches).rows, w, Winner(t, matches).id)
  {
    w := WinnerFacts(t, matches);
    DemotePreservesWellFormed(t, Losers(t, matches), w);
  }

  /** After a merge every live member of a touched cluster, and nothing else,
      belongs to the winner's cluster. */
  lemma MergedClusterIsTouchedClusters(t: ContactTable, matches: seq<Contact>)
    requires WellFormed(t) && FromTable(t, matches) && matches != []
    ensures forall i :: 0 <= i < |t.rows| ==>
      var c := Merged(t, matches).rows[i];
      (Live(c) && (c.id == Winner(t, matches).id || c.linkedId == Some(Winner(t, matches).id)))
      <==> (Live(t.rows[i]) && InClusterOf(t.rows[i], Roots(matches)))
  {
    var w := WinnerFacts(t, matches);
    var winner, losers := Winner(t, matches), Losers(t, matches);
    forall i | 0 <= i < |t.rows|
      ensures var c := Merged(t, matches).rows[i];
        (Live(c) && (c.id == winner.id || c.linkedId == Some(winner.id)))
        <==> (Live(t.rows[i]) && InClusterOf(t.rows[i], losers + {winner.id}))
    {
      assert Merged(t, matches).rows[i] == Demoted(t.rows[i], losers, winner.id);
      DemotedRowJoinsWinner(t.rows, losers, winner.id, i);
    }
  }

  /** The merged cluster holds exactly the emails and phone numbers of the
      touched clusters. */
  lemma MergedClusterValues(t: ContactTable, matches: seq<Contact>)
    requires WellFormed(t) && FromTable(t, matches) && matches != []
    ensures var refreshed := FullCluster(Merged(t, matches).rows, Winner(t, matches).id);
      && (forall v :: SomeEmail(refreshed, v) <==> SomeEmail(Expansion(t, matches), v))
      && (forall v :: SomePhone(refreshed, v) <==> SomePhone(Expansion(t, matches), v))
  {
    var rows2, w := Merged(t, matches).rows, Winner(t, matches).id;
    var losers, roots := Losers(t, matches), Roots(matches);
    assert forall i :: 0 <= i < |t.rows| ==>
      rows2[i].email == t.rows[i].email && rows2[i].phoneNumber == t.rows[i].phoneNumber
    by {
      forall i | 0 <= i < |t.rows|
        ensures rows2[i].email == t.rows[i].email && rows2[i].phoneNumber == t.rows[i].phoneNumber
      {
        assert rows2[i] == Demoted(t.rows[i], losers, w);
      }
    }
    assert forall i :: 0 <= i < |t.rows| ==>
      ((Live(rows2[i]) && (rows2[i].id == w || rows2[i].linkedId == Some(w)))
       <==> (Live(t.rows[i]) && InClusterOf(t.rows[i], roots)))
    by {
      MergedClusterIsTouchedClusters(t, matches);
    }
    ClusterValuesAgree(t.rows, rows2, roots, w);
  }

  /** Reconcile, when something matched: the merged table, extended by a
      secondary when the request brings new information, and the view of the
      winner's cluster in it. */
  lemma ReconcileUnfold(t: ContactTable, email: Option<string>, phone: Option<string>)
    requires WellFormed(t) && Matches(t, email, phone) != []
    ensures var m := Matches(t, email, phone);
      var e, p := Normalize(email), Normalize(phone);
      var winner, merged := Winner(t, m), Merged(t, m);
      var o := Reconcile(t, email, phone);
      && o.contact == ClusterView(o.table.rows, winner)
      && (if HasNewInfo(FullCluster(merged.rows, winner.id), e, p)
          then o.table == Insert(merged, Created(merged, e, p, Some(winner.id), Secondary))
          else o.table == merged)
  {
  }


  /** The rows after a matched request: the demoted old rows, then possibly
      one secondary linked to the winner. */
  lemma MergedPrefix(t: ContactTable, email: Option<string>, phone: Option<string>)
    requires WellFormed(t) && Matches(t, email, phone) != []
    ensures var m := Matches(t, email, phone);
      var rows' := Reconcile(t, email, phone).table.rows;
      && (forall i :: 0 <= i < |t.rows| ==> rows'[i] == Demoted(t.rows[i], Losers(t, m), Winner(t, m).id))
      && (|rows'| == |t.rows| + 1 ==> rows'[|t.rows|].linkedId == Some(Winner(t, m).id))
  {
    ReconcileUnfold(t, email, phone);
    var m := Matches(t, email, phone);
    var merged, w := Merged(t, m), Winner(t, m).id;
    ExtendedPrefix(t.rows, merged.rows, Reconcile(t, email, phone).table.rows, Losers(t, m), w);
  }

  /** Rows that extend the demoted table keep the demoted rows in front. */
  lemma ExtendedPrefix(rows: seq<Contact>, merged: seq<Contact>, rows': seq<Contact>, demoted: set<int>, w: int)
    requires merged == DemoteAll(rows, demoted, w)
    requires rows' == merged || (|rows'| == |merged| + 1 && rows'[..|merged|] == merged)
    ensures forall i :: 0 <= i < |rows| ==> rows'[i] == Demoted(rows[i], demoted, w)
  {
    forall i | 0 <= i < |rows|
      ensures rows'[i] == Demoted(rows[i], demoted, w)
    {
      assert rows'[i] == merged[i];
    }
  }

  /** Demoting under a winner that is not itself demoted leaves no live link
      to a demoted id, when the only added row links to the winner. */
  lemma NoLinkToDemoted(rows: seq<Contact>, rows': seq<Contact>, demoted: set<int>, winner: int)
    requires |rows| <= |rows'| <= |rows| + 1 && winner !in demoted
    requires forall i :: 0 <= i < |rows| ==> rows'[i] == Demoted(rows[i], demoted, winner)
    requires |rows'| == |rows| + 1 ==> rows'[|rows|].linkedId == Some(winner)
    ensures forall c :: c in rows' && Live(c) && c.linkedId.Some? ==> c.linkedId.value !in demoted
  {
    forall c | c in rows' && Live(c) && c.linkedId.Some?
      ensures c.linkedId.value !in demoted
    {
      var i :| 0 <= i < |rows'| && rows'[i] == c;
    }
  }

  // ---------------------------------------------------------------------------
  // The merge rule and flattening

  /** When the request touches several clusters, the primary with the
      smallest creation tick keeps primacy; every other primary of the
      touched clusters becomes a secondary linked to it. */
  lemma OldestPrimaryWins(t: ContactTable, email: Option<string>, phone: Option<string>)
    requires WellFormed(t) && Matches(t, email, phone) != []
    ensures var m := Matches(t, email, phone);
      var winner := Winner(t, m);
      var o := Reconcile(t, email, phone);
      && winner in t.rows && Live(winner) && IsPrimary(winner) && winner.id in Roots(m)
      && o.contact.primaryContatctId == winner.id
      && (forall i :: 0 <= i < |t.rows| && Live(t.rows[i]) && IsPrimary(t.rows[i]) && t.rows[i].id in Roots(m) && t.rows[i] != winner ==>
            winner.createdAt < t.rows[i].createdAt
            && o.table.rows[i].linkPrecedence == Secondary
            && o.table.rows[i].linkedId == Some(winner.id))
  {
    var m := Matches(t, email, phone);
    WinnerIsTouchedPrimary(t, m);
    ReconcileUnfold(t, email, phone);
    OtherPrimariesDemoted(t, email, phone);
  }

  lemma WinnerIsTouchedPrimary(t: ContactTable, matches: seq<Contact>)
    requires WellFormed(t) && FromTable(t, matches) && matches != []
    ensures var winner := Winner(t, matches);
      winner in t.rows && Live(winner) && IsPrimary(winner) && winner.id in Roots(matches)
  {
    var w := WinnerIsLivePrimary(t, matches);
    RootsSplit(t, matches);
  }

  lemma OtherPrimariesDemoted(t: ContactTable, email: Option<string>, phone: Option<string>)
    requires WellFormed(t) && Matches(t, email, phone) != []
    ensures var m := Matches(t, email, phone);
      var winner := Winner(t, m);
      var rows' := Reconcile(t, email, phone).table.rows;
      forall i :: 0 <= i < |t.rows| && Live(t.rows[i]) && IsPrimary(t.rows[i]) && t.rows[i].id in Roots(m) && t.rows[i] != winner ==>
        winner.createdAt < t.rows[i].createdAt
        && rows'[i].linkPrecedence == Secondary
        && rows'[i].linkedId == Some(winner.id)
  {
    var m := Matches(t, email, phone);
    var winner, losers := Winner(t, m), Losers(t, m);
    var w := WinnerFacts(t, m);
    MergedPrefix(t, email, phone);
    DemotedPrimariesLinkToWinner(t.rows, Reconcile(t, email, phone).table.rows, losers, winner);
  }

  /** Every primary demoted under `winner` is newer than it and becomes its
      secondary. */
  lemma DemotedPrimariesLinkToWinner(rows: seq<Contact>, rows': seq<Contact>, demoted: set<int>, winner: Contact)
    requires Ordered(rows) && winner in rows && winner.id !in demoted && |rows| <= |rows'|
    requires forall i :: 0 <= i < |rows| && rows[i].id in demoted ==> winner.createdAt < rows[i].createdAt
    requires forall i :: 0 <= i < |rows| ==> rows'[i] == Demoted(rows[i], demoted, winner.id)
    ensures forall i :: 0 <= i < |rows| && rows[i].id in demoted + {winner.id} && rows[i] != winner ==>
      winner.createdAt < rows[i].createdAt
      && rows'[i].linkPrecedence == Secondary && rows'[i].linkedId == Some(winner.id)
  {
    forall i | 0 <= i < |rows| && rows[i].id in demoted + {winner.id} && rows[i] != winner
      ensures rows[i].id in demoted
    {
      DistinctRows(rows, rows[i], winner);
    }
  }

  /** After a merge no live row links to a demoted primary, every live member
      of a touched cluster belongs to the winner's cluster, and rows outside
      the touched clusters are unchanged. */
  lemma MergeFlattens(t: ContactTable, email: Option<string>, phone: Option<string>)
    requires WellFormed(t) && Matches(t, email, phone) != []
    ensures var m := Matches(t, email, phone);
      var winner, losers := Winner(t, m), Losers(t, m);
      var rows' := Reconcile(t, email, phone).table.rows;
      && (forall c :: c in rows' && Live(c) && c.linkedId.Some? ==> c.linkedId.value !in losers)
      && (forall i :: 0 <= i < |t.rows| && Live(t.rows[i]) && InClusterOf(t.rows[i], Roots(m)) ==>
            rows'[i].id == winner.id || rows'[i].linkedId == Some(winner.id))
      && (forall i :: 0 <= i < |t.rows| && !(Live(t.rows[i]) && InClusterOf(t.rows[i], Roots(m))) ==>
            rows'[i] == t.rows[i])
  {
    var m := Matches(t, email, phone);
    var rows' := Reconcile(t, email, phone).table.rows;
    var winner, losers := Winner(t, m), Losers(t, m);
    MergedPrefix(t, email, phone);
    var w := WinnerIsLivePrimary(t, m);
    RootsSplit(t, m);
    RootsAreLivePrimaries(t, m);
    NoLinkToDemoted(t.rows, rows', losers, winner.id);
    FlattenedClusters(t.rows, rows', losers, winner.id);
  }

  /** Demoting under a live primary `winner` puts every live member of the
      merged clusters into the winner's cluster and leaves other rows alone. */
  lemma FlattenedClusters(rows: seq<Contact>, rows': seq<Contact>, demoted: set<int>, winner: int)
    requires Ordered(rows) && ClusterShape(rows) && winner !in demoted && |rows| <= |rows'|
    requires forall r :: r in demoted + {winner} ==> exists k :: IsLivePrimaryAt(rows, k, r)
    requires forall i :: 0 <= i < |rows| ==> rows'[i] == Demoted(rows[i], demoted, winner)
    ensures forall i :: 0 <= i < |rows| && Live(rows[i]) && InClusterOf(rows[i], demoted + {winner}) ==>
      rows'[i].id == winner || rows'[i].linkedId == Some(winner)
    ensures forall i :: 0 <= i < |rows| && !(Live(rows[i]) && InClusterOf(rows[i], demoted + {winner})) ==>
      rows'[i] == rows[i]
  {
    forall i | 0 <= i < |rows| && Live(rows[i]) && InClusterOf(rows[i], demoted + {winner})
      ensures rows'[i].id == winner || rows'[i].linkedId == Some(winner)
    {
      DemotedRowJoinsWinner(rows, demoted, winner, i);
    }
    forall i | 0 <= i < |rows| && rows[i].id in demoted
      ensures Live(rows[i])
    {
      assert rows[i].id in demoted + {winner};
      var k :| IsLivePrimaryAt(rows, k, rows[i].id);
      assert k == i;
    }
  }

  // ---------------------------------------------------------------------------
  // Creating contacts

  /** With no match, exactly one contact is added: a primary without a link
      carrying the request's values; the response lists just those values. */
  lemma NewIdentity(t: ContactTable, email: Option<string>, phone: Option<string>)
    requires WellFormed(t) && Matches(t, email, phone) == []
    ensures var o := Reconcile(t, email, phone);
      && o.table.rows == t.rows + [Contact(t.nextId, Normalize(email), Normalize(phone), None, Primary, t.clock, None)]
      && o.contact == ConsolidatedContact(
           t.nextId,
           if Present(email) then [email.value] else [],
           if Present(phone) then [phone.value] else [],
           [])
  {
    LoneView(Created(t, Normalize(email), Normalize(phone), None, Primary));
  }

  /** A secondary is added exactly when the request carries an email or a
      phone number that no live member of the touched clusters has; it is
      linked to the winner and carries the request's values. Otherwise the
      table is the merged table. */
  lemma SecondaryCreatedExactlyOnNewInfo(t: ContactTable, email: Option<string>, phone: Option<string>)
    requires WellFormed(t) && Matches(t, email, phone) != []
    ensures var m := Matches(t, email, phone);
      var e, p := Normalize(email), Normalize(phone);
      var o := Reconcile(t, email, phone);
      var isNew := (Present(e) && !SomeEmail(Expansion(t, m), e)) || (Present(p) && !SomePhone(Expansion(t, m), p));
      && (|o.table.rows| == |t.rows| + 1 <==> isNew)
      && (isNew ==> o.table.rows[|t.rows|] == Contact(t.nextId, e, p, Some(Winner(t, m).id), Secondary, t.clock, None))
      && (!isNew ==> o.table == Merged(t, m))
  {
    var m := Matches(t, email, phone);
    MergedClusterValues(t, m);
    ReconcileUnfold(t, email, phone);
  }

  // ---------------------------------------------------------------------------
  // The cluster invariant

  /** Appending a refreshed row whose own link, if any, names a live primary
      keeps the table well formed. */
  lemma InsertPreservesWellFormed(t: ContactTable, c: Contact)
    requires WellFormed(t)
    requires c.id == t.nextId && c.createdAt == t.clock && Live(c)
    requires c.linkPrecedence == Primary <==> c.linkedId.None?
    requires c.linkedId.Some? ==> exists k :: 0 <= k < |t.rows| && IsLivePrimaryAt(t.rows, k, c.linkedId.value)
    ensures WellFormed(Insert(t, c))
  {
    var rows := t.rows + [c];
    forall i | 0 <= i < |rows| && Live(rows[i]) && rows[i].linkedId.Some?
      ensures exists k :: 0 <= k < i && IsLivePrimaryAt(rows, k, rows[i].linkedId.value)
    {
      if i < |t.rows| {
        var k :| 0 <= k < i && IsLivePrimaryAt(t.rows, k, t.rows[i].linkedId.value);
        assert IsLivePrimaryAt(rows, k, rows[i].linkedId.value);
      } else {
        var k :| 0 <= k < |t.rows| && IsLivePrimaryAt(t.rows, k, c.linkedId.value);
        assert IsLivePrimaryAt(rows, k, rows[i].linkedId.value);
      }
    }
  }

  /** Reconciliation keeps every cluster with exactly one live primary, the
      oldest member, and every live secondary linked straight to it. */
  lemma ReconcilePreservesWellFormed(t: ContactTable, email: Option<string>, phone: Option<string>)
    requires WellFormed(t)
    ensures WellFormed(Reconcile(t, email, phone).table)
  {
    var m := Matches(t, email, phone);
    if m == [] {
      InsertPreservesWellFormed(t, Created(t, Normalize(email), Normalize(phone), None, Primary));
    } else {
      var w := MergedFacts(t, m);
      var merged := Merged(t, m);
      InsertPreservesWellFormed(merged, Created(merged, Normalize(email), Normalize(phone), Some(Winner(t, m).id), Secondary));
    }
  }

  /** The primary of a cluster is its oldest member. */
  lemma PrimaryIsOldest(t: ContactTable, primary: Contact)
    requires WellFormed(t) && primary in t.rows && Live(primary) && IsPrimary(primary)
    ensures forall c :: c in FullCluster(t.rows, primary.id) && c != primary ==>
      IsSecondary(c) && c.linkedId == Some(primary.id) && primary.createdAt < c.createdAt
  {
    forall c | c in FullCluster(t.rows, primary.id) && c != primary
      ensures IsSecondary(c) && c.linkedId == Some(primary.id) && primary.createdAt < c.createdAt
    {
      if c.id == primary.id {
        SameRow(t.rows, c, primary);
      }
      var i :| 0 <= i < |t.rows| && t.rows[i] == c;
      var k :| 0 <= k < i && IsLivePrimaryAt(t.rows, k, primary.id);
      SameRow(t.rows, t.rows[k], primary);
    }
  }

  /** Appending a fresh live row that fits the table keeps it well formed
      and its values separated. */
  lemma InsertKeepsValid(t: ContactTable, c: Contact)
    requires WellFormed(t) && ValuesSeparated(t.rows)
    requires c.id == t.nextId && c.createdAt == t.clock && Live(c) && FitsTable(t.rows, c)
    ensures WellFormed(Insert(t, c)) && ValuesSeparated(Insert(t, c).rows)
  {
    InsertPreservesWellFormed(t, c);
    InsertPreservesSeparation(t.rows, c);
  }

  /** Demoting live primaries stored after a live winner keeps the table well
      formed and its values separated. */
  lemma DemoteKeepsValid(t: ContactTable, demoted: set<int>, winner: int)
    requires WellFormed(t) && ValuesSeparated(t.rows) && Demotable(t.rows, demoted, winner)
    ensures WellFormed(t.(rows := DemoteAll(t.rows, demoted, winner)))
    ensures ValuesSeparated(DemoteAll(t.rows, demoted, winner))
  {
    var w :| 0 <= w < |t.rows| && IsLivePrimaryAt(t.rows, w, winner) &&
      forall i :: 0 <= i < |t.rows| && t.rows[i].id in demoted ==> IsLivePrimaryAt(t.rows, i, t.rows[i].id) && w < i;
    DemotePreservesWellFormed(t, demoted, w);
    DemotePreservesSeparation(t.rows, demoted, winner);
  }

  /** Reconciliation keeps values separated: a new primary carries only values
      no live row has, the merge joins every cluster a request touches, and a
      new secondary carries only values of the clusters it joins. */
  lemma ReconcilePreservesSeparation(t: ContactTable, email: Option<string>, phone: Option<string>)
    requires WellFormed(t) && ValuesSeparated(t.rows)
    ensures ValuesSeparated(Reconcile(t, email, phone).table.rows)
  {
    var e, p := Normalize(email), Normalize(phone);
    var m := Matches(t, email, phone);
    if m == [] {
      var c := Created(t, e, p, None, Primary);
      SharedValueMatches(t.rows, e, p, c);
      InsertPreservesSeparation(t.rows, c);
    } else {
      var winner, losers, merged := Winner(t, m), Losers(t, m), Merged(t, m);
      RootsSplit(t, m);
      LosersAreNewer(t, m);
      DemotePreservesSeparation(t.rows, losers, winner.id);
      ReconcileUnfold(t, email, phone);
      if HasNewInfo(FullCluster(merged.rows, winner.id), e, p) {
        var c := Created(merged, e, p, Some(winner.id), Secondary);
        MatchesJoinRoot(t.rows, merged.rows, m, e, p, losers, winner.id, c);
        InsertPreservesSeparation(merged.rows, c);
      }
    }
  }

  /** A live row sharing a value with a row that carries the request's values
      is among the request's matches. */
  lemma SharedValueMatches(rows: seq<Contact>, e: Option<string>, p: Option<string>, c: Contact)
    requires c.email == e && c.phoneNumber == p
    ensures forall i :: 0 <= i < |rows| && Live(rows[i]) && SharesValue(c, rows[i]) ==>
      rows[i] in FindMatchingContacts(rows, e, p)
  {
    forall i | 0 <= i < |rows| && Live(rows[i]) && SharesValue(c, rows[i])
      ensures rows[i] in FindMatchingContacts(rows, e, p)
    {
      assert MatchesRequest(rows[i], e, p);
    }
  }

  /** After the merge every live row sharing a value with the request lies in
      the winner's cluster. */
  lemma MatchesJoinRoot(rows: seq<Contact>, rows': seq<Contact>, m: seq<Contact>, e: Option<string>, p: Option<string>,
                        demoted: set<int>, winner: int, c: Contact)
    requires ClusterShape(rows)
    requires m == FindMatchingContacts(rows, e, p) && Roots(m) == demoted + {winner}
    requires forall i :: 0 <= i < |rows| && rows[i].id in demoted ==> IsLivePrimaryAt(rows, i, rows[i].id)
    requires rows' == DemoteAll(rows, demoted, winner)
    requires c.email == e && c.phoneNumber == p && RootId(c) == winner
    ensures forall i :: 0 <= i < |rows'| && Live(rows'[i]) && SharesValue(c, rows'[i]) ==> RootId(rows'[i]) == RootId(c)
  {
    forall i | 0 <= i < |rows'| && Live(rows'[i]) && SharesValue(c, rows'[i])
      ensures RootId(rows'[i]) == RootId(c)
    {
      assert rows'[i] == Demoted(rows[i], demoted, winner);
      assert MatchesRequest(rows[i], e, p);
      assert rows[i] in m;
      assert RootId(rows[i]) in Roots(m);
      DemotedRoot(rows[i], demoted, winner);
    }
  }

  // ---------------------------------------------------------------------------
  // The response

  /** The response is the view of the resolved primary's cluster in the new
      table, and that primary is a live primary row of it. */
  lemma ReconcileReportsResolvedCluster(t: ContactTable, email: Option<string>, phone: Option<string>)
    requires WellFormed(t)
    ensures var o := Reconcile(t, email, phone);
      var primary := ResolvedPrimary(t, email, phone);
      && primary in o.table.rows && Live(primary) && IsPrimary(primary)
      && o.contact == ClusterView(o.table.rows, primary)
  {
    var m := Matches(t, email, phone);
    if m == [] {
      NewPrimaryIsAlone(t, email, phone);
    } else {
      var w := MergedFacts(t, m);
      ReconcileUnfold(t, email, phone);
    }
  }

  /** No live row of a well-formed table has, or links to, the next id. */
  lemma NothingAtNextId(t: ContactTable)
    requires WellFormed(t)
    ensures forall c :: c in t.rows && Live(c) ==> c.id != t.nextId && c.linkedId != Some(t.nextId)
  {
    forall c | c in t.rows && Live(c)
      ensures c.id != t.nextId && c.linkedId != Some(t.nextId)
    {
      var i :| 0 <= i < |t.rows| && t.rows[i] == c;
      if c.linkedId.Some? {
        var k :| 0 <= k < i && IsLivePrimaryAt(t.rows, k, c.linkedId.value);
      }
    }
  }

  /** A contact created for an unmatched request has no secondaries. */
  lemma NewPrimaryIsAlone(t: ContactTable, email: Option<string>, phone: Option<string>)
    requires WellFormed(t) && Matches(t, email, phone) == []
    ensures var c := Created(t, Normalize(email), Normalize(phone), None, Primary);
      var o := Reconcile(t, email, phone);
      && o.table.rows == t.rows + [c]
      && FullCluster(o.table.rows, c.id) == [c]
      && o.contact == ClusterView(o.table.rows, c)
  {
    var c := Created(t, Normalize(email), Normalize(phone), None, Primary);
    var rows' := t.rows + [c];
    NothingAtNextId(t);
    assert Filter(t.rows, x => Live(x) && InClusterOf(x, {c.id})) == [] by {
      FilterNone(t.rows, x => Live(x) && InClusterOf(x, {c.id}));
    }
    FilterSplit(t.rows, [c], x => Live(x) && InClusterOf(x, {c.id}));
    assert FullCluster(rows', c.id) == [c];
    assert Secondaries([c]) == [];
  }

  /** The reported secondaries are exactly the live rows linked to the
      primary, newer than it, listed in ascending creation order. */
  lemma ClusterViewOrdering(t: ContactTable, primary: Contact)
    requires WellFormed(t) && primary in t.rows && Live(primary) && IsPrimary(primary)
    ensures var v := ClusterView(t.rows, primary);
      var secs := Secondaries(FullCluster(t.rows, primary.id));
      && v.primaryContatctId == primary.id
      && (forall c :: c in secs <==> c in t.rows && Live(c) && c.linkedId == Some(primary.id))
      && |v.secondaryContactIds| == |secs|
      && (forall i :: 0 <= i < |secs| ==>
            v.secondaryContactIds[i] == secs[i].id && primary.createdAt < secs[i].createdAt)
      && (forall i, j :: 0 <= i < j < |secs| ==> secs[i].createdAt < secs[j].createdAt)
  {
    var cluster := FullCluster(t.rows, primary.id);
    PrimaryIsOldest(t, primary);
    FullClusterOrdered(t.rows, primary.id);
    FilterKeepsOrder(cluster, IsSecondary);
    ConsolidatedViewShape(primary, Secondaries(cluster));
    forall c | c in t.rows && Live(c) && c.linkedId == Some(primary.id)
      ensures IsSecondary(c)
    {
      var i :| 0 <= i < |t.rows| && t.rows[i] == c;
    }
  }

  // ---------------------------------------------------------------------------
  // Convergence and idempotence

  /** A request whose values all occur in one cluster of a table whose
      clusters keep their values apart changes nothing and reports that
      cluster under its primary's id. */
  lemma KnownValuesChangeNothing(t: ContactTable, email: Option<string>, phone: Option<string>, primary: Contact)
    requires WellFormed(t) && ValuesSeparated(t.rows)
    requires Present(email) || Present(phone)
    requires primary in t.rows && Live(primary) && IsPrimary(primary)
    requires !HasNewInfo(FullCluster(t.rows, primary.id), Normalize(email), Normalize(phone))
    ensures Reconcile(t, email, phone) == Outcome(t, ClusterView(t.rows, primary))
  {
    KnownValuesStayInCluster(t, Normalize(email), Normalize(phone), primary);
    ContainedRequestChangesNothing(t, email, phone, primary);
  }

  /** In such a table, a row that carries a value of a cluster is in that
      cluster. */
  lemma KnownValuesStayInCluster(t: ContactTable, e: Option<string>, p: Option<string>, primary: Contact)
    requires WellFormed(t) && ValuesSeparated(t.rows)
    requires primary in t.rows && Live(primary) && IsPrimary(primary)
    requires !HasNewInfo(FullCluster(t.rows, primary.id), e, p)
    ensures forall c :: c in t.rows && MatchesRequest(c, e, p) ==>
      c.id == primary.id || c.linkedId == Some(primary.id)
  {
    var cluster := FullCluster(t.rows, primary.id);
    forall c | c in t.rows && MatchesRequest(c, e, p)
      ensures c.id == primary.id || c.linkedId == Some(primary.id)
    {
      var d: Contact;
      if Present(e) && c.email == e {
        assert SomeEmail(cluster, e);
        d :| d in cluster && d.email == e;
      } else {
        assert SomePhone(cluster, p);
        d :| d in cluster && d.phoneNumber == p;
      }
      SharedValueSameCluster(t, c, d, primary);
    }
  }

  /** A live row sharing a value with a member of a cluster is in it too. */
  lemma SharedValueSameCluster(t: ContactTable, c: Contact, d: Contact, primary: Contact)
    requires WellFormed(t) && ValuesSeparated(t.rows)
    requires primary in t.rows && Live(primary) && IsPrimary(primary)
    requires c in t.rows && d in t.rows && Live(c) && Live(d) && SharesValue(c, d)
    requires d.id == primary.id || d.linkedId == Some(primary.id)
    ensures c.id == primary.id || c.linkedId == Some(primary.id)
  {
    var i :| 0 <= i < |t.rows| && t.rows[i] == c;
    var j :| 0 <= j < |t.rows| && t.rows[j] == d;
    assert SeparatedAt(t.rows, i, j);
    RootInCluster(t, d, primary);
    RootInCluster(t, c, primary);
  }

  /** A live row is in the cluster of a primary exactly when that primary is
      its root. */
  lemma RootInCluster(t: ContactTable, x: Contact, primary: Contact)
    requires WellFormed(t) && x in t.rows && Live(x)
    requires primary in t.rows && Live(primary) && IsPrimary(primary)
    ensures RootId(x) == primary.id <==> x.id == primary.id || x.linkedId == Some(primary.id)
  {
    var i :| 0 <= i < |t.rows| && t.rows[i] == x;
    if x.id == primary.id {
      SameRow(t.rows, x, primary);
    }
  }

  /** A request whose values all lie in one cluster, and which matches no row
      outside it, changes nothing and reports that cluster under its
      primary's id. */
  lemma ContainedRequestChangesNothing(t: ContactTable, email: Option<string>, phone: Option<string>, primary: Contact)
    requires WellFormed(t)
    requires Present(email) || Present(phone)
    requires primary in t.rows && Live(primary) && IsPrimary(primary)
    requires forall c :: c in t.rows && MatchesRequest(c, Normalize(email), Normalize(phone)) ==>
      c.id == primary.id || c.linkedId == Some(primary.id)
    requires !HasNewInfo(FullCluster(t.rows, primary.id), Normalize(email), Normalize(phone))
    ensures Reconcile(t, email, phone) == Outcome(t, ClusterView(t.rows, primary))
  {
    MatchesResolveTo(t, email, phone, primary);
    SingleClusterNoMerge(t, Matches(t, email, phone), primary);
    ReconcileUnfold(t, email, phone);
  }

  /** Under the same conditions the request matches, and every match
      resolves to `primary`. */
  lemma MatchesResolveTo(t: ContactTable, email: Option<string>, phone: Option<string>, primary: Contact)
    requires WellFormed(t)
    requires Present(email) || Present(phone)
    requires primary in t.rows && Live(primary) && IsPrimary(primary)
    requires forall c :: c in t.rows && MatchesRequest(c, Normalize(email), Normalize(phone)) ==>
      c.id == primary.id || c.linkedId == Some(primary.id)
    requires !HasNewInfo(FullCluster(t.rows, primary.id), Normalize(email), Normalize(phone))
    ensures Matches(t, email, phone) != [] && Roots(Matches(t, email, phone)) == {primary.id}
  {
    var m := Matches(t, email, phone);
    KnownValueMatches(t, email, phone, primary);
    RootsOfOneCluster(t, m, primary);
    assert m[0] in m;
  }

  /** A request whose values a cluster already has matches some row. */
  lemma KnownValueMatches(t: ContactTable, email: Option<string>, phone: Option<string>, primary: Contact)
    requires Present(email) || Present(phone)
    requires !HasNewInfo(FullCluster(t.rows, primary.id), Normalize(email), Normalize(phone))
    ensures Matches(t, email, phone) != []
  {
    var e, p := Normalize(email), Normalize(phone);
    var cluster := FullCluster(t.rows, primary.id);
    if Present(email) {
      var c :| c in cluster && c.email == e;
      assert c in Matches(t, email, phone);
    } else {
      var c :| c in cluster && c.phoneNumber == p;
      assert c in Matches(t, email, phone);
    }
  }

  /** Live rows of one cluster all resolve to its primary. */
  lemma RootsOfOneCluster(t: ContactTable, matches: seq<Contact>, primary: Contact)
    requires WellFormed(t) && FromTable(t, matches)
    requires primary in t.rows && Live(primary) && IsPrimary(primary)
    requires forall c :: c in matches ==> c.id == primary.id || c.linkedId == Some(primary.id)
    ensures forall r :: r in Roots(matches) ==> r == primary.id
  {
    forall r | r in Roots(matches)
      ensures r == primary.id
    {
      var c :| c in matches && RootId(c) == r;
      if c.id == primary.id {
        SameRow(t.rows, c, primary);
      } else {
        var i :| 0 <= i < |t.rows| && t.rows[i] == c;
      }
    }
  }

  /** A match inside one cluster elects that cluster's primary and merges nothing. */
  lemma SingleClusterNoMerge(t: ContactTable, matches: seq<Contact>, primary: Contact)
    requires WellFormed(t) && FromTable(t, matches) && matches != []
    requires primary in t.rows && Live(primary) && IsPrimary(primary) && Roots(matches) == {primary.id}
    ensures Winner(t, matches) == primary && Losers(t, matches) == {} && Merged(t, matches) == t
  {
    ExpansionPrimaries(t, matches);
    var ps := Primaries(Expansion(t, matches));
    var winner := Winner(t, matches);
    assert winner in ps;
    SameRow(t.rows, winner, primary);
    forall c | c in ps
      ensures c.id == primary.id
    {
    }
    assert Losers(t, matches) == {};
    DemoteNothing(t.rows, primary.id);
  }

  /** After an unmatched request, the new primary's cluster holds every row
      the request matches and the values it carries. */
  lemma NoMatchRepeat(t: ContactTable, email: Option<string>, phone: Option<string>)
    requires WellFormed(t) && Matches(t, email, phone) == []
    ensures var e, p := Normalize(email), Normalize(phone);
      var primary := ResolvedPrimary(t, email, phone);
      var rows' := Reconcile(t, email, phone).table.rows;
      && (forall c :: c in rows' && MatchesRequest(c, e, p) ==> c.id == primary.id || c.linkedId == Some(primary.id))
      && !HasNewInfo(FullCluster(rows', primary.id), e, p)
  {
    var e, p := Normalize(email), Normalize(phone);
    var primary := ResolvedPrimary(t, email, phone);
    var rows' := Reconcile(t, email, phone).table.rows;
    assert forall c :: c in t.rows ==> !MatchesRequest(c, e, p);
    assert rows' == t.rows + [primary];
    assert primary in FullCluster(rows', primary.id);
  }

  /** After a matched request, the winner's cluster holds every row the
      request matches and the values it carries. */
  lemma MatchRepeat(t: ContactTable, email: Option<string>, phone: Option<string>)
    requires WellFormed(t) && Matches(t, email, phone) != []
    ensures var e, p := Normalize(email), Normalize(phone);
      var winner := Winner(t, Matches(t, email, phone));
      var rows' := Reconcile(t, email, phone).table.rows;
      && (forall c :: c in rows' && MatchesRequest(c, e, p) ==> c.id == winner.id || c.linkedId == Some(winner.id))
      && !HasNewInfo(FullCluster(rows', winner.id), e, p)
  {
    var e, p := Normalize(email), Normalize(phone);
    var m := Matches(t, email, phone);
    var winner, losers := Winner(t, m), Losers(t, m);
    var rows' := Reconcile(t, email, phone).table.rows;
    MergedPrefix(t, email, phone);
    var w := WinnerFacts(t, m);
    FlattenedClusters(t.rows, rows', losers, winner.id);
    MatchedRowsInRoots(t, m, e, p);
    MatchesJoinWinner(t.rows, rows', losers, winner.id, e, p);
    NewRowCarriesRequest(t, email, phone);
  }

  /** When every matching old row is a live member of the merged clusters,
      every matching row of the new table is in the winner's cluster. */
  lemma MatchesJoinWinner(rows: seq<Contact>, rows': seq<Contact>, demoted: set<int>, winner: int,
                          e: Option<string>, p: Option<string>)
    requires |rows| <= |rows'| <= |rows| + 1
    requires forall i :: 0 <= i < |rows| ==> rows'[i] == Demoted(rows[i], demoted, winner)
    requires |rows'| == |rows| + 1 ==> rows'[|rows|].linkedId == Some(winner)
    requires forall i :: 0 <= i < |rows| && Live(rows[i]) && InClusterOf(rows[i], demoted + {winner}) ==>
      rows'[i].id == winner || rows'[i].linkedId == Some(winner)
    requires forall i :: 0 <= i < |rows| && MatchesRequest(rows[i], e, p) ==>
      Live(rows[i]) && InClusterOf(rows[i], demoted + {winner})
    ensures forall c :: c in rows' && MatchesRequest(c, e, p) ==> c.id == winner || c.linkedId == Some(winner)
  {
    forall c | c in rows' && MatchesRequest(c, e, p)
      ensures c.id == winner || c.linkedId == Some(winner)
    {
      var i :| 0 <= i < |rows'| && rows'[i] == c;
      if i < |rows| {
        assert MatchesRequest(rows[i], e, p);
      }
    }
  }

  /** Every row the request matches lies in a touched cluster. */
  lemma MatchedRowsInRoots(t: ContactTable, matches: seq<Contact>, e: Option<string>, p: Option<string>)
    requires matches == FindMatchingContacts(t.rows, e, p)
    ensures forall i :: 0 <= i < |t.rows| && MatchesRequest(t.rows[i], e, p) ==>
      Live(t.rows[i]) && InClusterOf(t.rows[i], Roots(matches))
  {
    forall i | 0 <= i < |t.rows| && MatchesRequest(t.rows[i], e, p)
      ensures InClusterOf(t.rows[i], Roots(matches))
    {
      assert t.rows[i] in matches;
      assert RootId(t.rows[i]) in Roots(matches);
    }
  }

  /** When a secondary is added it carries the request's values, so the
      winner's cluster then has them; otherwise it had them already. */
  lemma NewRowCarriesRequest(t: ContactTable, email: Option<string>, phone: Option<string>)
    requires WellFormed(t) && Matches(t, email, phone) != []
    ensures var e, p := Normalize(email), Normalize(phone);
      var winner := Winner(t, Matches(t, email, phone));
      !HasNewInfo(FullCluster(Reconcile(t, email, phone).table.rows, winner.id), e, p)
  {
    var e, p := Normalize(email), Normalize(phone);
    var m := Matches(t, email, phone);
    var winner, merged := Winner(t, m), Merged(t, m);
    ReconcileUnfold(t, email, phone);
    if HasNewInfo(FullCluster(merged.rows, winner.id), e, p) {
      AddedRowCarries(merged.rows, Created(merged, e, p, Some(winner.id), Secondary), winner.id);
    }
  }

  /** A live row linked to `w` puts its values into the cluster of `w`. */
  lemma AddedRowCarries(rows: seq<Contact>, c: Contact, w: int)
    requires Live(c) && c.linkedId == Some(w)
    ensures !HasNewInfo(FullCluster(rows + [c], w), c.email, c.phoneNumber)
  {
    assert c in FullCluster(rows + [c], w);
  }


  /** Repeating a request returns the same response and leaves the table as
      the first call left it. */
  lemma RepeatRequestIsIdempotent(t: ContactTable, email: Option<string>, phone: Option<string>)
    requires WellFormed(t)
    requires Present(email) || Present(phone)
    ensures var o := Reconcile(t, email, phone);
      WellFormed(o.table) && Reconcile(o.table, email, phone) == o
  {
    var o := Reconcile(t, email, phone);
    var primary := ResolvedPrimary(t, email, phone);
    ReconcilePreservesWellFormed(t, email, phone);
    ReconcileReportsResolvedCluster(t, email, phone);
    if Matches(t, email, phone) == [] {
      NoMatchRepeat(t, email, phone);
    } else {
      MatchRepeat(t, email, phone);
    }
    ContainedRequestChangesNothing(o.table, email, phone, primary);
  }
}
