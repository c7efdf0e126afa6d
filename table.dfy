/** The contact table as a value: its rows, the queries the service issues
    against it and the updates it applies. Every query skips soft-deleted rows,
    as each `findMany` in the service filters on `deletedAt: null`. */
module Table {
  import opened Contacts

  /** Rows in insertion order, the id the store hands out next and the clock
      tick the next row is stamped with. */
  datatype ContactTable = ContactTable(rows: seq<Contact>, nextId: int, clock: int)

  /** `findMany({ where })` without an ordering: the rows that satisfy the
      filter, in table order. */
  function Filter(s: seq<Contact>, keep: Contact -> bool): (r: seq<Contact>)
    ensures |r| <= |s|
    ensures forall x :: x in r <==> x in s && keep(x)
    decreases |s|
  {
    if s == [] then []
    else (if keep(s[0]) then [s[0]] else []) + Filter(s[1..], keep)
  }

  /** Table order is creation order: ids and creation ticks both increase. */
  predicate Ordered(rows: seq<Contact>) {
    forall i, j :: 0 <= i < j < |rows| ==>
      rows[i].id < rows[j].id && rows[i].createdAt < rows[j].createdAt
  }

  predicate IsLivePrimaryAt(rows: seq<Contact>, k: int, id: int) {
    0 <= k < |rows| && rows[k].id == id && Live(rows[k]) && rows[k].linkPrecedence == Primary
  }

  /** Every live row is either a primary without a link, or a secondary whose
      link names a live primary created before it (clusters have depth 1 and
      the primary is the oldest member). */
  predicate ClusterShape(rows: seq<Contact>) {
    forall i :: 0 <= i < |rows| && Live(rows[i]) ==>
      (rows[i].linkPrecedence == Primary <==> rows[i].linkedId.None?) &&
      (rows[i].linkedId.Some? ==>
        exists k :: 0 <= k < i && IsLivePrimaryAt(rows, k, rows[i].linkedId.value))
  }

  predicate WellFormed(t: ContactTable) {
    && Ordered(t.rows)
    && (forall i :: 0 <= i < |t.rows| ==> t.rows[i].id < t.nextId && t.rows[i].createdAt < t.clock)
    && ClusterShape(t.rows)
  }

  /** In an ordered table a row is determined by its id, and by its creation tick. */
  lemma SameRow(rows: seq<Contact>, a: Contact, b: Contact)
    requires Ordered(rows) && a in rows && b in rows
    requires a.id == b.id || a.createdAt == b.createdAt
    ensures a == b
  {
    var i :| 0 <= i < |rows| && rows[i] == a;
    var j :| 0 <= j < |rows| && rows[j] == b;
    assert !(i < j) && !(j < i);
  }

  /** Distinct rows of an ordered table differ in id and in creation tick. */
  lemma DistinctRows(rows: seq<Contact>, a: Contact, b: Contact)
    requires Ordered(rows) && a in rows && b in rows && a != b
    ensures a.id != b.id && a.createdAt != b.createdAt
  {
    var i :| 0 <= i < |rows| && rows[i] == a;
    var j :| 0 <= j < |rows| && rows[j] == b;
  }

  /** The emptiness of a filter that keeps nothing. */
  lemma {:induction false} FilterNone(s: seq<Contact>, keep: Contact -> bool)
    requires forall x :: x in s ==> !keep(x)
    ensures Filter(s, keep) == []
    decreases |s|
  {
    if s != [] {
      assert s[0] in s;
      FilterNone(s[1..], keep);
    }
  }

  /** Filtering distributes over concatenation. */
  lemma {:induction false} FilterSplit(a: seq<Contact>, b: seq<Contact>, keep: Contact -> bool)
    ensures Filter(a + b, keep) == Filter(a, keep) + Filter(b, keep)
    decreases |a|
  {
    if a == [] {
      assert a + b == b;
    } else {
      assert (a + b)[1..] == a[1..] + b;
      FilterSplit(a[1..], b, keep);
    }
  }

  lemma {:induction false} FilterKeepsOrder(s: seq<Contact>, keep: Contact -> bool)
    requires Ordered(s)
    ensures Ordered(Filter(s, keep))
    decreases |s|
  {
    if s != [] {
      var tail := Filter(s[1..], keep);
      FilterKeepsOrder(s[1..], keep);
      if keep(s[0]) {
        forall x | x in tail
          ensures s[0].id < x.id && s[0].createdAt < x.createdAt
        {
          var k :| 0 <= k < |s[1..]| && s[1..][k] == x;
          assert s[k + 1] == x;
        }
        ConsOrdered(s[0], tail);
      }
    }
  }

  /** A row older than every row of an ordered list can go in front of it. */
  lemma ConsOrdered(h: Contact, tail: seq<Contact>)
    requires Ordered(tail)
    requires forall x :: x in tail ==> h.id < x.id && h.createdAt < x.createdAt
    ensures Ordered([h] + tail)
  {
    var r := [h] + tail;
    forall i, j | 0 <= i < j < |r|
      ensures r[i].id < r[j].id && r[i].createdAt < r[j].createdAt
    {
      assert r[j] == tail[j - 1] && tail[j - 1] in tail;
      if i > 0 {
        assert r[i] == tail[i - 1];
      }
    }
  }

  // ---------------------------------------------------------------------------
  // Queries

  /** A live row matching the request: same email, or same phone number, where
      only present (non-empty) request values take part. */
  predicate MatchesRequest(c: Contact, email: Option<string>, phone: Option<string>) {
    Live(c) &&
    ((Present(email) && c.email == email) || (Present(phone) && c.phoneNumber == phone))
  }

  /** `findMatchingContacts`: nothing when the request carries no value,
      otherwise exactly the live rows sharing its email or its phone. */
  function FindMatchingContacts(rows: seq<Contact>, email: Option<string>, phone: Option<string>): (r: seq<Contact>)
    ensures !Present(email) && !Present(phone) ==> r == []
    ensures forall c :: c in r <==> c in rows && MatchesRequest(c, email, phone)
  {
    if !Present(email) && !Present(phone) then []
    else Filter(rows, c => MatchesRequest(c, email, phone))
  }

  /** The root a matched row is resolved to: its own id when primary, its link
      when secondary, its own id for a secondary without a link. */
  function RootId(c: Contact): (r: int)
    ensures InClusterOf(c, {r})
    ensures c.linkPrecedence == Primary ==> r == c.id
  {
    if c.linkPrecedence == Primary then c.id
    else if c.linkedId.Some? then c.linkedId.value
    else c.id
  }

  function Roots(matches: seq<Contact>): set<int> {
    set c | c in matches :: RootId(c)
  }

  lemma RootsAppend(s: seq<Contact>, c: Contact)
    ensures Roots(s + [c]) == Roots(s) + {RootId(c)}
  {
    assert c in s + [c];
    forall x | x in s ensures x in s + [c] { }
    forall x | x in s + [c] ensures x in s || x == c { }
  }

  predicate InClusterOf(c: Contact, roots: set<int>) {
    c.id in roots || (c.linkedId.Some? && c.linkedId.value in roots)
  }

  /** `findMany` on `id in roots OR linkedId in roots`, live rows only. */
  function ClusterQuery(rows: seq<Contact>, roots: set<int>): (r: seq<Contact>)
    ensures forall c :: c in r <==> c in rows && Live(c) && InClusterOf(c, roots)
  {
    Filter(rows, c => Live(c) && InClusterOf(c, roots))
  }

  /** `getFullCluster`: the live rows whose id or link is `primaryId`. The
      ordering by `createdAt` is table order (see FullClusterOrdered). */
  function FullCluster(rows: seq<Contact>, primaryId: int): (r: seq<Contact>)
    ensures forall c :: c in r <==> c in rows && Live(c) && (c.id == primaryId || c.linkedId == Some(primaryId))
  {
    ClusterQuery(rows, {primaryId})
  }

  lemma FullClusterOrdered(rows: seq<Contact>, primaryId: int)
    requires Ordered(rows)
    ensures Ordered(FullCluster(rows, primaryId))
  {
    FilterKeepsOrder(rows, c => Live(c) && InClusterOf(c, {primaryId}));
  }

  predicate IsPrimary(c: Contact) { c.linkPrecedence == Primary }

  predicate IsSecondary(c: Contact) { c.linkPrecedence == Secondary }

  function Primaries(s: seq<Contact>): (r: seq<Contact>)
    ensures forall c :: c in r <==> c in s && IsPrimary(c)
  {
    Filter(s, IsPrimary)
  }

  function Secondaries(s: seq<Contact>): (r: seq<Contact>)
    ensures forall c :: c in r <==> c in s && IsSecondary(c)
  {
    Filter(s, IsSecondary)
  }

  function IdsOf(s: seq<Contact>): set<int> {
    set c | c in s :: c.id
  }

  // ---------------------------------------------------------------------------
  // Creation

  /** The row `createContact` inserts: the next id, the current tick, not deleted. */
  function Created(t: ContactTable, email: Option<string>, phone: Option<string>,
                   linkedId: Option<int>, precedence: LinkPrecedence): (c: Contact)
    ensures Live(c)
    ensures WellFormed(t) ==> forall x :: x in t.rows ==> x.id < c.id && x.createdAt < c.createdAt
  {
    Contact(t.nextId, email, phone, linkedId, precedence, t.clock, None)
  }

  /** `contact.create`: the row is appended and the counters advance; a row
      newer than every stored row keeps the table in creation order. */
  function Insert(t: ContactTable, c: Contact): (r: ContactTable)
    ensures forall x :: x in r.rows <==> x in t.rows || x == c
    ensures Ordered(t.rows) && (forall x :: x in t.rows ==> x.id < c.id && x.createdAt < c.createdAt) ==>
      Ordered(r.rows)
  {
    ContactTable(t.rows + [c], t.nextId + 1, t.clock + 1)
  }

  // ---------------------------------------------------------------------------
  // Demotion

  /** `contact.update` by id: the row becomes a secondary linked to `target`. */
  function SetSecondary(rows: seq<Contact>, id: int, target: int): (r: seq<Contact>)
    ensures |r| == |rows|
    ensures forall i :: 0 <= i < |rows| ==>
      r[i].(linkPrecedence := rows[i].linkPrecedence, linkedId := rows[i].linkedId) == rows[i]
    ensures forall i :: 0 <= i < |rows| && rows[i].id == id ==>
      r[i].linkPrecedence == Secondary && r[i].linkedId == Some(target)
    ensures forall i :: 0 <= i < |rows| && rows[i].id != id ==> r[i] == rows[i]
  {
    seq(|rows|, i requires 0 <= i < |rows| =>
      if rows[i].id == id then rows[i].(linkPrecedence := Secondary, linkedId := Some(target))
      else rows[i])
  }

  /** `contact.updateMany` on `linkedId == from`, live rows only: re-link them to `to`. */
  function Relink(rows: seq<Contact>, from: int, to: int): (r: seq<Contact>)
    ensures |r| == |rows|
    ensures forall i :: 0 <= i < |rows| ==> r[i].(linkedId := rows[i].linkedId) == rows[i]
    ensures from != to ==> forall i :: 0 <= i < |rows| && Live(r[i]) ==> r[i].linkedId != Some(from)
    ensures forall i :: 0 <= i < |rows| && Live(rows[i]) && rows[i].linkedId == Some(from) ==> r[i].linkedId == Some(to)
    ensures forall i :: 0 <= i < |rows| && !(Live(rows[i]) && rows[i].linkedId == Some(from)) ==> r[i] == rows[i]
  {
    seq(|rows|, i requires 0 <= i < |rows| =>
      if Live(rows[i]) && rows[i].linkedId == Some(from) then rows[i].(linkedId := Some(to))
      else rows[i])
  }

  /** What demoting every primary in `demoted` under `winner` does to one row. */
  function Demoted(c: Contact, demoted: set<int>, winner: int): Contact {
    if c.id in demoted then c.(linkPrecedence := Secondary, linkedId := Some(winner))
    else if Live(c) && c.linkedId.Some? && c.linkedId.value in demoted then c.(linkedId := Some(winner))
    else c
  }

  /** The table after demoting a set of primaries; it depends on the set only,
      not on the order the primaries are processed in. */
  function DemoteAll(rows: seq<Contact>, demoted: set<int>, winner: int): seq<Contact> {
    seq(|rows|, i requires 0 <= i < |rows| => Demoted(rows[i], demoted, winner))
  }

  /** One iteration of the demotion loop (update, then updateMany) extends
      the demoted set by one id. */
  lemma DemoteStep(r0: seq<Contact>, demoted: set<int>, id: int, winner: int)
    requires winner !in demoted && winner != id
    ensures Relink(SetSecondary(DemoteAll(r0, demoted, winner), id, winner), id, winner)
         == DemoteAll(r0, demoted + {id}, winner)
  {
  }

  lemma DemoteNothing(rows: seq<Contact>, winner: int)
    ensures DemoteAll(rows, {}, winner) == rows
  {
  }

  /** Demoting primaries newer than a live primary `rows[w]` under it keeps
      every cluster at depth 1 with its oldest member as primary. */
  lemma DemotePreservesWellFormed(t: ContactTable, demoted: set<int>, w: int)
    requires WellFormed(t)
    requires 0 <= w < |t.rows| && IsLivePrimaryAt(t.rows, w, t.rows[w].id)
    requires t.rows[w].id !in demoted
    requires forall i :: 0 <= i < |t.rows| && t.rows[i].id in demoted ==>
      IsLivePrimaryAt(t.rows, i, t.rows[i].id) && w < i
    ensures WellFormed(t.(rows := DemoteAll(t.rows, demoted, t.rows[w].id)))
  {
    var rows, winner := t.rows, t.rows[w].id;
    var r := DemoteAll(rows, demoted, winner);
    assert r[w] == rows[w];
    forall i | 0 <= i < |r| && Live(r[i])
      ensures (r[i].linkPrecedence == Primary <==> r[i].linkedId.None?)
      ensures r[i].linkedId.Some? ==> exists k :: 0 <= k < i && IsLivePrimaryAt(r, k, r[i].linkedId.value)
    {
      var c := rows[i];
      if c.id in demoted {
        assert IsLivePrimaryAt(r, w, winner);
      } else if Live(c) && c.linkedId.Some? && c.linkedId.value in demoted {
        var k :| 0 <= k < i && IsLivePrimaryAt(rows, k, c.linkedId.value);
        assert w < k;
        assert IsLivePrimaryAt(r, w, winner);
      } else if c.linkedId.Some? {
        var k :| 0 <= k < i && IsLivePrimaryAt(rows, k, c.linkedId.value);
        assert r[k] == rows[k];
        assert IsLivePrimaryAt(r, k, c.linkedId.value);
      }
    }
  }

  // ---------------------------------------------------------------------------
  // Values separate clusters

  /** Two rows carry a common present email or phone number. */
  predicate SharesValue(a: Contact, b: Contact) {
    (Present(a.email) && a.email == b.email) || (Present(a.phoneNumber) && a.phoneNumber == b.phoneNumber)
  }

  /** Live rows that carry a common email or phone number belong to the same
      cluster: the service only ever stores a value in a new cluster when no
      live row carries it, and merges every cluster a request touches. */
  predicate ValuesSeparated(rows: seq<Contact>) {
    forall i, j :: 0 <= i < |rows| && 0 <= j < |rows| ==> SeparatedAt(rows, i, j)
  }

  /** Rows `i` and `j`, when live and sharing a value, have one root. */
  predicate SeparatedAt(rows: seq<Contact>, i: int, j: int)
    requires 0 <= i < |rows| && 0 <= j < |rows|
  {
    Live(rows[i]) && Live(rows[j]) && SharesValue(rows[i], rows[j]) ==> RootId(rows[i]) == RootId(rows[j])
  }

  /** A row that may join the table: its link, if any, names a live primary,
      and it shares values only with live rows of its own cluster. */
  predicate FitsTable(rows: seq<Contact>, c: Contact) {
    && (c.linkPrecedence == Primary <==> c.linkedId.None?)
    && (c.linkedId.Some? ==> exists k :: 0 <= k < |rows| && IsLivePrimaryAt(rows, k, c.linkedId.value))
    && (forall i :: 0 <= i < |rows| && Live(rows[i]) && SharesValue(c, rows[i]) ==> RootId(rows[i]) == RootId(c))
  }

  /** Primaries that may be demoted under `winner`: live primaries stored
      after it, which is itself a live primary and not among them. */
  predicate Demotable(rows: seq<Contact>, demoted: set<int>, winner: int) {
    && winner !in demoted
    && exists w :: 0 <= w < |rows| && IsLivePrimaryAt(rows, w, winner) &&
         forall i :: 0 <= i < |rows| && rows[i].id in demoted ==> IsLivePrimaryAt(rows, i, rows[i].id) && w < i
  }

  /** Demotion moves a live row to the winner's cluster exactly when its root
      is the winner or a demoted primary; any other row keeps its root. */
  lemma DemotedRoot(c: Contact, demoted: set<int>, winner: int)
    requires Live(c) && (c.linkPrecedence == Primary <==> c.linkedId.None?)
    requires c.id in demoted ==> c.linkPrecedence == Primary
    ensures RootId(Demoted(c, demoted, winner)) ==
      if RootId(c) in demoted + {winner} then winner else RootId(c)
  {
  }

  /** Demotion keeps values separated: rows of one cluster move together. */
  lemma DemotePreservesSeparation(rows: seq<Contact>, demoted: set<int>, winner: int)
    requires ClusterShape(rows) && ValuesSeparated(rows)
    requires forall i :: 0 <= i < |rows| && rows[i].id in demoted ==> rows[i].linkPrecedence == Primary
    ensures ValuesSeparated(DemoteAll(rows, demoted, winner))
  {
    var r := DemoteAll(rows, demoted, winner);
    forall i, j | 0 <= i < |r| && 0 <= j < |r|
      ensures SeparatedAt(r, i, j)
    {
      if Live(r[i]) && Live(r[j]) && SharesValue(r[i], r[j]) {
        assert SeparatedAt(rows, i, j);
        DemotedRoot(rows[i], demoted, winner);
        DemotedRoot(rows[j], demoted, winner);
      }
    }
  }

  /** Appending a row that shares values only with its own cluster keeps
      values separated. */
  lemma InsertPreservesSeparation(rows: seq<Contact>, c: Contact)
    requires ValuesSeparated(rows)
    requires forall i :: 0 <= i < |rows| && Live(rows[i]) && SharesValue(c, rows[i]) ==> RootId(rows[i]) == RootId(c)
    ensures ValuesSeparated(rows + [c])
  {
    var r := rows + [c];
    forall i, j | 0 <= i < |r| && 0 <= j < |r|
      ensures SeparatedAt(r, i, j)
    {
      if i < |rows| && j < |rows| {
        assert r[i] == rows[i] && r[j] == rows[j];
        assert SeparatedAt(rows, i, j);
      } else if i < |rows| {
        assert r[i] == rows[i] && r[j] == c;
        assert SharesValue(r[i], r[j]) ==> SharesValue(c, rows[i]);
      } else if j < |rows| {
        assert r[j] == rows[j] && r[i] == c;
      }
    }
  }

  /** Once primaries are demoted under `winner`, a row is a live member of
      the winner's cluster exactly when it was a live member of one of the
      merged clusters (the winner's or a demoted primary's). */
  lemma DemotedRowJoinsWinner(rows: seq<Contact>, demoted: set<int>, winner: int, i: int)
    requires Ordered(rows) && ClusterShape(rows)
    requires winner !in demoted
    requires forall r :: r in demoted + {winner} ==> exists k :: IsLivePrimaryAt(rows, k, r)
    requires 0 <= i < |rows|
    ensures var c := Demoted(rows[i], demoted, winner);
      (Live(c) && (c.id == winner || c.linkedId == Some(winner)))
      <==> (Live(rows[i]) && InClusterOf(rows[i], demoted + {winner}))
  {
    if rows[i].id in demoted + {winner} {
      var k :| IsLivePrimaryAt(rows, k, rows[i].id);
      assert k == i;
    }
  }

  /** Two tables of the same length whose rows agree in their values, where a
      row is in the cluster of `w` in the second exactly when it is in a
      cluster of `roots` in the first, hold the same values in those clusters. */
  lemma ClusterValuesAgree(rows: seq<Contact>, rows2: seq<Contact>, roots: set<int>, w: int)
    requires |rows| == |rows2|
    requires forall i :: 0 <= i < |rows| ==>
      rows2[i].email == rows[i].email && rows2[i].phoneNumber == rows[i].phoneNumber
    requires forall i :: 0 <= i < |rows| ==>
      ((Live(rows2[i]) && (rows2[i].id == w || rows2[i].linkedId == Some(w)))
       <==> (Live(rows[i]) && InClusterOf(rows[i], roots)))
    ensures forall v :: SomeEmail(FullCluster(rows2, w), v) <==> SomeEmail(ClusterQuery(rows, roots), v)
    ensures forall v :: SomePhone(FullCluster(rows2, w), v) <==> SomePhone(ClusterQuery(rows, roots), v)
  {
    ClusterEmailsAgree(rows, rows2, roots, w);
    ClusterPhonesAgree(rows, rows2, roots, w);
  }

  lemma ClusterEmailsAgree(rows: seq<Contact>, rows2: seq<Contact>, roots: set<int>, w: int)
    requires |rows| == |rows2|
    requires forall i :: 0 <= i < |rows| ==> rows2[i].email == rows[i].email
    requires forall i :: 0 <= i < |rows| ==>
      ((Live(rows2[i]) && (rows2[i].id == w || rows2[i].linkedId == Some(w)))
       <==> (Live(rows[i]) && InClusterOf(rows[i], roots)))
    ensures forall v :: SomeEmail(FullCluster(rows2, w), v) <==> SomeEmail(ClusterQuery(rows, roots), v)
  {
    var a, b := FullCluster(rows2, w), ClusterQuery(rows, roots);
    forall v | SomeEmail(a, v) ensures SomeEmail(b, v) {
      var c :| c in a && c.email == v;
      var i :| 0 <= i < |rows2| && rows2[i] == c;
      assert rows[i] in b;
    }
    forall v | SomeEmail(b, v) ensures SomeEmail(a, v) {
      var c :| c in b && c.email == v;
      var i :| 0 <= i < |rows| && rows[i] == c;
      assert rows2[i] in a;
    }
  }

  lemma ClusterPhonesAgree(rows: seq<Contact>, rows2: seq<Contact>, roots: set<int>, w: int)
    requires |rows| == |rows2|
    requires forall i :: 0 <= i < |rows| ==> rows2[i].phoneNumber == rows[i].phoneNumber
    requires forall i :: 0 <= i < |rows| ==>
      ((Live(rows2[i]) && (rows2[i].id == w || rows2[i].linkedId == Some(w)))
       <==> (Live(rows[i]) && InClusterOf(rows[i], roots)))
    ensures forall v :: SomePhone(FullCluster(rows2, w), v) <==> SomePhone(ClusterQuery(rows, roots), v)
  {
    var a, b := FullCluster(rows2, w), ClusterQuery(rows, roots);
    forall v | SomePhone(a, v) ensures SomePhone(b, v) {
      var c :| c in a && c.phoneNumber == v;
      var i :| 0 <= i < |rows2| && rows2[i] == c;
      assert rows[i] in b;
    }
    forall v | SomePhone(b, v) ensures SomePhone(a, v) {
      var c :| c in b && c.phoneNumber == v;
      var i :| 0 <= i < |rows| && rows[i] == c;
      assert rows2[i] in a;
    }
  }
}
