/** Building the consolidated view from a primary and its secondaries:
    deduplicated emails and phone numbers, primary value first, then the
    secondaries' values in first-seen order, and the secondary ids. */
module Response {
  import opened Contacts

  /** The present (non-empty) values among `vs`, in order. */
  function PresentValues(vs: seq<Option<string>>): (r: seq<string>)
    ensures forall x :: x in r <==> x != "" && Some(x) in vs
    decreases |vs|
  {
    if vs == [] then []
    else
      var last := vs[|vs| - 1];
      assert vs == vs[..|vs| - 1] + [last];
      PresentValues(vs[..|vs| - 1]) + (if Present(last) then [last.value] else [])
  }

  /** The first occurrence of every value of `xs`, in order. */
  function Dedup(xs: seq<string>): seq<string>
    decreases |xs|
  {
    if xs == [] then []
    else
      var d := Dedup(xs[..|xs| - 1]);
      if xs[|xs| - 1] in d then d else d + [xs[|xs| - 1]]
  }

  function EmailsOf(cs: seq<Contact>): seq<Option<string>> {
    seq(|cs|, i requires 0 <= i < |cs| => cs[i].email)
  }

  function PhonesOf(cs: seq<Contact>): seq<Option<string>> {
    seq(|cs|, i requires 0 <= i < |cs| => cs[i].phoneNumber)
  }

  function IdsInOrder(cs: seq<Contact>): seq<int> {
    seq(|cs|, i requires 0 <= i < |cs| => cs[i].id)
  }

  /** The view `buildResponse` returns for `primary` and `secondaries`. */
  function ConsolidatedView(primary: Contact, secondaries: seq<Contact>): ConsolidatedContact {
    ConsolidatedContact(
      primary.id,
      Dedup(PresentValues(EmailsOf([primary] + secondaries))),
      Dedup(PresentValues(PhonesOf([primary] + secondaries))),
      IdsInOrder(secondaries))
  }

  predicate NoDuplicates(xs: seq<string>) {
    forall i, j :: 0 <= i < j < |xs| ==> xs[i] != xs[j]
  }

  /** The position of the first occurrence of `x` in `xs`. */
  function FirstIndex<T(==)>(xs: seq<T>, x: T): (k: nat)
    requires x in xs
    ensures k < |xs| && xs[k] == x && x !in xs[..k]
    decreases |xs|
  {
    if xs[0] == x then 0
    else
      var k := 1 + FirstIndex(xs[1..], x);
      assert xs[..k] == [xs[0]] + xs[1..][..k - 1];
      k
  }

  // ---------------------------------------------------------------------------
  // What the deduplication promises

  /** Dedup keeps every value once and nothing else. */
  lemma {:induction false} DedupDistinct(xs: seq<string>)
    ensures NoDuplicates(Dedup(xs))
    ensures forall x :: x in Dedup(xs) <==> x in xs
    decreases |xs|
  {
    if xs != [] {
      var p := xs[..|xs| - 1];
      assert xs == p + [xs[|xs| - 1]];
      DedupDistinct(p);
    }
  }

  /** The first value of the input stays in front. */
  lemma {:induction false} DedupKeepsHead(xs: seq<string>)
    requires xs != []
    ensures Dedup(xs) != [] && Dedup(xs)[0] == xs[0]
    decreases |xs|
  {
    if |xs| > 1 {
      var p := xs[..|xs| - 1];
      DedupKeepsHead(p);
    }
  }

  lemma {:induction false} FirstIndexInPrefix<T>(p: seq<T>, z: T, y: T)
    requires y in p
    ensures FirstIndex(p + [z], y) == FirstIndex(p, y)
    decreases |p|
  {
    if p[0] != y {
      assert (p + [z])[1..] == p[1..] + [z];
      FirstIndexInPrefix(p[1..], z, y);
    }
  }

  /** Values come out in the order of their first occurrence in the input. */
  lemma {:induction false} DedupFirstSeenOrder(xs: seq<string>)
    ensures forall x :: x in Dedup(xs) ==> x in xs
    ensures forall i, j :: 0 <= i < j < |Dedup(xs)| ==>
      FirstIndex(xs, Dedup(xs)[i]) < FirstIndex(xs, Dedup(xs)[j])
    decreases |xs|
  {
    if xs != [] {
      var p, last := xs[..|xs| - 1], xs[|xs| - 1];
      assert xs == p + [last];
      DedupFirstSeenOrder(p);
      DedupDistinct(p);
      var d := Dedup(p);
      forall y | y in d
        ensures FirstIndex(xs, y) == FirstIndex(p, y)
      {
        FirstIndexInPrefix(p, last, y);
      }
      if last !in d {
        assert last !in p;
        assert FirstIndex(xs, last) == |p|;
        var d' := d + [last];
        forall i, j | 0 <= i < j < |d'|
          ensures FirstIndex(xs, d'[i]) < FirstIndex(xs, d'[j])
        {
          assert d'[i] == d[i] && d[i] in d;
          if j < |d| {
            assert d'[j] == d[j] && d[j] in d;
          }
        }
      }
    }
  }

  // ---------------------------------------------------------------------------
  // What the consolidated view promises

  lemma {:induction false} PresentValuesHead(vs: seq<Option<string>>)
    requires vs != [] && Present(vs[0])
    ensures PresentValues(vs) != [] && PresentValues(vs)[0] == vs[0].value
    decreases |vs|
  {
    if |vs| > 1 {
      PresentValuesHead(vs[..|vs| - 1]);
    }
  }

  /** Dropping the absent values keeps the order in which the present ones
      first occur. */
  lemma {:induction false} PresentValuesOrder(vs: seq<Option<string>>)
    ensures forall x, y ::
      (x in PresentValues(vs) && y in PresentValues(vs) &&
       FirstIndex(PresentValues(vs), x) < FirstIndex(PresentValues(vs), y)) ==>
      FirstIndex(vs, Some(x)) < FirstIndex(vs, Some(y))
    decreases |vs|
  {
    if vs != [] {
      var init, last := vs[..|vs| - 1], vs[|vs| - 1];
      assert vs == init + [last];
      PresentValuesOrder(init);
      var p, q := PresentValues(init), PresentValues(vs);
      assert q[..|p|] == p;
      forall x, y | x in q && y in q && FirstIndex(q, x) < FirstIndex(q, y)
        ensures FirstIndex(vs, Some(x)) < FirstIndex(vs, Some(y))
      {
        var kx := FirstIndex(q, x);
        assert p[kx] == x;
        if Present(last) {
          FirstIndexInPrefix(p, last.value, x);
        }
        FirstIndexInPrefix(init, last, Some(x));
        if y in p {
          if Present(last) {
            FirstIndexInPrefix(p, last.value, y);
          }
          FirstIndexInPrefix(init, last, Some(y));
        } else {
          assert Some(y) !in init;
          assert forall m :: 0 <= m < |init| ==> vs[m] != Some(y) by {
            forall m | 0 <= m < |init| ensures vs[m] != Some(y) {
              assert vs[m] == init[m];
            }
          }
        }
      }
    }
  }

  /** Every occurrence in `vs` of a later value of `d` is preceded by an
      occurrence of each earlier one: `d` lists values in first-seen order. */
  predicate FirstSeenOrder(d: seq<string>, vs: seq<Option<string>>) {
    forall i, j, k :: 0 <= i < j < |d| && 0 <= k < |vs| && vs[k] == Some(d[j]) ==>
      exists k' :: 0 <= k' < k && vs[k'] == Some(d[i])
  }

  /** The deduplicated present values come out in first-seen order. */
  lemma DedupPresentOrder(vs: seq<Option<string>>)
    ensures FirstSeenOrder(Dedup(PresentValues(vs)), vs)
  {
    var p := PresentValues(vs);
    var d := Dedup(p);
    DedupFirstSeenOrder(p);
    PresentValuesOrder(vs);
    forall i, j, k | 0 <= i < j < |d| && 0 <= k < |vs| && vs[k] == Some(d[j])
      ensures exists k' :: 0 <= k' < k && vs[k'] == Some(d[i])
    {
      assert d[i] in d && d[j] in d;
      var kj := FirstIndex(vs, Some(d[j]));
      assert forall m :: 0 <= m < kj ==> vs[m] != Some(d[j]) by {
        forall m | 0 <= m < kj ensures vs[m] != Some(d[j]) {
          assert vs[..kj][m] == vs[m];
        }
      }
      var ki := FirstIndex(vs, Some(d[i]));
      assert vs[ki] == Some(d[i]);
    }
  }

  lemma OptionsOf(cs: seq<Contact>)
    ensures forall v :: v in EmailsOf(cs) <==> SomeEmail(cs, v)
    ensures forall v :: v in PhonesOf(cs) <==> SomePhone(cs, v)
  {
    forall v | SomeEmail(cs, v) ensures v in EmailsOf(cs) {
      var c :| c in cs && c.email == v;
      var i :| 0 <= i < |cs| && cs[i] == c;
      assert EmailsOf(cs)[i] == v;
    }
    forall v | SomePhone(cs, v) ensures v in PhonesOf(cs) {
      var c :| c in cs && c.phoneNumber == v;
      var i :| 0 <= i < |cs| && cs[i] == c;
      assert PhonesOf(cs)[i] == v;
    }
  }

  /** `emails` and `phoneNumbers` hold each present value of the cluster once,
      never an absent one, and start with the primary's value when it has one;
      `secondaryContactIds` lists the secondaries in the order given. */
  lemma ConsolidatedViewShape(primary: Contact, secondaries: seq<Contact>)
    ensures var v := ConsolidatedView(primary, secondaries);
      && v.primaryContatctId == primary.id
      && NoDuplicates(v.emails) && NoDuplicates(v.phoneNumbers)
      && (forall x :: x in v.emails <==> x != "" && SomeEmail([primary] + secondaries, Some(x)))
      && (forall x :: x in v.phoneNumbers <==> x != "" && SomePhone([primary] + secondaries, Some(x)))
      && (Present(primary.email) ==> v.emails != [] && v.emails[0] == primary.email.value)
      && (Present(primary.phoneNumber) ==> v.phoneNumbers != [] && v.phoneNumbers[0] == primary.phoneNumber.value)
      && |v.secondaryContactIds| == |secondaries|
      && (forall i :: 0 <= i < |secondaries| ==> v.secondaryContactIds[i] == secondaries[i].id)
  {
    var cs := [primary] + secondaries;
    var es, ps := PresentValues(EmailsOf(cs)), PresentValues(PhonesOf(cs));
    DedupDistinct(es);
    DedupDistinct(ps);
    OptionsOf(cs);
    if Present(primary.email) {
      assert EmailsOf(cs)[0] == primary.email;
      PresentValuesHead(EmailsOf(cs));
      DedupKeepsHead(es);
    }
    if Present(primary.phoneNumber) {
      assert PhonesOf(cs)[0] == primary.phoneNumber;
      PresentValuesHead(PhonesOf(cs));
      DedupKeepsHead(ps);
    }
  }

  /** `emails` and `phoneNumbers` list values in the order the primary and
      then the secondaries first carry them: every contact carrying a
      later-listed value comes after some contact carrying each earlier one. */
  lemma ConsolidatedViewOrder(primary: Contact, secondaries: seq<Contact>)
    ensures FirstSeenOrder(ConsolidatedView(primary, secondaries).emails, EmailsOf([primary] + secondaries))
    ensures FirstSeenOrder(ConsolidatedView(primary, secondaries).phoneNumbers, PhonesOf([primary] + secondaries))
  {
    var cs := [primary] + secondaries;
    DedupPresentOrder(EmailsOf(cs));
    DedupPresentOrder(PhonesOf(cs));
  }

  /** The view of a primary without secondaries lists just its own values. */
  lemma LoneView(primary: Contact)
    ensures ConsolidatedView(primary, []) == ConsolidatedContact(
      primary.id,
      if Present(primary.email) then [primary.email.value] else [],
      if Present(primary.phoneNumber) then [primary.phoneNumber.value] else [],
      [])
  {
    assert [primary] + [] == [primary];
    assert EmailsOf([primary]) == [] + [primary.email];
    assert PhonesOf([primary]) == [] + [primary.phoneNumber];
    AppendStep([], primary.email);
    AppendStep([], primary.phoneNumber);
  }

  // ---------------------------------------------------------------------------
  // The builder

  /** One iteration of an accumulation loop. */
  lemma AppendStep(vs: seq<Option<string>>, v: Option<string>)
    ensures Dedup(PresentValues(vs + [v])) ==
      if Present(v) && v.value !in Dedup(PresentValues(vs)) then Dedup(PresentValues(vs)) + [v.value]
      else Dedup(PresentValues(vs))
  {
    assert (vs + [v])[..|vs|] == vs;
    var p := PresentValues(vs);
    if Present(v) {
      assert (p + [v.value])[..|p|] == p;
    } else {
      assert PresentValues(vs + [v]) == p;
    }
  }

  /** Extending the scanned prefix by one secondary appends its values. */
  lemma PrefixStep(primary: Contact, secondaries: seq<Contact>, i: int)
    requires 0 <= i < |secondaries|
    ensures EmailsOf([primary] + secondaries[..i + 1]) == EmailsOf([primary] + secondaries[..i]) + [secondaries[i].email]
    ensures PhonesOf([primary] + secondaries[..i + 1]) == PhonesOf([primary] + secondaries[..i]) + [secondaries[i].phoneNumber]
  {
    assert [primary] + secondaries[..i + 1] == ([primary] + secondaries[..i]) + [secondaries[i]];
  }

  /** `buildResponse`: two accumulation loops and the id list. */
  method BuildResponse(primary: Contact, secondaries: seq<Contact>) returns (r: ConsolidatedContact)
    ensures r == ConsolidatedView(primary, secondaries)
  {
    var emails: seq<string> := [];
    if Present(primary.email) {
      emails := emails + [primary.email.value];
    }
    assert EmailsOf([primary] + secondaries[..0]) == [primary.email];
    for i := 0 to |secondaries|
      invariant emails == Dedup(PresentValues(EmailsOf([primary] + secondaries[..i])))
    {
      var contact := secondaries[i];
      PrefixStep(primary, secondaries, i);
      AppendStep(EmailsOf([primary] + secondaries[..i]), contact.email);
      if Present(contact.email) && contact.email.value !in emails {
        emails := emails + [contact.email.value];
      }
    }
    assert [primary] + secondaries[..|secondaries|] == [primary] + secondaries;

    var phoneNumbers: seq<string> := [];
    if Present(primary.phoneNumber) {
      phoneNumbers := phoneNumbers + [primary.phoneNumber.value];
    }
    assert PhonesOf([primary] + secondaries[..0]) == [primary.phoneNumber];
    for i := 0 to |secondaries|
      invariant phoneNumbers == Dedup(PresentValues(PhonesOf([primary] + secondaries[..i])))
    {
      var contact := secondaries[i];
      PrefixStep(primary, secondaries, i);
      AppendStep(PhonesOf([primary] + secondaries[..i]), contact.phoneNumber);
      if Present(contact.phoneNumber) && contact.phoneNumber.value !in phoneNumbers {
        phoneNumbers := phoneNumbers + [contact.phoneNumber.value];
      }
    }

    var secondaryContactIds := IdsInOrder(secondaries);
    r := ConsolidatedContact(primary.id, emails, phoneNumbers, secondaryContactIds);
  }
}
