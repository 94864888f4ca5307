/** The consolidated view of one identity group (`generateResponseObject`):
    the primary's id, its group's distinct emails and phone numbers with the
    primary's own value first, and the ids of its secondaries. */
module Consolidation {
  import opened Contacts

  datatype Response = Response(
    primaryContactId: nat,
    emails: Option<seq<string>>,
    phoneNumbers: Option<seq<string>>,
    secondaryContactIds: seq<nat>)

  predicate Distinct<T(==)>(s: seq<T>) {
    forall i, j :: 0 <= i < j < |s| ==> s[i] != s[j]
  }

  /** The position of the first occurrence of `x` in `s`, or `|s|` when
      there is none. */
  function IndexOf<T(==)>(s: seq<T>, x: T): (k: nat)
    ensures k <= |s| && x !in s[..k]
    ensures k < |s| <==> x in s
    ensures k < |s| ==> s[k] == x
  {
    if s == [] then 0
    else if s[0] == x then 0
    else
      assert s[1..][..IndexOf(s[1..], x)] == s[1..IndexOf(s[1..], x) + 1];
      1 + IndexOf(s[1..], x)
  }

  /** The distinct elements of `xs` in order of first occurrence: what a
      JavaScript `Set` filled by `add` in list order yields through
      `Array.from`. */
  function Dedup<T(==)>(xs: seq<T>): seq<T> {
    if xs == [] then []
    else
      var d := Dedup(xs[..|xs| - 1]);
      var x := xs[|xs| - 1];
      if x in d then d else d + [x]
  }

  /** The result has no repetitions and holds exactly the input's values. */
  lemma {:induction false} DedupFacts<T(!new)>(xs: seq<T>)
    ensures Distinct(Dedup(xs))
    ensures forall x :: x in Dedup(xs) <==> x in xs
  {
    if xs != [] {
      var front := xs[..|xs| - 1];
      DedupFacts(front);
      assert xs == front + [xs[|xs| - 1]];
    }
  }

  /** The first element of the input is the first element of the result. */
  lemma {:induction false} DedupHead<T(!new)>(xs: seq<T>)
    ensures xs != [] ==> Dedup(xs) != [] && Dedup(xs)[0] == xs[0]
  {
    if |xs| > 1 {
      DedupHead(xs[..|xs| - 1]);
      assert xs[..|xs| - 1][0] == xs[0];
    }
  }

  /** The result keeps the order in which values first occur in the input. */
  lemma {:induction false} DedupOrder<T(!new)>(xs: seq<T>)
    ensures forall i, j :: 0 <= i < j < |Dedup(xs)| ==> IndexOf(xs, Dedup(xs)[i]) < IndexOf(xs, Dedup(xs)[j])
  {
    if xs != [] {
      var front := xs[..|xs| - 1];
      var x := xs[|xs| - 1];
      DedupOrder(front);
      DedupFacts(front);
      DedupFacts(xs);
      var d := Dedup(front);
      var r := Dedup(xs);
      forall y | y in front ensures IndexOf(xs, y) == IndexOf(front, y) {
        IndexOfPrefix(xs, |xs| - 1, y);
      }
      if x !in d {
        assert x !in front;
        assert r == d + [x];
        forall i, j | 0 <= i < j < |r| ensures IndexOf(xs, r[i]) < IndexOf(xs, r[j]) {
          assert r[i] == d[i] && d[i] in d && d[i] in front;
          assert IndexOf(xs, r[i]) == IndexOf(front, d[i]) < |front|;
          if j < |d| {
            assert r[j] == d[j] && d[j] in d && d[j] in front;
            assert IndexOf(xs, r[j]) == IndexOf(front, d[j]);
            assert IndexOf(front, d[i]) < IndexOf(front, d[j]);
          } else {
            assert r[j] == x && IndexOf(xs, r[j]) == |front|;
          }
        }
      } else {
        assert r == d;
        forall i, j | 0 <= i < j < |r| ensures IndexOf(xs, r[i]) < IndexOf(xs, r[j]) {
          assert r[i] in r && r[j] in r && r[i] in front && r[j] in front;
          assert IndexOf(xs, r[i]) == IndexOf(front, d[i]);
          assert IndexOf(xs, r[j]) == IndexOf(front, d[j]);
        }
      }
    }
  }

  /** Adding a value at the end adds it to the result unless it is already there. */
  lemma DedupAppend<T(!new)>(xs: seq<T>, x: T)
    ensures Dedup(xs + [x]) == if x in Dedup(xs) then Dedup(xs) else Dedup(xs) + [x]
  {
    assert (xs + [x])[..|xs|] == xs;
  }

  lemma {:induction false} IndexOfPrefix<T>(xs: seq<T>, m: nat, y: T)
    requires m <= |xs| && y in xs[..m]
    ensures IndexOf(xs, y) == IndexOf(xs[..m], y)
  {
    if xs[0] != y {
      assert y in xs[1..][..m - 1] by { assert xs[1..][..m - 1] == xs[..m][1..]; }
      assert xs[1..][..m - 1] == xs[..m][1..];
      IndexOfPrefix(xs[1..], m - 1, y);
    }
  }

  /** A list without repetitions is its own deduplication. */
  lemma {:induction false} DedupDistinct<T(!new)>(xs: seq<T>)
    ensures Distinct(xs) ==> Dedup(xs) == xs
  {
    if xs != [] && Distinct(xs) {
      var front := xs[..|xs| - 1];
      DedupDistinct(front);
      assert xs[|xs| - 1] !in front;
      assert front + [xs[|xs| - 1]] == xs;
    }
  }

  /** The truthy values of `vs`, in order: what `if (email) emails.add(email)`
      lets through. */
  function Present(vs: seq<Option<string>>): seq<string> {
    if vs == [] then []
    else
      var last := vs[|vs| - 1];
      Present(vs[..|vs| - 1]) + (if Truthy(last) then [last.value] else [])
  }

  function Emails(cs: seq<Contact>): seq<Option<string>> {
    seq(|cs|, i requires 0 <= i < |cs| => cs[i].email)
  }

  function PhoneNumbers(cs: seq<Contact>): seq<Option<string>> {
    seq(|cs|, i requires 0 <= i < |cs| => cs[i].phoneNumber)
  }

  function Ids(cs: seq<Contact>): seq<nat> {
    seq(|cs|, i requires 0 <= i < |cs| => cs[i].id)
  }

  /** The consolidated view of `primary` and the contacts `related` to it:
      its id, its truthy emails and phone numbers without repetition (the
      primary's own value first, then in the order of `related`) and the
      distinct ids of `related`.  Its properties are `ResponseEmails`,
      `ResponsePhoneNumbers` and `ResponseSecondaryIds`. */
  function ResponseOf(primary: Contact, related: seq<Contact>): Response {
    Response(
      primary.id,
      Some(Dedup(Present(Emails([primary] + related)))),
      Some(Dedup(Present(PhoneNumbers([primary] + related)))),
      Dedup(Ids(related)))
  }

  /** The result holds exactly the truthy values of the input. */
  lemma {:induction false} PresentFacts(vs: seq<Option<string>>)
    ensures forall x :: x in Present(vs) <==> x != "" && Some(x) in vs
  {
    if vs != [] {
      var front := vs[..|vs| - 1];
      PresentFacts(front);
      assert vs == front + [vs[|vs| - 1]];
    }
  }

  /** The truthy emails of a list of contacts. */
  lemma EmailValues(cs: seq<Contact>)
    ensures forall e :: e in Present(Emails(cs)) <==> e != "" && exists c :: c in cs && c.email == Some(e)
  {
    PresentFacts(Emails(cs));
    forall e | e != "" && exists c :: c in cs && c.email == Some(e) ensures Some(e) in Emails(cs) {
      var c :| c in cs && c.email == Some(e);
      var i :| 0 <= i < |cs| && cs[i] == c;
      assert Emails(cs)[i] == Some(e);
    }
  }

  /** The truthy phone numbers of a list of contacts. */
  lemma PhoneValues(cs: seq<Contact>)
    ensures forall p :: p in Present(PhoneNumbers(cs)) <==> p != "" && exists c :: c in cs && c.phoneNumber == Some(p)
  {
    PresentFacts(PhoneNumbers(cs));
    forall p | p != "" && exists c :: c in cs && c.phoneNumber == Some(p) ensures Some(p) in PhoneNumbers(cs) {
      var c :| c in cs && c.phoneNumber == Some(p);
      var i :| 0 <= i < |cs| && cs[i] == c;
      assert PhoneNumbers(cs)[i] == Some(p);
    }
  }

  /** The email list of the view: every truthy email of the primary and the
      related contacts exactly once, the primary's own first. */
  lemma ResponseEmails(primary: Contact, related: seq<Contact>)
    ensures var es := ResponseOf(primary, related).emails;
      && es.Some? && Distinct(es.value)
      && (forall e :: e in es.value <==>
            e != "" && (primary.email == Some(e) || exists c :: c in related && c.email == Some(e)))
      && (Truthy(primary.email) ==> es.value[0] == primary.email.value)
      && (forall i, j :: 0 <= i < j < |es.value| ==>
            IndexOf(Emails([primary] + related), Some(es.value[i])) < IndexOf(Emails([primary] + related), Some(es.value[j])))
  {
    var everyone := [primary] + related;
    EmailValues(everyone);
    assert forall c :: c in everyone <==> c == primary || c in related;
    PresentHead(Emails(everyone));
    DedupHead(Present(Emails(everyone)));
    DedupFacts(Present(Emails(everyone)));
    FirstOccurrenceOrder(Emails(everyone));
  }

  /** The phone number list of the view, by the same rule as the emails. */
  lemma ResponsePhoneNumbers(primary: Contact, related: seq<Contact>)
    ensures var ps := ResponseOf(primary, related).phoneNumbers;
      && ps.Some? && Distinct(ps.value)
      && (forall p :: p in ps.value <==>
            p != "" && (primary.phoneNumber == Some(p) || exists c :: c in related && c.phoneNumber == Some(p)))
      && (Truthy(primary.phoneNumber) ==> ps.value[0] == primary.phoneNumber.value)
      && (forall i, j :: 0 <= i < j < |ps.value| ==>
            IndexOf(PhoneNumbers([primary] + related), Some(ps.value[i])) < IndexOf(PhoneNumbers([primary] + related), Some(ps.value[j])))
  {
    var everyone := [primary] + related;
    PhoneValues(everyone);
    assert forall c :: c in everyone <==> c == primary || c in related;
    PresentHead(PhoneNumbers(everyone));
    DedupHead(Present(PhoneNumbers(everyone)));
    DedupFacts(Present(PhoneNumbers(everyone)));
    FirstOccurrenceOrder(PhoneNumbers(everyone));
  }

  /** The secondary id list of the view: exactly the ids of the related
      contacts, once each, in their order when they are distinct. */
  lemma ResponseSecondaryIds(primary: Contact, related: seq<Contact>)
    ensures var ids := ResponseOf(primary, related).secondaryContactIds;
      && Distinct(ids)
      && (forall id :: id in ids <==> exists c :: c in related && c.id == id)
      && (DistinctIds(related) ==> ids == Ids(related))
  {
    DedupFacts(Ids(related));
    if DistinctIds(related) {
      DedupDistinct(Ids(related));
    }
    forall id | exists c :: c in related && c.id == id ensures id in Ids(related) {
      var c :| c in related && c.id == id;
      var i :| 0 <= i < |related| && related[i] == c;
      assert Ids(related)[i] == id;
    }
  }

  lemma {:induction false} PresentHead(vs: seq<Option<string>>)
    ensures vs != [] && Truthy(vs[0]) ==> Present(vs) != [] && Present(vs)[0] == vs[0].value
  {
    if |vs| > 1 && Truthy(vs[0]) {
      PresentHead(vs[..|vs| - 1]);
    }
  }

  /** The distinct truthy values of `vs` are listed in the order of their
      first occurrence in `vs`. */
  lemma FirstOccurrenceOrder(vs: seq<Option<string>>)
    ensures var d := Dedup(Present(vs));
      forall i, j :: 0 <= i < j < |d| ==> IndexOf(vs, Some(d[i])) < IndexOf(vs, Some(d[j]))
  {
    var d := Dedup(Present(vs));
    DedupFacts(Present(vs));
    DedupOrder(Present(vs));
    forall i, j | 0 <= i < j < |d| ensures IndexOf(vs, Some(d[i])) < IndexOf(vs, Some(d[j])) {
      assert d[i] in d && d[j] in d;
      PresentOrder(vs, d[i], d[j]);
    }
  }

  /** The truthy values keep the order in which they first occur: a value
      first kept before another first occurs before it among the inputs. */
  lemma {:induction false} PresentOrder(vs: seq<Option<string>>, x: string, y: string)
    requires x in Present(vs) && y in Present(vs)
    requires IndexOf(Present(vs), x) < IndexOf(Present(vs), y)
    ensures IndexOf(vs, Some(x)) < IndexOf(vs, Some(y))
  {
    var front := vs[..|vs| - 1];
    var v := vs[|vs| - 1];
    assert vs == front + [v];
    PresentAppend(front, v);
    PresentFacts(front);
    PresentFacts(vs);
    var p := Present(front);
    if x in p && y in p {
      IndexOfPrefix(Present(vs), |p|, x);
      IndexOfPrefix(Present(vs), |p|, y);
      IndexOfPrefix(vs, |front|, Some(x));
      IndexOfPrefix(vs, |front|, Some(y));
      assert Present(vs)[..|p|] == p;
      assert vs[..|front|] == front;
      PresentOrder(front, x, y);
    } else if x in p {
      assert Present(vs) == p + [v.value] && y == v.value;
      IndexOfAt(vs, |front|, Some(y));
      assert Some(x) in vs[..|front|];
    }
  }

  /** The first occurrence of a value not among the first `m` elements but
      at position `m` is at `m`. */
  lemma IndexOfAt<T>(s: seq<T>, m: nat, x: T)
    requires m < |s| && s[m] == x && x !in s[..m]
    ensures IndexOf(s, x) == m
  {
  }

  lemma PresentAppend(vs: seq<Option<string>>, v: Option<string>)
    ensures Present(vs + [v]) == Present(vs) + (if Truthy(v) then [v.value] else [])
  {
    assert (vs + [v])[..|vs|] == vs;
  }

  lemma ColumnsAppend(cs: seq<Contact>, c: Contact)
    ensures Emails(cs + [c]) == Emails(cs) + [c.email]
    ensures PhoneNumbers(cs + [c]) == PhoneNumbers(cs) + [c.phoneNumber]
    ensures Ids(cs + [c]) == Ids(cs) + [c.id]
  {
  }

  /** One step of the loop of `GenerateResponseObject`: what adding a
      contact's truthy email and phone number to the sets of values seen so far
      does to them. */
  lemma ViewStep(seen: seq<Contact>, c: Contact)
    ensures var es := Dedup(Present(Emails(seen)));
      Dedup(Present(Emails(seen + [c]))) == if Truthy(c.email) && c.email.value !in es then es + [c.email.value] else es
    ensures var ps := Dedup(Present(PhoneNumbers(seen)));
      Dedup(Present(PhoneNumbers(seen + [c])))
        == if Truthy(c.phoneNumber) && c.phoneNumber.value !in ps then ps + [c.phoneNumber.value] else ps
  {
    ColumnsAppend(seen, c);
    PresentAppend(Emails(seen), c.email);
    PresentAppend(PhoneNumbers(seen), c.phoneNumber);
    if Truthy(c.email) {
      DedupAppend(Present(Emails(seen)), c.email.value);
    } else {
      assert Present(Emails(seen)) + [] == Present(Emails(seen));
    }
    if Truthy(c.phoneNumber) {
      DedupAppend(Present(PhoneNumbers(seen)), c.phoneNumber.value);
    } else {
      assert Present(PhoneNumbers(seen)) + [] == Present(PhoneNumbers(seen));
    }
  }

  lemma IdsStep(seen: seq<Contact>, c: Contact)
    ensures var ids := Dedup(Ids(seen));
      Dedup(Ids(seen + [c])) == if c.id !in ids then ids + [c.id] else ids
  {
    ColumnsAppend(seen, c);
    DedupAppend(Ids(seen), c.id);
  }

  /** The consolidated view of a primary alone lists its own truthy values. */
  lemma {:induction false} LoneView(c: Contact)
    ensures ResponseOf(c, []) ==
      Response(c.id, Some(if Truthy(c.email) then [c.email.value] else []),
        Some(if Truthy(c.phoneNumber) then [c.phoneNumber.value] else []), [])
  {
    assert [c] + [] == [c];
    assert Emails([c]) == [c.email];
    assert PhoneNumbers([c]) == [c.phoneNumber];
    assert Present([c.email]) == Present([]) + (if Truthy(c.email) then [c.email.value] else []);
    assert Present([c.phoneNumber]) == Present([]) + (if Truthy(c.phoneNumber) then [c.phoneNumber.value] else []);
    assert Ids([]) == [];
    forall x: string ensures Dedup([x]) == [x] {
      assert [x][..0] == [];
    }
  }

  /** One step of the loop of `GenerateResponseObject`: the view of the
      primary with one more related contact adds that contact's values and
      id when they are new. */
  lemma ResponseStep(p: Contact, related: seq<Contact>, i: nat)
    requires i < |related|
    ensures var r := ResponseOf(p, related[..i]);
      var c := related[i];
      ResponseOf(p, related[..i + 1]) == Response(p.id,
        Some(if Truthy(c.email) && c.email.value !in r.emails.value then r.emails.value + [c.email.value]
             else r.emails.value),
        Some(if Truthy(c.phoneNumber) && c.phoneNumber.value !in r.phoneNumbers.value
             then r.phoneNumbers.value + [c.phoneNumber.value] else r.phoneNumbers.value),
        if c.id !in r.secondaryContactIds then r.secondaryContactIds + [c.id] else r.secondaryContactIds)
  {
    var c := related[i];
    ViewStep([p] + related[..i], c);
    IdsStep(related[..i], c);
    PrefixStep(p, related, i);
  }

  lemma PrefixStep<T>(x: T, s: seq<T>, i: nat)
    requires i < |s|
    ensures [x] + s[..i + 1] == ([x] + s[..i]) + [s[i]]
    ensures s[..i + 1] == s[..i] + [s[i]]
  {
  }

  /** The view `GenerateResponseObject` builds, in terms of the table: it
      names the governing primary of `contact`; its emails and phone numbers
      are, each once, the truthy values held by that primary or by a contact
      linked to it, the primary's own first; its secondary ids are, each once,
      the ids of the contacts linked to the primary, oldest first. */
  lemma GroupView(t: Table, n: nat, contact: Contact)
    requires Keyed(t) && Below(t, n) && Flat(t) && IsRow(t, contact)
    ensures var g := Governing(t, contact);
      var r := ResponseOf(g, LinkedSecondaryContacts(t, n, g.id));
      r.primaryContactId == g.id &&
      (contact.linkPrecedence == Primary ==> g == contact) &&
      (contact.linkPrecedence == Secondary ==> contact.linkedId == Some(g.id)) &&
      r.emails.Some? && Distinct(r.emails.value) &&
      (forall e :: e in r.emails.value <==>
        e != "" && (g.email == Some(e) || exists id :: id in t && t[id].linkedId == Some(g.id) && t[id].email == Some(e))) &&
      (Truthy(g.email) ==> r.emails.value[0] == g.email.value) &&
      (forall i, j :: 0 <= i < j < |r.emails.value| ==>
        IndexOf(Emails([g] + LinkedSecondaryContacts(t, n, g.id)), Some(r.emails.value[i]))
          < IndexOf(Emails([g] + LinkedSecondaryContacts(t, n, g.id)), Some(r.emails.value[j]))) &&
      r.phoneNumbers.Some? && Distinct(r.phoneNumbers.value) &&
      (forall p :: p in r.phoneNumbers.value <==>
        p != "" && (g.phoneNumber == Some(p) || exists id :: id in t && t[id].linkedId == Some(g.id) && t[id].phoneNumber == Some(p))) &&
      (Truthy(g.phoneNumber) ==> r.phoneNumbers.value[0] == g.phoneNumber.value) &&
      (forall i, j :: 0 <= i < j < |r.phoneNumbers.value| ==>
        IndexOf(PhoneNumbers([g] + LinkedSecondaryContacts(t, n, g.id)), Some(r.phoneNumbers.value[i]))
          < IndexOf(PhoneNumbers([g] + LinkedSecondaryContacts(t, n, g.id)), Some(r.phoneNumbers.value[j]))) &&
      Distinct(r.secondaryContactIds) &&
      (forall id :: id in r.secondaryContactIds <==> id in t && t[id].linkedId == Some(g.id)) &&
      r.secondaryContactIds == Ids(LinkedSecondaryContacts(t, n, g.id))
  {
    var g := Governing(t, contact);
    var related := LinkedSecondaryContacts(t, n, g.id);
    ResponseEmails(g, related);
    ResponsePhoneNumbers(g, related);
    ResponseSecondaryIds(g, related);
    forall e ensures (exists c :: c in related && c.email == Some(e)) <==>
      (exists id :: id in t && t[id].linkedId == Some(g.id) && t[id].email == Some(e))
    {
      if exists id :: id in t && t[id].linkedId == Some(g.id) && t[id].email == Some(e) {
        var id :| id in t && t[id].linkedId == Some(g.id) && t[id].email == Some(e);
        assert t[id] in related;
      }
    }
    forall p ensures (exists c :: c in related && c.phoneNumber == Some(p)) <==>
      (exists id :: id in t && t[id].linkedId == Some(g.id) && t[id].phoneNumber == Some(p))
    {
      if exists id :: id in t && t[id].linkedId == Some(g.id) && t[id].phoneNumber == Some(p) {
        var id :| id in t && t[id].linkedId == Some(g.id) && t[id].phoneNumber == Some(p);
        assert t[id] in related;
      }
    }
    forall id ensures (exists c :: c in related && c.id == id) <==> id in t && t[id].linkedId == Some(g.id) {
      if id in t && t[id].linkedId == Some(g.id) {
        assert t[id] in related;
      }
    }
  }

  /** Builds the view of the identity group of `contact` in the table `t`
      (with every id below `n`): `contact` itself if it is primary, else the
      contact it links to, with that primary's linked secondary contacts. */
  method GenerateResponseObject(t: Table, n: nat, contact: Contact) returns (r: Response)
    requires Keyed(t) && Below(t, n)
    requires Flat(t) && IsRow(t, contact)
    ensures r == ResponseOf(Governing(t, contact), LinkedSecondaryContacts(t, n, Governing(t, contact).id))
  {
    var primaryContact := Governing(t, contact);
    var relatedContacts := LinkedSecondaryContacts(t, n, primaryContact.id);
    r := CollectResponse(primaryContact, relatedContacts);
  }

  /** The loop of `GenerateResponseObject`: the values of the primary, then
      those of each related contact in order, each value once. */
  method CollectResponse(primaryContact: Contact, relatedContacts: seq<Contact>) returns (r: Response)
    ensures r == ResponseOf(primaryContact, relatedContacts)
  {
    var emails: seq<string> := [];
    var phoneNumbers: seq<string> := [];
    var secondaryContactIds: seq<nat> := [];
    if Truthy(primaryContact.email) { emails := [primaryContact.email.value]; }
    if Truthy(primaryContact.phoneNumber) { phoneNumbers := [primaryContact.phoneNumber.value]; }
    LoneView(primaryContact);
    assert relatedContacts[..0] == [];
    for i := 0 to |relatedContacts|
      invariant Response(primaryContact.id, Some(emails), Some(phoneNumbers), secondaryContactIds)
             == ResponseOf(primaryContact, relatedContacts[..i])
    {
      ResponseStep(primaryContact, relatedContacts, i);
      var c := relatedContacts[i];
      if Truthy(c.email) && c.email.value !in emails { emails := emails + [c.email.value]; }
      if Truthy(c.phoneNumber) && c.phoneNumber.value !in phoneNumbers {
        phoneNumbers := phoneNumbers + [c.phoneNumber.value];
      }
      if c.id !in secondaryContactIds { secondaryContactIds := secondaryContactIds + [c.id]; }
    }
    assert relatedContacts[..|relatedContacts|] == relatedContacts;
    r := Response(primaryContact.id, Some(emails), Some(phoneNumbers), secondaryContactIds);
  }
}
