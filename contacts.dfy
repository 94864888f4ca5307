/** The contact table and the union-find over it.

    A contact is either primary (it governs its identity group) or secondary
    (it links to the primary of its group).  The table maps each id to its row;
    the relations `linkedTo` and `linkedSecondaryContacts` of the source's ORM
    schema are derived here from `linkedId`. */
module Contacts {

  datatype Option<+T> = None | Some(value: T)

  datatype Precedence = Primary | Secondary

  datatype Contact = Contact(
    id: nat,
    email: Option<string>,
    phoneNumber: Option<string>,
    linkPrecedence: Precedence,
    linkedId: Option<nat>,
    createdAt: int)

  type Table = map<nat, Contact>

  /** JavaScript truthiness of an optional string: present and not empty. */
  predicate Truthy(o: Option<string>) {
    o.Some? && o.value != ""
  }

  /** Every row is stored under its own id. */
  predicate Keyed(t: Table) {
    forall id :: id in t ==> t[id].id == id
  }

  /** Every id in use is below `n`, the next id the store hands out. */
  predicate Below(t: Table, n: nat) {
    forall id :: id in t ==> id < n
  }

  /** `c` is a row of `t`, exactly as the table holds it. */
  predicate IsRow(t: Table, c: Contact) {
    c.id in t && t[c.id] == c
  }

  /** `c` is primary exactly when it has no link, and its link, if any, names
      a primary row of `t`. */
  predicate OneHop(t: Table, c: Contact) {
    (c.linkPrecedence == Primary <==> c.linkedId.None?) &&
    (c.linkedId.Some? ==> c.linkedId.value in t && t[c.linkedId.value].linkPrecedence == Primary)
  }

  /** The union-find has depth at most one: every row is one hop from its
      primary. */
  predicate Flat(t: Table) {
    forall id :: id in t ==> OneHop(t, t[id])
  }

  /** The contact that governs `c`: `c` itself when it is primary, otherwise
      the row its `linkedId` names (its `linkedTo` relation). */
  function Governing(t: Table, c: Contact): (g: Contact)
    requires Keyed(t) && Flat(t) && IsRow(t, c)
    ensures IsRow(t, g) && g.linkPrecedence == Primary
    ensures c.linkPrecedence == Primary ==> g == c
    ensures c.linkPrecedence == Secondary ==> Some(g.id) == c.linkedId
  {
    if c.linkPrecedence == Primary then c else t[c.linkedId.value]
  }

  predicate IdsAscending(s: seq<Contact>) {
    forall i, j :: 0 <= i < j < |s| ==> s[i].id < s[j].id
  }

  predicate DistinctIds(s: seq<Contact>) {
    forall i, j :: 0 <= i < j < |s| ==> s[i].id != s[j].id
  }

  function IdSet(s: seq<Contact>): set<nat> {
    set c | c in s :: c.id
  }

  /** The rows of `t` with an id below `n` that satisfy `keep`, in ascending id
      order: a table scan with a filter. */
  function Select(t: Table, n: nat, keep: Contact -> bool): (r: seq<Contact>)
    requires Keyed(t)
    ensures forall c :: c in r <==> IsRow(t, c) && c.id < n && keep(c)
    ensures IdsAscending(r)
  {
    if n == 0 then []
    else
      var front := Select(t, n - 1, keep);
      if n - 1 in t && keep(t[n - 1]) then front + [t[n - 1]] else front
  }

  predicate SortedByCreatedAt(s: seq<Contact>) {
    forall i, j :: 0 <= i < j < |s| ==> s[i].createdAt <= s[j].createdAt
  }

  /** Inserts `c` before the first element created no earlier than it. */
  function InsertByCreatedAt(c: Contact, s: seq<Contact>): (r: seq<Contact>)
    requires SortedByCreatedAt(s)
    ensures |r| == |s| + 1
    ensures forall x :: x in r <==> x == c || x in s
    ensures SortedByCreatedAt(r)
  {
    if s == [] || c.createdAt <= s[0].createdAt then [c] + s
    else
      var rest := InsertByCreatedAt(c, s[1..]);
      assert forall j :: 0 <= j < |rest| ==> s[0].createdAt <= rest[j].createdAt by {
        forall j | 0 <= j < |rest| ensures s[0].createdAt <= rest[j].createdAt {
          assert rest[j] in rest;
        }
      }
      [s[0]] + rest
  }

  /** Insertion adds exactly one occurrence of `c`. */
  lemma {:induction false} InsertCounts(c: Contact, s: seq<Contact>)
    requires SortedByCreatedAt(s)
    ensures multiset(InsertByCreatedAt(c, s)) == multiset(s) + multiset{c}
  {
    if s == [] || c.createdAt <= s[0].createdAt {
    } else {
      InsertCounts(c, s[1..]);
      assert s == [s[0]] + s[1..];
    }
  }

  /** Insertion of a contact whose id is new keeps ids distinct. */
  lemma {:induction false} InsertDistinct(c: Contact, s: seq<Contact>)
    requires SortedByCreatedAt(s) && DistinctIds(s) && c.id !in IdSet(s)
    ensures DistinctIds(InsertByCreatedAt(c, s))
  {
    if s == [] || c.createdAt <= s[0].createdAt {
      assert forall j :: 0 <= j < |s| ==> s[j] in s;
    } else {
      assert IdSet(s[1..]) <= IdSet(s);
      InsertDistinct(c, s[1..]);
      var rest := InsertByCreatedAt(c, s[1..]);
      forall j | 0 <= j < |rest| ensures rest[j].id != s[0].id {
        assert rest[j] in rest;
        if rest[j] != c {
          var k :| 0 <= k < |s[1..]| && s[1..][k] == rest[j];
          assert s[k + 1] == rest[j];
        }
      }
    }
  }

  /** A stable insertion sort by `createdAt`: the order of the ORM's
      `orderBy: { createdAt: "asc" }` and of the in-place `Array.sort` on
      `createdAt` (which is stable). */
  function SortByCreatedAt(s: seq<Contact>): (r: seq<Contact>)
    ensures |r| == |s|
    ensures forall x :: x in r <==> x in s
    ensures SortedByCreatedAt(r)
  {
    if s == [] then []
    else InsertByCreatedAt(s[0], SortByCreatedAt(s[1..]))
  }

  /** Sorting permutes its input. */
  lemma {:induction false} SortCounts(s: seq<Contact>)
    ensures multiset(SortByCreatedAt(s)) == multiset(s)
  {
    if s != [] {
      SortCounts(s[1..]);
      InsertCounts(s[0], SortByCreatedAt(s[1..]));
      assert s == [s[0]] + s[1..];
      assert multiset(s) == multiset{s[0]} + multiset(s[1..]);
    }
  }

  /** Sorting keeps ids distinct. */
  lemma {:induction false} SortDistinct(s: seq<Contact>)
    requires DistinctIds(s)
    ensures DistinctIds(SortByCreatedAt(s))
  {
    if s != [] {
      var rest := SortByCreatedAt(s[1..]);
      SortDistinct(s[1..]);
      InsertDistinct(s[0], rest);
    }
  }

  /** The contacts linked to `p` (its `linkedSecondaryContacts`), ordered by
      `createdAt`. */
  function LinkedSecondaryContacts(t: Table, n: nat, p: nat): (r: seq<Contact>)
    requires Keyed(t) && Below(t, n)
    ensures forall c :: c in r <==> IsRow(t, c) && c.linkedId == Some(p)
    ensures SortedByCreatedAt(r) && DistinctIds(r)
  {
    var r := SortByCreatedAt(Select(t, n, (c: Contact) => c.linkedId == Some(p)));
    SortDistinct(Select(t, n, (c: Contact) => c.linkedId == Some(p)));
    r
  }

  /** The table after every id in `demoted` has become a secondary of
      `survivor` and every contact linked to one of them has been re-pointed to
      `survivor`: the union step of the union-find. */
  function MergeInto(t: Table, demoted: set<nat>, survivor: nat): (r: Table)
    ensures r.Keys == t.Keys
    ensures forall id :: id in t ==>
      r[id].id == t[id].id && r[id].email == t[id].email &&
      r[id].phoneNumber == t[id].phoneNumber && r[id].createdAt == t[id].createdAt
  {
    map id | id in t ::
      if id in demoted then t[id].(linkPrecedence := Secondary, linkedId := Some(survivor))
      else if t[id].linkedId.Some? && t[id].linkedId.value in demoted then t[id].(linkedId := Some(survivor))
      else t[id]
  }

  /** What demoting the one contact `c` into `survivor` does, field by field:
      `c` becomes a secondary of `survivor`, every other contact linked to
      `c` is linked to `survivor` instead, and no other contact changes. */
  lemma DemoteEffects(t: Table, c: nat, survivor: nat)
    requires c in t
    ensures var r := MergeInto(t, {c}, survivor);
      r.Keys == t.Keys &&
      r[c] == t[c].(linkPrecedence := Secondary, linkedId := Some(survivor)) &&
      (forall id :: id in t && id != c && t[id].linkedId == Some(c) ==> r[id] == t[id].(linkedId := Some(survivor))) &&
      (forall id :: id in t && id != c && t[id].linkedId != Some(c) ==> r[id] == t[id])
  {
  }

  /** Demoting one more primary after a batch is the same as demoting the
      whole enlarged batch at once. */
  lemma MergeStep(t: Table, demoted: set<nat>, c: nat, survivor: nat)
    ensures MergeInto(MergeInto(t, demoted, survivor), {c}, survivor)
         == MergeInto(t, demoted + {c}, survivor)
  {
    var a := MergeInto(MergeInto(t, demoted, survivor), {c}, survivor);
    var b := MergeInto(t, demoted + {c}, survivor);
    forall id | id in t ensures a[id] == b[id] {
    }
  }

  /** Merging into an empty batch changes nothing. */
  lemma MergeNothing(t: Table, survivor: nat)
    ensures MergeInto(t, {}, survivor) == t
  {
  }

  /** A merge into a primary survivor that is not itself demoted keeps every
      secondary one hop from a primary, and leaves the survivor's row alone. */
  lemma MergeKeepsFlat(t: Table, demoted: set<nat>, survivor: nat)
    requires Flat(t)
    requires survivor in t && t[survivor].linkPrecedence == Primary && survivor !in demoted
    ensures Flat(MergeInto(t, demoted, survivor))
    ensures MergeInto(t, demoted, survivor)[survivor] == t[survivor]
  {
    var r := MergeInto(t, demoted, survivor);
    forall id | id in r
      ensures r[id].linkPrecedence == Primary <==> r[id].linkedId.None?
      ensures r[id].linkedId.Some? ==> r[id].linkedId.value in r && r[r[id].linkedId.value].linkPrecedence == Primary
    {
      if r[id].linkedId.Some? && r[id].linkedId.value != survivor {
        var p := r[id].linkedId.value;
        assert id !in demoted && r[id] == t[id];
        assert p !in demoted && t[p].linkedId.None?;
      }
    }
  }

  /** After the merge, every contact whose governing primary was the survivor
      or one of the demoted primaries is governed by the survivor; every other
      contact keeps its governing primary. */
  lemma MergeGoverning(t: Table, demoted: set<nat>, survivor: nat, id: nat)
    requires Keyed(t) && Flat(t)
    requires survivor in t && t[survivor].linkPrecedence == Primary && survivor !in demoted
    requires forall d :: d in demoted && d in t ==> t[d].linkPrecedence == Primary
    requires id in t
    ensures var r := MergeInto(t, demoted, survivor);
      Flat(r) && Keyed(r) &&
      (Governing(t, t[id]).id in demoted + {survivor} ==> Governing(r, r[id]).id == survivor) &&
      (Governing(t, t[id]).id !in demoted + {survivor} ==> Governing(r, r[id]) == Governing(t, t[id]))
  {
    MergeKeepsFlat(t, demoted, survivor);
    var r := MergeInto(t, demoted, survivor);
    if t[id].linkedId.Some? {
      var p := t[id].linkedId.value;
      assert t[p].linkedId.None?;
    }
  }

  /** A merge keeps the table keyed and its ids below `n`. */
  lemma MergeKeepsKeys(t: Table, n: nat, demoted: set<nat>, survivor: nat)
    requires Keyed(t) && Below(t, n)
    ensures var r := MergeInto(t, demoted, survivor);
      Keyed(r) && Below(r, n) && r.Keys == t.Keys
  {
  }

  /** A merge keeps the table keyed, below `n` and flat. */
  lemma MergeKeepsStore(t: Table, n: nat, demoted: set<nat>, survivor: nat)
    requires Keyed(t) && Below(t, n) && Flat(t)
    requires survivor in t && t[survivor].linkPrecedence == Primary && survivor !in demoted
    ensures var r := MergeInto(t, demoted, survivor);
      Keyed(r) && Below(r, n) && Flat(r) && r.Keys == t.Keys && r[survivor] == t[survivor]
  {
    MergeKeepsFlat(t, demoted, survivor);
  }

  /** Adding a row under the next id `n` that links, if at all, to an
      existing primary keeps the table keyed and flat, and its ids below
      `n + 1`. */
  lemma AddKeepsStore(t: Table, n: nat, c: Contact)
    requires Keyed(t) && Below(t, n) && Flat(t) && c.id == n
    requires c.linkPrecedence == Primary <==> c.linkedId.None?
    requires c.linkedId.Some? ==> c.linkedId.value in t && t[c.linkedId.value].linkPrecedence == Primary
    ensures var r := t[n := c];
      Keyed(r) && Below(r, n + 1) && Flat(r) && r.Keys == t.Keys + {n}
  {
  }

  /** Adding a row under the next id changes no existing contact's governing
      primary; a new secondary is governed by the primary it links to. */
  lemma AddKeepsGoverning(t: Table, n: nat, c: Contact, id: nat)
    requires Keyed(t) && Below(t, n) && Flat(t) && c.id == n
    requires c.linkPrecedence == Primary <==> c.linkedId.None?
    requires c.linkedId.Some? ==> c.linkedId.value in t && t[c.linkedId.value].linkPrecedence == Primary
    requires id in t
    ensures var r := t[n := c];
      Keyed(r) && Flat(r) && IsRow(r, t[id]) && Governing(r, t[id]) == Governing(t, t[id])
  {
    AddKeepsStore(t, n, c);
  }
}
