/** The POST handler of `src/routes/identify.ts`: it normalises the request, finds the
    contacts that share its email or phone number, merges every identity group
    they belong to into the oldest one, records a new secondary contact when the
    request brings new information, and answers with the consolidated view. */
module Identify {
  import opened Contacts
  import opened Consolidation
  import Text

  /** The request body after parsing: both fields are optional. */
  datatype Request = Request(email: Option<string>, phoneNumber: Option<string>)

  /** A consolidated contact (status 200) or the error answer (status 400). */
  datatype Outcome = Ok(response: Response) | InvalidRequest

  /** A truthy field is trimmed; an absent or empty one is left as it is. */
  function NormaliseField(o: Option<string>): (r: Option<string>)
    ensures r.Some? <==> o.Some?
    ensures r.Some? ==> Text.Trimmed(r.value)
    ensures !Truthy(o) ==> r == o
    ensures Truthy(o) ==> r == Some(Text.Trim(o.value))
  {
    if Truthy(o) then Some(Text.Trim(o.value)) else o
  }

  /** Each field is normalised on its own. */
  function Normalise(req: Request): (r: Request)
    ensures r.email.Some? <==> req.email.Some?
    ensures r.phoneNumber.Some? <==> req.phoneNumber.Some?
    ensures Truthy(req.email) ==> r.email == Some(Text.Trim(req.email.value))
    ensures Truthy(req.phoneNumber) ==> r.phoneNumber == Some(Text.Trim(req.phoneNumber.value))
    ensures !Truthy(req.email) ==> r.email == req.email
    ensures !Truthy(req.phoneNumber) ==> r.phoneNumber == req.phoneNumber
  {
    Request(NormaliseField(req.email), NormaliseField(req.phoneNumber))
  }

  lemma NormaliseFieldIdempotent(o: Option<string>)
    ensures NormaliseField(NormaliseField(o)) == NormaliseField(o)
  {
    if Truthy(o) {
      Text.TrimIdempotent(o.value);
    }
  }

  /** Normalising a normalised request changes nothing. */
  lemma NormaliseIdempotent(req: Request)
    ensures Normalise(Normalise(req)) == Normalise(req)
  {
    NormaliseFieldIdempotent(req.email);
    NormaliseFieldIdempotent(req.phoneNumber);
  }

  /** `c` has the supplied email or the supplied phone number; an absent field
      matches nothing. */
  predicate Matches(c: Contact, q: Request) {
    (q.email.Some? && c.email == q.email) || (q.phoneNumber.Some? && c.phoneNumber == q.phoneNumber)
  }

  /** The matching contacts, oldest first. */
  function FindMatching(t: Table, n: nat, q: Request): (r: seq<Contact>)
    requires Keyed(t) && Below(t, n)
    ensures forall c :: c in r <==> IsRow(t, c) && Matches(c, q)
    ensures SortedByCreatedAt(r) && DistinctIds(r)
  {
    var r := SortByCreatedAt(Select(t, n, (c: Contact) => Matches(c, q)));
    SortDistinct(Select(t, n, (c: Contact) => Matches(c, q)));
    r
  }

  /** Some match already carries the email and some match already carries the
      phone number, so the request brings nothing new. */
  predicate ContactExists(matches: seq<Contact>, q: Request) {
    (exists c :: c in matches && c.email == q.email) &&
    (exists c :: c in matches && c.phoneNumber == q.phoneNumber)
  }

  /** The ids of the primaries that govern the matches. */
  function GovernorIds(t: Table, matches: seq<Contact>): (g: set<nat>)
    requires Keyed(t) && Flat(t) && forall m :: m in matches ==> IsRow(t, m)
    ensures forall id :: id in g ==> id in t && t[id].linkPrecedence == Primary
    ensures forall m :: m in matches ==> Governing(t, m).id in g
    ensures forall id :: id in g ==> exists m :: m in matches && Governing(t, m).id == id
    ensures matches != [] ==> g != {}
  {
    var g := set m | m in matches :: Governing(t, m).id;
    assert matches != [] ==> Governing(t, matches[0]).id in g;
    g
  }

  lemma IdSetAppend(s: seq<Contact>, c: Contact)
    ensures IdSet(s + [c]) == IdSet(s) + {c.id}
  {
  }

  /** Removing the head of a list with distinct ids removes exactly its id. */
  lemma IdSetTail(s: seq<Contact>)
    requires s != [] && DistinctIds(s)
    ensures IdSet(s[1..]) == IdSet(s) - {s[0].id}
  {
    forall x | x in s[1..] ensures x.id != s[0].id {
      var k :| 0 <= k < |s[1..]| && s[1..][k] == x;
      assert s[k + 1] == x;
    }
    assert s == [s[0]] + s[1..];
  }

  lemma IdSetSlice(s: seq<Contact>, i: nat)
    requires 1 <= i < |s|
    ensures IdSet(s[1..i + 1]) == IdSet(s[1..i]) + {s[i].id}
  {
    assert s[1..i + 1] == s[1..i] + [s[i]];
    IdSetAppend(s[1..i], s[i]);
  }

  /** `u` with the contacts whose ids are in `ids` linked to `p`. */
  ghost function Repointed(u: Table, ids: set<nat>, p: nat): Table {
    map id | id in u :: if id in ids then u[id].(linkedId := Some(p)) else u[id]
  }

  lemma RepointStep(u: Table, ids: set<nat>, id: nat, p: nat)
    requires id in u
    ensures Repointed(u, ids + {id}, p) == Repointed(u, ids, p)[id := Repointed(u, ids, p)[id].(linkedId := Some(p))]
  {
  }

  /** Demoting `c` and then re-pointing the contacts that link to it is the
      merge of `{c}` into `p`. */
  lemma DemoteIsMerge(t: Table, c: nat, p: nat, n: nat, linked: seq<Contact>)
    requires Keyed(t) && Below(t, n) && c in t
    requires var u := t[c := t[c].(linkPrecedence := Secondary, linkedId := Some(p))];
      forall x :: x in linked <==> IsRow(u, x) && x.linkedId == Some(c)
    ensures Repointed(t[c := t[c].(linkPrecedence := Secondary, linkedId := Some(p))], IdSet(linked), p)
         == MergeInto(t, {c}, p)
  {
    var u := t[c := t[c].(linkPrecedence := Secondary, linkedId := Some(p))];
    var a := Repointed(u, IdSet(linked), p);
    var b := MergeInto(t, {c}, p);
    forall id | id in t ensures a[id] == b[id] {
      if id != c && t[id].linkedId == Some(c) {
        assert u[id] in linked;
      }
    }
  }

  /** The governing primary of each match, in match order. */
  function Governors(t: Table, matches: seq<Contact>): (r: seq<Contact>)
    requires Keyed(t) && Flat(t) && forall m :: m in matches ==> IsRow(t, m)
    ensures forall p :: p in r ==> IsRow(t, p) && p.linkPrecedence == Primary
    ensures IdSet(r) == GovernorIds(t, matches)
  {
    if matches == [] then []
    else
      var front := matches[..|matches| - 1];
      var last := matches[|matches| - 1];
      assert matches == front + [last];
      assert GovernorIds(t, matches) == GovernorIds(t, front) + {Governing(t, last).id};
      IdSetAppend(Governors(t, front), Governing(t, last));
      Governors(t, front) + [Governing(t, last)]
  }

  /** Distinct rows of a keyed table have distinct ids. */
  lemma RowsDistinctIds(t: Table, s: seq<Contact>)
    requires Keyed(t) && Distinct(s) && forall c :: c in s ==> IsRow(t, c)
    ensures DistinctIds(s)
  {
    forall i, j | 0 <= i < j < |s| ensures s[i].id != s[j].id {
      assert s[i] in s && s[j] in s;
    }
  }

  /** The governing primaries of the matches, each once, oldest first; the
      first of them survives a merge. */
  function GoverningList(t: Table, matches: seq<Contact>): (r: seq<Contact>)
    requires Keyed(t) && Flat(t) && forall m :: m in matches ==> IsRow(t, m)
    ensures DistinctIds(r) && SortedByCreatedAt(r)
    ensures forall p :: p in r ==> IsRow(t, p) && p.linkPrecedence == Primary
    ensures IdSet(r) == GovernorIds(t, matches)
    ensures matches != [] ==> r != []
  {
    var all := Dedup(Governors(t, matches));
    DedupFacts(Governors(t, matches));
    RowsDistinctIds(t, all);
    SortDistinct(all);
    var r := SortByCreatedAt(all);
    assert IdSet(r) == IdSet(all) == IdSet(Governors(t, matches));
    assert matches != [] ==> Governing(t, matches[0]).id in IdSet(r);
    r
  }

  lemma GovernorsStep(t: Table, matches: seq<Contact>, i: nat)
    requires Keyed(t) && Flat(t) && forall m :: m in matches ==> IsRow(t, m)
    requires i < |matches|
    ensures IsRow(t, matches[i])
    ensures Governors(t, matches[..i + 1]) == Governors(t, matches[..i]) + [Governing(t, matches[i])]
  {
    assert matches[i] in matches;
    assert matches[..i + 1][..i] == matches[..i];
  }

  /** Among rows of a keyed table, having a row's id is being that row. */
  lemma SameIdSameRow(t: Table, rows: seq<Contact>, c: Contact)
    requires Keyed(t) && IsRow(t, c) && forall p :: p in rows ==> IsRow(t, p)
    ensures (exists k :: 0 <= k < |rows| && rows[k].id == c.id) <==> c in rows
  {
    if exists k :: 0 <= k < |rows| && rows[k].id == c.id {
      var k :| 0 <= k < |rows| && rows[k].id == c.id;
      assert rows[k] in rows;
    }
  }

  /** One step of the collection: the governing primary of the next match
      joins the collected ones unless one with its id is already there. */
  lemma CollectStep(t: Table, matches: seq<Contact>, i: nat, all: seq<Contact>)
    requires Keyed(t) && Flat(t) && forall m :: m in matches ==> IsRow(t, m)
    requires i < |matches|
    requires all == Dedup(Governors(t, matches[..i])) && forall p :: p in all ==> IsRow(t, p)
    ensures var primaryContact := Governing(t, matches[i]);
      var next := if !(exists k :: 0 <= k < |all| && all[k].id == primaryContact.id) then all + [primaryContact] else all;
      next == Dedup(Governors(t, matches[..i + 1])) && forall p :: p in next ==> IsRow(t, p)
  {
    GovernorsStep(t, matches, i);
    var primaryContact := Governing(t, matches[i]);
    DedupAppend(Governors(t, matches[..i]), primaryContact);
    SameIdSameRow(t, all, primaryContact);
  }

  /** Collects the governing primary of every match, skipping one already
      collected, and sorts them oldest first. */
  method GoverningPrimaries(t: Table, matches: seq<Contact>) returns (primaries: seq<Contact>)
    requires Keyed(t) && Flat(t) && forall m :: m in matches ==> IsRow(t, m)
    ensures primaries == GoverningList(t, matches)
  {
    var all: seq<Contact> := [];
    for i := 0 to |matches|
      invariant all == Dedup(Governors(t, matches[..i]))
      invariant forall p :: p in all ==> IsRow(t, p)
    {
      CollectStep(t, matches, i, all);
      var primaryContact := Governing(t, matches[i]);
      if !(exists k :: 0 <= k < |all| && all[k].id == primaryContact.id) {
        all := all + [primaryContact];
      }
    }
    assert matches[..|matches|] == matches;
    primaries := SortByCreatedAt(all);
  }

  /** A new primary: the supplied truthy fields and nothing else. */
  function Kept(o: Option<string>): Option<string> {
    if Truthy(o) then o else None
  }

  /** The one-element list a new primary's response reports for a field, or
      no key at all. */
  function Listed(o: Option<string>): Option<seq<string>> {
    if Truthy(o) then Some([o.value]) else None
  }

  /** The table and next id after a request, and the answer to it. */
  datatype Step = Step(rows: Table, nextId: nat, outcome: Outcome)

  /** How a request may change the store: rows stay keyed by id with ids
      below the next id, the union-find stays flat, and at most one row is
      added, under the old next id. */
  predicate Grows(t: Table, n: nat, t2: Table, n2: nat) {
    Keyed(t2) && Below(t2, n2) && Flat(t2) &&
    (n2 == n ==> t2.Keys == t.Keys) &&
    (n2 != n ==> n2 == n + 1 && t2.Keys == t.Keys + {n})
  }

  /** The oldest governing primary of the matches: the one that survives. */
  function Survivor(t: Table, matches: seq<Contact>): (p: Contact)
    requires Keyed(t) && Flat(t) && matches != [] && forall m :: m in matches ==> IsRow(t, m)
    ensures IsRow(t, p) && p.linkPrecedence == Primary
  {
    GoverningList(t, matches)[0]
  }

  /** The ids of the other governing primaries: the ones a merge demotes. */
  function Demoted(t: Table, matches: seq<Contact>): (d: set<nat>)
    requires Keyed(t) && Flat(t) && matches != [] && forall m :: m in matches ==> IsRow(t, m)
    ensures Survivor(t, matches).id !in d
    ensures d + {Survivor(t, matches).id} == GovernorIds(t, matches)
  {
    var primaries := GoverningList(t, matches);
    IdSetTail(primaries);
    IdSet(primaries[1..])
  }

  /** After a merge into `survivor`: a secondary of `survivor` with the
      request's values is added unless both are already on record. */
  function Recorded(t: Table, n: nat, q: Request, matches: seq<Contact>, survivor: Contact, now: int): (r: (Table, nat))
    requires Keyed(t) && Below(t, n) && Flat(t) && IsRow(t, survivor) && survivor.linkPrecedence == Primary
    ensures Grows(t, n, r.0, r.1) && IsRow(r.0, survivor)
  {
    if ContactExists(matches, q) then (t, n)
    else
      var c := Contact(n, q.email, q.phoneNumber, Secondary, Some(survivor.id), now);
      AddKeepsStore(t, n, c);
      (t[n := c], n + 1)
  }

  /** A request with both fields and some matches: the governing primaries
      are merged into the oldest one, then the request is recorded. */
  function Merged(t: Table, n: nat, q: Request, matches: seq<Contact>, now: int): (r: (Table, nat))
    requires Keyed(t) && Below(t, n) && Flat(t) && matches != []
    requires forall m :: m in matches ==> IsRow(t, m)
    ensures Grows(t, n, r.0, r.1) && IsRow(r.0, Survivor(t, matches))
  {
    var survivor := Survivor(t, matches);
    MergeKeepsStore(t, n, Demoted(t, matches), survivor.id);
    Recorded(MergeInto(t, Demoted(t, matches), survivor.id), n, q, matches, survivor, now)
  }

  /** A request with no matches and some field: a new primary with the
      supplied fields. */
  function AddPrimary(t: Table, n: nat, q: Request, now: int): (s: Step)
    requires Keyed(t) && Below(t, n) && Flat(t)
    ensures Grows(t, n, s.rows, s.nextId)
  {
    var c := Contact(n, Kept(q.email), Kept(q.phoneNumber), Primary, None, now);
    AddKeepsStore(t, n, c);
    Step(t[n := c], n + 1, Ok(Response(n, Listed(q.email), Listed(q.phoneNumber), [])))
  }

  /** A request with some matches: with both fields, the merge and the
      record; then the answer is the survivor's group. */
  function Consolidated(t: Table, n: nat, q: Request, matches: seq<Contact>, now: int): (s: Step)
    requires Keyed(t) && Below(t, n) && Flat(t) && matches != []
    requires forall m :: m in matches ==> IsRow(t, m)
    ensures Grows(t, n, s.rows, s.nextId)
  {
    var survivor := Survivor(t, matches);
    var r := if Truthy(q.email) && Truthy(q.phoneNumber) then Merged(t, n, q, matches, now) else (t, n);
    Step(r.0, r.1, Ok(ResponseOf(survivor, LinkedSecondaryContacts(r.0, r.1, survivor.id))))
  }

  /** What the handler does with `req`, received at time `now`, on the table
      `t` whose next id is `n`. */
  function Handle(t: Table, n: nat, req: Request, now: int): (s: Step)
    requires Keyed(t) && Below(t, n) && Flat(t)
    ensures Grows(t, n, s.rows, s.nextId)
  {
    var q := Normalise(req);
    var matches := FindMatching(t, n, q);
    if matches != [] then Consolidated(t, n, q, matches, now)
    else if Truthy(q.email) || Truthy(q.phoneNumber) then AddPrimary(t, n, q, now)
    else Step(t, n, InvalidRequest)
  }

  /** The survivor is one of the governing primaries of the matches, and
      none of them was created before it. */
  lemma SurvivorIsEarliest(t: Table, matches: seq<Contact>)
    requires Keyed(t) && Flat(t) && matches != [] && forall m :: m in matches ==> IsRow(t, m)
    ensures Survivor(t, matches).id in GovernorIds(t, matches)
    ensures forall id :: id in GovernorIds(t, matches) ==> Survivor(t, matches).createdAt <= t[id].createdAt
  {
    var primaries := GoverningList(t, matches);
    assert primaries[0] in primaries;
    forall id | id in GovernorIds(t, matches) ensures primaries[0].createdAt <= t[id].createdAt {
      var k :| 0 <= k < |primaries| && primaries[k].id == id;
      assert primaries[k] in primaries;
    }
  }

  /** The error answer comes exactly when nothing matches and no field is
      truthy, and it leaves the store alone. */
  lemma HandleRejects(t: Table, n: nat, req: Request, now: int)
    requires Keyed(t) && Below(t, n) && Flat(t)
    ensures var q := Normalise(req);
      var s := Handle(t, n, req, now);
      (s.outcome.InvalidRequest? <==>
        FindMatching(t, n, q) == [] && !Truthy(q.email) && !Truthy(q.phoneNumber)) &&
      (s.outcome.InvalidRequest? ==> s.rows == t && s.nextId == n)
  {
  }

  /** Matches with at most one truthy field only read the store. */
  lemma HandleOneFieldReadsOnly(t: Table, n: nat, req: Request, now: int)
    requires Keyed(t) && Below(t, n) && Flat(t)
    requires FindMatching(t, n, Normalise(req)) != []
    requires !(Truthy(Normalise(req).email) && Truthy(Normalise(req).phoneNumber))
    ensures Handle(t, n, req, now).rows == t && Handle(t, n, req, now).nextId == n
  {
    var q := Normalise(req);
    var matches := FindMatching(t, n, q);
    var s := Consolidated(t, n, q, matches, now);
    assert Handle(t, n, req, now) == s;
    assert s.rows == t && s.nextId == n;
  }

  /** With matches, the answer names the survivor: the oldest governing
      primary of the matches, left as it was; and the answer is the
      consolidated view of the survivor's group in the new store. */
  lemma HandleAnswersSurvivor(t: Table, n: nat, req: Request, now: int)
    requires Keyed(t) && Below(t, n) && Flat(t)
    requires FindMatching(t, n, Normalise(req)) != []
    ensures var matches := FindMatching(t, n, Normalise(req));
      var s := Handle(t, n, req, now);
      var g := GovernorIds(t, matches);
      s.outcome.Ok? &&
      var pid := s.outcome.response.primaryContactId;
      pid in g && (forall id :: id in g ==> t[pid].createdAt <= t[id].createdAt) &&
      pid in s.rows && s.rows[pid] == t[pid] && t[pid].linkPrecedence == Primary &&
      s.outcome.response == ResponseOf(s.rows[pid], LinkedSecondaryContacts(s.rows, s.nextId, pid))
  {
    var matches := FindMatching(t, n, Normalise(req));
    SurvivorIsEarliest(t, matches);
  }

  /** A secondary is recorded exactly when there are matches, both fields
      are truthy and one of the values is not on record yet; it carries the
      request's values and links to the survivor. */
  lemma HandleRecordsSecondary(t: Table, n: nat, req: Request, now: int)
    requires Keyed(t) && Below(t, n) && Flat(t)
    ensures var q := Normalise(req);
      var matches := FindMatching(t, n, q);
      var s := Handle(t, n, req, now);
      ((n in s.rows && s.rows[n].linkPrecedence == Secondary) <==>
        matches != [] && Truthy(q.email) && Truthy(q.phoneNumber) && !ContactExists(matches, q)) &&
      (n in s.rows && s.rows[n].linkPrecedence == Secondary ==>
        s.outcome.Ok? &&
        s.rows[n] == Contact(n, q.email, q.phoneNumber, Secondary, Some(s.outcome.response.primaryContactId), now))
  {
  }

  /** The row with the next id is a new primary exactly when nothing
      matches and some field is truthy. */
  lemma HandleRecordsPrimaryExactly(t: Table, n: nat, req: Request, now: int)
    requires Keyed(t) && Below(t, n) && Flat(t)
    ensures var q := Normalise(req);
      var s := Handle(t, n, req, now);
      (n in s.rows && s.rows[n].linkPrecedence == Primary) <==>
        FindMatching(t, n, q) == [] && (Truthy(q.email) || Truthy(q.phoneNumber))
  {
    var q := Normalise(req);
    var matches := FindMatching(t, n, q);
    if matches != [] {
      ConsolidatedAddsSecondary(t, n, q, matches, now);
    }
  }

  /** Consolidation adds no primary: a row it adds is a secondary. */
  lemma ConsolidatedAddsSecondary(t: Table, n: nat, q: Request, matches: seq<Contact>, now: int)
    requires Keyed(t) && Below(t, n) && Flat(t) && matches != []
    requires forall m :: m in matches ==> IsRow(t, m)
    ensures var s := Consolidated(t, n, q, matches, now);
      n in s.rows ==> s.rows[n].linkPrecedence == Secondary
  {
    if Truthy(q.email) && Truthy(q.phoneNumber) {
      var s := Consolidated(t, n, q, matches, now);
      var r := Merged(t, n, q, matches, now);
      assert s.rows == r.0 && s.nextId == r.1;
      MergedRecord(t, n, q, matches, now);
    }
  }

  /** Without matches, a request with some truthy field records one new
      primary holding only the supplied fields, and nothing else changes. */
  lemma HandleRecordsPrimary(t: Table, n: nat, req: Request, now: int)
    requires Keyed(t) && Below(t, n) && Flat(t)
    requires FindMatching(t, n, Normalise(req)) == []
    requires Truthy(Normalise(req).email) || Truthy(Normalise(req).phoneNumber)
    ensures var q := Normalise(req);
      var s := Handle(t, n, req, now);
      s.nextId == n + 1 && s.rows.Keys == t.Keys + {n} && (forall id :: id in t ==> s.rows[id] == t[id]) &&
      s.rows[n] == Contact(n, Kept(q.email), Kept(q.phoneNumber), Primary, None, now)
  {
  }

  /** A field of an answer with its key left out when its list is empty. */
  function OmitEmpty(l: Option<seq<string>>): Option<seq<string>> {
    if l == Some([]) then None else l
  }

  /** The answer to a request that creates a primary is the consolidated view
      of the new primary's group, which has no secondaries yet, with the keys
      of empty lists left out. */
  lemma HandleAnswersNewPrimary(t: Table, n: nat, req: Request, now: int)
    requires Keyed(t) && Below(t, n) && Flat(t)
    requires FindMatching(t, n, Normalise(req)) == []
    requires Truthy(Normalise(req).email) || Truthy(Normalise(req).phoneNumber)
    ensures var s := Handle(t, n, req, now);
      n in s.rows && LinkedSecondaryContacts(s.rows, s.nextId, n) == [] &&
      var view := ResponseOf(s.rows[n], []);
      s.outcome == Ok(view.(emails := OmitEmpty(view.emails), phoneNumbers := OmitEmpty(view.phoneNumbers)))
  {
    var q := Normalise(req);
    var s := AddPrimary(t, n, q, now);
    assert Handle(t, n, req, now) == s;
    var c := Contact(n, Kept(q.email), Kept(q.phoneNumber), Primary, None, now);
    assert s.rows == t[n := c];
    NoSecondariesYet(t, n, c);
    LoneView(c);
  }

  /** Nothing links to a row just added under the next id. */
  lemma NoSecondariesYet(t: Table, n: nat, c: Contact)
    requires Keyed(t) && Below(t, n) && Flat(t) && c.id == n && c.linkedId.None?
    ensures Keyed(t[n := c]) && LinkedSecondaryContacts(t[n := c], n + 1, n) == []
  {
  }

  /** After a merge and record, the contacts governed by any governing
      primary of the matches are governed by the survivor, and every other
      contact keeps its governing primary. */
  lemma MergedRegroups(t: Table, n: nat, q: Request, matches: seq<Contact>, now: int, id: nat)
    requires Keyed(t) && Below(t, n) && Flat(t) && matches != []
    requires forall m :: m in matches ==> IsRow(t, m)
    requires id in t
    ensures var r := Merged(t, n, q, matches, now);
      var g := GovernorIds(t, matches);
      id in r.0 &&
      (Governing(t, t[id]).id in g ==> Governing(r.0, r.0[id]).id == Survivor(t, matches).id) &&
      (Governing(t, t[id]).id !in g ==> Governing(r.0, r.0[id]) == Governing(t, t[id]))
  {
    var survivor := Survivor(t, matches);
    var demoted := Demoted(t, matches);
    MergeGoverning(t, demoted, survivor.id, id);
    MergeKeepsStore(t, n, demoted, survivor.id);
    var merged := MergeInto(t, demoted, survivor.id);
    if !ContactExists(matches, q) {
      var c := Contact(n, q.email, q.phoneNumber, Secondary, Some(survivor.id), now);
      AddKeepsGoverning(merged, n, c, id);
    }
  }

  /** With matches and both fields truthy, every contact governed by one of
      the governing primaries of the matches, and the new secondary if any,
      ends up governed by the survivor named in the answer; every other
      contact keeps its governing primary. */
  lemma HandleMergesGroups(t: Table, n: nat, req: Request, now: int)
    requires Keyed(t) && Below(t, n) && Flat(t)
    requires FindMatching(t, n, Normalise(req)) != []
    requires Truthy(Normalise(req).email) && Truthy(Normalise(req).phoneNumber)
    ensures var matches := FindMatching(t, n, Normalise(req));
      var s := Handle(t, n, req, now);
      var g := GovernorIds(t, matches);
      s.outcome.Ok? &&
      var pid := s.outcome.response.primaryContactId;
      (forall id :: id in t ==>
        id in s.rows &&
        (Governing(t, t[id]).id in g ==> Governing(s.rows, s.rows[id]).id == pid) &&
        (Governing(t, t[id]).id !in g ==> Governing(s.rows, s.rows[id]) == Governing(t, t[id]))) &&
      (n in s.rows ==> Governing(s.rows, s.rows[n]).id == pid)
  {
    var q := Normalise(req);
    var matches := FindMatching(t, n, q);
    var r := Merged(t, n, q, matches, now);
    var s := Handle(t, n, req, now);
    assert s == Consolidated(t, n, q, matches, now);
    assert s.rows == r.0 && s.nextId == r.1 && s.outcome.response.primaryContactId == Survivor(t, matches).id;
    MergedRegroupsAll(t, n, q, matches, now);
  }

  /** `MergedRegroups` for every contact, and the new secondary if any. */
  lemma MergedRegroupsAll(t: Table, n: nat, q: Request, matches: seq<Contact>, now: int)
    requires Keyed(t) && Below(t, n) && Flat(t) && matches != []
    requires forall m :: m in matches ==> IsRow(t, m)
    ensures var r := Merged(t, n, q, matches, now);
      var g := GovernorIds(t, matches);
      var pid := Survivor(t, matches).id;
      (forall id :: id in t ==>
        id in r.0 &&
        (Governing(t, t[id]).id in g ==> Governing(r.0, r.0[id]).id == pid) &&
        (Governing(t, t[id]).id !in g ==> Governing(r.0, r.0[id]) == Governing(t, t[id]))) &&
      (n in r.0 ==> Governing(r.0, r.0[n]).id == pid)
  {
    var r := Merged(t, n, q, matches, now);
    var g := GovernorIds(t, matches);
    var pid := Survivor(t, matches).id;
    forall id | id in t
      ensures id in r.0 &&
        (Governing(t, t[id]).id in g ==> Governing(r.0, r.0[id]).id == pid) &&
        (Governing(t, t[id]).id !in g ==> Governing(r.0, r.0[id]) == Governing(t, t[id]))
    {
      MergedRegroups(t, n, q, matches, now, id);
    }
    assert n in r.0 ==> Governing(r.0, r.0[n]).id == pid by {
      MergedRecord(t, n, q, matches, now);
    }
  }

  /** A merge and record keeps the values of every existing contact. */
  lemma MergedKeepsValues(t: Table, n: nat, q: Request, matches: seq<Contact>, now: int, id: nat)
    requires Keyed(t) && Below(t, n) && Flat(t) && matches != []
    requires forall m :: m in matches ==> IsRow(t, m)
    requires id in t
    ensures var r := Merged(t, n, q, matches, now);
      id in r.0 && r.0[id].email == t[id].email && r.0[id].phoneNumber == t[id].phoneNumber
  {
    var survivor := Survivor(t, matches);
    var merged := MergeInto(t, Demoted(t, matches), survivor.id);
    MergeKeepsStore(t, n, Demoted(t, matches), survivor.id);
    RecordedKeepsRows(merged, n, q, matches, survivor, now, id);
  }

  /** Recording a request leaves every existing row as it was. */
  lemma RecordedKeepsRows(t: Table, n: nat, q: Request, matches: seq<Contact>, survivor: Contact, now: int, id: nat)
    requires Keyed(t) && Below(t, n) && Flat(t) && IsRow(t, survivor) && survivor.linkPrecedence == Primary
    requires id in t
    ensures var r := Recorded(t, n, q, matches, survivor, now);
      id in r.0 && r.0[id] == t[id]
  {
  }

  /** A merge and record adds the request as a secondary of the survivor
      exactly when one of its values is not on record. */
  lemma MergedRecord(t: Table, n: nat, q: Request, matches: seq<Contact>, now: int)
    requires Keyed(t) && Below(t, n) && Flat(t) && matches != []
    requires forall m :: m in matches ==> IsRow(t, m)
    ensures var r := Merged(t, n, q, matches, now);
      (ContactExists(matches, q) ==> r.1 == n) &&
      (!ContactExists(matches, q) ==>
        r.1 == n + 1 && r.0[n] == Contact(n, q.email, q.phoneNumber, Secondary, Some(Survivor(t, matches).id), now))
  {
  }

  /** After a merge and record of a request with both fields, both of the
      request's values are on record. */
  lemma MergedRecordsBoth(t: Table, n: nat, q: Request, now: int)
    requires Keyed(t) && Below(t, n) && Flat(t)
    requires FindMatching(t, n, q) != [] && q.email.Some? && q.phoneNumber.Some?
    ensures var r := Merged(t, n, q, FindMatching(t, n, q), now);
      ContactExists(FindMatching(r.0, r.1, q), q)
  {
    var matches := FindMatching(t, n, q);
    if ContactExists(matches, q) {
      var a :| a in matches && a.email == q.email;
      var b :| b in matches && b.phoneNumber == q.phoneNumber;
      MergedFindsBoth(t, n, q, matches, now, a, b);
    } else {
      var r := Merged(t, n, q, matches, now);
      MergedRecord(t, n, q, matches, now);
      FoundAgain(r.0, r.1, q, n);
    }
  }

  /** A match holding the request's email and one holding its phone number
      are found again after a merge and record. */
  lemma MergedFindsBoth(t: Table, n: nat, q: Request, matches: seq<Contact>, now: int, a: Contact, b: Contact)
    requires Keyed(t) && Below(t, n) && Flat(t) && matches != []
    requires forall m :: m in matches ==> IsRow(t, m)
    requires q.email.Some? && q.phoneNumber.Some?
    requires a in matches && a.email == q.email && b in matches && b.phoneNumber == q.phoneNumber
    ensures var r := Merged(t, n, q, matches, now);
      ContactExists(FindMatching(r.0, r.1, q), q)
  {
    MergedFindsAgain(t, n, q, matches, now, a.id);
    MergedFindsAgain(t, n, q, matches, now, b.id);
  }

  /** A contact on record keeps its values through a merge and record, so it
      still matches what it matched. */
  lemma MergedFindsAgain(t: Table, n: nat, q: Request, matches: seq<Contact>, now: int, id: nat)
    requires Keyed(t) && Below(t, n) && Flat(t) && matches != []
    requires forall m :: m in matches ==> IsRow(t, m)
    requires id in t && Matches(t[id], q)
    ensures var r := Merged(t, n, q, matches, now);
      id in r.0 && r.0[id] in FindMatching(r.0, r.1, q) &&
      r.0[id].email == t[id].email && r.0[id].phoneNumber == t[id].phoneNumber
  {
    var r := Merged(t, n, q, matches, now);
    MergedKeepsValues(t, n, q, matches, now, id);
    FoundAgain(r.0, r.1, q, id);
  }

  /** A row that matches the request is among its matches. */
  lemma FoundAgain(t: Table, n: nat, q: Request, id: nat)
    requires Keyed(t) && Below(t, n) && id in t && Matches(t[id], q)
    ensures t[id] in FindMatching(t, n, q)
  {
  }

  /** After a merge and record, whatever the request matches is governed by
      the survivor. */
  lemma MergedMatchesOneGroup(t: Table, n: nat, q: Request, now: int)
    requires Keyed(t) && Below(t, n) && Flat(t) && FindMatching(t, n, q) != []
    ensures var matches := FindMatching(t, n, q);
      var r := Merged(t, n, q, matches, now);
      var again := FindMatching(r.0, r.1, q);
      forall id :: id in GovernorIds(r.0, again) ==> id == Survivor(t, matches).id
  {
    var matches := FindMatching(t, n, q);
    var r := Merged(t, n, q, matches, now);
    var again := FindMatching(r.0, r.1, q);
    forall x | x in again ensures Governing(r.0, x).id == Survivor(t, matches).id {
      MergedGovernsMatch(t, n, q, now, x);
    }
  }

  /** One match after a merge and record is governed by the survivor. */
  lemma MergedGovernsMatch(t: Table, n: nat, q: Request, now: int, x: Contact)
    requires Keyed(t) && Below(t, n) && Flat(t) && FindMatching(t, n, q) != []
    requires var r := Merged(t, n, q, FindMatching(t, n, q), now);
      x in FindMatching(r.0, r.1, q)
    ensures var r := Merged(t, n, q, FindMatching(t, n, q), now);
      Governing(r.0, x).id == Survivor(t, FindMatching(t, n, q)).id
  {
    var matches := FindMatching(t, n, q);
    var r := Merged(t, n, q, matches, now);
    if x.id != n {
      MergedGovernsOld(t, n, q, matches, now, x);
    } else {
      MergedRecord(t, n, q, matches, now);
    }
  }

  /** A match after a merge and record that was already on record is
      governed by the survivor. */
  lemma MergedGovernsOld(t: Table, n: nat, q: Request, matches: seq<Contact>, now: int, x: Contact)
    requires Keyed(t) && Below(t, n) && Flat(t) && matches == FindMatching(t, n, q) && matches != []
    requires var r := Merged(t, n, q, matches, now);
      IsRow(r.0, x) && Matches(x, q) && x.id != n
    ensures var r := Merged(t, n, q, matches, now);
      Governing(r.0, x).id == Survivor(t, matches).id
  {
    var r := Merged(t, n, q, matches, now);
    assert x.id in t;
    MergedKeepsValues(t, n, q, matches, now, x.id);
    assert Matches(t[x.id], q);
    FoundAgain(t, n, q, x.id);
    assert Governing(t, t[x.id]).id in GovernorIds(t, matches);
    MergedRegroups(t, n, q, matches, now, x.id);
    assert r.0[x.id] == x;
  }

  /** After a request with both fields truthy and some matches, the same
      request matches one group only, that of the survivor, and both of its
      values are on record. */
  lemma RepeatAfterMerge(t: Table, n: nat, req: Request, now: int)
    requires Keyed(t) && Below(t, n) && Flat(t)
    requires FindMatching(t, n, Normalise(req)) != []
    requires Truthy(Normalise(req).email) && Truthy(Normalise(req).phoneNumber)
    ensures var q := Normalise(req);
      var s := Handle(t, n, req, now);
      var again := FindMatching(s.rows, s.nextId, q);
      s.outcome.Ok? &&
      var pid := s.outcome.response.primaryContactId;
      pid in s.rows && again != [] && ContactExists(again, q) && GovernorIds(s.rows, again) == {pid} &&
      s.outcome == Ok(ResponseOf(s.rows[pid], LinkedSecondaryContacts(s.rows, s.nextId, pid)))
  {
    var q := Normalise(req);
    var matches := FindMatching(t, n, q);
    var r := Merged(t, n, q, matches, now);
    var s := Handle(t, n, req, now);
    var pid := Survivor(t, matches).id;
    assert s == Consolidated(t, n, q, matches, now);
    assert s.rows == r.0 && s.nextId == r.1 && s.outcome.response.primaryContactId == pid;
    HandleAnswersSurvivor(t, n, req, now);
    MergedRecordsBoth(t, n, q, now);
    MergedMatchesOneGroup(t, n, q, now);
    var again := FindMatching(r.0, r.1, q);
    assert again != [];
    var g := GovernorIds(r.0, again);
    assert g != {} && forall id :: id in g ==> id == pid;
    OnlyMember(g, pid);
  }

  lemma OnlyMember(g: set<nat>, p: nat)
    requires g != {} && forall x :: x in g ==> x == p
    ensures g == {p}
  {
    var x :| x in g;
  }

  /** After a request with both fields truthy and no matches, the same
      request matches the new primary only, and both of its values are on
      record. */
  lemma RepeatAfterNewPrimary(t: Table, n: nat, req: Request, now: int)
    requires Keyed(t) && Below(t, n) && Flat(t)
    requires FindMatching(t, n, Normalise(req)) == []
    requires Truthy(Normalise(req).email) && Truthy(Normalise(req).phoneNumber)
    ensures var q := Normalise(req);
      var s := Handle(t, n, req, now);
      var again := FindMatching(s.rows, s.nextId, q);
      s.outcome.Ok? &&
      var pid := s.outcome.response.primaryContactId;
      pid in s.rows && again != [] && ContactExists(again, q) && GovernorIds(s.rows, again) == {pid} &&
      s.outcome == Ok(ResponseOf(s.rows[pid], LinkedSecondaryContacts(s.rows, s.nextId, pid)))
  {
    var q := Normalise(req);
    var s := AddPrimary(t, n, q, now);
    assert Handle(t, n, req, now) == s;
    var c := Contact(n, q.email, q.phoneNumber, Primary, None, now);
    assert s.rows == t[n := c] && s.nextId == n + 1;
    NewPrimaryMatchesAlone(t, n, q, c);
    NoSecondariesYet(t, n, c);
    LoneView(c);
  }

  /** A new primary holding both values of a request that matched nothing is
      the only match of that request afterwards, and forms a group of its own. */
  lemma NewPrimaryMatchesAlone(t: Table, n: nat, q: Request, c: Contact)
    requires Keyed(t) && Below(t, n) && Flat(t) && FindMatching(t, n, q) == []
    requires q.email.Some? && c == Contact(n, q.email, q.phoneNumber, Primary, None, c.createdAt)
    ensures Keyed(t[n := c]) && Below(t[n := c], n + 1) && Flat(t[n := c])
    ensures var again := FindMatching(t[n := c], n + 1, q);
      again != [] && ContactExists(again, q) && GovernorIds(t[n := c], again) == {n}
  {
    var u := t[n := c];
    AddKeepsStore(t, n, c);
    var again := FindMatching(u, n + 1, q);
    assert c in again;
    forall x | x in again ensures x == c {
    }
    var g := GovernorIds(u, again);
    assert forall id :: id in g ==> id == n;
    OnlyMember(g, n);
  }

  /** A request both of whose values are on record and whose matches form one
      group changes nothing and is answered with that group's view. */
  lemma HandleSettled(t: Table, n: nat, req: Request, now: int, p: nat)
    requires Keyed(t) && Below(t, n) && Flat(t)
    requires Truthy(Normalise(req).email) && Truthy(Normalise(req).phoneNumber)
    requires FindMatching(t, n, Normalise(req)) != []
    requires ContactExists(FindMatching(t, n, Normalise(req)), Normalise(req))
    requires GovernorIds(t, FindMatching(t, n, Normalise(req))) == {p}
    ensures p in t && Handle(t, n, req, now) == Step(t, n, Ok(ResponseOf(t[p], LinkedSecondaryContacts(t, n, p))))
  {
    var q := Normalise(req);
    var matches := FindMatching(t, n, q);
    SurvivorIsEarliest(t, matches);
    var demoted := Demoted(t, matches);
    assert demoted == {};
    MergeNothing(t, p);
  }

  /** Sending a request again changes nothing in the store; when both of its
      fields are truthy, the answer is the same as the first time. */
  lemma HandleRepeat(t: Table, n: nat, req: Request, now: int, later: int)
    requires Keyed(t) && Below(t, n) && Flat(t)
    ensures var first := Handle(t, n, req, now);
      var second := Handle(first.rows, first.nextId, req, later);
      second.rows == first.rows && second.nextId == first.nextId &&
      (Truthy(Normalise(req).email) && Truthy(Normalise(req).phoneNumber) ==> second == first)
  {
    var q := Normalise(req);
    var matches := FindMatching(t, n, q);
    if Truthy(q.email) && Truthy(q.phoneNumber) {
      RepeatBoth(t, n, req, now, later);
    } else if matches == [] && (Truthy(q.email) || Truthy(q.phoneNumber)) {
      RepeatOneField(t, n, req, now, later);
    }
  }

  /** `HandleRepeat` for a request with both fields truthy. */
  lemma RepeatBoth(t: Table, n: nat, req: Request, now: int, later: int)
    requires Keyed(t) && Below(t, n) && Flat(t)
    requires Truthy(Normalise(req).email) && Truthy(Normalise(req).phoneNumber)
    ensures var first := Handle(t, n, req, now);
      Handle(first.rows, first.nextId, req, later) == first
  {
    var first := Handle(t, n, req, now);
    if FindMatching(t, n, Normalise(req)) != [] {
      RepeatAfterMerge(t, n, req, now);
    } else {
      RepeatAfterNewPrimary(t, n, req, now);
    }
    HandleSettled(first.rows, first.nextId, req, later, first.outcome.response.primaryContactId);
  }

  /** `HandleRepeat` for a request with one truthy field that matched
      nothing: the new primary matches it afterwards, so nothing is added. */
  lemma RepeatOneField(t: Table, n: nat, req: Request, now: int, later: int)
    requires Keyed(t) && Below(t, n) && Flat(t)
    requires FindMatching(t, n, Normalise(req)) == []
    requires Truthy(Normalise(req).email) != Truthy(Normalise(req).phoneNumber)
    ensures var first := Handle(t, n, req, now);
      var second := Handle(first.rows, first.nextId, req, later);
      second.rows == first.rows && second.nextId == first.nextId
  {
    var q := Normalise(req);
    var first := AddPrimary(t, n, q, now);
    assert Handle(t, n, req, now) == first;
    var c := Contact(n, Kept(q.email), Kept(q.phoneNumber), Primary, None, now);
    assert first.rows == t[n := c] && first.nextId == n + 1;
    assert IsRow(first.rows, c) && Matches(c, q);
    FoundAgain(first.rows, first.nextId, q, n);
    HandleOneFieldReadsOnly(first.rows, first.nextId, req, later);
  }

  /** The contact store: the rows by id and the next id to hand out. */
  class Store {
    var rows: Table
    var nextId: nat

    ghost predicate Valid()
      reads this
    {
      Keyed(rows) && Below(rows, nextId)
    }

    constructor ()
      ensures Valid() && Flat(rows)
      ensures rows == map[] && nextId == 1
    {
      rows := map[];
      nextId := 1;
    }

    /** Inserts a new row under the next id. */
    method Create(email: Option<string>, phoneNumber: Option<string>, linkPrecedence: Precedence,
                  linkedId: Option<nat>, now: int) returns (c: Contact)
      requires Valid()
      modifies this
      ensures Valid()
      ensures c == Contact(old(nextId), email, phoneNumber, linkPrecedence, linkedId, now)
      ensures c.id !in old(rows)
      ensures rows == old(rows)[c.id := c] && nextId == old(nextId) + 1
    {
      c := Contact(nextId, email, phoneNumber, linkPrecedence, linkedId, now);
      rows := rows[nextId := c];
      nextId := nextId + 1;
    }

    /** Links every contact of `linked` to `p`, one update per contact. */
    method Repoint(linked: seq<Contact>, p: nat)
      requires Valid() && forall x :: x in linked ==> x.id in rows
      modifies this
      ensures Valid() && nextId == old(nextId)
      ensures rows == Repointed(old(rows), IdSet(linked), p)
    {
      for i := 0 to |linked|
        invariant nextId == old(nextId)
        invariant rows == Repointed(old(rows), IdSet(linked[..i]), p)
      {
        var secContact := linked[i];
        assert secContact.id in old(rows) by {
          assert secContact in linked;
        }
        assert Repointed(old(rows), IdSet(linked[..i + 1]), p)
            == rows[secContact.id := rows[secContact.id].(linkedId := Some(p))] by {
          assert linked[..i + 1] == linked[..i] + [secContact];
          IdSetAppend(linked[..i], secContact);
          RepointStep(old(rows), IdSet(linked[..i]), secContact.id, p);
        }
        rows := rows[secContact.id := rows[secContact.id].(linkedId := Some(p))];
      }
      assert linked[..|linked|] == linked;
    }

    /** Turns `contact` into a secondary of `newPrimaryContactId` and re-points
        every contact linked to it at the new primary. */
    method UpdateContactLinkPrecedence(contact: Contact, newPrimaryContactId: nat)
      requires Valid() && contact.id in rows && newPrimaryContactId in rows
      modifies this
      ensures Valid() && nextId == old(nextId)
      ensures rows == MergeInto(old(rows), {contact.id}, newPrimaryContactId)
    {
      rows := rows[contact.id := rows[contact.id].(linkPrecedence := Secondary, linkedId := Some(newPrimaryContactId))];
      var linkedSecondaryContacts := LinkedSecondaryContacts(rows, nextId, contact.id);
      Repoint(linkedSecondaryContacts, newPrimaryContactId);
      DemoteIsMerge(old(rows), contact.id, newPrimaryContactId, nextId, linkedSecondaryContacts);
    }

    /** Demotes every primary of `primaries` after the first into a secondary
        of the first, one after the other. */
    method MergeIntoFirst(primaries: seq<Contact>)
      requires Valid() && primaries != [] && forall p :: p in primaries ==> p.id in rows
      modifies this
      ensures Valid() && nextId == old(nextId)
      ensures rows == MergeInto(old(rows), IdSet(primaries[1..]), primaries[0].id)
    {
      var newPrimaryContactId := primaries[0].id;
      assert primaries[0] in primaries;
      MergeNothing(rows, newPrimaryContactId);
      assert IdSet(primaries[1..1]) == {};
      for i := 1 to |primaries|
        invariant nextId == old(nextId)
        invariant rows == MergeInto(old(rows), IdSet(primaries[1..i]), newPrimaryContactId)
      {
        MergeKeepsKeys(old(rows), nextId, IdSet(primaries[1..i]), newPrimaryContactId);
        assert primaries[i] in primaries;
        IdSetSlice(primaries, i);
        MergeStep(old(rows), IdSet(primaries[1..i]), primaries[i].id, newPrimaryContactId);
        UpdateContactLinkPrecedence(primaries[i], newPrimaryContactId);
      }
      assert primaries[1..|primaries|] == primaries[1..];
      MergeKeepsKeys(old(rows), nextId, IdSet(primaries[1..]), newPrimaryContactId);
    }

    /** Records a secondary of `survivor` unless the request's values are both
        on record, and yields the contact to answer with. */
    method RecordIfNew(q: Request, matchingContacts: seq<Contact>, survivor: Contact, now: int)
      returns (responseContact: Contact)
      requires Valid() && Flat(rows) && IsRow(rows, survivor) && survivor.linkPrecedence == Primary
      modifies this
      ensures Valid() && Flat(rows)
      ensures (rows, nextId) == Recorded(old(rows), old(nextId), q, matchingContacts, survivor, now)
      ensures IsRow(rows, responseContact) && Governing(rows, responseContact) == survivor
    {
      if !ContactExists(matchingContacts, q) {
        AddKeepsStore(rows, nextId, Contact(nextId, q.email, q.phoneNumber, Secondary, Some(survivor.id), now));
        responseContact := Create(q.email, q.phoneNumber, Secondary, Some(survivor.id), now);
      } else {
        responseContact := rows[survivor.id];
      }
    }

    /** No matches and some field: records a new primary. */
    method RecordPrimary(q: Request, now: int) returns (out: Outcome)
      requires Valid() && Flat(rows)
      modifies this
      ensures Valid() && Flat(rows)
      ensures Step(rows, nextId, out) == AddPrimary(old(rows), old(nextId), q, now)
    {
      AddKeepsStore(rows, nextId, Contact(nextId, Kept(q.email), Kept(q.phoneNumber), Primary, None, now));
      var createContact := Create(Kept(q.email), Kept(q.phoneNumber), Primary, None, now);
      out := Ok(Response(createContact.id, Listed(createContact.email), Listed(createContact.phoneNumber), []));
    }

    /** Some matches: with both fields, merges the governing primaries into
        the oldest and records the request; answers with the survivor's
        group. */
    method Consolidate(q: Request, matchingContacts: seq<Contact>, now: int) returns (out: Outcome)
      requires Valid() && Flat(rows) && matchingContacts != []
      requires forall m :: m in matchingContacts ==> IsRow(rows, m)
      modifies this
      ensures Valid() && Flat(rows)
      ensures Step(rows, nextId, out) == Consolidated(old(rows), old(nextId), q, matchingContacts, now)
    {
      var allSortedPrimaryContacts := GoverningPrimaries(rows, matchingContacts);
      var responseContact := allSortedPrimaryContacts[0];
      if Truthy(q.email) && Truthy(q.phoneNumber) {
        assert IdSet(allSortedPrimaryContacts[1..]) == Demoted(rows, matchingContacts);
        MergeKeepsStore(rows, nextId, Demoted(rows, matchingContacts), responseContact.id);
        MergeIntoFirst(allSortedPrimaryContacts);
        responseContact := RecordIfNew(q, matchingContacts, allSortedPrimaryContacts[0], now);
      }
      var response := GenerateResponseObject(rows, nextId, responseContact);
      out := Ok(response);
    }

    /** The POST handler of `src/routes/identify.ts`. */
    method Identify(req: Request, now: int) returns (out: Outcome)
      requires Valid() && Flat(rows)
      modifies this
      ensures Valid() && Flat(rows)
      ensures Step(rows, nextId, out) == Handle(old(rows), old(nextId), req, now)
    {
      var email := NormaliseField(req.email);
      var phoneNumber := NormaliseField(req.phoneNumber);
      var q := Request(email, phoneNumber);
      var matchingContacts := FindMatching(rows, nextId, q);
      if |matchingContacts| > 0 {
        out := Consolidate(q, matchingContacts, now);
      } else if Truthy(email) || Truthy(phoneNumber) {
        out := RecordPrimary(q, now);
      } else {
        out := InvalidRequest;
      }
    }
  }
}
