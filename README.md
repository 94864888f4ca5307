# Identity reconciliation: a Dafny model of the POST handler of `src/routes/identify.ts`

The service keeps a table of contacts. Each contact has an optional email, an
optional phone number, a creation time, and a precedence. A *primary* contact
governs an identity group. A *secondary* contact links to the primary of its
group. The POST handler (registered on the router's `/` path) receives an
email and/or a phone number and does four things:

1. It trims the fields.
2. It finds every contact that shares the email or the phone number.
3. When both fields were given, it merges every identity group those contacts
   belong to into the oldest primary. If the request brings a value that is
   not on record yet, it records the request as a new secondary of that
   primary.
4. It answers with the consolidated view of the surviving group: the primary's
   id, the group's distinct emails and phone numbers with the primary's own
   first, and the ids of the secondaries.

A request that matches nothing creates a new primary. A request with no usable
field is answered with the error response.

The model has four modules:

- `Contacts` (`contacts.dfy`) holds the contact rows, the table keyed by id,
  and the union-find over it. `Flat` says every secondary is one hop from a
  primary. It also defines `LinkedSecondaryContacts`, a stable sort by
  creation time, and the merge `MergeInto` together with its lemmas.
- `Text` (`text.dfy`) defines JavaScript's `String.prototype.trim`.
- `Consolidation` (`consolidation.dfy`) defines `generateResponseObject`, in
  two forms:
  - the specification function `ResponseOf`;
  - the loop that computes it, `CollectResponse`.
- `Identify` (`identify.dfy`) holds the handler:
  - `Handle`, a specification function from table, next id, request and time
    to the new table, the new next id and the answer;
  - the `Store` class, whose fields `rows` and `nextId`
    are updated in place by the methods that mirror the source's database
    writes. Each of those methods is proved equal to its specification
    function.
  - lemmas that state what the handler promises, in terms of `Handle`.

The database is modelled as a map from id to row plus the next id to hand out.
The ORM relations `linkedTo` and `linkedSecondaryContacts` are derived from
each row's `linkedId`. The request's arrival time is a parameter `now`.

## Model

| member | source | states |
|---|---|---|
| Contacts.Governing | src/routes/identify.ts:65-67 | The governing contact of a row of a flat table is a primary row of the table. |
| Contacts.LinkedSecondaryContacts | src/routes/identify.ts:96-100 | The linked secondaries of `p` are exactly the rows whose link names `p`. They are sorted by creation time and have distinct ids. |
| Contacts.SortByCreatedAt | src/routes/identify.ts:155-157 | Sorting keeps the length and the elements and yields a list ordered by creation time. |
| Contacts.SortCounts | src/routes/identify.ts:155-157 | Sorting is a permutation: the multiset of contacts is unchanged. |
| Contacts.SortDistinct | src/routes/identify.ts:155-157 | Sorting a list with distinct ids yields a list with distinct ids. |
| Contacts.MergeInto | src/routes/identify.ts:27-52 | A merge keeps every id. It keeps each contact's id, email, phone number and creation time. |
| Contacts.DemoteEffects | src/routes/identify.ts:31-51 | Demoting one contact makes it a secondary of the new primary. It re-links every contact that was linked to it. Every other contact is unchanged. |
| Contacts.MergeStep | src/routes/identify.ts:163-165 | Demoting primaries one after another equals demoting the whole batch at once. |
| Contacts.MergeKeepsFlat | src/routes/identify.ts:159-165 | Merging into a primary survivor keeps the table flat, so every secondary stays one hop from a primary. The survivor's row is unchanged. |
| Contacts.MergeGoverning | src/routes/identify.ts:159-165 | After a merge, a contact whose governor was the survivor or a demoted primary is governed by the survivor. Every other contact keeps its governor. |
| Contacts.MergeKeepsStore | src/routes/identify.ts:159-165 | A merge keeps the table keyed, its ids below the next id, and the table flat. |
| Contacts.AddKeepsStore | src/routes/identify.ts:183-186 | Adding a row under the next id that links to an existing primary keeps the table keyed and flat. It adds exactly that id. |
| Contacts.AddKeepsGoverning | src/routes/identify.ts:176-186 | Adding a row under the next id changes no existing contact's governing primary. |
| Text.Trim | src/routes/identify.ts:119-120 | The trimmed string neither starts nor ends with white space. |
| Text.TrimCutsSpace | src/routes/identify.ts:119-120 | Trimming removes only white space, and only from the two ends. |
| Text.TrimIdempotent | src/routes/identify.ts:119-120 | Trimming twice is trimming once. |
| Identify.NormaliseField | src/routes/identify.ts:119-120 | A field stays present or absent as it was. A truthy field becomes `Some` of its trim, so it is trimmed. An absent or empty field is untouched. |
| Identify.NormaliseIdempotent | src/routes/identify.ts:117-120 | Normalising a normalised request changes nothing. |
| Identify.FindMatching | src/routes/identify.ts:125-136 | The matches are exactly the rows that carry the supplied email or the supplied phone number. They are sorted by creation time and have distinct ids. |
| Identify.Normalise | src/routes/identify.ts:119-120 | Each field stays present or absent as it was. A truthy field becomes its trim. An absent or empty field is untouched. |
| Identify.Matches | src/routes/identify.ts:125-131 | A contact matches when the request supplies an email equal to the contact's, or supplies a phone number equal to the contact's. An absent field matches nothing. `FindMatching` returns exactly the rows that match. |
| Identify.ContactExists | src/routes/identify.ts:170-174 | Two independent tests: some match carries the request's email and some match, possibly another one, carries its phone number. `MergedRecord` and `HandleRecordsSecondary` prove a secondary is added exactly when this fails. |
| Contacts.Select | src/routes/identify.ts:125-131 | The table scan returns exactly the rows below the next id that pass the filter, in ascending id order. |
| Consolidation.Dedup | src/routes/identify.ts:58-88 | A `Set` filled by `add` and read out by `Array.from`. `DedupFacts`, `DedupHead` and `DedupOrder` prove it holds each value added exactly once, in order of first addition. |
| Consolidation.ResponseOf | src/routes/identify.ts:55-91 | The answer for a primary and its related contacts. `ResponseEmails`, `ResponsePhoneNumbers` and `ResponseSecondaryIds` prove what its lists hold. `GroupView` proves what it holds for a contact's group. |
| Identify.Recorded | src/routes/identify.ts:170-192 | Recording keeps the store keyed and flat, and adds at most the one row under the next id. The survivor stays a row. `MergedRecord` and `RecordedKeepsRows` give the row that is added and show existing rows are kept. |
| Identify.Merged | src/routes/identify.ts:159-192 | Merging then recording keeps the store keyed and flat and adds at most one row. `MergedRegroups`, `MergedKeepsValues` and `MergedRecord` state its effects. |
| Identify.AddPrimary | src/routes/identify.ts:203-219 | Recording a new primary keeps the store keyed and flat, and adds at most the one row under the next id. `HandleRecordsPrimary` proves exactly that row is added and states its values, and `HandleAnswersNewPrimary` states the answer. |
| Identify.Consolidated | src/routes/identify.ts:139-199 | The matched branch keeps the store keyed and flat and adds at most one row. `HandleAnswersSurvivor`, `HandleMergesGroups` and `HandleOneFieldReadsOnly` state its effects. |
| Identify.GovernorIds | src/routes/identify.ts:143-154 | The governing ids are primary rows. Every match's governor is among them, each of them governs some match, and there is at least one when there are matches. |
| Identify.GoverningList | src/routes/identify.ts:140-157 | The governing primaries are distinct, primary, sorted by creation time, and hold exactly the governing ids. |
| Identify.GoverningPrimaries | src/routes/identify.ts:140-157 | The loop that collects each match's governor once and then sorts computes `GoverningList`. |
| Identify.Survivor | src/routes/identify.ts:160 | The survivor is a primary row. |
| Identify.Demoted | src/routes/identify.ts:163 | The demoted ids together with the survivor are exactly the governing ids, and the survivor is not demoted. |
| Identify.SurvivorIsEarliest | src/routes/identify.ts:155-160 | The survivor is a governing primary, and no governing primary was created before it. |
| Identify.HandleRejects | src/routes/identify.ts:221-223 | The error answer comes exactly when nothing matches and neither field is truthy. In that case the store is unchanged. |
| Identify.HandleOneFieldReadsOnly | src/routes/identify.ts:196-198 | With matches and at most one truthy field, the store is unchanged. |
| Identify.HandleAnswersSurvivor | src/routes/identify.ts:159-198 | With matches, the answer is the view of the survivor's group in the new store. The survivor is the earliest governing primary, and its row is unchanged. |
| Identify.HandleRecordsSecondary | src/routes/identify.ts:169-186 | A secondary is recorded exactly when there are matches, both fields are truthy and a value is not on record. It carries the request's values and links to the primary named in the answer. |
| Identify.HandleRecordsPrimaryExactly | src/routes/identify.ts:203-211 | A new primary is recorded exactly when nothing matches and some field is truthy. |
| Identify.HandleRecordsPrimary | src/routes/identify.ts:203-211 | The new primary holds only the truthy fields, under the next id. Every other row is unchanged. |
| Identify.HandleAnswersNewPrimary | src/routes/identify.ts:213-219 | The new primary's answer is its group's view. The group has no secondaries yet, and empty lists are left out. |
| Identify.HandleMergesGroups | src/routes/identify.ts:159-186 | With matches and both fields truthy, every contact in a matched group ends up governed by the survivor named in the answer, and so does the new secondary. Every other contact keeps its governor. |
| Identify.MergedRegroups | src/routes/identify.ts:159-186 | Merging and recording regroups one contact as `HandleMergesGroups` states. |
| Identify.MergedKeepsValues | src/routes/identify.ts:159-186 | Merging and recording keeps every existing contact's email and phone number. |
| Identify.MergedRecord | src/routes/identify.ts:170-186 | Merging and recording adds the request as a secondary of the survivor exactly when one of its values is not on record. |
| Identify.MergedRecordsBoth | src/routes/identify.ts:170-192 | After merging and recording, both of the request's values are on record among its matches. |
| Identify.MergedMatchesOneGroup | src/routes/identify.ts:159-192 | After merging and recording, everything the request matches is in the survivor's group. |
| Identify.RepeatAfterMerge | src/routes/identify.ts:159-198 | After a request with matches and both fields truthy, the same request matches the survivor's group only, and both of its values are on record. |
| Identify.RepeatAfterNewPrimary | src/routes/identify.ts:203-219 | After a request with both fields truthy and no matches, the same request matches only the new primary. |
| Identify.HandleSettled | src/routes/identify.ts:170-198 | A request whose values are both on record and whose matches form one group changes nothing. It is answered with that group's view. |
| Identify.HandleRepeat | src/routes/identify.ts:116-223 | Sending a request again changes nothing in the store. When both fields are truthy, the second answer equals the first. |
| Identify.Handle | src/routes/identify.ts:116-223 | The store stays keyed and flat, with ids below the next id. At most one row is added, under the old next id. |
| Identify.Store.Create | src/routes/identify.ts:183-186 | A new row is stored under the next id, which then advances by one. Every other row is unchanged. |
| Identify.Store.Repoint | src/routes/identify.ts:40-51 | Updating each listed secondary in turn to link to `p` yields the table with all of them re-pointed at once. |
| Identify.Store.UpdateContactLinkPrecedence | src/routes/identify.ts:27-52 | The demotion updates the table to `MergeInto(old, {contact}, newPrimary)` and leaves the next id unchanged. |
| Identify.Store.MergeIntoFirst | src/routes/identify.ts:159-165 | Demoting every primary after the first, one at a time, yields the single merge into the first. |
| Identify.Store.RecordIfNew | src/routes/identify.ts:167-192 | Recording matches `Recorded`. The contact answered with is a row governed by the survivor. |
| Identify.Store.RecordPrimary | src/routes/identify.ts:203-220 | Recording a new primary and answering matches `AddPrimary`. |
| Identify.Store.Consolidate | src/routes/identify.ts:139-199 | The matched branch matches `Consolidated`, and the store stays flat. |
| Identify.Store.Identify | src/routes/identify.ts:116-223 | The new state and answer of the handler are those of the specification function `Handle`. |
| Consolidation.IndexOf | src/routes/identify.ts:86-88 | The position of the first occurrence, or the length when there is none. |
| Consolidation.DedupFacts | src/routes/identify.ts:58-88 | The contents of an insertion-ordered set have no repetitions and hold exactly the values added. |
| Consolidation.DedupHead | src/routes/identify.ts:72-73 | The first value added is the first value listed. |
| Consolidation.DedupOrder | src/routes/identify.ts:86-88 | Values are listed in the order of their first addition. |
| Consolidation.DedupDistinct | src/routes/identify.ts:82-88 | Adding distinct values lists them as they are. |
| Consolidation.PresentFacts | src/routes/identify.ts:72-81 | The values added are exactly the truthy ones. |
| Consolidation.PresentOrder | src/routes/identify.ts:72-81 | Keeping only the truthy values preserves the order of first occurrences: a value kept before another also occurs first before it among the inputs. |
| Consolidation.FirstOccurrenceOrder | src/routes/identify.ts:78-87 | The distinct truthy values are listed in the order of their first occurrence among the inputs. |
| Consolidation.EmailValues | src/routes/identify.ts:72-80 | The truthy emails of a list of contacts are exactly those some contact carries. |
| Consolidation.PhoneValues | src/routes/identify.ts:73-81 | The truthy phone numbers of a list of contacts are exactly those some contact carries. |
| Consolidation.ResponseEmails | src/routes/identify.ts:72-86 | The answer's emails are distinct. They are exactly the truthy emails of the primary and the related contacts, with the primary's first. They are listed in the order in which they first occur among the primary and then the related contacts in list order. |
| Consolidation.ResponsePhoneNumbers | src/routes/identify.ts:73-87 | The answer's phone numbers are distinct. They are exactly the truthy phone numbers of the primary and the related contacts, with the primary's first. They are listed in the order in which they first occur among the primary and then the related contacts in list order. |
| Consolidation.ResponseSecondaryIds | src/routes/identify.ts:82-88 | The answer's secondary ids are distinct and are exactly the ids of the related contacts. When those ids are distinct, they appear in their order. |
| Consolidation.LoneView | src/routes/identify.ts:69-74 | The view of a primary without secondaries lists its own truthy values and no ids. |
| Consolidation.ResponseStep | src/routes/identify.ts:78-83 | One pass of the loop adds the contact's truthy values and its id unless each is already there. |
| Consolidation.GroupView | src/routes/identify.ts:55-91 | The view of any contact's group names its governing primary. Each email and phone number of the group appears exactly once. The primary's values come first, then the rest in the order they first occur among the linked secondaries, oldest first. The secondary ids are exactly those of the rows linked to the primary. |
| Consolidation.CollectResponse | src/routes/identify.ts:69-88 | The loop over the related contacts computes `ResponseOf`. |
| Consolidation.GenerateResponseObject | src/routes/identify.ts:55-91 | The answer for a contact is `ResponseOf` its governing primary and that primary's linked secondaries. |

## Left out

- HTTP: the Express router, the status codes, the `{ contact: ... }` and
  `{ error: ... }` JSON wrappers, and the body parser are not modelled. An
  answer is either `Ok(response)` or `InvalidRequest`.
- Prisma is modelled as a map from id to row. The model does not cover
  queries, transactions, connection failures, or concurrent requests
  interleaving with each other.
- The `Promise.all` at line 51 is modelled as updates applied one after
  another. The updates touch distinct rows, so their order does not matter.
- The database's `createdAt` default is the request-time parameter `now`.
  Ids come from an explicit next-id counter instead of the autoincrement
  column.
- Identify.NormaliseField: a `phoneNumber` that arrives as a number (through
  `toString()` at lines 120, 129, 173, 179 and 208) is not modelled. Request fields
  are optional strings.
- Identify.FindMatching: Prisma drops an `equals: undefined` filter, so an
  absent field matches nothing. Contacts with equal creation times are listed
  in id order; the order the database would use for such ties is not
  modelled.
- Consolidation.GenerateResponseObject: the `linkedSecondaryContacts` reached
  through `linkedTo` (lines 105-108), and those returned with an update
  (line 37), have no `orderBy`. Their order is up to the database. The model
  always uses creation-time order, so when the response contact is reached
  through `linkedTo`, the order of `secondaryContactIds` and of the
  secondaries' emails and phone numbers may differ from what the database
  returns.
- Identify.HandleRepeat: for a request with one truthy field, only the store
  is proved unchanged by a repeat. The answer can differ: the new-primary
  answer leaves out the key of the absent field (lines 217-219), while the
  repeat is answered through `generateResponseObject`, which always sends all
  lists.
- The new-primary answer follows the code at lines 213-219: the `emails` or
  `phoneNumbers` key is left out when the field is absent, unlike the answers
  built by `generateResponseObject`, which always carry all three lists.
