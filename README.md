# Trip session store

This is a Dafny model of the browser-side session logic of a field-trip
head-count app. A leader creates a trip session that lasts 24 hours, and the
session may be seeded with the leader as its first member. Participants join
by name. Names are matched case-insensitively, so a second join under the same
name re-joins the existing member instead of adding a new one. Members confirm
themselves present on the check-out page; the leader reads the head-count
statistics on the dashboard. No page sets a member missing, although
`updateMemberStatus` accepts all three statuses. The dashboard can download the
member list as CSV.

The persisted store is modelled as the fields of the class
`SessionStore.Store`:

- a map from session id to session;
- the id of the current session.

Loading the store purges the sessions that expired before the given time.
Saving writes back the purged store with the saved session added and made
current. Every store operation is a method on the class. Each method states
its new state in terms of pure functions on the member list:

- `MemberRegistry.Join` for `addMember`;
- `MemberRegistry.SetStatus` for `updateMemberStatus`;
- `MemberRegistry.MemberStats` for `getMemberStats`.

Lemmas about these functions state what the operations promise.

Clocks, random identifiers and the page origin are not computed by the model;
they are passed in as parameters:

- `now` is in milliseconds since the epoch;
- `id`, `leaderId` and `newId` stand for the generated codes;
- `baseUrl` stands for the origin.

The CSV text is modelled exactly as the dashboard builds it:

- every field is quoted, with inner quotes doubled;
- fields are separated by `,` and records by `\n`.

A reader for exactly this format is defined beside it. In that format every
field is quoted, records are separated by `\n`, and no line break follows the
last record. It differs from section 2 of RFC 4180: it accepts only quoted
fields, separates records by a bare `\n` where the RFC requires CRLF, and
rejects a line break after the last record.
With this reader the model proves that the downloaded text reads back as the
header plus one row per member.

Modules:

- `Wrappers` provides `Option`.
- `Text` covers `trim` and `toLowerCase`.
- `SessionTypes` holds the records of `src/types/session.ts`, plus `phoneNumber`.
- `MemberRegistry` holds the member-list logic.
- `SessionStore` holds session creation, the expiry purge and the `Store` class.
- `Csv` covers the download.

## Model

| member | source | states |
|---|---|---|
| Text.Trim | src/lib/session.ts:156-157 | the result is an infix `s[a..b]` of the input with only whitespace before `a` and after `b`; it never starts or ends with whitespace; it is empty exactly when the input is all whitespace; an input with no surrounding whitespace is returned unchanged |
| Text.TrimIdempotent | src/lib/session.ts:156-157 | trimming a trimmed string changes nothing |
| Text.Lower | src/lib/session.ts:151 | keeps the length; each upper-case letter becomes the letter 0x20 code points above it (its lower-case counterpart); every other character is unchanged |
| Text.LowerIdempotent | src/lib/session.ts:151 | lowering twice is lowering once |
| MemberRegistry.FirstIndex | src/lib/session.ts:151 | `find`: the index returned is the first element satisfying the test; no index is returned exactly when no element satisfies it |
| MemberRegistry.JoinRejoins | src/lib/session.ts:151-161 | when member i is the first case-insensitive name match, the list keeps its length, only member i changes, and it becomes present with the new activity time; its id, name, join time and role are kept; its phone is replaced only by a non-blank trimmed phone; the member returned is the updated one |
| MemberRegistry.JoinRejoinsUnique | src/lib/session.ts:151-161 | with pairwise distinct names, any member whose name matches is the one re-joined |
| MemberRegistry.JoinAppends | src/lib/session.ts:163-174 | when no name matches, the new list is the old list plus exactly one member at the end; that member has the fresh id, the name as given, the trimmed phone, status joined, no role, and join and activity times equal to now |
| MemberRegistry.JoinKeepsNamesDistinct | src/lib/session.ts:150-174 | joining keeps member names pairwise distinct up to case |
| MemberRegistry.JoinIdempotentByName | src/lib/session.ts:150-174 | a second join under a name equal up to case adds no member and returns the member with the same id |
| MemberRegistry.SetStatusMisses | src/lib/session.ts:186-187 | the status update fails exactly when no member has the id |
| MemberRegistry.SetStatusUpdatesOnly | src/lib/session.ts:186-190 | when it succeeds, only the first member with the id changes, and only its status and last activity |
| MemberRegistry.SetStatusKeepsNames | src/lib/session.ts:189-190 | a status update keeps length, names, ids and roles, and so keeps names distinct |
| MemberRegistry.CountSplit | src/lib/session.ts:201-202 | counts over disjoint status sets add up |
| MemberRegistry.CountAll | src/lib/session.ts:200-202 | counting every status counts every member |
| MemberRegistry.CountUpdate | src/lib/session.ts:189 | replacing one member moves a count only by the old and new statuses |
| MemberRegistry.CountAppend | src/lib/session.ts:172 | appending a member adds its status to the count |
| MemberRegistry.CountZero | src/lib/session.ts:202 | a count is zero exactly when no member has a status in the set |
| MemberRegistry.MemberStats | src/lib/session.ts:199-205 | `getMemberStats`: total is the list length, and present (present or joined) plus missing equals total |
| MemberRegistry.NoneMissing | src/lib/session.ts:202 | nobody is counted missing exactly when no member has the missing status |
| MemberRegistry.JoinStats | src/lib/session.ts:199-205 | a new join adds one to total and to present; re-joining a missing member moves one from missing to present; any other re-join leaves the counts unchanged |
| MemberRegistry.SetStatusStats | src/lib/session.ts:199-205 | a status update keeps the total and moves missing by exactly the old and new statuses |
| SessionStore.BuildSession | src/lib/session.ts:40-71 | the session built is well formed (expiry one day after creation, leader code equal to id, distinct names, only the leader has a role) and expires after it is created |
| SessionStore.CreateSessionExpiry | src/lib/session.ts:41-53 | id and leader code are the given code, creation time is now, and the session lasts exactly 86,400,000 ms |
| SessionStore.CreateSessionSeedsLeader | src/lib/session.ts:59-71 | a leader member exists exactly when the leader name is non-blank; it is then the only member, present, under the trimmed name and phone, with the leader role, and `leaderMemberId` names it |
| SessionStore.PurgeLater | src/lib/session.ts:93-102 | purging at a later time after purging equals purging once at the later time, both for the sessions and for any current pointer, so purging is idempotent |
| SessionStore.PurgeKeepsExpiringNow | src/lib/session.ts:96 | a session whose expiry equals the purge time is kept |
| SessionStore.JoinKeepsWellFormed | src/lib/session.ts:145-174 | joining keeps a session well formed |
| SessionStore.SetStatusKeepsWellFormed | src/lib/session.ts:181-192 | a status update keeps a session well formed |
| SessionStore.Store.constructor | src/lib/session.ts:86-87 | the empty store: no sessions, no current session |
| SessionStore.Store.Load | src/lib/session.ts:77-104 | `getSessionStore`: keeps exactly the sessions with expiry not before now, unchanged; clears the current id exactly when it named a purged session; writes nothing |
| SessionStore.Store.GetSession | src/lib/session.ts:135-143 | returns the stored session exactly when it is present and not expired |
| SessionStore.Store.Save | src/lib/session.ts:111-122 | the new map is the purged map with the session stored under its id, and it becomes current; a consistent store stays consistent when a well-formed session is saved |
| SessionStore.Store.CreateSession | src/lib/session.ts:40-75 | stores the built session under its id, makes it current, keeps the store consistent |
| SessionStore.Store.AddMember | src/lib/session.ts:145-179 | fails exactly when the session is absent or expired, and then changes nothing; otherwise returns the joined member, stores the session with the joined list in the purged map, makes it current and keeps the store consistent |
| SessionStore.Store.UpdateMemberStatus | src/lib/session.ts:181-197 | succeeds exactly when the session is live and has a member with the id, and otherwise changes nothing; on success stores the updated list in the purged map and makes the session current |
| Csv.RoleLabel | src/pages/LeaderDashboard.tsx:90 | the label is "Leader" exactly for the leader role, "Member" otherwise |
| Csv.DoubleQuotesLength | src/pages/LeaderDashboard.tsx:92 | doubling the quotes lengthens a field by exactly its number of quotes |
| Csv.EscapeField | src/pages/LeaderDashboard.tsx:92 | an escaped field starts and ends with a double quote |
| Csv.QuotedBodyRoundTrip | src/pages/LeaderDashboard.tsx:92 | reading a doubled-quote body followed by its closing quote gives the field and the remainder back |
| Csv.FieldRoundTrip | src/pages/LeaderDashboard.tsx:92 | reading an escaped field, followed by anything but a quote, gives the field back |
| Csv.UnescapeEscape | src/pages/LeaderDashboard.tsx:92 | unescaping inverts escaping |
| Csv.EscapeInjective | src/pages/LeaderDashboard.tsx:92 | distinct fields escape differently |
| Csv.RecordRoundTrip | src/pages/LeaderDashboard.tsx:92 | a comma-joined record of escaped fields reads back as its fields, followed by the end of the text or by a line feed |
| Csv.CsvRoundTrip | src/pages/LeaderDashboard.tsx:91-93 | the text of any non-empty table of non-empty records reads back as that table |
| Csv.MembersCsvRoundTrip | src/pages/LeaderDashboard.tsx:89-93 | the download reads back as the header ["Name", "Role"] followed by one (name, role label) row per member, in list order |
| Csv.MembersCsvHeaderLine | src/pages/LeaderDashboard.tsx:89-93 | the text starts with the line `"Name","Role"`; a line feed follows it exactly when there are members; the text ends with a quote, never a line break |
| Csv.NoMembersCsv | src/pages/LeaderDashboard.tsx:89-93 | with no members the download is the header line alone |

## Left out

- Persistence in `localStorage`, JSON (de)serialisation and the `try`/`catch` fallbacks. The class fields stand for the stored value, and a missing or unreadable store is the empty store of the constructor. The fallback write in `saveSession` (src/lib/session.ts:123-131) is not modelled.
- `generateSessionId` and `generateMemberId` depend on `Math.random`, so the generated codes are parameters. Their uniqueness is not modelled.
- `getBaseUrl` reads `window.location`, so the origin is a parameter.
- `debugSessionInfo` (src/lib/session.ts:208 onwards) only logs; it is not part of this model.
- Session lookups use a map, whereas the source indexes a plain object (src/lib/session.ts:138). A session id equal to an inherited property name, such as `constructor`, `toString` or `__proto__`, finds that inherited value in the source. That value is not a session. The model finds nothing for such an id. Inherited object keys are not modelled.
- Time: `Date` values are integer milliseconds. Each operation takes one `now`, whereas the source reads the clock more than once within one call.
- The purge follows the code: a session that expires exactly at `now` survives it, because the code tests `expiresAt < now` (src/lib/session.ts:96). `getSession` therefore treats such a session as live.
- Text.Lower: models `toLowerCase` for ASCII and Latin-1 letters only. Other scripts, and special mappings such as the Turkish dotted I, are not covered.
- Strings are sequences of characters, not UTF-16 code units. Surrogate pairs are not modelled.
- MemberRegistry.Join: `addMember` updates the found member object in place and returns that same object. The model updates the list by value and returns an equal copy, so the aliasing between the returned member and the stored one is not captured.
- The check-out page `src/pages/MemberCheckOut.tsx`, the join page `src/pages/MemberJoin.tsx` and the home page `src/pages/HomePage.tsx` call the session functions; they are not part of this model. The join and home pages trim the names they pass in (src/pages/MemberJoin.tsx:55, src/pages/HomePage.tsx:38), but the model does not rely on that: `Join` and `BuildSession` accept untrimmed names, which can come only from callers other than these pages.
- The UI, polling, toasts, the backend client `src/lib/api.ts` and the CSV download itself (`Blob`, object URL, link click) are left out. Only the CSV text is modelled.
- Csv.MembersCsvRoundTrip: states the round trip through a reader defined in this model. It does not claim that an arbitrary RFC 4180 reader reads the text, since records end with `\n` rather than CRLF.
