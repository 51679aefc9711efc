# Library and events app: a verified model of its logic

The application is a small web app on a hosted database. It has:

- a book library with checkout and return;
- events that can be shared by e-mail invitation;
- two AI helper routes: one fills in an event from free text, one writes a summary and tags for a book.

Almost every operation is a database call. This project models the logic around those calls in Dafny and proves properties of it.

The database is the class `Store.Database`. It holds the four tables `books`, `borrows`, `events` and `event_invitations` as sequences of rows.

- Ids, e-mails and tokens are strings; timestamps are integers.
- What a database call returns (its error, the id and `created_at` the database assigns) is a parameter.
- A call that throws is a `Result`/`Outcome` value. A failing write leaves its table unchanged.

Code that changes state step by step is written as methods, each proved against a pure function of the old state:

- `checkoutBook`, `returnBook`, `createInvitation`, `updateInvitationStatus`, `updateEvent` and `deleteEvent`;
- the two `onSave` handlers and the AI-fill handler;
- the `useAuth` effect;
- the toast list's `show` and `remove`.

The queries (`fetchEvents`, `fetchBooks` and the lookups) are functions built from filter, find and sort helpers in `Query`. That module gives PostgREST's `order` as an insertion sort proved to be a sorted permutation. Lemmas relate the functions to each other and state what the pages and routes promise.

Modules, one per file:

- `Wrappers`: Option, Result, Outcome.
- `Text`: `trim` with the ECMAScript white-space set, ASCII `toLowerCase`, `includes` and a case-insensitive `includes`, `split` and `join`.
- `Query`: filter, find, update, sort, and the search-term rule.
- `Store`: the row types and the database.
- `Forms`: blank-to-null shaping and the outcome of a Save.
- `Json`: parsed JSON, thrown values, responses.
- One module for each source file:
  - `Borrows`, `Invitations`, `Events`, `Books`;
  - `NewBookPage`, `NewEventPage`, `BooksPage`;
  - `Auth` (`useAuth`), `Toast`;
  - `ExtractEventRoute`, `BookMetadataRoute`.

The books page checks a role with `toLowerCase`, but the add-book page compares it exactly. So a role "ADMIN" sees the books page's "Add book" button, which has no handler or link in the program, while the add-book page refuses that role and shows "You do not have permission". `BooksPage.UpperCaseAdmin` states this. The model keeps both behaviours as written.

## Model

| member | source | states |
|---|---|---|
| Borrows.FetchActiveBorrow | src/lib/borrows.ts:11-23 | a read error is thrown; otherwise the result is a borrow in the table that is open for the book, and it is null exactly when no borrow of the book is open |
| Borrows.SetBookStatus | src/lib/borrows.ts:34-37 | the rows with that id get the new status, every other row is unchanged, the length is kept |
| Borrows.CloseBorrow | src/lib/borrows.ts:43-46 | the borrow with that id gets `returned_at = now`, every other borrow is unchanged |
| Borrows.Checkout | src/lib/borrows.ts:25-39 | success exactly when both writes succeed; a failed insert changes nothing; after the insert one open borrow by the user is appended; a failed status update keeps the books unchanged; on success only that book turns borrowed, and `fetchActiveBorrow` then finds an open borrow |
| Borrows.Return | src/lib/borrows.ts:41-55 | success exactly when both writes succeed; a failed close changes nothing; the named borrow is stamped and the others are kept; a failed status update keeps the books unchanged; on success only that book turns available |
| Borrows.CheckoutBook | src/lib/borrows.ts:25-39 | the two tables and the outcome are what `Checkout` gives; events and invitations are untouched |
| Borrows.ReturnBook | src/lib/borrows.ts:41-55 | the two tables and the outcome are what `Return` gives; events and invitations are untouched |
| Borrows.CloseFreshBorrow | src/lib/borrows.ts:43-46 | closing a borrow whose id is unique stamps exactly that row |
| Borrows.StatusTwice | src/lib/borrows.ts:34-37 | setting a book's status twice is setting it once, to the second value |
| Borrows.CheckoutThenReturn | src/lib/borrows.ts:25-55 | checkout then return of that borrow succeeds, leaves the book available and the borrow closed |
| Borrows.ReturnLeavesNoOpenBorrow | src/lib/borrows.ts:17-18 | if the book had no open borrow before the checkout, `fetchActiveBorrow` finds none after the return |
| Invitations.RandomToken | src/lib/invitations.ts:13-15 | the token has no `-` and is drawn from the UUID's characters |
| Invitations.UuidTokenGroups | src/lib/invitations.ts:13-15 | the token of a UUID is its five hex groups concatenated |
| Invitations.UuidToken | src/lib/invitations.ts:13-15 | the token of a UUID is 32 hex digits |
| Invitations.NormalizeEmail | src/lib/invitations.ts:22 | the stored address is the trimmed input with each character lower-cased, so it has no capital letter and no surrounding white space |
| Invitations.NormalizeIgnoresOuterSpace | src/lib/invitations.ts:22 | addresses that differ only in outer white space are stored alike |
| Invitations.NormalizeIgnoresCase | src/lib/invitations.ts:22 | addresses that differ only in case are stored alike |
| Invitations.NormalizeIdempotent | src/lib/invitations.ts:22 | a stored address normalises to itself |
| Invitations.Existing | src/lib/invitations.ts:41-46 | the found row is in the table with that event and address; none is found exactly when no row has both |
| Invitations.Issue | src/lib/invitations.ts:17-66 | a fresh insert appends one pending row with the normalised address and the token and returns that token with `alreadyInvited` false; any insert error leaves the table unchanged; a non-duplicate error is rethrown; a duplicate with a failed lookup throws the lookup error; a duplicate returns the existing row's token and status as they are, and rethrows when no token is found; an `alreadyInvited` result always comes from a stored row for that event and address |
| Invitations.IssueTwice | src/lib/invitations.ts:17-66 | issuing to the same address twice, the second refused as a duplicate, returns the first token with `alreadyInvited`, still pending, and adds one row in all |
| Invitations.FetchInvitationsForEvent | src/lib/invitations.ts:68-81 | a read error is thrown; otherwise only that event's rows, newest `created_at` first, drawn from the table |
| Invitations.FetchInvitationsForEventComplete | src/lib/invitations.ts:68-81 | every row of the event is listed |
| Invitations.FetchInvitationByToken | src/lib/invitations.ts:83-96 | a read error is thrown; otherwise a row with that token, and null exactly when no row has it |
| Invitations.SetInvitationStatus | src/lib/invitations.ts:98-107 | the row with that id gets the status whatever it had before; the others are unchanged |
| Invitations.AnswerOverwrites | src/lib/invitations.ts:98-107 | a second answer overwrites the first, so no answer is final |
| Invitations.CreateInvitation | src/lib/invitations.ts:17-66 | the table and the result are what `Issue` gives; the other tables are untouched |
| Invitations.UpdateInvitationStatus | src/lib/invitations.ts:98-107 | an error is thrown and changes nothing; otherwise the table is `SetInvitationStatus` of the old one |
| Events.ViewerEmail | src/lib/events.ts:21 | "" when the user has no address; otherwise the address with each character lower-cased, so without capital letters |
| Events.InvitedIdsMember | src/lib/events.ts:27-35 | an id is invited exactly when an accepted invitation for the address names it |
| Events.FetchEvents | src/lib/events.ts:15-72 | no user id gives the empty list; either query's error is thrown; the list is ordered by ascending `start_time` and drawn from the events table |
| Events.FetchEventsMember | src/lib/events.ts:37-67 | an event is listed exactly when it is in the table, is owned by the user or named by an accepted invitation for the lower-cased address, matches the trimmed search on title or location ignoring case, and starts within the bounds |
| Events.UnacceptedInvitationIgnored | src/lib/events.ts:27-31 | a pending or declined invitation never changes the list |
| Events.FiltersOnlyNarrow | src/lib/events.ts:43-67 | search and date bounds only remove events from the unfiltered list |
| Events.BlankSearchIgnored | src/lib/events.ts:52-55 | a white-space-only search filters nothing |
| Events.FetchEventById | src/lib/events.ts:74-85 | a read error is thrown; otherwise an event with that id, and null exactly when none has it |
| Events.ApplyPatch | src/lib/events.ts:92-105 | each of the six fields takes the supplied value or keeps its own; `id`, `owner_id` and `created_at` never change |
| Events.EmptyPatch | src/lib/events.ts:92-105 | an empty patch changes nothing |
| Events.UpdateEvents | src/lib/events.ts:106 | the row with that id is patched, every other row is unchanged |
| Events.DeleteEvents | src/lib/events.ts:88 | no row with that id remains, and nothing is added |
| Events.DeleteKeepsOthers | src/lib/events.ts:88 | every event with another id remains |
| Events.UpdateEvent | src/lib/events.ts:92-108 | an error is thrown and changes nothing; otherwise the events table is `UpdateEvents` of the old one; the other tables are untouched |
| Events.DeleteEvent | src/lib/events.ts:87-90 | an error is thrown and changes nothing; otherwise the events table is `DeleteEvents` of the old one; invitations are untouched |
| Books.FetchBooks | src/lib/books.ts:14-29 | a read error is thrown; otherwise newest `created_at` first, drawn from the table, every book matching the search term |
| Books.NoSearchListsAll | src/lib/books.ts:20 | an absent or white-space-only search lists every book |
| Books.FetchBooksMember | src/lib/books.ts:20-23 | with a non-blank search a book is listed exactly when its title or author contains the trimmed term, ignoring case; `isbn`, `tags` and `summary` play no part |
| Books.SearchIgnoresCase | src/lib/books.ts:23 | lower-casing the search term does not change the list |
| Query.SearchTerm | src/lib/books.ts:20-21 | the term is present exactly when the search is given and not blank, and it is then the trimmed search, non-empty |
| Query.SortBy | src/lib/events.ts:49 | the result is sorted by the key and is a permutation of its input |
| Query.Filter | src/lib/events.ts:43-67 | only matching rows, and drawn from the table |
| Query.FilterMember | src/lib/events.ts:43-67 | a row is selected exactly when it is in the table and matches |
| Query.Find | src/lib/borrows.ts:19 | `maybeSingle`: a matching row in the table, and nothing exactly when no row matches |
| Query.Update | src/lib/events.ts:106 | matching rows are rewritten in place, the others kept |
| Forms.BlankToNull | src/app/library/books/new/page.tsx:38 | null exactly when the input is blank, otherwise its trimmed, non-empty value |
| NewBookPage.TrimEach | src/app/library/books/new/page.tsx:32 | each piece trimmed, one for one |
| NewBookPage.ParsedTagsAreTags | src/app/library/books/new/page.tsx:30-33 | every parsed tag is non-empty, has no outer white space and no comma, and is one of the trimmed pieces |
| NewBookPage.ParseJoinedTags | src/app/library/books/new/page.tsx:30-33 | well-formed tags joined by commas parse back to the same tags in order |
| NewBookPage.NoTags | src/app/library/books/new/page.tsx:30-33 | input made of commas and white space only, the empty string included, gives `[]` |
| NewBookPage.NewBookRow | src/app/library/books/new/page.tsx:35-41 | status available; title and author trimmed; ISBN null exactly when blank, else trimmed; tags as parsed; no summary |
| NewBookPage.SaveBookOutcomes | src/app/library/books/new/page.tsx:21-51 | without the exact role nothing happens; a blank title or author gives the alert and no row; a row is added exactly when the role, both fields and the insert are fine, and it is available and titled |
| NewBookPage.NewBookForm.constructor | src/app/library/books/new/page.tsx:15-19 | every field starts empty and `saving` false |
| NewBookPage.NewBookForm.OnSave | src/app/library/books/new/page.tsx:21-51 | the books table and the outcome are what `SaveBook` gives on the form's values; the form keeps its values; `saving` ends false after an insert attempt and is left alone by the early returns |
| NewEventPage.Prefix | src/app/events/new/page.tsx:105-106 | `slice(0, n)`: a prefix of length at most n |
| NewEventPage.NewEventRow | src/app/events/new/page.tsx:39-47 | owner is the user; title trimmed; location and description null exactly when blank, else trimmed; the chosen status and the parsed times |
| NewEventPage.SaveEventOutcomes | src/app/events/new/page.tsx:26-58 | without a user nothing happens; a row is written exactly when the title is not blank, both times are given and valid, the end is after the start and the insert succeeds; otherwise the table is unchanged |
| NewEventPage.SaveEventRow | src/app/events/new/page.tsx:39-47 | a successful save appends one row owned by the user, titled, ending after it starts |
| NewEventPage.EndNotAfterStartRejected | src/app/events/new/page.tsx:33-36 | an end not after the start is refused with its message and nothing is written |
| NewEventPage.AiFill | src/app/events/new/page.tsx:100-107 | on a 200 the five text fields take the draft's values, null becomes "", and the times are the first 16 characters of the draft's (`slice(0, 16)`); on a 400 or a failed request nothing changes; the status is never touched |
| NewEventPage.AiFillKeepsShortTimes | src/app/events/new/page.tsx:105-106 | times of 16 characters or fewer are copied unchanged |
| NewEventPage.NewEventPageState.constructor | src/app/events/new/page.tsx:16-24 | every text field empty, status upcoming, nothing saving or loading |
| NewEventPage.NewEventPageState.OnSave | src/app/events/new/page.tsx:26-58 | the events table and the outcome are what `SaveEvent` gives on the form's values; the form is kept; `saving` ends false after an insert attempt and is left alone by the early returns |
| NewEventPage.NewEventPageState.ExtractWithAi | src/app/events/new/page.tsx:88-113 | when the button is enabled the form becomes `AiFill` of the old form and loading ends false; when disabled nothing changes |
| BooksPage.CanAddBookIsCaseBlind | src/app/library/books/page.tsx:6-9 | the list page's check is the add page's exact check applied to the lower-cased role |
| BooksPage.CanManageShowsButton | src/app/library/books/page.tsx:6-9 | "admin" and "librarian" see the button |
| BooksPage.UpperCaseAdmin | src/app/library/books/page.tsx:9 | "ADMIN" passes the list page's check but not the add page's |
| BooksPage.MemberCannotAdd | src/app/library/books/page.tsx:6-9 | the default role "member" never sees the button |
| BooksPage.Render | src/app/library/books/page.tsx:13-56 | a spinner exactly while loading; otherwise the error text when there is a non-empty one; otherwise, an empty message included, the list, with the button exactly when `canAddBook` holds |
| BooksPage.NoRoleRowNoButton | src/app/library/books/page.tsx:14 | a user without a role row sees the list without the button |
| BooksPage.RoleErrorNoButton | src/app/library/books/page.tsx:27-33 | a failed role lookup shows its message, or the list without the button when the message is empty; never the button |
| Auth.Initial | src/lib/useAuth.ts:23-26 | no user, role "member", loading, no error |
| Auth.ResolveRole | src/lib/useAuth.ts:65-69 | the row's role when it is a non-empty string, otherwise "member" |
| Auth.Effect | src/lib/useAuth.ts:28-77 | a session error sets the error and ends loading; no session user ends loading only; a session user is recorded, then the role is resolved, a role error is recorded with role "member", and loading ends; a cancellation stops all later updates |
| Auth.EffectSettles | src/lib/useAuth.ts:41-71 | every run that is not cancelled ends with loading false |
| Auth.CancelledEffectFreezes | src/lib/useAuth.ts:37-60 | after unmounting, role, loading and error are never changed |
| Auth.EffectFromInitial | src/lib/useAuth.ts:28-77 | from the initial state: a user exactly when there was a session user, an error exactly when a call failed, and a role other than "member" only when a role row named it |
| Auth.AuthHook.constructor | src/lib/useAuth.ts:23-26 | the hook starts in the initial state |
| Auth.AuthHook.RunEffect | src/lib/useAuth.ts:31-72 | the hook's state after the effect is `Effect` of its state before |
| Toast.RemoveId | src/components/Toast.tsx:39 | no item with that id remains, and nothing is added |
| Toast.RemoveKeepsOthers | src/components/Toast.tsx:39 | an item survives exactly when it was there and has another id |
| Toast.RemoveAbsent | src/components/Toast.tsx:39 | removing an id no item carries changes nothing |
| Toast.RemoveIdempotent | src/components/Toast.tsx:39 | removing twice is removing once |
| Toast.RemoveBetween | src/components/Toast.tsx:39 | an item with a unique id is taken out alone, the rest kept in order |
| Toast.RemoveOne | src/components/Toast.tsx:38-40 | with increasing ids, removing item k's id deletes exactly item k |
| Toast.RemoveKeepsIncreasing | src/components/Toast.tsx:39 | removal keeps ids increasing |
| Toast.DismissAfterShow | src/components/Toast.tsx:31-35 | the auto-dismiss of a just-shown toast restores the list as it was before the show |
| Toast.ToastProvider.constructor | src/components/Toast.tsx:25-28 | an empty list, and the counter as given |
| Toast.ToastProvider.Show | src/components/Toast.tsx:30-36 | appends exactly one item at the end, with the post-incremented counter as its id, type "success" by default; ids stay increasing and below the counter |
| Toast.ToastProvider.Remove | src/components/Toast.tsx:38-40 | the list becomes `RemoveId` of the old list; the counter and the ordering invariant are kept |
| Json.ErrorMessage | src/app/api/ai/extract-event/route.ts:54-55 | an `Error`'s own message, or the fallback for a thrown non-`Error`; schema and parser errors carry their library's message |
| Json.ContentJson | src/app/api/ai/extract-event/route.ts:49-50 | missing content stands for `{}`; parsing fails exactly when the content is not JSON |
| ExtractEventRoute.ParseBody | src/app/api/ai/extract-event/route.ts:5-7 | accepted exactly when `text` is a string of at least five characters |
| ExtractEventRoute.EncodeDraft | src/app/api/ai/extract-event/route.ts:9-15 | the response object has exactly the five schema keys |
| ExtractEventRoute.ParseDraft | src/app/api/ai/extract-event/route.ts:9-15 | accepted exactly when title, start and end are strings and location and description are strings or null |
| ExtractEventRoute.ParseEncodeDraft | src/app/api/ai/extract-event/route.ts:9-15 | every draft the route can send validates back to itself |
| ExtractEventRoute.ParseDraftAgrees | src/app/api/ai/extract-event/route.ts:50 | a validated draft keeps the model's value under each of the five keys |
| ExtractEventRoute.Post | src/app/api/ai/extract-event/route.ts:17-58 | 200 exactly when the body and the model's JSON both validate, with the validated draft; a bad body, missing content or an unparsable reply gives a 400 with only an error, "Extraction failed" for a thrown non-`Error` |
| BookMetadataRoute.ParseBody | src/app/api/ai/book-metadata/route.ts:5-8 | accepted exactly when title and author are non-empty strings |
| BookMetadataRoute.Strings | src/app/api/ai/book-metadata/route.ts:12 | `z.array(z.string())`: present exactly when every item is a string, and then those strings |
| BookMetadataRoute.EncodeMetadata | src/app/api/ai/book-metadata/route.ts:10-13 | the response object has exactly the keys summary and tags |
| BookMetadataRoute.ParseMetadata | src/app/api/ai/book-metadata/route.ts:10-13 | accepted exactly when `summary` is a string, `tags` an array of strings, and these form valid metadata (a non-empty summary, at least one tag, each non-empty), whatever other keys the object has; an accepted value agrees with the object |
| BookMetadataRoute.ParseEncodeMetadata | src/app/api/ai/book-metadata/route.ts:10-13 | exactly the valid metadata survives the schema, unchanged |
| BookMetadataRoute.OneTagAccepted | src/app/api/ai/book-metadata/route.ts:12 | one tag is enough: the prompt's five to eight tags are not enforced |
| BookMetadataRoute.Post | src/app/api/ai/book-metadata/route.ts:15-52 | 200 exactly when the body and the model's JSON both validate, with valid metadata; every failure is a 400 with only an error, "Failed to generate metadata" for a thrown non-`Error` |
| Text.TrimShape | src/app/library/books/new/page.tsx:23 | `trim` drops only white space, from both ends, and the result neither starts nor ends with it |
| Text.BlankIffAllSpace | src/app/library/books/new/page.tsx:23 | a string is blank exactly when it is all white space |
| Text.TrimIdempotent | src/app/library/books/new/page.tsx:32 | trimming twice is trimming once |
| Text.TrimIgnoresOuterSpace | src/lib/invitations.ts:22 | outer white space never changes the trimmed value |
| Text.ToLower | src/lib/invitations.ts:22 | same length, each character lower-cased |
| Text.TrimToLower | src/lib/invitations.ts:22 | lower-casing commutes with trimming |
| Text.ContainsAt | src/lib/books.ts:23 | `includes` holds exactly when the needle occurs at some position |
| Text.IgnoreCaseIsCaseBlind | src/lib/events.ts:54 | changing the case of either side does not change a case-insensitive match |
| Text.Split | src/app/library/books/new/page.tsx:31 | at least one piece, no piece contains the separator, and every character comes from the input |
| Text.JoinSplit | src/app/library/books/new/page.tsx:31 | joining the pieces of a split gives the input back |
| Text.SplitJoin | src/app/library/books/new/page.tsx:31 | splitting the join of separator-free pieces gives the pieces back |

## Left out

- The database client is replaced by the in-memory tables: the query builder, PostgREST filter strings, the `or(...)` string built from invited ids, and row-level security.
- Query.Find: `maybeSingle` is modelled as the first matching row. The error it raises when several rows match is not modelled.
- Events.MatchesSearch, Books.MatchesBookSearch: `ilike` is plain case-insensitive substring matching. The wildcards `%` and `_` inside a search term are matched literally here, unlike the database.
- Text.ToLower: lower-cases only ASCII letters. Full Unicode case mapping is not modelled. UTF-16 lengths are taken as character counts.
- Database defaults and constraints are not modelled: generated ids, `created_at`, `borrowed_at`, the (event, e-mail) uniqueness constraint. The assigned values are parameters, and a duplicate error is an input.
- `crypto.randomUUID` is a parameter; `Invitations.UuidToken` assumes it has the UUID format.
- Dates are integers. The new event page takes `new Date(...)` as a parameter `parse`, with `None` for an invalid date. The comparison with an invalid date is false, so it passes the order check. The ISO conversion then throws before the insert, which is the `InvalidTime` outcome. ISO formatting itself is not modelled.
- `returnBook` takes the current time as a parameter.
- Events.EventFilter: the date bounds of `fetchEvents` are integers. A non-empty date string that `new Date(...).toISOString()` rejects, which makes the call throw, is not modelled.
- OpenAI calls and prompt text are not modelled; the model's reply is an input.
- `JSON.parse` and `req.json()` are not modelled; their result is an input, either parsed JSON or a parse failure.
- The wording of zod and `SyntaxError` messages is left to those libraries. A 400 carries `LibraryMessage` for them, not a text.
- Timers are not modelled. The four-second auto-dismiss is `Remove` of the id `Show` returned.
- React state scheduling and re-renders are not modelled. The input setters are the single method `SetForm`.
- Rendering, router redirects (`router.push`, and `router.replace("/login")` in `useAuth`), `alert` texts of thrown errors, and `fetch` are not modelled. Only the alert for a rejected form is kept, as the `Rejected` message.
- Toast.ToastProvider: the `nextId` counter is global to the module in the program and shared by every provider. Here each provider holds a copy whose start value its constructor takes.
- Auth.CancelledEffectFreezes: a cancellation while the role lookup runs is meaningful only after a session user started that lookup. The lemma requires that case.
- The loading guards of the two create pages (`if (loading) return ...`) and the "no permission" view are not modelled.
- Events.DeleteEvent: the event's invitations are left as they are. This matches the code, which deletes only from `events`.
- Rules the code does not contain are not added: no self-invite check, no one-shot answers, no availability check in `checkoutBook`, no atomicity of the two writes.
- Concurrency between clients, such as two checkouts at once, is not modelled.
