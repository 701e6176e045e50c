# Doc-Space backend services in Dafny

Doc-Space is a collaborative document backend with two implementations. A NestJS/Prisma server
handles documents, real-time editing over socket.io, sharing, user connections and folders. A .NET
server with Entity Framework handles documents with JSON content, document templates and
password-based accounts. This project models the service layer of both servers: the business rules
that sit between the controllers and the database.

Each database table becomes a `map<Id, Row>` together with the next identity value. Ids start at 0
on the Prisma side and at 1 on the .NET side. Each service is a `class` whose methods update its
table, and its queries are functions over the table. The `Valid()` invariant of each class says:

- every key is below the next id;
- every row is stored under its own id;
- for shared documents, the schema's compound key `documentId_userId` holds: one grant per
  (document, user) pair;
- for accounts, no two users share an email or a username (`UniqueCredentials`). No database
  constraint enforces this: it is the invariant `RegisterAsync` maintains through its lookup before
  inserting, and `Login` and `GetUserById` require it.

The modules:

- `Common`: ids, `Option`, `Result` and the service errors (NotFound, Forbidden, BadRequest,
  Conflict, InvalidOperation, a database failure, a JavaScript TypeError).
- `Text`: JavaScript `trim`, .NET `IsNullOrWhiteSpace`, substring search, ASCII case folding,
  ordinal string order and decimal rendering of ids.
- `Sorting`, `Tables`, `Pagination`: insertion sort by a total preorder; `findMany` / `count` /
  `deleteMany` over a table in key order; `skip`/`take` windows and `Math.ceil(total / limit)`.
- `DocumentsService`: the NestJS document service (`src/documents/documents.service.ts`).
- `DocumentsGateway`: the socket.io gateway (`src/documents/documents.gateway.ts`). Emitted
  messages go to an event log that records who receives each one.
- `SharedDocumentsService`: sharing, revocation and the notification mail
  (`src/shared-documents/shared-documents.service.ts`).
- `ConnectionsService`: connection requests between users (`src/connections/connections.service.ts`).
- `FolderService`: folders (`src/folder/folder.service.ts`).
- `BackendDocumentService`, `BackendTemplateService`, `BackendAuthService`: the .NET services
  (`Services/DocumentService.cs`, `Services/DocumentTemplateService.cs`, `Services/AuthService.cs`).

Timestamps are a `now: nat` argument. The password hash and its check are functions the auth service
is built with, and the random salt is an argument. Whether the mailer throws is a boolean argument.

## Model

| member | source | states |
|---|---|---|
| Text.TrimEmptyIffBlank | src/documents/documents.service.ts:18 | `title.trim() === ''` holds exactly when every character of the title is JavaScript whitespace |
| Text.DecimalRoundTrip | src/shared-documents/shared-documents.service.ts:66 | the decimal rendering of an id in the share link reads back as the same id |
| Text.OrdinalTotal | Services/DocumentTemplateService.cs:16-18 | any two names are comparable in ordinal order |
| Text.OrdinalTransitive | Services/DocumentTemplateService.cs:16-18 | ordinal name order is transitive |
| Sorting.SortBy | src/documents/documents.service.ts:51 | the ordered result is sorted by the order and is a permutation of its input |
| Tables.QueryExact | src/documents/documents.service.ts:48-56 | `findMany` with a `where` and an `orderBy` returns each matching row exactly once, nothing else, and as many rows as `count` reports |
| Tables.DeleteWhereCount | src/documents/documents.service.ts:105-110 | the rows `deleteMany` keeps and the rows it reports as deleted add up to the whole table |
| Pagination.TotalPages | src/documents/documents.service.ts:62 | `totalPages` is the least number of pages of `limit` rows that holds all `total` rows |
| Pagination.Paginate | src/documents/documents.service.ts:32-53 | a page is the window of at most `limit` rows starting at `(page - 1) * limit` |
| Pagination.PageNonEmptyIff | src/documents/documents.service.ts:58-63 | a page holds rows exactly when its number is at most `totalPages` |
| Pagination.PagesCoverAll | src/documents/documents.service.ts:58-63 | pages 1 to `totalPages`, concatenated, are the whole ordered listing |
| Pagination.PageKeepsOrder | src/folder/folder.service.ts:74-80 | a page of an ordered listing keeps its order and holds only listed rows |
| DocumentsService.FindOne | src/documents/documents.service.ts:66-82 | NotFound exactly when the id is absent, Forbidden exactly when another user owns it, and the stored row exactly when the caller owns it |
| DocumentsService.Listing | src/documents/documents.service.ts:48-54 | the documents `findAll` pages through are newest first |
| DocumentsService.ListingExact | src/documents/documents.service.ts:34-46 | the listing holds every document of the caller that matches title search and status, once each, and nothing else |
| DocumentsService.FindAll | src/documents/documents.service.ts:30-64 | page and defaults 1 and 10 as given; `total` counts all matches; `totalPages` is the ceiling of total over limit; the data is at most `limit` matching documents, newest first, cut from the listing at the page's offset |
| DocumentsService.FindAllPagesCover | src/documents/documents.service.ts:30-64 | reading pages 1 to `totalPages` returns every matching document once |
| DocumentsService.ListingKeepsTrashed | src/documents/documents.service.ts:34-46 | `findAll` has no `inTrash` condition: a trashed document that matches is listed |
| DocumentsService.GetTrashed | src/documents/documents.service.ts:135-143 | exactly the caller's trashed documents, most recently updated first, each once |
| DocumentsService.DocumentService.Create | src/documents/documents.service.ts:17-28 | a blank title is BadRequest with nothing stored; otherwise a new DRAFT, untrashed row under a fresh id, all other rows unchanged |
| DocumentsService.DocumentService.Update | src/documents/documents.service.ts:84-95 | the `findOne` error when the caller may not see it; BadRequest for a present blank title; otherwise only the supplied fields of that row change |
| DocumentsService.DocumentService.Remove | src/documents/documents.service.ts:97-102 | the `findOne` error, or that one row removed and returned |
| DocumentsService.DocumentService.RemoveAll | src/documents/documents.service.ts:104-112 | every row of the caller goes, trashed or not; other rows stay as they were; the count is the number deleted |
| DocumentsService.DocumentService.MoveToTrash | src/documents/documents.service.ts:114-120 | the `findOne` error, or the flag set on that row alone |
| DocumentsService.DocumentService.RestoreFromTrash | src/documents/documents.service.ts:122-133 | the `findOne` error; BadRequest with nothing changed for a row not in trash; otherwise the flag cleared on that row alone |
| DocumentsService.DocumentService.EmptyTrash | src/documents/documents.service.ts:145-156 | exactly the caller's trashed rows are deleted, and the count is their number |
| DocumentsService.DocumentService.ChangeStatus | src/documents/documents.service.ts:158-165 | the `findOne` error, or the new status on that row alone |
| DocumentsService.LifecycleScenario | src/documents/tests/documents.service.spec.ts:57-284 | a blank title is refused; the owner fetches a new DRAFT and another user is Forbidden; trash then restore clears the flag; a second restore is BadRequest; an empty trash deletes nothing |
| DocumentsGateway.WithoutSocket | src/documents/documents.gateway.ts:34-41 | after a disconnect no room holds the socket, every other member stays, and no room is dropped |
| DocumentsGateway.LeftEventsExact | src/documents/documents.gateway.ts:34-41 | a disconnect emits one `userLeft` per room that held the socket, to its remaining members, and nothing else |
| DocumentsGateway.LeftEventsSound | src/documents/documents.gateway.ts:34-41 | every event a disconnect emits is a `userLeft` for a room that held the socket, sent to that room's remaining members |
| DocumentsGateway.LeftEventsComplete | src/documents/documents.gateway.ts:34-41 | every room that held the socket gets its `userLeft` |
| DocumentsGateway.LeftEventsCount | src/documents/documents.gateway.ts:34-41 | when each room is visited once, there are exactly as many events as rooms that held the socket |
| DocumentsGateway.LeftFirstStep | src/documents/documents.gateway.ts:35-37 | visiting one more room removes the socket from that room alone, and changes nothing when the room did not hold it |
| DocumentsGateway.LeftFirstAll | src/documents/documents.gateway.ts:34-41 | once every room has been visited, the room map is the map with the socket removed everywhere |
| DocumentsGateway.LeaveStep | src/documents/documents.gateway.ts:35-40 | one iteration, on the rooms as updated so far, removes the socket from the visited room and adds its `userLeft` exactly when that room held the socket |
| DocumentsGateway.LeaveRoom | src/documents/documents.gateway.ts:35-40 | the body of the loop: a room holding the socket loses it and a `userLeft` to its remaining members is appended; a room without it is left alone and nothing is emitted |
| DocumentsGateway.LeaveRooms | src/documents/documents.gateway.ts:34-41 | the loop over the room map ends with the socket removed from every room and the `userLeft` events emitted in the map's order |
| DocumentsGateway.DocumentGateway.HandleDisconnect | src/documents/documents.gateway.ts:32-42 | a disconnect leaves no room holding the socket, every other member in place, no room dropped, and the `userLeft` events of every room that held the socket appended in the map's order |
| DocumentsGateway.DocumentGateway.OnJoinDocument | src/documents/documents.gateway.ts:44-66 | a caller `findOne` refuses gets only the `error` event; otherwise the socket joins the room, creating it on first use, and receives `joinedDocument`; then the whole room gets `userJoined` |
| DocumentsGateway.DocumentGateway.OnEditDocument | src/documents/documents.gateway.ts:68-91 | a refused caller gets only `error`; otherwise the content is saved through `update` and `documentUpdated` goes to the room's other members |
| DocumentsGateway.TwoSessions | src/documents/documents.gateway.ts:44-66 | two sessions of the owner both end up in the document's room |
| DocumentsGateway.EditScenario | src/documents/documents.gateway.ts:68-91 | an edit is saved and reaches only the other session; a non-owner joining is refused |
| DocumentsGateway.DisconnectScenario | src/documents/documents.gateway.ts:32-42 | the remaining session is told who left, and the room keeps only that session |
| SharedDocumentsService.DocumentLink | src/shared-documents/shared-documents.service.ts:66 | the link starts with the documents URL and ends in the document's id |
| SharedDocumentsService.FindPair | src/shared-documents/shared-documents.service.ts:34-41 | the lookup by the compound key finds a grant exactly when the pair is shared |
| SharedDocumentsService.GetSharedDocumentsByUser | src/shared-documents/shared-documents.service.ts:76-83 | every grant the user holds, each once, and no other |
| SharedDocumentsService.SharedDocumentService.ShareDocument | src/shared-documents/shared-documents.service.ts:18-74 | missing document or user is NotFound and a shared pair a Conflict, nothing stored; otherwise one new grant; the recipient is mailed the title and link when the owner exists; a mailer failure reports BadRequest while the grant stays |
| SharedDocumentsService.SharedDocumentService.RevokeAccess | src/shared-documents/shared-documents.service.ts:85-98 | NotFound when the pair is not shared; otherwise its grant is removed and returned, and the pair is no longer shared |
| SharedDocumentsService.ShareRevokeScenario | src/shared-documents/tests/shared-documents.service.spec.ts:68-119 | a second share of a pair is a Conflict; revoking twice is NotFound the second time; the pair can then be shared again; one mail per share |
| ConnectionsService.Listing | src/connections/connections.service.ts:38-40 | the connections a user is part of are newest first |
| ConnectionsService.ListingExact | src/connections/connections.service.ts:26-29 | the listing holds every connection on either side of the user, with the status when given, once each, and nothing else |
| ConnectionsService.FindUserConnections | src/connections/connections.service.ts:20-52 | page, limit and total as reported; `totalPages` is the ceiling; at most `limit` matching connections, newest first, cut at the page's offset |
| ConnectionsService.ListedForBothSides | src/connections/connections.service.ts:27 | a connection is listed for its requester and for its receiver |
| ConnectionsService.ConnectionService.Create | src/connections/connections.service.ts:11-18 | a new PENDING connection under a fresh id, other rows unchanged |
| ConnectionsService.ConnectionService.UpdateStatus | src/connections/connections.service.ts:54-69 | NotFound with nothing changed, or only the status of that row changes |
| ConnectionsService.AcceptScenario | src/connections/tests/connections.service.spec.ts:48-63 | a request starts PENDING; once accepted, both sides list it among their ACCEPTED connections; a missing id is NotFound |
| FolderService.NewFolderAsWritten | src/folder/folder.service.ts:9-19 | without a document list, creation raises a TypeError; with one, it behaves as intended |
| FolderService.NewFolder | src/folder/folder.service.ts:9-19 | the folder holds its name, owner and exactly the listed documents; creation fails exactly when a listed document does not exist |
| FolderService.CreateWithoutDocumentsDiffers | src/folder/folder.controller.ts:38-40 | for a body without a document list the written code fails while the intended one stores an empty folder |
| FolderService.GetFolderById | src/folder/folder.service.ts:21-35 | the stored folder exactly when it exists, NotFound otherwise |
| FolderService.Listing | src/folder/folder.service.ts:74-80 | the owner's folders are newest first |
| FolderService.ListingExact | src/folder/folder.service.ts:62-72 | the listing holds every folder of the owner whose name contains the search regardless of case, once each, and nothing else |
| FolderService.FindFolders | src/folder/folder.service.ts:54-91 | page, limit and total as reported; `totalPages` is the ceiling; at most `limit` matching folders, newest first, cut at the page's offset |
| FolderService.SearchIgnoresCase | src/folder/folder.service.ts:66-69 | a folder found with a term is found with the same term in any letter case |
| FolderService.FolderService.CreateFolder | src/folder/folder.service.ts:9-19 | stores the intended new folder under a fresh id, or nothing when a listed document is missing |
| FolderService.FolderService.UpdateFolder | src/folder/folder.service.ts:37-44 | NotFound with nothing changed, or only the name of that folder changes, when one is given |
| FolderService.FolderService.DeleteFolder | src/folder/folder.service.ts:46-52 | NotFound with nothing changed, or that folder alone removed and returned |
| FolderService.FolderScenario | src/folder/folder.service.ts:9-52 | a created folder holds its documents and keeps them when renamed; a missing document blocks creation; a deleted folder is NotFound |
| BackendDocumentService.GetByIdAsync | Services/DocumentService.cs:30-33 | the stored document exactly when it exists, otherwise null |
| BackendDocumentService.Updated | Services/DocumentService.cs:36-55 | the title changes only to one that is not null or whitespace; the content becomes the supplied text, images and videos when given; `UpdatedAt` is stamped; id, owner and creation time stay |
| BackendDocumentService.Listing | Services/DocumentService.cs:83-84 | the selected documents are most recently updated first |
| BackendDocumentService.ListingExact | Services/DocumentService.cs:73-81 | the listing holds every document of the owner whose title or content text contains the search, once each, and nothing else |
| BackendDocumentService.GetAllAsync | Services/DocumentService.cs:69-88 | at most `PageSize` matching documents, most recently updated first, cut from the listing at `(Page - 1) * PageSize` |
| BackendDocumentService.GetAllAsyncAsWritten | Services/DocumentService.cs:76-81 | a search that is not blank raises InvalidOperationException; without one, the intended page |
| BackendDocumentService.ContentSearchFinding | Services/DocumentService.cs:78-80 | a document found only by its content text is in the intended result, while the written query fails |
| BackendDocumentService.BlockContentSearchesTitle | Models/Document.cs:18 | a document still holding its creation blocks is found by a search only through its title |
| BackendDocumentService.DocumentService.CreateAsync | Services/DocumentService.cs:15-27 | a new document with the given block content under a fresh id, other rows unchanged |
| BackendDocumentService.DocumentService.UpdateAsync | Services/DocumentService.cs:36-55 | null with nothing changed for a missing id; otherwise that row becomes the updated document |
| BackendDocumentService.DocumentService.DeleteAsync | Services/DocumentService.cs:58-66 | true exactly when the document existed; afterwards it is gone and nothing else changed |
| BackendDocumentService.UpdateScenario | Services/DocumentService.cs:36-66 | a whitespace title leaves the title while the new content is stored; a second delete reports false |
| BackendTemplateService.NameOrderTotal | Services/DocumentTemplateService.cs:16-18 | any two templates can be placed in name order |
| BackendTemplateService.GetAllAsync | Services/DocumentTemplateService.cs:14-19 | every stored template once, and nothing else, in ordinal name order |
| BackendTemplateService.HeadHasLeastName | Services/DocumentTemplateService.cs:16-18 | in a name-ordered list the first name is the least |
| BackendTemplateService.FirstListedHasLeastName | Services/DocumentTemplateService.cs:14-19 | the first template listed has the least name of all stored templates |
| BackendTemplateService.GetByIdAsync | Services/DocumentTemplateService.cs:21-24 | the stored template exactly when it exists, otherwise null |
| BackendTemplateService.DocumentTemplateService.CreateAsync | Services/DocumentTemplateService.cs:26-38 | a new template with the given name, description and content under a fresh id, other rows unchanged |
| BackendTemplateService.DocumentTemplateService.DeleteAsync | Services/DocumentTemplateService.cs:40-48 | true exactly when the template existed; afterwards it is gone and nothing else changed |
| BackendTemplateService.TwoInNameOrder | Services/DocumentTemplateService.cs:16-18 | of two distinct templates, the one whose name does not follow the other's is listed first |
| BackendTemplateService.ListingScenario | Services/DocumentTemplateService.cs:14-48 | templates created out of order are listed in name order; a deleted one is gone |
| BackendAuthService.Login | Services/AuthService.cs:39-49 | a user is returned only when it is the stored user with that email and the password verifies; null exactly when no user with that email verifies |
| BackendAuthService.GetUserById | Services/AuthService.cs:51-54 | the stored user exactly when the id exists, otherwise null |
| BackendAuthService.LoginFindsOwner | Services/AuthService.cs:39-49 | whoever knows a stored user's password logs in as that user |
| BackendAuthService.AddKeepsCredentialsUnique | Services/AuthService.cs:18-23 | adding a user whose email and username nobody holds keeps both unique |
| BackendAuthService.AuthService.RegisterAsync | Services/AuthService.cs:16-37 | a taken email or username is InvalidOperation with nothing stored; otherwise the user is stored with the salted hash of the password, and credentials stay unique |
| BackendAuthService.RegisterLoginScenario | Services/AuthService.cs:16-49 | a registered user logs in with the right password and not a wrong one; the same email or the same username cannot register twice |

## Left out

- I/O: mail transport (`MailService` is a mail appended to an outbox), socket.io transport, room
  joins and leaves (a room's members are the room map's set), and console logging. `handleConnection`
  only logs, so it is not modelled.
- Relation loading (`include: { document }`, `{ requester, receiver }`, `{ documents, user }`) is not
  modelled. Rows are returned without their related rows.
- The message strings of `removeAll` and `emptyTrash` are reduced to the count they report. Exception
  messages are reduced to the error kind.
- `Math.ceil(total / limit)` is computed on integers as the ceiling, not in floating point.
- Case-insensitive search folds ASCII letters only. The database's collation is not modelled.
- Rows that tie on `createdAt`, `updatedAt` or `Name` come out in key order. The database leaves
  their order unspecified.
- Ids are natural numbers handed out by a counter. The Prisma side uses string ids generated by the
  database. `SharedDocumentsService.DocumentLink` therefore renders the id in decimal.
- Concurrency is not modelled. Each operation is atomic, so the race between the uniqueness lookup and
  the insert in `shareDocument` and `RegisterAsync` is not modelled. Neither is the database
  rejecting an insert, nor Prisma's `$transaction` / `Promise.all` pairing of `findMany` with `count`.
- The Prisma schema is not part of this model. `updatedAt` is assumed to be an `@updatedAt` column,
  stamped by every update. The `DocumentStatus` values are DRAFT, PUBLISHED and IN_TRASH. New
  documents default to DRAFT and not in trash, and new connections to PENDING.
- `src/documents/dto/update-document.dto.ts` is not part of this model. An update patch carries an
  optional title and an optional content.
- `Models/User.cs` is not part of this model. A user is its id, username, email and password hash.
- `BackendDocumentService.DocumentService.UpdateAsync` follows the service, which reads `Text`,
  `Images` and `Videos` of the update's content. `Dtos/Documents/DocumentContentDto.cs` declares only
  `Blocks`.
- Request validation in controllers and DTOs is not modelled: `[Required]`, `MaxLength`,
  `IsNotEmpty`, `IsEnum`. An exception is `@Min(1)` on the document query, which
  `DocumentsService.FindAll` requires.
- `ConnectionsService.FindUserConnections` requires page and limit of at least 1. The controller
  passes `Number(page)` and `Number(limit)` unvalidated, and a zero limit makes `Math.ceil(total / limit)` `Infinity` pages when there are matches, and
  `NaN` when there are none.
- `FolderService.FindFolders` requires page and limit of at least 1. The controller parses them with
  `ParseIntPipe` and has no lower bound.
- `BackendDocumentService.GetAllAsync` requires `Page` and `PageSize` of at least 1. Smaller values
  give a negative `Skip` or an empty `Take`, which depend on the database provider. The 32-bit overflow
  of `(Page - 1) * PageSize` is not modelled.
- `SharedDocumentsService.SharedDocumentService.ShareDocument` does not check that the caller owns
  the document, because the service has no such check. `ConnectionsService.ConnectionService.UpdateStatus`
  does not check who changes the status, for the same reason.
- BCrypt is a pair of functions the auth service is built with, and the random salt is an argument.
  Its cost factor and its format are not modelled.
- `SharedDocumentsService.SharedMail` keeps the recipient's and sender's names as optional. The
  source's non-null assertions (`user.name!`) have no effect at run time.

## Findings

| source | as written | input that shows it | evidently intended | confidence | as-written member | corrected member |
|---|---|---|---|---|---|---|
| src/folder/folder.service.ts:15 | `createData.documents.map(...)` runs unconditionally, but `CreateFolderDto` declares only `name`, and the controller's `ValidationPipe({ whitelist: true })` strips any other field | a POST body `{ "name": "Reports", "documents": [] }`: the list is stripped, so `.map` is called on `undefined` and raises a TypeError | an absent list creates a folder with no documents (the same whitelist also strips `ownerId`, so the correction is at the service level, with the owner passed in as the service's callers pass it) | not executed | FolderService.NewFolderAsWritten, FolderService.CreateWithoutDocumentsDiffers | FolderService.NewFolder, used by FolderService.FolderService.CreateFolder |
| Services/DocumentService.cs:78-80 | the `Where` filter calls `d.GetContent()`, a C# method that Entity Framework cannot translate to SQL | any query whose `Search` is not blank, e.g. `Search = "plan"`: the query throws InvalidOperationException instead of returning matches | documents whose title or content text contains the term | not executed | BackendDocumentService.GetAllAsyncAsWritten, BackendDocumentService.ContentSearchFinding | BackendDocumentService.GetAllAsync |
