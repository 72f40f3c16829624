# StoreIt server actions, modelled in Dafny

StoreIt is a file storage and sharing web application on top of a
backend-as-a-service (document database, object storage, accounts). Its
server actions are the only logic worth verifying:

- **Listing queries** (`createQueries`, `getFiles`). They build the filter list sent to the files collection.
- **Storage accounting** (`getTotalSpaceUsed`, `fetchFileSizes`). These fold over file documents to get per-category byte totals and latest dates.
- **Ownership-gated mutations** (`uploadFile`, `renameFile`, `updateFileUsers`, `deleteFile`). These change the files collection and the storage bucket.
- **The user directory** (`getUserByEmail`, `sendEmailOtp`, `createAccount`, `verifySecret`). It covers lookup, one-time-code issuance, account creation and the session cookie.

The backend is abstract state: the class `Store.Backend` holds
- the files collection as a sequence in listing order,
- the bucket as a set of blob keys,
- the users collection as a sequence,
- one cookie slot for `appwrite-session`.

Its invariant `Valid()` says that document identifiers are unique.

The current user is an optional input (`Option<UserDoc>`). Answers that only the backend can give are parameters:
- fresh identifiers and the clock,
- whether storage or the database accepts an upload,
- the token and session replies of the account service,
- the result of a listing.

In `lib/actions/file.actions.tsx`, `handleError` is `async` and is never
awaited. Its rethrow never reaches the caller. Each action therefore ends
in a value, modelled by `Common.Reply`:
- `renameFile` returns `null` (`Null`);
- `updateFileUsers`, `deleteFile` and `getFiles` return `undefined` (`Undefined`);
- `uploadFile` returns `parseStringify(undefined)` after a failed document insert (`StringifiedNothing`);
- `uploadFile` returns `undefined` after a failed blob upload (`UploadUndefined`).

In `lib/actions/user.actions.ts`, `handleError` is synchronous. Its errors
propagate, modelled by `Common.Result`.

Modules, one per component:
- `Common`: `Option`, `Reply`, `Result`.
- `Documents`: file and user documents, the cookie, `HasSession` (the rule of `createSessionClient`).
- `Store`: the backend class.
- `Queries`: `createQueries`, `getFiles`, JavaScript `split`.
- `Accounting`: `getTotalSpaceUsed`, `fetchFileSizes`.
- `FileActions`: the four mutations.
- `UserActions`: the user directory.

Behaviour worth noting in the code:
- The session cookie has no max-age, so it is a browser-session cookie, not a long-lived one. It is named `appwrite-session`.
- A rejected rename, share or delete does not raise a "not owner" error. It returns `null` or `undefined`.
- The ownership check compares the signed-in account with the caller-supplied `accountId`. It never looks at the stored document. The example method `FileActions.ForeignRenameScenario` (a worked case, not a model of a source function; it has no row below) shows what follows: a user who is not the owner is refused when they pass the file's `accountId`, and let through when they pass their own.
- `createAccount` stores `{fullName, email, avatar: '', accountId}`. There is no usage counter.
- The document insert in `uploadFile` does not propagate its error. The action returns `parseStringify(undefined)`.
- `fetchFileSizes` sums the `files` relationship of the user document. It does not query the files collection.

## Model

| member | source | states |
|---|---|---|
| `Queries.Split` | lib/actions/file.actions.tsx:92 | `sort.split('-')` yields at least one part and no part contains the separator |
| `Queries.JoinSplit` | lib/actions/file.actions.tsx:92 | splitting loses nothing: joining the parts with the separator gives back the sort string |
| `Queries.SplitWithoutSeparator` | lib/actions/file.actions.tsx:92 | a string without `-` splits into itself alone |
| `Queries.SplitAfterField` | lib/actions/file.actions.tsx:92 | a `-`-free field followed by `-` becomes the first part, and the rest splits on its own |
| `Queries.Filters` | lib/actions/file.actions.tsx:80-85 | the filter list is non-empty and starts with `or(owner == user.$id, users contains user.email)` |
| `Queries.FiltersOrder` | lib/actions/file.actions.tsx:80-99 | ownership predicate first, then the optional predicates in the fixed order type, name, limit, sort, each kind at most once; the length is 1 plus the number of options that ask for a predicate |
| `Queries.FiltersLayout` | lib/actions/file.actions.tsx:87-99 | type predicate (carrying `types`) iff `types` non-empty, name-contains (carrying `searchText`) iff `searchText` non-empty, limit (carrying `limit`) iff `limit` is given and non-zero, sort predicate iff `sort` non-empty |
| `Queries.SortQuery` | lib/actions/file.actions.tsx:91-98 | the sort predicate is an ascending or descending order on the first part of `sort.split('-')` |
| `Queries.SortOfFieldAndDirection` | lib/actions/file.actions.tsx:91-99 | for `field-rest` with a `-`-free field, the order predicate is on `field`, ascending iff the part of `rest` before its first `-` is exactly `asc` (only `parts[1]` is read, so `name-asc-x` is ascending), descending otherwise |
| `Queries.SortWithoutDirection` | lib/actions/file.actions.tsx:91-99 | a sort string without `-` has no second part and sorts descending |
| `Queries.CreateQueries` | lib/actions/file.actions.tsx:73-102 | the list built push by push equals the filter list `Filters` |
| `Queries.ListingQueries` | lib/actions/file.actions.tsx:104-109 | with missing options defaulted, the list starts with the ownership predicate, and without a `sort` option it ends with `orderDesc('$createdAt')` |
| `Queries.DefaultListing` | lib/actions/file.actions.tsx:104-123 | with the defaults (no types, empty search, `$createdAt-desc`, no limit), the list is exactly `[ownership, orderDesc('$createdAt')]` |
| `Queries.GetFiles` | lib/actions/file.actions.tsx:104-135 | without a current user the result is `undefined`; otherwise the backend is asked with the defaulted filter list and its answer is returned, `undefined` when the call fails |
| `Accounting.OwnedBy` | lib/actions/file.actions.tsx:396-400 | the listing holds exactly the files whose `owner` is the user's `$id` |
| `Accounting.OwnedByCounts` | lib/actions/file.actions.tsx:396-400 | the listing keeps every owned file as many times as it occurs in the collection, and no other file |
| `Accounting.WithUsage` | lib/actions/file.actions.tsx:414 | writing one category's entry changes that entry only, and leaves `used` and `all` alone |
| `Accounting.AppendFile` | lib/actions/file.actions.tsx:412-424 | one more file adds its size to the grand total and to its own category's total, and replaces that category's date only when there was none or the file is strictly later |
| `Accounting.Tally` | lib/actions/file.actions.tsx:413-423 | one `forEach` iteration adds the file's size to its category and to `used`, replaces the category's date only when it was `''` or the file is strictly later, and leaves the other categories and `all` alone |
| `Accounting.TallyStep` | lib/actions/file.actions.tsx:412-424 | one loop iteration keeps every category entry equal to (byte total, latest date) of the files seen so far, and `used` equal to their total size |
| `Accounting.GetTotalSpaceUsed` | lib/actions/file.actions.tsx:385-432 | `null` iff there is no user, no session cookie, or an owned file outside the five categories; otherwise each category holds its files' byte total and latest date, `used` is the total size of the owned files, `all` is 2\*1024\*1024\*1024 |
| `Accounting.UsedIsSumOfCategories` | lib/actions/file.actions.tsx:414-415 | when every file is categorised, `used` equals the sum of the five category sizes |
| `Accounting.EmptyCategory` | lib/actions/file.actions.tsx:402-407 | a category's latest date stays `''` iff no file has that type, and such a category totals 0 bytes |
| `Accounting.LatestIsFirstMaximum` | lib/actions/file.actions.tsx:417-423 | the kept date belongs to a file of that category, no file of that category is later, and every earlier one is strictly earlier, so on a tie the first file seen wins |
| `Accounting.FetchFileSizes` | lib/actions/file.actions.tsx:339-383 | `{}` without a user; otherwise the keys are exactly the requested types and each value is `convertFileSize` of the summed sizes of the user's files of that type |
| `Documents.HasSession` | lib/appwrite/index.ts:16-20 | there is no session client when the cookie is missing or its value is empty |
| `FileActions.Authorized` | lib/actions/file.actions.tsx:151-156 | a user is signed in and its `accountId` equals the argument; the stored document is not consulted (the same gate stands at lines 188-193 and 222-227) |
| `FileActions.Apply` | lib/actions/file.actions.tsx:159-164 | a `{ name }` patch writes only `name`, a `{ users }` patch (line 198) writes only `users`; both keep the `$id` and take the backend's `$updatedAt` |
| `FileActions.Find` | lib/actions/file.actions.tsx:159-164 | finds a document iff one with that `$id` exists, and what it finds is in the collection with that `$id` |
| `FileActions.FindUnique` | lib/actions/file.actions.tsx:159-164 | with unique identifiers, any document carrying the `$id` is the one found |
| `FileActions.UpdateDocument` | lib/actions/file.actions.tsx:159-164 | an update keeps the collection's length and every position's `$id` |
| `FileActions.Removed` | lib/actions/file.actions.tsx:229-233 | after a deletion, exactly the documents with another `$id` remain, and none carries the deleted `$id` |
| `FileActions.UpdateKeepsIdsUnique` | lib/actions/file.actions.tsx:194-199 | an update keeps document identifiers unique |
| `FileActions.RemovedKeepsIdsUnique` | lib/actions/file.actions.tsx:229-233 | a deletion keeps document identifiers unique |
| `FileActions.RenameTouchesOnlyName` | lib/actions/file.actions.tsx:158-164 | a rename writes `name` (and the backend's `$updatedAt`) of the target document only; every other field and every other document is unchanged |
| `FileActions.SharingTouchesOnlyUsers` | lib/actions/file.actions.tsx:194-199 | sharing replaces `users` (and the backend's `$updatedAt`) of the target document only; every other field and every other document is unchanged |
| `FileActions.ShareIsIdempotent` | lib/actions/file.actions.tsx:194-199 | `users` is replaced wholesale: sharing twice with the same list leaves the state the second call alone leaves |
| `FileActions.UploadFile` | lib/actions/file.actions.tsx:21-71 | success iff the blob is stored and the document created; the document has `users = []`, `size = sizeOriginal`, `bucketFileId` = the blob key, `owner` and `accountId` as supplied; on any failure the files and blobs are as before, because the compensating handler deletes the blob just stored |
| `FileActions.RenameFile` | lib/actions/file.actions.tsx:137-173 | no user, a different account or a missing document gives `null` and nothing changes; otherwise the name becomes `name.extension` and the updated document is returned |
| `FileActions.UpdateFileUsers` | lib/actions/file.actions.tsx:175-207 | no user, a different account or a missing document gives `undefined` and nothing changes; otherwise `users` becomes exactly `emails` and the updated document is returned |
| `FileActions.DeleteFile` | lib/actions/file.actions.tsx:209-245 | `{status: 'success'}` iff authorised, the document exists and the blob exists; a blob is removed only after its document was deleted; a failed blob deletion leaves the document deleted and returns `undefined` |
| `UserActions.GetUserByEmail` | lib/actions/user.actions.ts:9-19 | returns the first user document whose e-mail equals the argument, or null iff there is none |
| `UserActions.LookupAfterInsert` | lib/actions/user.actions.ts:53-67 | after an insert, an address that matched before still finds the same user; an address that matched nobody now finds the new user |
| `UserActions.SendEmailOtp` | lib/actions/user.actions.ts:26-38 | returns the account identifier the token was issued for; a refused token request propagates as an error |
| `UserActions.CreateAccount` | lib/actions/user.actions.ts:40-70 | the OTP is requested before any insert. A failed request propagates and an empty id fails with "Failed to send an OTP"; in both cases the users are unchanged. On success, exactly one `{fullName, email, avatar: '', accountId}` is appended iff no user had the e-mail, and the OTP's account identifier is returned either way. Unique e-mails stay unique |
| `UserActions.SessionCookie` | lib/actions/user.actions.ts:84-89 | the written cookie is `appwrite-session` holding the session secret |
| `UserActions.SessionCookieOpensSession` | lib/appwrite/index.ts:12-20 | the written cookie opens a session client iff the secret is non-empty |
| `UserActions.VerifySecret` | lib/actions/user.actions.ts:72-95 | on success the cookie slot holds `appwrite-session` = secret (path `/`, httpOnly, secure, sameSite strict, no max-age) and `{sessionId}` is returned; on failure nothing is written and `undefined` is returned |

## Left out

- `getCurrentUser` and `signOutUser` are not part of this model. Their source is not available, so the current user is an input.
- The UI components and `next.config.ts` are left out. They are rendering and build configuration.
- The SDK clients (`createAdminClient`, `createSessionClient`) are left out. The one rule of `createSessionClient`, no session when the cookie is missing or empty, is `Documents.HasSession`.
- `revalidatePath`, `console.log` and the `cookies()` plumbing are left out. They are side effects with no bearing on the returned values or the stored state.
- `getFileType`, `constructFileUrl` and `convertFileSize` are not available. They are uninterpreted function parameters.
- `parseStringify` is not available. It is read as a deep copy, that is, the identity on values. `parseStringify(undefined)` is kept as the separate outcome `StringifiedNothing`.
- `Queries.GetFiles`: how the backend evaluates a filter list is not visible. The listing is the parameter `listDocuments`.
- `Accounting.GetTotalSpaceUsed`: the listing is modelled as the owned files in collection order. Page-size limits and failures of the listing call are not modelled.
- `Accounting.GetTotalSpaceUsed`: a file type that names an inherited JavaScript object property, such as `constructor`, would not throw in the source. The model treats every type outside the five categories as throwing.
- `Accounting.FetchFileSizes`: the special `__proto__` key of JavaScript objects is not modelled.
- `Promise.all` in `fetchFileSizes` runs one computation per type. It is modelled as a sequential loop.
- `$updatedAt` is an integer timestamp. Date-string parsing and invalid dates are not modelled.
- Sizes are unbounded naturals. JavaScript number precision is not modelled.
- `FileActions.RenameFile`, `FileActions.UpdateFileUsers` and `FileActions.DeleteFile` fail in the model only when the document or blob does not exist. Other backend faults (network, permissions) are not modelled.
- `FileActions.DeleteFile`: the response of `deleteDocument` is treated as truthy. The SDK returns an object for it.
- `FileActions.UploadFile`: the compensating blob deletion always succeeds in the model, because the blob was just stored. If it failed, the outer catch would return `undefined` and leave the blob behind.
- `UserActions.CreateAccount`: the user lookup and the user insert never fail in the model. An identifier conflict on insert is not modelled.
- The commented-out code in `lib/actions/file.actions.tsx` (older versions of two functions) and in `lib/appwrite/index.ts` is left out.
