/** The records the backend stores: file documents, user documents and the session cookie. */
module Documents {
  import opened Common

  /** A document of the files collection (timestamps are integers instead of ISO date strings). */
  datatype FileDoc = FileDoc(
    id: string,            // $id
    name: string,
    fileType: string,      // the `type` attribute; one of the five categories when written by uploadFile
    url: string,
    extension: string,
    size: nat,
    owner: string,         // $id of the owning user document
    accountId: string,     // account identifier of the owner
    users: seq<string>,    // e-mail addresses the file is shared with
    bucketFileId: string,  // key of the blob in object storage
    createdAt: int,        // $createdAt
    updatedAt: int)        // $updatedAt

  /** A document of the users collection; `files` is the relationship the backend resolves. */
  datatype UserDoc = UserDoc(
    id: string,
    fullName: string,
    email: string,
    avatar: string,
    accountId: string,
    files: seq<FileDoc>)

  /** An HTTP cookie as written by `cookies().set`; `maxAge == None` means a session cookie. */
  datatype Cookie = Cookie(
    name: string,
    value: string,
    path: string,
    httpOnly: bool,
    secure: bool,
    sameSite: string,
    maxAge: Option<int>)

  /** The name of the cookie that carries the session secret. */
  const SessionCookieName: string := "appwrite-session"

  /**
   * `createSessionClient` yields a session-scoped client exactly when the
   * session cookie is present and its value is non-empty.
   */
  predicate HasSession(cookie: Option<Cookie>)
    ensures cookie.None? ==> !HasSession(cookie)
    ensures cookie.Some? && cookie.value.value == "" ==> !HasSession(cookie)
  {
    cookie.Some? && cookie.value.name == SessionCookieName && cookie.value.value != ""
  }

  /** No two documents share an `$id`. */
  ghost predicate UniqueIds(files: seq<FileDoc>)
  {
    forall i, j :: 0 <= i < j < |files| ==> files[i].id != files[j].id
  }

  /** Some document carries the given `$id`. */
  predicate HasDocument(files: seq<FileDoc>, id: string)
  {
    exists i :: 0 <= i < |files| && files[i].id == id
  }
}
