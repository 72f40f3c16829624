/**
 * The backend-as-a-service seen by the server actions: the files collection,
 * the object-storage bucket, the users collection and the one cookie slot
 * that holds the session secret.
 */
module Store {
  import opened Common
  import opened Documents

  class Backend {
    /** The files collection, in the order the backend lists it. */
    var files: seq<FileDoc>
    /** Keys of the blobs in the storage bucket. */
    var blobs: set<string>
    /** The users collection, in the order the backend lists it. */
    var users: seq<UserDoc>
    /** The `appwrite-session` cookie of the current request, if any. */
    var sessionCookie: Option<Cookie>

    /** Document identifiers are unique in the files collection. */
    ghost predicate Valid()
      reads this
    {
      UniqueIds(files)
    }

    constructor ()
      ensures Valid()
      ensures files == [] && blobs == {} && users == [] && sessionCookie == None
    {
      files := [];
      blobs := {};
      users := [];
      sessionCookie := None;
    }
  }
}
