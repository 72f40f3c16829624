/**
 * The ownership-gated mutations of the files collection and the storage
 * bucket: `uploadFile`, `renameFile`, `updateFileUsers` and `deleteFile`.
 */
module FileActions {
  import opened Common
  import opened Documents
  import opened Store

  /** What `getFileType` derives from a file name; the classifier itself is left uninterpreted. */
  datatype FileTypeInfo = FileTypeInfo(fileType: string, extension: string)

  /** The attributes one `databases.updateDocument` call writes. */
  datatype Patch = NamePatch(name: string) | UsersPatch(users: seq<string>)

  /** `deleteFile`'s `{ status: 'success' }`. */
  datatype DeleteStatus = Success

  /** The three ways `uploadFile` can end. */
  datatype UploadOutcome =
    | Uploaded(doc: FileDoc)   // the created document
    | StringifiedNothing       // document creation failed: `parseStringify(undefined)` is returned
    | UploadUndefined          // the blob could not be stored: the catch block yields `undefined`

  /** The backend's answers during one upload: fresh identifiers, the clock, and whether each service accepts the call. */
  datatype UploadEnv = UploadEnv(blobId: string, docId: string, now: int, storageUp: bool, databaseUp: bool)

  /**
   * The check every mutation performs first: a user is signed in and its
   * account identifier equals the caller-supplied one. The stored document's
   * own `accountId` plays no part.
   */
  predicate Authorized(currentUser: Option<UserDoc>, accountId: string)
    ensures currentUser.None? ==> !Authorized(currentUser, accountId)
    ensures Authorized(currentUser, accountId) ==> currentUser.value.accountId == accountId
  {
    currentUser.Some? && currentUser.value.accountId == accountId
  }

  /** The first document with `$id == id`. */
  function Find(files: seq<FileDoc>, id: string): (r: Option<FileDoc>)
    ensures r.Some? <==> HasDocument(files, id)
    ensures r.Some? ==> r.value in files && r.value.id == id
    decreases |files|
  {
    if files == [] then None
    else if files[0].id == id then Some(files[0])
    else
      var r := Find(files[1..], id);
      assert HasDocument(files[1..], id) ==> HasDocument(files, id) by {
        if HasDocument(files[1..], id) {
          var i :| 0 <= i < |files[1..]| && files[1..][i].id == id;
          assert files[i + 1].id == id;
        }
      }
      assert HasDocument(files, id) ==> HasDocument(files[1..], id) by {
        if HasDocument(files, id) {
          var i :| 0 <= i < |files| && files[i].id == id;
          assert i > 0 && files[1..][i - 1].id == id;
        }
      }
      r
  }

  /** With unique identifiers, the document at any position carrying `id` is the one `Find` returns. */
  lemma FindUnique(files: seq<FileDoc>, id: string, i: int)
    requires UniqueIds(files)
    requires 0 <= i < |files| && files[i].id == id
    ensures Find(files, id) == Some(files[i])
  {
  }

  /** A document with the patch's attributes written and `$updatedAt` set by the backend. */
  function Apply(d: FileDoc, p: Patch, now: int): (r: FileDoc)
    ensures r.id == d.id && r.updatedAt == now
    ensures p.NamePatch? ==> r.name == p.name && r.(name := d.name, updatedAt := d.updatedAt) == d
    ensures p.UsersPatch? ==> r.users == p.users && r.(users := d.users, updatedAt := d.updatedAt) == d
  {
    match p
    case NamePatch(name) => d.(name := name, updatedAt := now)
    case UsersPatch(users) => d.(users := users, updatedAt := now)
  }

  /** `databases.updateDocument(id, patch)` on the files collection. */
  function UpdateDocument(files: seq<FileDoc>, id: string, p: Patch, now: int): (r: seq<FileDoc>)
    ensures |r| == |files|
    ensures forall i :: 0 <= i < |r| ==> r[i].id == files[i].id
  {
    seq(|files|, i requires 0 <= i < |files| => if files[i].id == id then Apply(files[i], p, now) else files[i])
  }

  /** `databases.deleteDocument(id)` on the files collection. */
  function Removed(files: seq<FileDoc>, id: string): (r: seq<FileDoc>)
    ensures forall d :: d in r <==> d in files && d.id != id
    ensures !HasDocument(r, id)
    decreases |files|
  {
    if files == [] then []
    else (if files[0].id == id then [] else [files[0]]) + Removed(files[1..], id)
  }

  /** Updating a document keeps identifiers unique. */
  lemma UpdateKeepsIdsUnique(files: seq<FileDoc>, id: string, p: Patch, now: int)
    requires UniqueIds(files)
    ensures UniqueIds(UpdateDocument(files, id, p, now))
  {
  }

  /** Putting a document before a list that does not carry its identifier keeps identifiers unique. */
  lemma PrependKeepsIdsUnique(d: FileDoc, tail: seq<FileDoc>)
    requires UniqueIds(tail)
    requires forall k :: 0 <= k < |tail| ==> tail[k].id != d.id
    ensures UniqueIds([d] + tail)
  {
    var r := [d] + tail;
    forall i, j | 0 <= i < j < |r| ensures r[i].id != r[j].id {
      if i == 0 {
        assert r[j] == tail[j - 1];
      } else {
        assert r[i] == tail[i - 1] && r[j] == tail[j - 1];
      }
    }
  }

  /** Deleting a document keeps identifiers unique. */
  lemma {:induction false} RemovedKeepsIdsUnique(files: seq<FileDoc>, id: string)
    requires UniqueIds(files)
    ensures UniqueIds(Removed(files, id))
    decreases |files|
  {
    if files != [] {
      var rest := files[1..];
      assert UniqueIds(rest) by {
        forall i, j | 0 <= i < j < |rest| ensures rest[i].id != rest[j].id {
          assert rest[i] == files[i + 1] && rest[j] == files[j + 1];
        }
      }
      RemovedKeepsIdsUnique(rest, id);
      var tail := Removed(rest, id);
      if files[0].id != id {
        forall k | 0 <= k < |tail| ensures tail[k].id != files[0].id {
          assert tail[k] in rest;
          var m :| 0 <= m < |rest| && rest[m] == tail[k];
          assert files[m + 1] == tail[k];
        }
        PrependKeepsIdsUnique(files[0], tail);
      } else {
        assert Removed(files, id) == tail;
      }
    }
  }

  /** A rename writes the new name (and the backend's `$updatedAt`) into the target document and nothing else anywhere. */
  lemma RenameTouchesOnlyName(files: seq<FileDoc>, id: string, newName: string, now: int)
    ensures var r := UpdateDocument(files, id, NamePatch(newName), now);
      forall i :: 0 <= i < |files| ==>
        if files[i].id == id
        then r[i].name == newName && r[i].updatedAt == now
             && r[i].(name := files[i].name, updatedAt := files[i].updatedAt) == files[i]
        else r[i] == files[i]
  {
  }

  /** Sharing writes the new list (and the backend's `$updatedAt`) into the target document and nothing else anywhere. */
  lemma SharingTouchesOnlyUsers(files: seq<FileDoc>, id: string, emails: seq<string>, now: int)
    ensures var r := UpdateDocument(files, id, UsersPatch(emails), now);
      forall i :: 0 <= i < |files| ==>
        r[i] == if files[i].id == id then files[i].(users := emails, updatedAt := now) else files[i]
  {
  }

  /**
   * Sharing replaces the shared-with list wholesale: a second call with the
   * same list leaves the state the second call alone would have left.
   */
  lemma ShareIsIdempotent(files: seq<FileDoc>, id: string, emails: seq<string>, first: int, second: int)
    ensures UpdateDocument(UpdateDocument(files, id, UsersPatch(emails), first), id, UsersPatch(emails), second)
         == UpdateDocument(files, id, UsersPatch(emails), second)
  {
  }

  /**
   * `uploadFile`: store the blob, then create its document; when the
   * document cannot be created the blob just stored is deleted again, so no
   * blob is left without a document.
   */
  method UploadFile(b: Backend, fileName: string, fileSize: nat, ownerId: string, accountId: string, env: UploadEnv,
                    getFileType: string -> FileTypeInfo, constructFileUrl: string -> string)
    returns (r: UploadOutcome)
    requires b.Valid()
    modifies b`files, b`blobs
    ensures b.Valid()
    ensures r.UploadUndefined? <==> !env.storageUp || env.blobId in old(b.blobs)
    ensures r.Uploaded? <==> env.storageUp && env.blobId !in old(b.blobs)
                             && env.databaseUp && !HasDocument(old(b.files), env.docId)
    ensures r.Uploaded? ==>
      && r.doc == FileDoc(env.docId, fileName, getFileType(fileName).fileType, constructFileUrl(env.blobId),
                          getFileType(fileName).extension, fileSize, ownerId, accountId, [], env.blobId, env.now, env.now)
      && b.files == old(b.files) + [r.doc]
      && b.blobs == old(b.blobs) + {env.blobId}
    ensures !r.Uploaded? ==> b.files == old(b.files) && b.blobs == old(b.blobs)
  {
    // store the blob under a fresh key; a refusal or a key conflict ends in the outer catch
    if !env.storageUp || env.blobId in b.blobs {
      return UploadUndefined;
    }
    b.blobs := b.blobs + {env.blobId};

    var info := getFileType(fileName);
    var fileDocument := FileDoc(env.docId, fileName, info.fileType, constructFileUrl(env.blobId), info.extension,
                                fileSize, ownerId, accountId, [], env.blobId, env.now, env.now);

    // create the document; when that fails, the failure handler deletes the blob again
    if !env.databaseUp || HasDocument(b.files, env.docId) {
      b.blobs := b.blobs - {env.blobId};
      return StringifiedNothing;
    }
    b.files := b.files + [fileDocument];
    r := Uploaded(fileDocument);
  }

  /**
   * `renameFile`: `null` when nobody is signed in, when the signed-in account
   * is not the supplied one, or when the document does not exist; otherwise
   * the name becomes `name.extension`.
   */
  method RenameFile(b: Backend, currentUser: Option<UserDoc>, fileId: string, name: string, extension: string,
                    accountId: string, now: int)
    returns (r: Reply<FileDoc>)
    requires b.Valid()
    modifies b`files
    ensures b.Valid()
    ensures r != Undefined
    ensures !Authorized(currentUser, accountId) || !HasDocument(old(b.files), fileId) ==>
              r == Null && b.files == old(b.files)
    ensures Authorized(currentUser, accountId) && HasDocument(old(b.files), fileId) ==>
              && b.files == UpdateDocument(old(b.files), fileId, NamePatch(name + "." + extension), now)
              && r == Value(Apply(Find(old(b.files), fileId).value, NamePatch(name + "." + extension), now))
              && r.value == Find(b.files, fileId).value
  {
    if !Authorized(currentUser, accountId) {
      return Null;
    }
    if !HasDocument(b.files, fileId) {
      return Null;
    }
    var newName := name + "." + extension;
    var before := b.files;
    UpdateKeepsIdsUnique(b.files, fileId, NamePatch(newName), now);
    b.files := UpdateDocument(b.files, fileId, NamePatch(newName), now);
    var updatedFile := Apply(Find(before, fileId).value, NamePatch(newName), now);
    ghost var i :| 0 <= i < |before| && before[i].id == fileId;
    FindUnique(before, fileId, i);
    FindUnique(b.files, fileId, i);
    r := Value(updatedFile);
  }

  /**
   * `updateFileUsers`: `undefined` when nobody is signed in, when the
   * signed-in account is not the supplied one, or when the document does not
   * exist; otherwise the shared-with list becomes exactly `emails`.
   */
  method UpdateFileUsers(b: Backend, currentUser: Option<UserDoc>, fileId: string, emails: seq<string>,
                         accountId: string, now: int)
    returns (r: Reply<FileDoc>)
    requires b.Valid()
    modifies b`files
    ensures b.Valid()
    ensures r != Null
    ensures !Authorized(currentUser, accountId) || !HasDocument(old(b.files), fileId) ==>
              r == Undefined && b.files == old(b.files)
    ensures Authorized(currentUser, accountId) && HasDocument(old(b.files), fileId) ==>
              && b.files == UpdateDocument(old(b.files), fileId, UsersPatch(emails), now)
              && r == Value(Apply(Find(old(b.files), fileId).value, UsersPatch(emails), now))
              && r.value == Find(b.files, fileId).value
  {
    if !Authorized(currentUser, accountId) {
      return Undefined;
    }
    if !HasDocument(b.files, fileId) {
      return Undefined;
    }
    var before := b.files;
    UpdateKeepsIdsUnique(b.files, fileId, UsersPatch(emails), now);
    b.files := UpdateDocument(b.files, fileId, UsersPatch(emails), now);
    var updatedFile := Apply(Find(before, fileId).value, UsersPatch(emails), now);
    ghost var i :| 0 <= i < |before| && before[i].id == fileId;
    FindUnique(before, fileId, i);
    FindUnique(b.files, fileId, i);
    r := Value(updatedFile);
  }

  /**
   * `deleteFile`: after the ownership check, delete the document and only
   * then the blob named by the caller.  If the blob deletion fails the
   * document is already gone and the caller sees `undefined`.
   */
  method DeleteFile(b: Backend, currentUser: Option<UserDoc>, fileId: string, bucketFileId: string, accountId: string)
    returns (r: Reply<DeleteStatus>)
    requires b.Valid()
    modifies b`files, b`blobs
    ensures b.Valid()
    ensures r != Null
    ensures r == Value(Success) <==>
              Authorized(currentUser, accountId) && HasDocument(old(b.files), fileId) && bucketFileId in old(b.blobs)
    ensures !Authorized(currentUser, accountId) || !HasDocument(old(b.files), fileId) ==>
              b.files == old(b.files) && b.blobs == old(b.blobs)
    ensures Authorized(currentUser, accountId) && HasDocument(old(b.files), fileId) ==>
              b.files == Removed(old(b.files), fileId) && b.blobs == old(b.blobs) - {bucketFileId}
    ensures b.blobs != old(b.blobs) ==> HasDocument(old(b.files), fileId) && !HasDocument(b.files, fileId)
  {
    if !Authorized(currentUser, accountId) {
      return Undefined;
    }
    // deleting a document that does not exist fails
    if !HasDocument(b.files, fileId) {
      return Undefined;
    }
    RemovedKeepsIdsUnique(b.files, fileId);
    b.files := Removed(b.files, fileId);
    // the deletion's response is an object, so the blob deletion always follows
    if bucketFileId !in b.blobs {
      return Undefined;
    }
    b.blobs := b.blobs - {bucketFileId};
    r := Value(Success);
  }

  /**
   * The ownership check compares the signed-in account with the argument:
   * a user who passes the file's `accountId` (as the file menu does) is
   * refused, one who passes its own account identifier is let through.
   */
  method ForeignRenameScenario(owner: UserDoc, other: UserDoc, doc: FileDoc)
    requires doc.accountId == owner.accountId && other.accountId != owner.accountId
  {
    var b := new Backend();
    b.files := [doc];
    var refused := RenameFile(b, Some(other), doc.id, "mine", "pdf", doc.accountId, 1);
    assert refused == Null && b.files == [doc];
    assert [doc][0].id == doc.id;
    var accepted := RenameFile(b, Some(other), doc.id, "mine", "pdf", other.accountId, 2);
    assert accepted.Value? && accepted.value.name == "mine.pdf";
  }
}
