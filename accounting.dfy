/**
 * Storage accounting: the per-category totals of `getTotalSpaceUsed` and the
 * per-type sizes of `fetchFileSizes`.
 */
module Accounting {
  import opened Common
  import opened Documents
  import opened Store

  /** The five file categories `getTotalSpaceUsed` keeps a tally for. */
  predicate IsCategory(t: string)
  {
    t == "image" || t == "document" || t == "video" || t == "audio" || t == "other"
  }

  /** The fixed bucket capacity reported as `all`: 2 GiB. */
  const Capacity: nat := 2 * 1024 * 1024 * 1024

  /** Bytes used by one category and the `$updatedAt` of its latest file (`None` for `''`). */
  datatype CategoryUsage = CategoryUsage(size: nat, latestDate: Option<int>)

  /** The object `getTotalSpaceUsed` returns. */
  datatype TotalSpace = TotalSpace(
    image: CategoryUsage,
    document: CategoryUsage,
    video: CategoryUsage,
    audio: CategoryUsage,
    other: CategoryUsage,
    used: nat,
    all: nat)

  /** `totalSpace[c]` */
  function Usage(t: TotalSpace, c: string): CategoryUsage
    requires IsCategory(c)
  {
    if c == "image" then t.image
    else if c == "document" then t.document
    else if c == "video" then t.video
    else if c == "audio" then t.audio
    else t.other
  }

  /** `totalSpace[c] = u`, every other entry kept. */
  function WithUsage(t: TotalSpace, c: string, u: CategoryUsage): (r: TotalSpace)
    requires IsCategory(c)
    ensures Usage(r, c) == u
    ensures forall d :: IsCategory(d) && d != c ==> Usage(r, d) == Usage(t, d)
    ensures r.used == t.used && r.all == t.all
  {
    if c == "image" then t.(image := u)
    else if c == "document" then t.(document := u)
    else if c == "video" then t.(video := u)
    else if c == "audio" then t.(audio := u)
    else t.(other := u)
  }

  /** Total bytes of the files of type `c`. */
  function SizeOf(files: seq<FileDoc>, c: string): nat
    decreases |files|
  {
    if files == [] then 0
    else
      var last := files[|files| - 1];
      SizeOf(files[..|files| - 1], c) + (if last.fileType == c then last.size else 0)
  }

  /** Total bytes of all files. */
  function TotalSize(files: seq<FileDoc>): nat
    decreases |files|
  {
    if files == [] then 0 else TotalSize(files[..|files| - 1]) + files[|files| - 1].size
  }

  /**
   * The latest `$updatedAt` among the files of type `c`, scanning in order and
   * replacing the kept date only by a strictly later one.
   */
  function Latest(files: seq<FileDoc>, c: string): Option<int>
    decreases |files|
  {
    if files == [] then None
    else
      var prev := Latest(files[..|files| - 1], c);
      var last := files[|files| - 1];
      if last.fileType == c && (prev.None? || last.updatedAt > prev.value) then Some(last.updatedAt) else prev
  }

  /** Every file has one of the five categories as its type. */
  predicate AllCategorized(files: seq<FileDoc>)
  {
    forall i :: 0 <= i < |files| ==> IsCategory(files[i].fileType)
  }

  /** The answer to `listDocuments([Query.equal('owner', [owner])])`, in listing order. */
  function OwnedBy(files: seq<FileDoc>, owner: string): (r: seq<FileDoc>)
    ensures |r| <= |files|
    ensures forall f :: f in r <==> f in files && f.owner == owner
    decreases |files|
  {
    if files == [] then []
    else (if files[0].owner == owner then [files[0]] else []) + OwnedBy(files[1..], owner)
  }

  /** The owner filter keeps every owned file as often as it occurs, and no other file. */
  lemma {:induction false} OwnedByCounts(files: seq<FileDoc>, owner: string)
    ensures forall f :: multiset(OwnedBy(files, owner))[f] == if f.owner == owner then multiset(files)[f] else 0
    decreases |files|
  {
    if files != [] {
      OwnedByCounts(files[1..], owner);
      assert files == [files[0]] + files[1..];
      assert multiset(files) == multiset([files[0]]) + multiset(files[1..]);
    }
  }

  /** Each category entry holds that category's byte total and latest date. */
  ghost predicate Tallies(t: TotalSpace, files: seq<FileDoc>)
  {
    && t.image == CategoryUsage(SizeOf(files, "image"), Latest(files, "image"))
    && t.document == CategoryUsage(SizeOf(files, "document"), Latest(files, "document"))
    && t.video == CategoryUsage(SizeOf(files, "video"), Latest(files, "video"))
    && t.audio == CategoryUsage(SizeOf(files, "audio"), Latest(files, "audio"))
    && t.other == CategoryUsage(SizeOf(files, "other"), Latest(files, "other"))
  }

  /** When every file is categorised, the grand total is the sum of the five category totals. */
  lemma {:induction false} UsedIsSumOfCategories(files: seq<FileDoc>)
    requires AllCategorized(files)
    ensures TotalSize(files) == SizeOf(files, "image") + SizeOf(files, "document") + SizeOf(files, "video")
                                + SizeOf(files, "audio") + SizeOf(files, "other")
    decreases |files|
  {
    if files != [] {
      var prefix := files[..|files| - 1];
      assert AllCategorized(prefix) by {
        forall i | 0 <= i < |prefix| ensures IsCategory(prefix[i].fileType) {
          assert prefix[i] == files[i];
        }
      }
      UsedIsSumOfCategories(prefix);
      assert IsCategory(files[|files| - 1].fileType);
    }
  }

  /**
   * A category has no latest date exactly when no file has that type, and a
   * category without files totals zero bytes.
   */
  lemma {:induction false} EmptyCategory(files: seq<FileDoc>, c: string)
    ensures Latest(files, c).None? <==> forall i :: 0 <= i < |files| ==> files[i].fileType != c
    ensures (forall i :: 0 <= i < |files| ==> files[i].fileType != c) ==> SizeOf(files, c) == 0
    decreases |files|
  {
    if files != [] {
      var prefix := files[..|files| - 1];
      EmptyCategory(prefix, c);
      assert forall i :: 0 <= i < |prefix| ==> prefix[i] == files[i];
    }
  }

  /**
   * File `k` is the one whose date is kept: it has type `c`, no file of type
   * `c` is later, and every earlier file of type `c` is strictly earlier.
   */
  ghost predicate FirstLatest(files: seq<FileDoc>, c: string, k: int)
  {
    && 0 <= k < |files|
    && files[k].fileType == c
    && (forall j :: 0 <= j < |files| && files[j].fileType == c ==> files[j].updatedAt <= files[k].updatedAt)
    && (forall j :: 0 <= j < k && files[j].fileType == c ==> files[j].updatedAt < files[k].updatedAt)
  }

  /** The kept latest date is the maximum date, and on a tie the first file seen wins. */
  lemma {:induction false} LatestIsFirstMaximum(files: seq<FileDoc>, c: string)
    requires Latest(files, c).Some?
    ensures exists k :: FirstLatest(files, c, k) && files[k].updatedAt == Latest(files, c).value
    decreases |files|
  {
    var n := |files|;
    var prefix := files[..n - 1];
    var last := files[n - 1];
    var prev := Latest(prefix, c);
    assert forall i :: 0 <= i < |prefix| ==> prefix[i] == files[i];
    if last.fileType == c && (prev.None? || last.updatedAt > prev.value) {
      if prev.None? {
        EmptyCategory(prefix, c);
      } else {
        LatestIsFirstMaximum(prefix, c);
        var k :| FirstLatest(prefix, c, k) && prefix[k].updatedAt == prev.value;
      }
      assert FirstLatest(files, c, n - 1);
    } else {
      LatestIsFirstMaximum(prefix, c);
      var k :| FirstLatest(prefix, c, k) && prefix[k].updatedAt == prev.value;
      assert FirstLatest(files, c, k);
    }
  }

  /** The totals of a listing extended by one file, in terms of the totals of the listing. */
  lemma AppendFile(files: seq<FileDoc>, f: FileDoc)
    ensures TotalSize(files + [f]) == TotalSize(files) + f.size
    ensures forall c :: SizeOf(files + [f], c) == SizeOf(files, c) + (if f.fileType == c then f.size else 0)
    ensures forall c :: Latest(files + [f], c)
                     == if f.fileType == c && (Latest(files, c).None? || f.updatedAt > Latest(files, c).value)
                        then Some(f.updatedAt) else Latest(files, c)
  {
  }

  /**
   * One iteration of the `forEach` in `getTotalSpaceUsed`: add the size to the
   * file's category and to `used`, then keep the file's date if the category
   * has none yet or the file is strictly later.
   */
  function Tally(t: TotalSpace, file: FileDoc): (r: TotalSpace)
    requires IsCategory(file.fileType)
    ensures r.all == t.all && r.used == t.used + file.size
    ensures Usage(r, file.fileType).size == Usage(t, file.fileType).size + file.size
    ensures var before := Usage(t, file.fileType).latestDate;
      Usage(r, file.fileType).latestDate
        == if before.None? || file.updatedAt > before.value then Some(file.updatedAt) else before
    ensures forall d :: IsCategory(d) && d != file.fileType ==> Usage(r, d) == Usage(t, d)
  {
    var c := file.fileType;
    var sized := WithUsage(t, c, Usage(t, c).(size := Usage(t, c).size + file.size));
    var counted := sized.(used := sized.used + file.size);
    var latest := Usage(counted, c).latestDate;
    if latest.None? || file.updatedAt > latest.value
    then WithUsage(counted, c, Usage(counted, c).(latestDate := Some(file.updatedAt)))
    else counted
  }

  /** Tallying one more file keeps the totals equal to those of the longer listing. */
  lemma TallyStep(t: TotalSpace, files: seq<FileDoc>, file: FileDoc)
    requires IsCategory(file.fileType)
    requires Tallies(t, files) && t.used == TotalSize(files)
    ensures Tallies(Tally(t, file), files + [file]) && Tally(t, file).used == TotalSize(files + [file])
  {
    AppendFile(files, file);
    var r := Tally(t, file);
    forall c | IsCategory(c)
      ensures Usage(r, c) == CategoryUsage(SizeOf(files + [file], c), Latest(files + [file], c))
    {
      assert Usage(t, c) == CategoryUsage(SizeOf(files, c), Latest(files, c));
    }
    assert Usage(r, "image") == r.image && Usage(r, "document") == r.document && Usage(r, "video") == r.video
        && Usage(r, "audio") == r.audio && Usage(r, "other") == r.other;
  }

  /**
   * `getTotalSpaceUsed`: `null` without a current user, without a session
   * cookie, or when a listed file's type is not one of the five categories
   * (indexing `totalSpace` with it throws); otherwise the tally of the
   * signed-in user's own files.
   */
  method GetTotalSpaceUsed(b: Backend, currentUser: Option<UserDoc>) returns (r: Option<TotalSpace>)
    ensures r.Some? <==> currentUser.Some? && HasSession(b.sessionCookie)
                         && AllCategorized(OwnedBy(b.files, currentUser.value.id))
    ensures r.Some? ==>
      var owned := OwnedBy(b.files, currentUser.value.id);
      && Tallies(r.value, owned)
      && r.value.used == TotalSize(owned)
      && r.value.all == Capacity
  {
    if currentUser.None? || !HasSession(b.sessionCookie) {
      return None;
    }
    var files := OwnedBy(b.files, currentUser.value.id);
    var empty := CategoryUsage(0, None);
    var totalSpace := TotalSpace(empty, empty, empty, empty, empty, 0, Capacity);
    var i := 0;
    while i < |files|
      invariant 0 <= i <= |files|
      invariant AllCategorized(files[..i])
      invariant Tallies(totalSpace, files[..i])
      invariant totalSpace.used == TotalSize(files[..i])
      invariant totalSpace.all == Capacity
    {
      var file := files[i];
      if !IsCategory(file.fileType) {
        assert !AllCategorized(files);
        return None;
      }
      assert files[..i + 1] == files[..i] + [file];
      assert AllCategorized(files[..i] + [file]);
      TallyStep(totalSpace, files[..i], file);
      totalSpace := Tally(totalSpace, file);
      i := i + 1;
    }
    assert files[..i] == files;
    r := Some(totalSpace);
  }

  /**
   * `fetchFileSizes`: `{}` without a current user; otherwise one entry per
   * requested type, the formatted byte total of the user's files of that type.
   * `convertFileSize` is the display formatter, left uninterpreted.
   */
  method FetchFileSizes(currentUser: Option<UserDoc>, fileTypes: seq<string>, convertFileSize: nat -> string)
    returns (r: map<string, string>)
    ensures currentUser.None? ==> r == map[]
    ensures currentUser.Some? ==> r.Keys == set t | t in fileTypes
    ensures currentUser.Some? ==>
      forall t :: t in r ==> r[t] == convertFileSize(SizeOf(currentUser.value.files, t))
  {
    if currentUser.None? {
      return map[];
    }
    var files := currentUser.value.files;

    // one byte total per requested type, each summed over the user's files
    var sizes: seq<(string, nat)> := [];
    for k := 0 to |fileTypes|
      invariant |sizes| == k
      invariant forall j :: 0 <= j < k ==> sizes[j] == (fileTypes[j], SizeOf(files, fileTypes[j]))
    {
      var spaceUsed := 0;
      for m := 0 to |files|
        invariant spaceUsed == SizeOf(files[..m], fileTypes[k])
      {
        assert files[..m + 1][..m] == files[..m];
        if files[m].fileType == fileTypes[k] {
          spaceUsed := spaceUsed + files[m].size;
        }
      }
      assert files[..|files|] == files;
      sizes := sizes + [(fileTypes[k], spaceUsed)];
    }

    // gather the totals into an object keyed by type
    var aggregated: map<string, nat> := map[];
    for k := 0 to |sizes|
      invariant aggregated.Keys == set j | 0 <= j < k :: sizes[j].0
      invariant forall t :: t in aggregated ==> aggregated[t] == SizeOf(files, t)
    {
      aggregated := aggregated[sizes[k].0 := sizes[k].1];
    }
    assert aggregated.Keys == set t | t in fileTypes by {
      forall t | t in fileTypes ensures t in aggregated {
        var j :| 0 <= j < |fileTypes| && fileTypes[j] == t;
        assert sizes[j].0 == t;
      }
    }

    // format every entry for display
    r := map[];
    var keys := aggregated.Keys;
    while keys != {}
      invariant keys <= aggregated.Keys
      invariant r.Keys == aggregated.Keys - keys
      invariant forall t :: t in r ==> r[t] == convertFileSize(aggregated[t])
      decreases keys
    {
      var key :| key in keys;
      r := r[key := convertFileSize(aggregated[key])];
      keys := keys - {key};
    }
  }
}
