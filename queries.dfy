/**
 * The filter list that `getFiles` sends to the files collection
 * (`createQueries` and the defaults of `getFiles`).
 */
module Queries {
  import opened Common
  import opened Documents

  /** The query constructors of the backend SDK that the listing uses. */
  datatype Query =
    | Or(alternatives: seq<Query>)
    | Equal(attribute: string, values: seq<string>)
    | Contains(attribute: string, values: seq<string>)
    | Limit(count: int)
    | OrderAsc(attribute: string)
    | OrderDesc(attribute: string)

  /** JavaScript's `s.split(sep)` for a one-character separator. */
  function Split(s: string, sep: char): (parts: seq<string>)
    ensures |parts| >= 1
    ensures forall i :: 0 <= i < |parts| ==> sep !in parts[i]
    decreases |s|
  {
    if s == [] then [""]
    else if s[0] == sep then [""] + Split(s[1..], sep)
    else
      var rest := Split(s[1..], sep);
      [[s[0]] + rest[0]] + rest[1..]
  }

  /** JavaScript's `parts.join(sep)`: the inverse of `Split`. */
  function Join(parts: seq<string>, sep: char): string
    requires |parts| >= 1
    decreases |parts|
  {
    if |parts| == 1 then parts[0] else parts[0] + [sep] + Join(parts[1..], sep)
  }

  /** Splitting loses nothing: joining the parts back gives the original string. */
  lemma {:induction false} JoinSplit(s: string, sep: char)
    ensures Join(Split(s, sep), sep) == s
    decreases |s|
  {
    if s != [] {
      JoinSplit(s[1..], sep);
      var rest := Split(s[1..], sep);
      var parts := Split(s, sep);
      if s[0] == sep {
        assert parts[1..] == rest;
        assert s == [sep] + s[1..];
      } else if |rest| == 1 {
        assert s == [s[0]] + s[1..];
      } else {
        assert parts[1..] == rest[1..];
        assert s == [s[0]] + s[1..];
      }
    }
  }

  /** A string without the separator splits into itself. */
  lemma {:induction false} SplitWithoutSeparator(s: string, sep: char)
    requires sep !in s
    ensures Split(s, sep) == [s]
    decreases |s|
  {
    if s != [] {
      assert sep !in s[1..];
      SplitWithoutSeparator(s[1..], sep);
      assert [s[0]] + s[1..] == s;
    }
  }

  /** A separator-free field followed by the separator splits off as the first part. */
  lemma {:induction false} SplitAfterField(field: string, sep: char, rest: string)
    requires sep !in field
    ensures Split(field + [sep] + rest, sep) == [field] + Split(rest, sep)
    decreases |field|
  {
    if field == [] {
      assert field + [sep] + rest == [sep] + rest;
    } else {
      var s := field + [sep] + rest;
      assert s[0] == field[0] && s[1..] == field[1..] + [sep] + rest;
      assert sep !in field[1..];
      SplitAfterField(field[1..], sep, rest);
      assert [field[0]] + field[1..] == field;
    }
  }

  /** The ownership-or-shared predicate every listing starts with. */
  function OwnerOrShared(user: UserDoc): Query
  {
    Or([Equal("owner", [user.id]), Contains("users", [user.email])])
  }

  /** `if (limit)`: a limit is applied only when it is given and non-zero. */
  predicate LimitSet(limit: Option<int>)
  {
    limit.Some? && limit.value != 0
  }

  /** The order predicate for `sortBy-orderBy`: ascending iff the second part is `asc`. */
  function SortQuery(sort: string): (q: Query)
    ensures (q.OrderAsc? || q.OrderDesc?) && q.attribute == Split(sort, '-')[0]
  {
    var parts := Split(sort, '-');
    if |parts| > 1 && parts[1] == "asc" then OrderAsc(parts[0]) else OrderDesc(parts[0])
  }

  /** The filter list that `createQueries` builds. */
  function Filters(user: UserDoc, types: seq<string>, searchText: string, sort: string, limit: Option<int>): (r: seq<Query>)
    ensures |r| >= 1 && r[0] == OwnerOrShared(user)
  {
    [OwnerOrShared(user)]
    + (if |types| > 0 then [Equal("type", types)] else [])
    + (if searchText != "" then [Contains("name", [searchText])] else [])
    + (if LimitSet(limit) then [Limit(limit.value)] else [])
    + (if sort != "" then [SortQuery(sort)] else [])
  }

  /** The position each kind of predicate takes in a filter list. */
  function Rank(q: Query): nat
  {
    match q
    case Or(_) => 0
    case Equal(_, _) => 1
    case Contains(_, _) => 2
    case Limit(_) => 3
    case OrderAsc(_) => 4
    case OrderDesc(_) => 4
  }

  /**
   * The filter list holds the ownership predicate first, then the optional
   * predicates in the fixed order type, name, limit, sort, each kind at most
   * once; its length is one plus the number of options that ask for a predicate.
   */
  lemma FiltersOrder(user: UserDoc, types: seq<string>, searchText: string, sort: string, limit: Option<int>)
    ensures var r := Filters(user, types, searchText, sort, limit);
      && r[0] == OwnerOrShared(user)
      && (forall i, j :: 0 <= i < j < |r| ==> Rank(r[i]) < Rank(r[j]))
      && |r| == 1 + (if |types| > 0 then 1 else 0) + (if searchText != "" then 1 else 0)
                  + (if LimitSet(limit) then 1 else 0) + (if sort != "" then 1 else 0)
  {
  }

  /** Each optional predicate is in the filter list exactly when its input asks for it, and carries that input. */
  lemma FiltersLayout(user: UserDoc, types: seq<string>, searchText: string, sort: string, limit: Option<int>)
    ensures var r := Filters(user, types, searchText, sort, limit);
      && (Equal("type", types) in r <==> |types| > 0)
      && (forall q :: q in r && q.Equal? ==> q == Equal("type", types))
      && (Contains("name", [searchText]) in r <==> searchText != "")
      && (forall q :: q in r && q.Contains? ==> q == Contains("name", [searchText]))
      && ((exists q :: q in r && q.Limit?) <==> LimitSet(limit))
      && (forall q :: q in r && q.Limit? ==> q == Limit(limit.value))
      && ((exists q :: q in r && Rank(q) == 4) <==> sort != "")
      && (forall q :: q in r && Rank(q) == 4 ==> q == SortQuery(sort))
  {
    var r := Filters(user, types, searchText, sort, limit);
    if LimitSet(limit) {
      assert r[|r| - 1 - (if sort != "" then 1 else 0)] == Limit(limit.value);
    }
    if sort != "" {
      assert r[|r| - 1] == SortQuery(sort) && Rank(SortQuery(sort)) == 4;
    }
  }

  /**
   * For a sort string `field-rest` with a `-`-free field, the order predicate
   * sorts on `field`, ascending iff the text of `rest` up to its first `-`
   * is exactly `asc` (so `name-asc-x` is ascending too).
   */
  lemma SortOfFieldAndDirection(field: string, rest: string)
    requires '-' !in field
    ensures SortQuery(field + "-" + rest)
         == if Split(rest, '-')[0] == "asc" then OrderAsc(field) else OrderDesc(field)
  {
    SplitAfterField(field, '-', rest);
  }

  /** A sort string with no `-` sorts descending on the whole string. */
  lemma SortWithoutDirection(field: string)
    requires '-' !in field
    ensures SortQuery(field) == OrderDesc(field)
  {
    SplitWithoutSeparator(field, '-');
  }

  /** Builds the filter list by appending predicates one at a time. */
  method CreateQueries(currentUser: UserDoc, types: seq<string>, searchText: string, sort: string, limit: Option<int>)
    returns (queries: seq<Query>)
    ensures queries == Filters(currentUser, types, searchText, sort, limit)
  {
    queries := [OwnerOrShared(currentUser)];
    if |types| > 0 {
      queries := queries + [Equal("type", types)];
    }
    if searchText != "" {
      queries := queries + [Contains("name", [searchText])];
    }
    if LimitSet(limit) {
      queries := queries + [Limit(limit.value)];
    }
    if sort != "" {
      var parts := Split(sort, '-');
      var sortBy := parts[0];
      var orderBy := if |parts| > 1 then Some(parts[1]) else None;
      queries := queries + [if orderBy == Some("asc") then OrderAsc(sortBy) else OrderDesc(sortBy)];
    }
  }

  /** The options of `getFiles`; a missing (`undefined`) option takes its default. */
  datatype GetFilesProps = GetFilesProps(
    types: Option<seq<string>>,
    searchText: Option<string>,
    sort: Option<string>,
    limit: Option<int>)

  const DefaultSort: string := "$createdAt-desc"

  function OrDefault<T>(o: Option<T>, default: T): T
  {
    if o.Some? then o.value else default
  }

  /** The filter list `getFiles` sends for a signed-in user. */
  function ListingQueries(user: UserDoc, props: GetFilesProps): (r: seq<Query>)
    ensures |r| >= 1 && r[0] == OwnerOrShared(user)
    ensures props.sort.None? ==> r[|r| - 1] == OrderDesc("$createdAt")
  {
    assert DefaultSort == "$createdAt" + "-" + "desc";
    SortOfFieldAndDirection("$createdAt", "desc");
    SplitWithoutSeparator("desc", '-');
    Filters(user, OrDefault(props.types, []), OrDefault(props.searchText, ""),
            OrDefault(props.sort, DefaultSort), props.limit)
  }

  /** With every option left out, the listing is the ownership predicate followed by newest-created first. */
  lemma DefaultListing(user: UserDoc)
    ensures ListingQueries(user, GetFilesProps(None, None, None, None))
         == [OwnerOrShared(user), OrderDesc("$createdAt")]
  {
    assert DefaultSort == "$createdAt" + "-" + "desc";
    SortOfFieldAndDirection("$createdAt", "desc");
    SplitWithoutSeparator("desc", '-');
  }

  /**
   * `getFiles`: without a current user the thrown error is handed to a
   * never-awaited handler, so the caller receives `undefined`; the same holds
   * when the listing call fails.  `listDocuments` is the backend's answer to
   * a filter list (`None` when the call fails).
   */
  method GetFiles(currentUser: Option<UserDoc>, props: GetFilesProps,
                  listDocuments: seq<Query> -> Option<seq<FileDoc>>)
    returns (r: Reply<seq<FileDoc>>)
    ensures currentUser.None? ==> r == Undefined
    ensures currentUser.Some? ==>
      var answer := listDocuments(ListingQueries(currentUser.value, props));
      r == if answer.Some? then Value(answer.value) else Undefined
  {
    if currentUser.None? {
      return Undefined;
    }
    var queries := CreateQueries(currentUser.value, OrDefault(props.types, []),
                                 OrDefault(props.searchText, ""), OrDefault(props.sort, DefaultSort), props.limit);
    var files := listDocuments(queries);
    if files.None? {
      return Undefined;
    }
    r := Value(files.value);
  }
}
