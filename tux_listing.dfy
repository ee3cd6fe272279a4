/**
 * The permission editor's file browser: the order of a directory listing and the
 * directory cache with its eviction of idle entries.
 *
 * The filesystem and the clock are not part of the model: the directory's entries, its
 * modification time and the current time are inputs.
 */
module TuxListing {

  datatype FileEntry = FileEntry(name: string, isDirectory: bool, mtime: int, size: int)

  /** std::string's operator<: lexicographic by character code, a proper prefix first. */
  predicate NameLess(a: string, b: string)
    decreases |a|
  {
    if a == [] then b != []
    else if b == [] then false
    else if a[0] != b[0] then a[0] < b[0]
    else NameLess(a[1..], b[1..])
  }

  /** The sort comparator: directories before files, then names ascending. It never puts
      a file before a directory, and it is strict: no entry comes before one of the same
      kind and name. */
  predicate Before(a: FileEntry, b: FileEntry)
    ensures Before(a, b) ==> a.isDirectory || !b.isDirectory
    ensures Before(a, b) ==> a.isDirectory != b.isDirectory || a.name != b.name
  {
    NameLessOrder(a.name, b.name, b.name);
    if a.isDirectory != b.isDirectory then a.isDirectory else NameLess(a.name, b.name)
  }

  /** NameLess is a strict total order on names. */
  lemma {:induction false} NameLessOrder(a: string, b: string, c: string)
    ensures !NameLess(a, a)
    ensures a != b ==> NameLess(a, b) || NameLess(b, a)
    ensures NameLess(a, b) ==> !NameLess(b, a)
    ensures NameLess(a, b) && NameLess(b, c) ==> NameLess(a, c)
    decreases |a|
  {
    if a != [] && b != [] && c != [] {
      NameLessOrder(a[1..], b[1..], c[1..]);
      if a[0] == b[0] && a[1..] != b[1..] {
        assert a[1..] != b[1..];
      }
      if a[0] == b[0] && a[1..] == b[1..] {
        assert a == [a[0]] + a[1..] && b == [b[0]] + b[1..];
      }
    } else if a != [] && b != [] {
      NameLessOrder(a[1..], b[1..], b[1..]);
      if a[0] == b[0] && a[1..] == b[1..] {
        assert a == [a[0]] + a[1..] && b == [b[0]] + b[1..];
      }
    } else if a != [] {
      NameLessOrder(a[1..], a[1..], a[1..]);
    }
  }

  /** a may stay ahead of b: the sort never needs to swap them. */
  predicate NotAfter(a: FileEntry, b: FileEntry) {
    !Before(b, a)
  }

  lemma NotAfterOrder(a: FileEntry, b: FileEntry, c: FileEntry)
    ensures Before(a, b) ==> NotAfter(a, b)
    ensures NotAfter(a, b) || NotAfter(b, a)
    ensures NotAfter(a, b) && NotAfter(b, c) ==> NotAfter(a, c)
  {
    NameLessOrder(a.name, b.name, c.name);
    NameLessOrder(c.name, b.name, a.name);
    NameLessOrder(b.name, a.name, c.name);
    NameLessOrder(a.name, c.name, b.name);
  }

  predicate Sorted(s: seq<FileEntry>) {
    forall i, j :: 0 <= i < j < |s| ==> NotAfter(s[i], s[j])
  }

  /** e inserted into a sorted listing at its place. */
  function Insert(e: FileEntry, s: seq<FileEntry>): seq<FileEntry> {
    if s == [] then [e]
    else if Before(s[0], e) then [s[0]] + Insert(e, s[1..])
    else [e] + s
  }

  /** Insertion adds exactly the entry. */
  lemma {:induction false} InsertPerm(e: FileEntry, s: seq<FileEntry>)
    ensures multiset(Insert(e, s)) == multiset(s) + multiset{e}
  {
    if s != [] && Before(s[0], e) {
      InsertPerm(e, s[1..]);
      assert s == [s[0]] + s[1..];
    }
  }

  /** An entry that may stay ahead of every entry of a sorted listing extends it. */
  lemma ConsSorted(x: FileEntry, r: seq<FileEntry>)
    requires Sorted(r) && forall k :: 0 <= k < |r| ==> NotAfter(x, r[k])
    ensures Sorted([x] + r)
  {
    var t := [x] + r;
    forall i, j | 0 <= i < j < |t|
      ensures NotAfter(t[i], t[j])
    {
      assert t[j] == r[j - 1];
      if i > 0 {
        assert t[i] == r[i - 1];
      }
    }
  }

  /** Insertion keeps a listing sorted. */
  lemma {:induction false} InsertSorted(e: FileEntry, s: seq<FileEntry>)
    requires Sorted(s)
    ensures Sorted(Insert(e, s))
  {
    if s == [] {
    } else if Before(s[0], e) {
      var rest := Insert(e, s[1..]);
      InsertSorted(e, s[1..]);
      InsertPerm(e, s[1..]);
      forall k | 0 <= k < |rest|
        ensures NotAfter(s[0], rest[k])
      {
        assert rest[k] in multiset(s[1..]) + multiset{e};
        if rest[k] == e {
          NotAfterOrder(s[0], e, e);
        } else {
          assert rest[k] in s[1..];
        }
      }
      ConsSorted(s[0], rest);
    } else {
      forall k | 0 <= k < |s|
        ensures NotAfter(e, s[k])
      {
        NotAfterOrder(e, s[0], s[k]);
      }
      ConsSorted(e, s);
    }
  }

  /** std::sort with the comparator: a sorted rearrangement of the entries. */
  function SortEntries(s: seq<FileEntry>): (r: seq<FileEntry>)
    ensures multiset(r) == multiset(s)
    ensures Sorted(r)
  {
    if s == [] then []
    else
      var init := SortEntries(s[..|s| - 1]);
      assert s == s[..|s| - 1] + [s[|s| - 1]];
      InsertPerm(s[|s| - 1], init);
      InsertSorted(s[|s| - 1], init);
      Insert(s[|s| - 1], init)
  }

  const DOT := FileEntry(".", true, 0, 0)
  const DOTDOT := FileEntry("..", true, 0, 0)

  /** read_directory's listing of the entries the directory holds: a sorted arrangement
      of `.`, `..` and the entries. */
  function Listing(entries: seq<FileEntry>): (r: seq<FileEntry>)
    ensures Sorted(r) && multiset(r) == multiset([DOT, DOTDOT] + entries)
    ensures DOT in r && DOTDOT in r
  {
    var r := SortEntries([DOT, DOTDOT] + entries);
    assert DOT in multiset(r) && DOTDOT in multiset(r);
    r
  }

  /** What a listing is: sorted, with `.` and `..` in it. */
  predicate IsListing(files: seq<FileEntry>) {
    Sorted(files) && DOT in files && DOTDOT in files
  }

  /** The listing holds `.`, `..` and exactly the entries, directories first and names
      ascending among directories and among files. */
  lemma ListingOrder(entries: seq<FileEntry>)
    ensures var r := Listing(entries);
      IsListing(r) && multiset(r) == multiset([DOT, DOTDOT] + entries) &&
      (forall i, j :: 0 <= i < j < |r| && r[j].isDirectory ==> r[i].isDirectory) &&
      (forall i, j :: 0 <= i < j < |r| && r[i].isDirectory == r[j].isDirectory ==> !NameLess(r[j].name, r[i].name))
  {
    var r := Listing(entries);
    assert DOT in multiset(r) && DOTDOT in multiset(r);
  }

  // ---------------------------------------------------------------------------
  // The directory cache

  /** Seconds between cleans, and the idle time after which an entry is dropped. */
  const CACHE_SECONDS := 300

  datatype CacheEntry = CacheEntry(files: seq<FileEntry>, lastAccessed: int)

  /** The entries used within the last CACHE_SECONDS: a part of m, holding each entry
      of m that is not idle, as it was, and none that is. */
  function Recent(m: map<string, CacheEntry>, now: int): (r: map<string, CacheEntry>)
    ensures r.Keys <= m.Keys && forall k :: k in r ==> r[k] == m[k]
    ensures forall k :: k in m ==> (k in r <==> now - m[k].lastAccessed <= CACHE_SECONDS)
  {
    map k | k in m && now - m[k].lastAccessed <= CACHE_SECONDS :: m[k]
  }

  /** A clean drops exactly the idle entries and keeps the rest as they were; a second
      clean at the same time drops nothing more. */
  lemma RecentKeeps(m: map<string, CacheEntry>, now: int, k: string)
    ensures k in Recent(m, now) <==> k in m && now - m[k].lastAccessed <= CACHE_SECONDS
    ensures k in Recent(m, now) ==> Recent(m, now)[k] == m[k]
    ensures Recent(Recent(m, now), now) == Recent(m, now)
  {
  }

  /** dir_cache and last_cache_clean. */
  class DirectoryCache {
    var entries: map<string, CacheEntry>
    var lastClean: int

    /** Every cached listing is a listing. */
    predicate Valid()
      reads this
    {
      forall k :: k in entries ==> IsListing(entries[k].files)
    }

    constructor ()
      ensures Valid() && entries == map[] && lastClean == 0
    {
      entries := map[];
      lastClean := 0;
    }

    /** clean_old_cache: at most every CACHE_SECONDS, drop the entries idle for longer. */
    method CleanOldCache(now: int)
      requires Valid()
      modifies this
      ensures Valid()
      ensures now - old(lastClean) < CACHE_SECONDS ==> entries == old(entries) && lastClean == old(lastClean)
      ensures now - old(lastClean) >= CACHE_SECONDS ==> entries == Recent(old(entries), now) && lastClean == now
    {
      if now - lastClean < CACHE_SECONDS {
        return;
      }
      var remaining := entries.Keys;
      while remaining != {}
        invariant remaining <= old(entries).Keys
        invariant entries == map k | k in old(entries) && (k in remaining || now - old(entries)[k].lastAccessed <= CACHE_SECONDS) :: old(entries)[k]
        decreases remaining
      {
        var k :| k in remaining;
        if now - entries[k].lastAccessed > CACHE_SECONDS {
          entries := entries - {k};
        }
        remaining := remaining - {k};
      }
      lastClean := now;
    }

    /** read_directory(path) at time now, for a directory whose modification time is
        mtime (0 when it cannot be read) and which holds the given entries: the cached
        listing while it is newer than the directory, else a fresh listing, cached. */
    method ReadDirectory(path: string, now: int, mtime: int, contents: seq<FileEntry>) returns (files: seq<FileEntry>)
      requires Valid()
      modifies this
      ensures Valid() && IsListing(files)
      ensures var kept := if now - old(lastClean) >= CACHE_SECONDS then Recent(old(entries), now) else old(entries);
        files == (if path in kept && mtime != 0 && kept[path].lastAccessed >= mtime then kept[path].files else Listing(contents)) &&
        entries == kept[path := CacheEntry(files, now)]
    {
      CleanOldCache(now);
      if path in entries && mtime != 0 && entries[path].lastAccessed >= mtime {
        entries := entries[path := entries[path].(lastAccessed := now)];
        return entries[path].files;
      }
      files := Listing(contents);
      ListingOrder(contents);
      entries := entries[path := CacheEntry(files, now)];
    }
  }
}
