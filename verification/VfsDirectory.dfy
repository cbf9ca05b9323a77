/** Directory listings of the virtual drive (`desktop/src/vfs.rs`): built once, sorted by file id,
    cached for a while and paged by a last-id cursor. */
module VfsDirectory {
  import opened Basics
  import opened VfsIds

  datatype Entry = Entry(id: FileId, subject: Subject)

  type Listing = seq<Entry>

  // ---- Building a listing -------------------------------------------------------------------

  /** Ids are strictly increasing. */
  predicate Ascending(listing: Listing) {
    forall i, j :: 0 <= i < j < |listing| ==> listing[i].id < listing[j].id
  }

  predicate DistinctIds(listing: Listing) {
    forall i, j :: 0 <= i < j < |listing| ==> listing[i].id != listing[j].id
  }

  function InsertById(entry: Entry, sorted: Listing): Listing {
    if sorted == [] || entry.id < sorted[0].id then [entry] + sorted
    else [sorted[0]] + InsertById(entry, sorted[1..])
  }

  /** `entries.sort_by_key(|(id, _, _)| *id)`. */
  function SortById(entries: Listing): Listing {
    if entries == [] then [] else InsertById(entries[0], SortById(entries[1..]))
  }

  lemma AscendingJoin(left: Listing, right: Listing)
    requires Ascending(left) && Ascending(right)
    requires left != [] ==> forall e :: e in right ==> left[|left| - 1].id < e.id
    ensures Ascending(left + right)
  {
    var all := left + right;
    forall i, j | 0 <= i < j < |all| ensures all[i].id < all[j].id {
      if i < |left| <= j {
        assert right[j - |left|] in right;
        assert left[i].id <= left[|left| - 1].id;
      }
    }
  }

  lemma {:induction false} InsertByIdContents(entry: Entry, sorted: Listing)
    ensures multiset(InsertById(entry, sorted)) == multiset(sorted) + multiset{entry}
  {
    if sorted != [] {
      assert sorted == [sorted[0]] + sorted[1..];
      if entry.id >= sorted[0].id { InsertByIdContents(entry, sorted[1..]); }
    }
  }

  lemma OneAscends(e: Entry)
    ensures Ascending([e])
  {
  }

  lemma {:induction false} InsertByIdAscending(entry: Entry, sorted: Listing)
    requires Ascending(sorted) && forall e :: e in sorted ==> e.id != entry.id
    ensures Ascending(InsertById(entry, sorted))
  {
    hide Ascending;
    OneAscends(entry);
    if sorted != [] {
      var head, tail := sorted[0], sorted[1..];
      assert head in sorted;
      TailEntries(sorted);
      forall e | e in tail ensures head.id < e.id { HeadIsLeast(sorted, e); }
      if entry.id < head.id {
        forall e | e in sorted ensures entry.id < e.id { HeadIsLeast(sorted, e); }
        AscendingJoin([entry], sorted);
      } else {
        InsertByIdAscending(entry, tail);
        InsertByIdContents(entry, tail);
        OneAscends(head);
        forall e | e in InsertById(entry, tail) ensures head.id < e.id {
          assert e in multiset(InsertById(entry, tail));
        }
        AscendingJoin([head], InsertById(entry, tail));
      }
    } else {
      assert [entry] + sorted == [entry];
    }
  }

  lemma {:induction false} SortByIdContents(entries: Listing)
    ensures multiset(SortById(entries)) == multiset(entries)
    ensures forall e :: e in SortById(entries) <==> e in entries
  {
    hide InsertById;
    if entries != [] {
      SortByIdContents(entries[1..]);
      assert entries == [entries[0]] + entries[1..];
      InsertByIdContents(entries[0], SortById(entries[1..]));
    }
    assert forall e :: e in SortById(entries) <==> e in multiset(SortById(entries));
    assert forall e :: e in entries <==> e in multiset(entries);
  }

  lemma DistinctRest(entries: Listing)
    requires DistinctIds(entries) && entries != []
    ensures DistinctIds(entries[1..]) && forall e :: e in entries[1..] ==> e.id != entries[0].id
  {
  }

  /** Sorting a listing with distinct ids gives the strictly ascending listing of the same entries. */
  lemma {:induction false} SortByIdAscending(entries: Listing)
    requires DistinctIds(entries)
    ensures Ascending(SortById(entries))
    ensures multiset(SortById(entries)) == multiset(entries)
    ensures forall e :: e in SortById(entries) <==> e in entries
  {
    hide InsertById, DistinctIds;
    SortByIdContents(entries);
    if entries != [] {
      hide Ascending;
      DistinctRest(entries);
      SortByIdAscending(entries[1..]);
      InsertByIdAscending(entries[0], SortById(entries[1..]));
    }
  }

  /** Every child's entry, minting ids as needed. */
  function EntriesFor(st: Ids, children: seq<Subject>): (Ids, Listing)
    decreases |children|
  {
    if children == [] then (st, [])
    else
      var n := |children| - 1;
      var (before, entries) := EntriesFor(st, children[..n]);
      var (after, id) := GetOrAlloc(before, children[n]);
      (after, entries + [Entry(id, children[n])])
  }

  /** Each entry carries its child's id, in order; distinct children have distinct ids, even after a stale
      pair was forgotten. */
  lemma {:induction false} EntriesForIds(st: Ids, children: seq<Subject>)
    requires Counted(st) && NoRepeats(children)
    ensures var (st', entries) := EntriesFor(st, children);
            && Counted(st') && |entries| == |children|
            && (forall i :: 0 <= i < |children| ==>
                  && entries[i].subject == children[i] && entries[i].id > ROOT_ID
                  && children[i] in st'.cache.idOf && st'.cache.idOf[children[i]] == entries[i].id)
            && (forall s :: s !in children ==> IdOf(st', s) == IdOf(st, s))
            && DistinctIds(entries)
    decreases |children|
  {
    hide Counted, IdOf, Named, GetOrAlloc, DistinctIds;
    if children == [] {
      assert DistinctIds([]) by { NoEntriesDistinct(); }
    } else {
      var n := |children| - 1;
      assert forall i | 0 <= i < n :: children[..n][i] == children[i];
      EntriesForIds(st, children[..n]);
      var (before, entries) := EntriesFor(st, children[..n]);
      assert children[n] !in children[..n];
      GetOrAllocCounted(before, children[n]);
      var (st', all) := EntriesFor(st, children);
      CachedApart(st', children, all);
      forall s | s !in children ensures IdOf(st', s) == IdOf(st, s) {
        assert children == children[..n] + [children[n]];
      }
    }
  }

  lemma NoEntriesDistinct()
    ensures DistinctIds([])
  {
  }

  lemma CachedApart(st: Ids, children: seq<Subject>, entries: Listing)
    requires Counted(st) && NoRepeats(children) && |entries| == |children|
    requires forall i :: 0 <= i < |children| ==>
               children[i] in st.cache.idOf && st.cache.idOf[children[i]] == entries[i].id
    ensures DistinctIds(entries)
  {
    hide Counted, Named;
    forall i, j | 0 <= i < j < |entries| ensures entries[i].id != entries[j].id {
      CachedIsNamed(st, children[i]);
      CachedIsNamed(st, children[j]);
      OnlyName(st, entries[i].id, children[i]);
    }
  }

  lemma CachedIsNamed(st: Ids, subject: Subject)
    requires subject in st.cache.idOf
    ensures Named(st, st.cache.idOf[subject], subject) && IdOf(st, subject) == Some(st.cache.idOf[subject])
  {
  }

  // ---- One page -----------------------------------------------------------------------------

  datatype Page = Page(entries: Listing, end: bool)

  /** Index of the first entry past the cursor. */
  function FirstAfter(listing: Listing, cursor: FileId): (n: nat)
    ensures n <= |listing|
    ensures forall k :: 0 <= k < n ==> listing[k].id <= cursor
    ensures n < |listing| ==> listing[n].id > cursor
  {
    if listing == [] || listing[0].id > cursor then 0 else 1 + FirstAfter(listing[1..], cursor)
  }

  function PageOf(listing: Listing, cursor: FileId, max: nat): Page {
    var remaining := listing[FirstAfter(listing, cursor)..];
    Page(if |remaining| <= max then remaining else remaining[..max], |remaining| <= max)
  }

  /** A page is ascending, lies past the cursor, and leaves out only what lies past its last entry; it says it
      is the end exactly when it leaves out nothing. */
  lemma PageOfWindow(listing: Listing, cursor: FileId, max: nat)
    requires Ascending(listing) && max > 0
    ensures var page := PageOf(listing, cursor, max);
            && Ascending(page.entries) && |page.entries| <= max
            && (forall e :: e in page.entries ==> e in listing && e.id > cursor)
            && (forall e :: e in listing && e.id > cursor ==>
                  e in page.entries || (!page.end && page.entries != [] && e.id > page.entries[|page.entries| - 1].id))
            && (page.entries == [] ==> page.end)
            && (page.end <==> forall e :: e in listing && e.id > cursor ==> e in page.entries)
  {
    hide PageOf, FirstAfter, Ascending;
    PageIsSlice(listing, cursor, max);
    var page := PageOf(listing, cursor, max);
    if !page.end { MoreBeyond(listing, cursor, max); }
    forall e | e in listing && e.id > cursor
      ensures e in page.entries || (!page.end && page.entries != [] && e.id > page.entries[|page.entries| - 1].id)
    {
      EntryOnPageOrLater(listing, cursor, max, e);
    }
  }

  lemma PageIsSlice(listing: Listing, cursor: FileId, max: nat)
    requires Ascending(listing) && max > 0
    ensures var page, n := PageOf(listing, cursor, max), FirstAfter(listing, cursor);
            && |page.entries| <= max && n + |page.entries| <= |listing| && page.entries == listing[n..n + |page.entries|]
            && (page.end ==> n + |page.entries| == |listing|) && (!page.end ==> |page.entries| == max)
    ensures Ascending(PageOf(listing, cursor, max).entries)
    ensures forall e :: e in PageOf(listing, cursor, max).entries ==> e in listing && e.id > cursor
  {
    hide Ascending, FirstAfter;
    var page, n := PageOf(listing, cursor, max), FirstAfter(listing, cursor);
    assert page.entries == listing[n..n + |page.entries|];
    SliceOfAscending(listing, n, n + |page.entries|, cursor);
  }

  lemma MoreBeyond(listing: Listing, cursor: FileId, max: nat)
    requires Ascending(listing) && max > 0 && !PageOf(listing, cursor, max).end
    ensures exists e :: e in listing && e.id > cursor && e !in PageOf(listing, cursor, max).entries
  {
    hide FirstAfter;
    var n := FirstAfter(listing, cursor);
    var e := listing[n + max];
    FirstAfterBelow(listing, cursor, n + max);
    assert PageOf(listing, cursor, max).entries == listing[n..n + max];
    assert forall k | n <= k < n + max :: listing[k] != e;
  }

  lemma SliceOfAscending(listing: Listing, from: nat, to: nat, cursor: FileId)
    requires Ascending(listing) && FirstAfter(listing, cursor) <= from <= to <= |listing|
    ensures Ascending(listing[from..to])
    ensures forall e :: e in listing[from..to] ==> e in listing && e.id > cursor
  {
    forall e | e in listing[from..to] ensures e in listing && e.id > cursor {
      var k :| 0 <= k < to - from && listing[from..to][k] == e;
      assert listing[from + k] == e;
      FirstAfterBelow(listing, cursor, from + k);
    }
  }

  lemma EntryOnPageOrLater(listing: Listing, cursor: FileId, max: nat, e: Entry)
    requires Ascending(listing) && max > 0 && e in listing && e.id > cursor
    ensures var page := PageOf(listing, cursor, max);
            e in page.entries || (!page.end && page.entries != [] && e.id > page.entries[|page.entries| - 1].id)
  {
    hide PageOf, Ascending;
    PageIsSlice(listing, cursor, max);
    var page, n := PageOf(listing, cursor, max), FirstAfter(listing, cursor);
    var m := n + |page.entries|;
    var k :| 0 <= k < |listing| && listing[k] == e;
    assert k >= n;
    if k < m {
      assert page.entries[k - n] == e;
    } else {
      assert !page.end && page.entries[max - 1] == listing[m - 1];
      AscendingAt(listing, m - 1, k);
    }
  }

  lemma AscendingAt(listing: Listing, i: nat, j: nat)
    requires Ascending(listing) && i < j < |listing|
    ensures listing[i].id < listing[j].id
  {
  }

  // ---- A whole enumeration ------------------------------------------------------------------

  /** One page request: the listing it is served from and the most entries it may return. */
  datatype Request = Request(listing: Listing, max: nat)

  /** What a client collects by following the last id of each page, and whether it reached the end. */
  function Enumerate(requests: seq<Request>, cursor: FileId): Page {
    if requests == [] then Page([], false)
    else
      var page := PageOf(requests[0].listing, cursor, requests[0].max);
      if page.end || page.entries == [] then page
      else
        var rest := Enumerate(requests[1..], page.entries[|page.entries| - 1].id);
        Page(page.entries + rest.entries, rest.end)
  }

  ghost predicate Served(requests: seq<Request>) {
    forall r :: r in requests ==> Ascending(r.listing) && r.max > 0
  }

  lemma {:induction false} EnumerationAscends(requests: seq<Request>, cursor: FileId)
    requires Served(requests)
    ensures var all := Enumerate(requests, cursor);
            && Ascending(all.entries) && forall e :: e in all.entries ==> e.id > cursor
    decreases |requests|
  {
    hide PageOf, FirstAfter;
    if requests != [] {
      var page := PageOf(requests[0].listing, cursor, requests[0].max);
      assert requests[0] in requests;
      PageOfWindow(requests[0].listing, cursor, requests[0].max);
      if !(page.end || page.entries == []) {
        var last := page.entries[|page.entries| - 1];
        assert last in page.entries;
        assert forall r :: r in requests[1..] ==> r in requests;
        EnumerationAscends(requests[1..], last.id);
        AscendingJoin(page.entries, Enumerate(requests[1..], last.id).entries);
      }
    }
  }

  lemma {:induction false} EnumerationIsTruthful(requests: seq<Request>, cursor: FileId, e: Entry)
    requires Served(requests) && e in Enumerate(requests, cursor).entries
    ensures exists r :: r in requests && e in r.listing
    decreases |requests|
  {
    var page := PageOf(requests[0].listing, cursor, requests[0].max);
    assert requests[0] in requests;
    PageOfWindow(requests[0].listing, cursor, requests[0].max);
    if e !in page.entries {
      assert forall r :: r in requests[1..] ==> r in requests;
      EnumerationIsTruthful(requests[1..], page.entries[|page.entries| - 1].id, e);
    }
  }

  lemma {:induction false} EnumerationIsComplete(requests: seq<Request>, cursor: FileId, e: Entry)
    requires Served(requests) && Enumerate(requests, cursor).end
    requires e.id > cursor && forall r :: r in requests ==> e in r.listing
    ensures e in Enumerate(requests, cursor).entries
    decreases |requests|
  {
    var page := PageOf(requests[0].listing, cursor, requests[0].max);
    assert requests[0] in requests;
    PageOfWindow(requests[0].listing, cursor, requests[0].max);
    if e !in page.entries {
      assert forall r :: r in requests[1..] ==> r in requests;
      EnumerationIsComplete(requests[1..], page.entries[|page.entries| - 1].id, e);
    }
  }

  /** However the directory changes between pages, ids come out strictly increasing (so never twice),
      each entry was really there, and a finished enumeration misses no entry that was there throughout. */
  lemma EnumerationIsExact(requests: seq<Request>)
    requires Served(requests)
    ensures var all := Enumerate(requests, 0);
            && Ascending(all.entries)
            && (forall e :: e in all.entries ==>
                  e.id > 0 && multiset(all.entries)[e] == 1 && exists r :: r in requests && e in r.listing)
            && (all.end ==> forall e: Entry :: e.id > 0 && (forall r :: r in requests ==> e in r.listing) ==>
                              e in all.entries)
  {
    var all := Enumerate(requests, 0);
    EnumerationAscends(requests, 0);
    forall e | e in all.entries ensures multiset(all.entries)[e] == 1 && exists r :: r in requests && e in r.listing {
      ListedOnce(all.entries, e);
      EnumerationIsTruthful(requests, 0, e);
    }
    forall e: Entry | all.end && e.id > 0 && (forall r :: r in requests ==> e in r.listing)
      ensures e in all.entries
    {
      EnumerationIsComplete(requests, 0, e);
    }
  }

  /** Strictly increasing ids: nothing is listed twice. */
  lemma ListedOnce(listing: Listing, e: Entry)
    requires Ascending(listing) && e in listing
    ensures multiset(listing)[e] == 1
  {
    var k :| 0 <= k < |listing| && listing[k] == e;
    var a, b := listing[..k], listing[k + 1..];
    assert listing == a + [e] + b;
    forall i | 0 <= i < |a| ensures a[i] != e { assert a[i] == listing[i]; }
    forall i | 0 <= i < |b| ensures b[i] != e { assert b[i] == listing[k + 1 + i]; }
    assert e !in a && e !in b;
  }

  lemma FirstAfterEntry(listing: Listing, n: nat)
    requires Ascending(listing) && n < |listing|
    ensures FirstAfter(listing, listing[n].id) == n + 1
  {
    var m := FirstAfter(listing, listing[n].id);
    assert m > n by {
      assert forall k :: 0 <= k <= n ==> listing[k].id <= listing[n].id;
    }
    assert n + 1 < |listing| ==> listing[n + 1].id > listing[n].id;
  }

  // ---- The cache in front of the listing ----------------------------------------------------

  const DIR_CACHE_TTL: nat := 5000

  datatype DirListing = DirListing(at: nat, entries: Listing)

  predicate Fresh(cache: map<FileId, DirListing>, dir: FileId, now: nat) {
    dir in cache && now - cache[dir].at < DIR_CACHE_TTL
  }

  function CachedOf(cache: map<FileId, DirListing>, dir: FileId): Option<DirListing> {
    if dir in cache then Some(cache[dir]) else None
  }

  /** One `readdir` call as it finds the directory: its entries then, and the time. */
  datatype Visit = Visit(entries: Listing, now: nat)

  /** The listing one call is served from, and what is cached afterwards: the cached one within its lifetime,
      unless the cursor is zero, which starts an enumeration and rebuilds it. */
  function Serving(cached: Option<DirListing>, v: Visit, cursor: FileId): DirListing {
    if cursor != 0 && cached.Some? && v.now - cached.value.at < DIR_CACHE_TTL then cached.value
    else DirListing(v.now, SortById(v.entries))
  }

  /** The listing names exactly the children, in the order of the ids they have. */
  ghost predicate Lists(entries: Listing, children: seq<Subject>, st: Ids) {
    && Ascending(entries) && |entries| == |children|
    && (forall e :: e in entries ==> e.subject in children && IdOf(st, e.subject) == Some(e.id))
    && (forall s :: s in children ==> exists e :: e in entries && e.subject == s)
  }

  lemma SortedLists(unsorted: Listing, children: seq<Subject>, st: Ids)
    requires DistinctIds(unsorted) && |unsorted| == |children|
    requires forall k | 0 <= k < |children| :: unsorted[k].subject == children[k] && IdOf(st, children[k]) == Some(unsorted[k].id)
    ensures Lists(SortById(unsorted), children, st)
  {
    hide SortById, Ascending, DistinctIds;
    SortByIdAscending(unsorted);
    var entries := SortById(unsorted);
    assert |entries| == |multiset(entries)| == |multiset(unsorted)| == |unsorted|;
    forall s | s in children ensures exists e :: e in entries && e.subject == s {
      var k :| 0 <= k < |children| && children[k] == s;
      assert unsorted[k] in unsorted;
    }
    forall e | e in entries ensures e.subject in children && IdOf(st, e.subject) == Some(e.id) {
      var k :| 0 <= k < |unsorted| && unsorted[k] == e;
    }
  }

  class DirectoryCache {
    var listings: map<FileId, DirListing>
    const ids: IdMap

    constructor (ids: IdMap)
      ensures listings == map[] && this.ids == ids
    {
      this.listings, this.ids := map[], ids;
    }

    ghost predicate Sorted()
      reads this
    {
      forall d :: d in listings ==> Ascending(listings[d].entries)
    }

    /** `collect_dir_entries`: the children's entries in id order, with their ids persisted. */
    method Collect(children: seq<Subject>) returns (entries: Listing)
      requires Counted(ids.State()) && NoRepeats(children)
      modifies ids
      ensures Counted(ids.State()) && ids.pending == []
      ensures entries == SortById(EntriesFor(old(ids.State()), children).1)
      ensures Lists(entries, children, ids.State())
    {
      hide Counted, SortById, Ascending, DistinctIds, GetOrAlloc, ApplyBatch, Lists;
      var unsorted: Listing := [];
      var i := 0;
      ghost var start := ids.State();
      assert children[..0] == [];
      while i < |children|
        invariant 0 <= i <= |children|
        invariant (ids.State(), unsorted) == EntriesFor(start, children[..i])
      {
        assert children[..i + 1][..i] == children[..i];
        var id := ids.Get(children[i]);
        unsorted := unsorted + [Entry(id, children[i])];
        i := i + 1;
      }
      assert children[..i] == children;
      EntriesForIds(start, children);
      CallKeepsCounted(ids.State(), Persist);
      ghost var cache := ids.cache;
      ids.Persist();
      assert ids.cache == cache;
      entries := SortById(unsorted);
      SortedLists(unsorted, children, ids.State());
    }

    /** `readdir`, over the directory's current children: from the cached listing within its lifetime, and
        otherwise, as always from cursor zero, from one made anew. */
    method Readdir(dir: FileId, cursor: FileId, max: nat, children: seq<Subject>, now: nat) returns (page: Page)
      requires Sorted() && Counted(ids.State()) && NoRepeats(children)
      modifies this`listings, ids
      ensures Sorted() && Counted(ids.State()) && dir in listings
      ensures page == PageOf(listings[dir].entries, cursor, max)
      ensures listings[dir] == Serving(CachedOf(old(listings), dir), Visit(EntriesFor(old(ids.State()), children).1, now), cursor)
      ensures forall d :: d != dir ==> CachedOf(listings, d) == CachedOf(old(listings), d)
      ensures if cursor != 0 && dir in old(listings) && now - old(listings)[dir].at < DIR_CACHE_TTL
              then listings[dir] == old(listings)[dir]
              else listings[dir].at == now && Lists(listings[dir].entries, children, ids.State())
    {
      if cursor == 0 {
        listings := listings - {dir};
      }
      if !Fresh(listings, dir, now) {
        var entries := Collect(children);
        listings := listings[dir := DirListing(now, entries)];
      }
      page := PageOf(listings[dir].entries, cursor, max);
    }
  }

  // ---- A client's enumeration through the cache ---------------------------------------------

  /** The listings that consecutive calls of one enumeration are served from, each call following the
      last id of the page before it. */
  function ServedBy(cached: Option<DirListing>, visits: seq<Visit>, max: nat, cursor: FileId): seq<Request>
    decreases |visits|
  {
    if visits == [] then []
    else
      var now := Serving(cached, visits[0], cursor);
      var page := PageOf(now.entries, cursor, max);
      [Request(now.entries, max)] +
      if page.end || page.entries == [] then []
      else ServedBy(Some(now), visits[1..], max, page.entries[|page.entries| - 1].id)
  }

  /** Whatever the cache serves, every listing served is ascending, so the enumeration is exact. */
  lemma {:induction false} ServedByIsServed(cached: Option<DirListing>, visits: seq<Visit>, max: nat, cursor: FileId)
    requires max > 0 && (cached.Some? ==> Ascending(cached.value.entries))
    requires forall v :: v in visits ==> DistinctIds(v.entries)
    ensures Served(ServedBy(cached, visits, max, cursor))
    decreases |visits|
  {
    hide DistinctIds, Ascending, SortById, PageOf;
    if visits != [] {
      assert visits[0] in visits && forall u :: u in visits[1..] ==> u in visits;
      SortByIdAscending(visits[0].entries);
      var now := Serving(cached, visits[0], cursor);
      var page := PageOf(now.entries, cursor, max);
      if !(page.end || page.entries == []) {
        ServedByIsServed(Some(now), visits[1..], max, page.entries[|page.entries| - 1].id);
      }
    }
  }

  /** The directory as it was at one of the first calls, less than the cache lifetime before this one. */
  ghost predicate Recent(listing: Listing, visits: seq<Visit>, k: nat)
    requires k < |visits|
  {
    exists j: nat :: j <= k && visits[k].now - visits[j].now < DIR_CACHE_TTL
                     && Ascending(listing) && multiset(listing) == multiset(visits[j].entries)
  }

  /** Nothing stale is served: each page of an enumeration from cookie zero comes from the directory as it was,
      at one of its own calls, less than the cache lifetime before. */
  lemma ServedWithinLifetime(cached: Option<DirListing>, visits: seq<Visit>, max: nat, k: nat)
    requires max > 0 && forall v :: v in visits ==> DistinctIds(v.entries)
    requires k < |ServedBy(cached, visits, max, 0)|
    ensures k < |visits| && Recent(ServedBy(cached, visits, max, 0)[k].listing, visits, k)
  {
    hide ServedBy, SortById, Ascending, DistinctIds;
    ServedRecently(cached, visits, max, 0, visits, 0, 0, k);
  }

  /** From call `i` of all on, given a cached listing made at call `j`. */
  lemma {:induction false} ServedRecently(cached: Option<DirListing>, visits: seq<Visit>, max: nat, cursor: FileId,
      all: seq<Visit>, i: nat, j: nat, k: nat)
    requires max > 0 && (forall v :: v in all ==> DistinctIds(v.entries)) && i <= |all| && visits == all[i..]
    requires k < |ServedBy(cached, visits, max, cursor)|
    requires cursor != 0 ==> j < i && cached == Some(DirListing(all[j].now, SortById(all[j].entries)))
    ensures i + k < |all| && Recent(ServedBy(cached, visits, max, cursor)[k].listing, all, i + k)
    decreases |visits|
  {
    hide SortById, Ascending, DistinctIds, PageOf, FirstAfter, Serving, Recent;
    assert visits[0] == all[i] && visits[0] in all;
    var now := Serving(cached, visits[0], cursor);
    var j' := ServingMadeAt(cached, all, cursor, i, j);
    assert all[j'] in all;
    if k == 0 {
      MadeRecently(all, i, j');
    } else {
      var page := PageOf(now.entries, cursor, max);
      PastCursorServed(all[j'].entries, cursor, max);
      assert visits[1..] == all[i + 1..];
      ServedRecently(Some(now), visits[1..], max, page.entries[|page.entries| - 1].id, all, i + 1, j', k - 1);
    }
  }

  /** Which call made the listing that call `i` is served from. */
  lemma ServingMadeAt(cached: Option<DirListing>, all: seq<Visit>, cursor: FileId, i: nat, j: nat) returns (made: nat)
    requires i < |all| && (cursor != 0 ==> j < i && cached == Some(DirListing(all[j].now, SortById(all[j].entries))))
    ensures made <= i && all[i].now - all[made].now < DIR_CACHE_TTL
    ensures Serving(cached, all[i], cursor) == DirListing(all[made].now, SortById(all[made].entries))
  {
    hide SortById;
    made := if cursor != 0 && all[i].now - all[j].now < DIR_CACHE_TTL then j else i;
  }

  lemma MadeRecently(all: seq<Visit>, i: nat, made: nat)
    requires made <= i < |all| && all[i].now - all[made].now < DIR_CACHE_TTL && DistinctIds(all[made].entries)
    ensures Recent(SortById(all[made].entries), all, i)
  {
    hide SortById, Ascending, DistinctIds;
    SortByIdAscending(all[made].entries);
  }

  lemma PastCursorServed(entries: Listing, cursor: FileId, max: nat)
    requires DistinctIds(entries) && max > 0
    ensures var page := PageOf(SortById(entries), cursor, max);
            page.entries != [] ==> page.entries[|page.entries| - 1].id > cursor
  {
    hide SortById, Ascending, PageOf;
    SortByIdAscending(entries);
    PageOfWindow(SortById(entries), cursor, max);
    var page := PageOf(SortById(entries), cursor, max);
    assert page.entries != [] ==> page.entries[|page.entries| - 1] in page.entries;
  }

  lemma FullPage(listing: Listing, cursor: FileId, max: nat)
    ensures !PageOf(listing, cursor, max).end ==> |PageOf(listing, cursor, max).entries| == max
  {
  }

  lemma EnumerateServed(cached: Option<DirListing>, visits: seq<Visit>, max: nat, cursor: FileId)
    requires visits != [] && max > 0
    ensures var now := Serving(cached, visits[0], cursor);
            var page := PageOf(now.entries, cursor, max);
            Enumerate(ServedBy(cached, visits, max, cursor), cursor) ==
            if page.end || |page.entries| < max then page
            else
              var last := page.entries[max - 1].id;
              var rest := Enumerate(ServedBy(Some(now), visits[1..], max, last), last);
              Page(page.entries + rest.entries, rest.end)
  {
    hide SortById, FirstAfter, Serving, PageOf;
    var now := Serving(cached, visits[0], cursor);
    var page := PageOf(now.entries, cursor, max);
    FullPage(now.entries, cursor, max);
    var requests := ServedBy(cached, visits, max, cursor);
    assert requests[0] == Request(now.entries, max);
    if !page.end {
      assert requests[1..] == ServedBy(Some(now), visits[1..], max, page.entries[max - 1].id);
    }
  }

  /** The pages so far are a prefix of what `listing` holds past the cursor, all of it once the end is
      reported, which takes no more calls than there are entries. */
  predicate PagesOf(listing: Listing, cursor: FileId, all: Page, calls: nat) {
    var rest := listing[FirstAfter(listing, cursor)..];
    && |all.entries| <= |rest| && all.entries == rest[..|all.entries|]
    && (all.end ==> all.entries == rest)
    && (!all.end ==> |all.entries| >= calls)
  }

  lemma PageThenRest(listing: Listing, cursor: FileId, max: nat, rest: Page, calls: nat)
    requires Ascending(listing) && max > 0 && !PageOf(listing, cursor, max).end
    requires PagesOf(listing, PageOf(listing, cursor, max).entries[max - 1].id, rest, calls)
    ensures PagesOf(listing, cursor, Page(PageOf(listing, cursor, max).entries + rest.entries, rest.end), calls + 1)
  {
    hide Ascending, FirstAfter;
    var n := FirstAfter(listing, cursor);
    assert PageOf(listing, cursor, max).entries[max - 1] == listing[n + max - 1];
    FirstAfterEntry(listing, n + max - 1);
  }

  /** The listing stays the same for all calls to come: they are within its lifetime, or rebuild it as it is. */
  predicate Steady(cached: DirListing, visits: seq<Visit>) {
    || (forall v | v in visits :: v.now - cached.at < DIR_CACHE_TTL)
    || (forall v | v in visits :: SortById(v.entries) == cached.entries)
  }

  lemma SteadyStep(cached: DirListing, visits: seq<Visit>, cursor: FileId)
    requires Steady(cached, visits) && visits != [] && cursor > 0
    ensures var now := Serving(Some(cached), visits[0], cursor);
            now.entries == cached.entries && Steady(now, visits[1..])
  {
    hide SortById;
    assert visits[0] in visits && forall v :: v in visits[1..] ==> v in visits;
  }

  lemma {:induction false} SteadyPagesContinue(cached: DirListing, visits: seq<Visit>, max: nat, cursor: FileId)
    requires Ascending(cached.entries) && max > 0 && cursor > 0 && Steady(cached, visits)
    ensures PagesOf(cached.entries, cursor, Enumerate(ServedBy(Some(cached), visits, max, cursor), cursor), |visits|)
    decreases |visits|
  {
    if visits == [] {
      hide Ascending, SortById, FirstAfter, Steady;
    } else {
      hide Ascending, SortById, FirstAfter, Enumerate, ServedBy, PageOf, PagesOf, Steady, Serving;
      SteadyStep(cached, visits, cursor);
      var now := Serving(Some(cached), visits[0], cursor);
      EnumerateServed(Some(cached), visits, max, cursor);
      var page := PageOf(now.entries, cursor, max);
      FullPage(now.entries, cursor, max);
      if page.end {
        LastPage(now.entries, cursor, max, |visits|);
      } else {
        var last := page.entries[max - 1].id;
        PastCursor(now.entries, cursor, max);
        SteadyPagesContinue(now, visits[1..], max, last);
        PageThenRest(now.entries, cursor, max, Enumerate(ServedBy(Some(now), visits[1..], max, last), last), |visits| - 1);
      }
    }
  }

  lemma LastPage(listing: Listing, cursor: FileId, max: nat, calls: nat)
    requires PageOf(listing, cursor, max).end
    ensures PagesOf(listing, cursor, PageOf(listing, cursor, max), calls)
  {
    hide FirstAfter;
  }

  lemma PastCursor(listing: Listing, cursor: FileId, max: nat)
    requires Ascending(listing) && max > 0 && !PageOf(listing, cursor, max).end
    ensures PageOf(listing, cursor, max).entries[max - 1].id > cursor
  {
    hide FirstAfter;
    FirstAfterBelow(listing, cursor, FirstAfter(listing, cursor) + max - 1);
  }

  lemma FirstAfterBelow(listing: Listing, cursor: FileId, k: nat)
    requires Ascending(listing) && FirstAfter(listing, cursor) <= k < |listing|
    ensures listing[k].id > cursor
  {
    var n := FirstAfter(listing, cursor);
    assert listing[n].id <= listing[k].id;
  }

  /** Ascending listings of the same entries are the same. */
  lemma {:induction false} AscendingUnique(a: Listing, b: Listing)
    requires Ascending(a) && Ascending(b) && forall e :: e in a <==> e in b
    ensures a == b
    decreases |a|
  {
    HeadIn(a);
    HeadIn(b);
    if a != [] {
      HeadIsLeast(a, b[0]);
      HeadIsLeast(b, a[0]);
      TailEntries(a);
      TailEntries(b);
      AscendingUnique(a[1..], b[1..]);
    }
  }

  lemma HeadIn(a: Listing)
    ensures a != [] ==> a[0] in a
  {
  }

  lemma HeadIsLeast(a: Listing, e: Entry)
    requires Ascending(a) && e in a
    ensures a[0] == e || a[0].id < e.id
  {
  }

  lemma TailEntries(a: Listing)
    requires Ascending(a) && a != []
    ensures Ascending(a[1..]) && forall e :: e in a[1..] <==> e in a && e != a[0]
  {
    assert a == [a[0]] + a[1..];
    assert forall k | 0 <= k < |a[1..]| :: a[1..][k] == a[k + 1];
  }

  /** An enumeration from cookie zero returns exactly the directory as it was at the first call, in id order,
      when its later calls come within the cache lifetime, however the directory changes meanwhile, and at any
      times when the directory does not change. */
  lemma EnumerationIsSnapshot(cached: Option<DirListing>, visits: seq<Visit>, max: nat)
    requires visits != [] && max > 0 && forall e :: e in visits[0].entries ==> e.id > ROOT_ID
    requires forall v :: v in visits ==> DistinctIds(v.entries)
    requires || (forall v :: v in visits ==> v.now - visits[0].now < DIR_CACHE_TTL)
             || (forall v :: v in visits ==> forall e :: e in v.entries <==> e in visits[0].entries)
    ensures var all := Enumerate(ServedBy(cached, visits, max, 0), 0);
            && (all.end ==> all.entries == SortById(visits[0].entries))
            && (|visits| > |visits[0].entries| ==> all.end)
    ensures Ascending(SortById(visits[0].entries))
            && multiset(SortById(visits[0].entries)) == multiset(visits[0].entries)
  {
    hide Ascending, SortById, Enumerate, ServedBy, DistinctIds, PageOf, FirstAfter, PagesOf, Steady;
    assert visits[0] in visits;
    var now := DirListing(visits[0].now, SortById(visits[0].entries));
    var listing := now.entries;
    SortByIdAscending(visits[0].entries);
    assert |listing| == |multiset(listing)| == |visits[0].entries|;
    SteadyFromStart(visits);
    EnumerateServed(cached, visits, max, 0);
    var page := PageOf(listing, 0, max);
    FullPage(listing, 0, max);
    if page.end {
      LastPage(listing, 0, max, |visits|);
    } else {
      var last := page.entries[max - 1].id;
      PastCursor(listing, 0, max);
      SteadyPagesContinue(now, visits[1..], max, last);
      PageThenRest(listing, 0, max, Enumerate(ServedBy(Some(now), visits[1..], max, last), last), |visits| - 1);
    }
    WholeFromStart(listing, Enumerate(ServedBy(cached, visits, max, 0), 0), |visits|);
  }

  lemma WholeFromStart(listing: Listing, all: Page, calls: nat)
    requires PagesOf(listing, 0, all, calls) && forall e :: e in listing ==> e.id > ROOT_ID
    ensures all.end ==> all.entries == listing
    ensures calls > |listing| ==> all.end
  {
    assert listing != [] ==> listing[0] in listing;
    assert FirstAfter(listing, 0) == 0;
    assert listing[0..] == listing;
  }

  lemma SteadyFromStart(visits: seq<Visit>)
    requires visits != [] && forall v :: v in visits ==> DistinctIds(v.entries)
    requires || (forall v :: v in visits ==> v.now - visits[0].now < DIR_CACHE_TTL)
             || (forall v :: v in visits ==> forall e :: e in v.entries <==> e in visits[0].entries)
    ensures Steady(DirListing(visits[0].now, SortById(visits[0].entries)), visits[1..])
  {
    hide Ascending, SortById, DistinctIds;
    assert visits[0] in visits && forall v :: v in visits[1..] ==> v in visits;
    if !forall v :: v in visits ==> v.now - visits[0].now < DIR_CACHE_TTL {
      SortByIdAscending(visits[0].entries);
      forall v | v in visits[1..] ensures SortById(v.entries) == SortById(visits[0].entries) {
        SortByIdAscending(v.entries);
        AscendingUnique(SortById(v.entries), SortById(visits[0].entries));
      }
    }
  }
}
