/** The operations of the virtual drive (`desktop/src/vfs.rs`) run to completion, in place: staging, writing,
    resizing, reading and flushing. */
module VfsDriver {
  import opened Basics
  import opened VfsContent
  import opened VfsStaging

  const MAX_FILE_BYTES: nat := 512 * 1024 * 1024
  const WRITE_DEBOUNCE: nat := 500

  datatype FsError = TooBig | NoSuchFile | Unreadable(cause: ReadError)

  function WindowOf(read: Result<Bytes, ReadError>, offset: nat, count: nat): Result<(Bytes, bool), FsError> {
    match read
    case Ok(bytes) => Ok(SliceRead(bytes, offset, count))
    case Err(cause) => Err(Unreadable(cause))
  }

  /** Staged entries are of named files. */
  ghost predicate Named(names: map<FileId, Subject>, staged: Staging) {
    forall id :: id in staged ==> id in names && staged[id].subject == names[id]
  }

  /** The file can be read, through the cache too, and when it is clean its persisted bytes are its staged ones. */
  ghost predicate FileInOrder(names: map<FileId, Subject>, store: Store, staged: Staging, cache: Option<ReadCache>, f: FileId) {
    && StoreValid(names, store, f) && CacheSound(cache, f)
    && (f in staged && !staged[f].dirty ==> Persisted(names, store, f) == staged[f].data)
  }

  lemma CommitKeepsInOrder(names: map<FileId, Subject>, store: Store, staged: Staging, cache: Option<ReadCache>,
                           id: FileId, chunks: seq<Chunk>, f: FileId)
    requires Shaped(names, store) && Named(names, staged) && id in staged && Contiguous(chunks, 0, |staged[id].data|)
    requires FileInOrder(names, store, staged, cache, f)
    ensures var store', staged' := Commit(store, names[id], staged[id].data, chunks), staged[id := staged[id].(dirty := false)];
            && FileInOrder(names, store', staged', cache, f)
            && (f !in staged ==> CurrentBlob(store', names[f]) == CurrentBlob(store, names[f]))
  {
    hide Contiguous, Commit;
    if f != id { assert names[f] != names[id]; }
    CommitKeepsEach(store, names[id], staged[id].data, chunks, names[f]);
  }

  lemma CommitKeepsShape(names: map<FileId, Subject>, store: Store, subject: Subject, data: Bytes, chunks: seq<Chunk>)
    requires Shaped(names, store) && Contiguous(chunks, 0, |data|)
    ensures Shaped(names, Commit(store, subject, data, chunks))
  {
    InsertAllHonest(store.blobs, Pieces(data, chunks));
  }

  lemma CommitTouchesOne(names: map<FileId, Subject>, store: Store, id: FileId, data: Bytes, chunks: seq<Chunk>)
    requires Shaped(names, store) && id in names && Contiguous(chunks, 0, |data|)
    ensures var store' := Commit(store, names[id], data, chunks);
            forall f :: f in names && f != id ==> names[f] in store'.files && store'.files[names[f]] == store.files[names[f]]
  {
  }

  /** The buffer is grown to the write's end, then its window copied over. */
  method Overwrite(buffer: Bytes, offset: nat, data: Bytes) returns (bytes: Bytes)
    ensures bytes == Patched(buffer, WriteAt(offset, data))
  {
    var end := offset + |data|;
    bytes := buffer;
    if |bytes| < end { bytes := Resized(bytes, end); }
    bytes := bytes[..offset] + data + bytes[end..];
  }

  class AtomicNfsFs {
    var names: map<FileId, Subject>
    const db: Db
    var staged: Staging
    var cache: Option<ReadCache>
    var clock: Stamp

    /** Nothing is asked of any file's bytes. */
    ghost predicate Valid()
      reads this, db
    {
      Shaped(names, db.State()) && Named(names, staged)
    }

    ghost predicate InOrder(f: FileId)
      reads this, db
    {
      FileInOrder(names, db.State(), staged, cache, f)
    }

    /** The bytes a file is taken to have: staged, else as the blobs give them, else none. */
    ghost function BytesOf(f: FileId): Bytes
      requires Valid() && f in names
      reads this, db
    {
      if f in staged then staged[f].data else CurrentBlob(db.State(), names[f])
    }

    /** What the store says of a file. */
    ghost function Stored(f: FileId): FileProps
      requires Valid() && f in names
      reads this, db
    {
      db.files[names[f]]
    }

    lemma BytesOfIs(f: FileId)
      requires Valid() && f in names
      ensures BytesOf(f) == if f in staged then staged[f].data else CurrentBlob(db.State(), names[f])
    {
    }

    constructor (names: map<FileId, Subject>, db: Db)
      requires Shaped(names, db.State())
      ensures Valid() && this.names == names && this.db == db && staged == map[] && cache == None
      ensures forall f :: f in names && Sound(db.blobs, db.files[names[f]]) ==> InOrder(f)
    {
      this.names, this.db, this.staged, this.cache, this.clock := names, db, map[], None, 0;
    }

    /** `ensure_staged`: changes the bytes of no file, readable or not. */
    method EnsureStaged(id: FileId, subject: Subject)
      requires Valid() && id in names && names[id] == subject
      modifies this`staged, this`clock
      ensures Valid() && staged.Keys == old(staged.Keys) + {id}
      ensures forall f :: f in names ==> BytesOf(f) == old(BytesOf(f))
      ensures forall f :: old(InOrder(f)) ==> InOrder(f)
    {
      if id in staged { return; }
      var read := db.Read(db.files[subject]);
      var current := match read case Ok(b) => b case Err(_) => [];
      staged := InsertIfAbsent(staged, id, subject, current, clock);
      clock := clock + 1;
    }

    /** `write`: refused above the size cap, else exactly its window of this file changes. */
    method Write(id: FileId, offset: nat, data: Bytes) returns (r: Result<nat, FsError>)
      requires Valid()
      modifies this`staged, this`clock
      ensures Valid()
      ensures r == if offset + |data| > MAX_FILE_BYTES then Err(TooBig)
                   else if id !in names then Err(NoSuchFile)
                   else Ok(|BytesOf(id)|)
      ensures forall f :: f in names ==>
                BytesOf(f) == if r.Ok? && f == id then Patched(old(BytesOf(f)), WriteAt(offset, data)) else old(BytesOf(f))
      ensures forall f :: old(InOrder(f)) ==> InOrder(f)
    {
      hide Shaped, StoreValid, Patched, CurrentBlob;
      var end := offset + |data|;
      if end > MAX_FILE_BYTES { return Err(TooBig); }
      if id !in names { return Err(NoSuchFile); }
      EnsureStaged(id, names[id]);
      var bytes := Overwrite(staged[id].data, offset, data);
      var file := staged[id].(data := bytes, dirty := true, lastWrite := clock);
      staged := staged[id := file];
      clock := clock + 1;
      r := Ok(|file.data|);
    }

    /** The size half of `setattr`: keeps the bytes that fit, byte by byte, and zero-fills the rest. */
    method SetSize(id: FileId, size: nat) returns (r: Result<nat, FsError>)
      requires Valid()
      modifies this`staged, this`clock
      ensures Valid()
      ensures r == if size > MAX_FILE_BYTES then Err(TooBig) else if id !in names then Err(NoSuchFile) else Ok(size)
      ensures forall f :: f in names ==>
                BytesOf(f) == if r.Ok? && f == id then Resized(old(BytesOf(f)), size) else old(BytesOf(f))
      ensures r.Ok? ==>
                && |BytesOf(id)| == size
                && forall k | 0 <= k < size :: BytesOf(id)[k] == if k < |old(BytesOf(id))| then old(BytesOf(id))[k] else 0
      ensures forall f :: old(InOrder(f)) ==> InOrder(f)
    {
      hide Shaped, StoreValid;
      if size > MAX_FILE_BYTES { return Err(TooBig); }
      if id !in names { return Err(NoSuchFile); }
      EnsureStaged(id, names[id]);
      staged := staged[id := staged[id].(data := Resized(staged[id].data, size), dirty := true, lastWrite := clock)];
      clock := clock + 1;
      r := Ok(size);
    }

    /** The persisted half of `read`, through the one-entry cache. */
    method ReadPersisted(id: FileId, file: FileProps) returns (r: Result<Bytes, ReadError>)
      modifies this`cache
      ensures (r, cache) == CachedRead(db.blobs, old(cache), id, file)
    {
      if cache.Some? && cache.value.id == id && cache.value.internalId == file.internalId {
        return Ok(cache.value.bytes);
      }
      r := db.Read(file);
      if r.Ok? {
        cache := Some(ReadCache(id, file.internalId, r.value));
      }
    }

    /** `read`: from the staging map, the cache or the blobs; for a file in order, the window of its bytes. */
    method Read(id: FileId, offset: nat, count: nat) returns (r: Result<(Bytes, bool), FsError>)
      requires Valid()
      modifies this`cache
      ensures Valid()
      ensures id !in names ==> r == Err(NoSuchFile)
      ensures old(InOrder(id)) || id in staged ==> r == Ok(SliceRead(BytesOf(id), offset, count))
      ensures id in names && id !in staged ==>
                r == WindowOf(CachedRead(db.blobs, old(cache), id, db.files[names[id]]).0, offset, count)
      ensures forall f :: old(InOrder(f)) ==> InOrder(f)
    {
      if id in staged { return Ok(SliceRead(staged[id].data, offset, count)); }
      if id !in names { return Err(NoSuchFile); }
      var file := db.files[names[id]];
      ghost var before := cache;
      var bytes := ReadPersisted(id, file);
      r := WindowOf(bytes, offset, count);
      if FileInOrder(names, db.State(), staged, before, id) { CacheTransparent(db.blobs, before, id, file); }
    }

    predicate IsReady(id: FileId, gated: bool, now: Stamp)
      reads this
    {
      id in staged && staged[id].dirty && (!gated || now >= staged[id].lastWrite + WRITE_DEBOUNCE)
    }

    /** One turn of the flush loop: commits the snapshot, then clears the flag unless a newer write arrived.
        Files in order keep their bytes; the file itself has persisted them exactly when the commit was not
        skipped over missing bytes. */
    method FlushOne(id: FileId, snap: StagedFile, chunks: seq<Chunk>)
      requires Valid() && id in staged && staged[id] == snap && Contiguous(chunks, 0, |snap.data|)
      modifies this`staged, db
      ensures Valid() && staged == old(staged)[id := snap.(dirty := false)]
      ensures forall f :: old(InOrder(f)) ==> InOrder(f) && BytesOf(f) == old(BytesOf(f))
      ensures ReadBlob(db.blobs, db.files[names[id]]) == Ok(snap.data) <==>
              !Unchanged(old(db.files[names[id]]), snap.data) || old(ReadBlob(db.blobs, db.files[names[id]])) == Ok(snap.data)
      ensures forall f :: f in names && f != id ==> Stored(f) == old(Stored(f))
    {
      hide Contiguous, ReadBlob, Commit;
      ghost var before, stagedBefore := db.State(), staged;
      forall f | FileInOrder(names, before, staged, cache, f)
        ensures FileInOrder(names, Commit(before, names[id], snap.data, chunks), staged[id := snap.(dirty := false)], cache, f)
        ensures f !in staged ==> CurrentBlob(Commit(before, names[id], snap.data, chunks), names[f]) == CurrentBlob(before, names[f])
      {
        CommitKeepsInOrder(names, before, staged, cache, id, chunks, f);
      }
      CommitKeepsShape(names, before, names[id], snap.data, chunks);
      CommitTouchesOne(names, before, id, snap.data, chunks);
      CommitReadsBackIff(before, names[id], snap.data, chunks);
      db.CommitFile(snap.subject, snap.data, chunks);
      if id in staged && staged[id].lastWrite == snap.lastWrite {
        staged := staged[id := staged[id].(dirty := false)];
      }
      assert staged == stagedBefore[id := snap.(dirty := false)];
      assert forall f :: f in names <==> f in old(names);
    }

    /** `flush_ready` without interleaving: exactly the dirty files are cleaned, gated those not written for the
        debounce time; the files in order keep their bytes, and ungated each of those has persisted them. What
        the store holds of every other file stays. */
    method FlushReady(gated: bool, now: Stamp, split: Bytes -> seq<Chunk>)
      requires Valid()
      requires forall d {:trigger split(d)} :: Contiguous(split(d), 0, |d|)
      modifies this`staged, db
      ensures Valid() && staged.Keys == old(staged.Keys)
      ensures forall f :: old(InOrder(f)) ==> InOrder(f) && BytesOf(f) == old(BytesOf(f))
      ensures forall id :: id in staged ==>
                staged[id].dirty == (old(staged[id].dirty) && gated && now < old(staged[id].lastWrite) + WRITE_DEBOUNCE)
      ensures forall f :: f in names && (f in staged ==> !old(staged[f].dirty) || staged[f].dirty) ==>
                Stored(f) == old(Stored(f))
      ensures !gated ==> forall f :: old(InOrder(f)) ==> ReadBlob(db.blobs, db.files[names[f]]) == Ok(old(BytesOf(f)))
    {
      hide Shaped, Sound, ReadBlob, Contiguous, CurrentBlob, CacheSound, BytesOf, Stored;
      ghost var before := staged;
      var todo := set id | id in staged && IsReady(id, gated, now);
      ghost var ready := todo;
      var snapshots: map<FileId, StagedFile> := map id | id in todo :: staged[id];
      while todo != {}
        invariant Valid() && todo <= ready <= before.Keys && snapshots.Keys == ready
        invariant staged.Keys == before.Keys
        invariant forall id :: id in todo ==> staged[id] == before[id] == snapshots[id]
        invariant forall f :: old(InOrder(f)) ==> InOrder(f) && BytesOf(f) == old(BytesOf(f))
        invariant forall id :: id in before ==>
                    staged[id].dirty == (before[id].dirty && !(id in ready && id !in todo))
        invariant forall f :: f in names && (f !in ready || f in todo) ==> Stored(f) == old(Stored(f))
        decreases todo
      {
        var id :| id in todo;
        var snap := snapshots[id];
        FlushOne(id, snap, split(snap.data));
        todo := todo - {id};
      }
      if !gated {
        forall f | old(InOrder(f)) ensures ReadBlob(db.blobs, db.files[names[f]]) == Ok(old(BytesOf(f))) {
          CleanIsPersisted(names, db.State(), staged, cache, f);
          BytesOfIs(f);
        }
      }
    }
  }

  lemma CleanIsPersisted(names: map<FileId, Subject>, store: Store, staged: Staging, cache: Option<ReadCache>, f: FileId)
    requires FileInOrder(names, store, staged, cache, f) && (f in staged ==> !staged[f].dirty)
    ensures f in names && names[f] in store.files
    ensures ReadBlob(store.blobs, store.files[names[f]]) == Ok(if f in staged then staged[f].data else CurrentBlob(store, names[f]))
  {
  }
}
