/** Write staging in the virtual drive (`desktop/src/vfs.rs`): writes collect in RAM, a background
    flusher commits them, and NFS requests interleave with both at every point where the code
    holds no lock. Each event below is one such atomic region. */
module VfsStaging {
  import opened Basics
  import opened VfsContent

  type FileId = nat
  /** A reading of the monotonic clock. */
  type Stamp = nat

  datatype StagedFile = StagedFile(subject: Subject, data: Bytes, dirty: bool, lastWrite: Stamp)

  /** What the flusher copies out of a dirty file before it releases the lock. */
  datatype Snapshot = Snapshot(id: FileId, subject: Subject, data: Bytes, wroteAt: Stamp)

  datatype Patch = WriteAt(offset: nat, data: Bytes) | Resize(size: nat)

  // ---- What one write does to a byte sequence -----------------------------------------------

  /** Keeps what fits, in place, and zero-fills the rest. */
  function Resized(bytes: Bytes, size: nat): (r: Bytes)
    ensures |r| == size
    ensures forall k | 0 <= k < size :: r[k] == if k < |bytes| then bytes[k] else 0
  {
    if size <= |bytes| then bytes[..size] else bytes + seq(size - |bytes|, _ => 0 as Byte)
  }

  function Patched(bytes: Bytes, patch: Patch): Bytes {
    match patch
    case Resize(size) => Resized(bytes, size)
    case WriteAt(offset, data) =>
      var end := offset + |data|;
      var grown := if |bytes| < end then Resized(bytes, end) else bytes;
      grown[..offset] + data + grown[end..]
  }

  /** A write replaces its window, zero-fills any gap, and touches nothing else. */
  lemma WritePatchesWindow(bytes: Bytes, offset: nat, data: Bytes)
    ensures var r := Patched(bytes, WriteAt(offset, data));
            && |r| == (if |bytes| < offset + |data| then offset + |data| else |bytes|)
            && forall k :: 0 <= k < |r| ==>
                 r[k] == if offset <= k < offset + |data| then data[k - offset]
                         else if k < |bytes| then bytes[k] else 0
  {
  }

  /** `current_blob`: a file that cannot be read is taken for empty. */
  function CurrentBlob(store: Store, subject: Subject): Bytes
    requires subject in store.files
  {
    match ReadBlob(store.blobs, store.files[subject])
    case Ok(b) => b
    case Err(_) => []
  }

  // ---- The staging map, one function per locked region --------------------------------------

  type Staging = map<FileId, StagedFile>

  /** The second half of `ensure_staged`: `entry(id).or_insert_with(..)`. */
  function InsertIfAbsent(files: Staging, id: FileId, subject: Subject, current: Bytes, now: Stamp): Staging {
    if id in files then files else files[id := StagedFile(subject, current, false, now)]
  }

  function Touch(files: Staging, id: FileId, patch: Patch, now: Stamp): Staging
    requires id in files
  {
    files[id := files[id].(data := Patched(files[id].data, patch), dirty := true, lastWrite := now)]
  }

  /** The flusher clears the flag only when no newer write arrived since its snapshot. */
  function ClearUnlessNewer(files: Staging, id: FileId, wroteAt: Stamp): Staging {
    if id in files && files[id].lastWrite == wroteAt then files[id := files[id].(dirty := false)] else files
  }

  // ---- The interleaved system ---------------------------------------------------------------

  datatype Progress =
    | Started
    | Absent                      // `ensure_staged` saw no entry and is reading the blob
    | Loaded(current: Bytes)      // it has the bytes and has not yet inserted them
    | Staged                      // it is about to take the lock and write

  datatype ReadProgress =
    | Asked
    | Missed                      // nothing was staged
    | Projected(file: FileProps)  // the shallow resource is read, the bytes are not
    | Answered(window: (Bytes, bool))

  datatype Request =
    | Mutation(id: FileId, patch: Patch, progress: Progress)
    | Reading(id: FileId, offset: nat, count: nat, answer: ReadProgress)

  /** `batch` is the flusher's snapshot list; its head is committed but not cleared when `committed`. */
  datatype World = World(
    names: map<FileId, Subject>,
    store: Store,
    staged: Staging,
    cache: Option<ReadCache>,
    batch: seq<Snapshot>,
    committed: bool,
    requests: map<nat, Request>)

  datatype Event =
    | Begin(who: nat, request: Request)
    | CheckStaged(who: nat)
    | LoadCurrent(who: nat)
    | InsertLoaded(who: nat, now: Stamp)
    | Mutate(who: nat, now: Stamp)
    | LookStaged(who: nat)
    | Project(who: nat)
    | Fetch(who: nat)
    | End(who: nat)
    | TakeReady(ready: seq<FileId>)
    | CommitNext(chunks: seq<Chunk>)
    | ClearNext
    | AbortFlusher

  predicate Mutating(w: World, who: nat) { who in w.requests && w.requests[who].Mutation? }

  predicate Asking(w: World, who: nat) { who in w.requests && w.requests[who].Reading? }

  /** The strictly increasing clock, as far as it is needed: no snapshot in flight of the same file
      carries the stamp of the new write. */
  predicate FreshStamp(w: World, id: FileId, now: Stamp) {
    forall i :: 0 <= i < |w.batch| && w.batch[i].id == id ==> w.batch[i].wroteAt != now
  }

  /** A write reads the clock after every snapshot in flight of its file. */
  predicate Timely(w: World, e: Event) {
    e.Mutate? && Mutating(w, e.who) ==> FreshStamp(w, w.requests[e.who].id, e.now)
  }

  predicate Enabled(w: World, e: Event) {
    match e
    case Begin(who, request) =>
      && who !in w.requests && request.id in w.names
      && (request.Mutation? ==> request.progress == Started)
      && (request.Reading? ==> request.answer == Asked)
    case CheckStaged(who) => Mutating(w, who) && w.requests[who].progress == Started
    case LoadCurrent(who) =>
      && Mutating(w, who) && w.requests[who].progress == Absent
      && w.requests[who].id in w.names && w.names[w.requests[who].id] in w.store.files
    case InsertLoaded(who, _) =>
      Mutating(w, who) && w.requests[who].progress.Loaded? && w.requests[who].id in w.names
    case Mutate(who, _) =>
      Mutating(w, who) && w.requests[who].progress == Staged && w.requests[who].id in w.staged
    case LookStaged(who) => Asking(w, who) && w.requests[who].answer == Asked
    case Project(who) =>
      && Asking(w, who) && w.requests[who].answer == Missed
      && w.requests[who].id in w.names && w.names[w.requests[who].id] in w.store.files
    case Fetch(who) =>
      && Asking(w, who) && w.requests[who].answer.Projected?
      && CachedRead(w.store.blobs, w.cache, w.requests[who].id, w.requests[who].answer.file).0.Ok?
    case End(who) => Asking(w, who) && w.requests[who].answer.Answered?
    case TakeReady(ready) =>
      && w.batch == [] && NoRepeats(ready)
      && forall i :: 0 <= i < |ready| ==> ready[i] in w.staged && w.staged[ready[i]].dirty
    case CommitNext(chunks) => w.batch != [] && !w.committed && Contiguous(chunks, 0, |w.batch[0].data|)
    case ClearNext => w.batch != [] && w.committed
    case AbortFlusher => true
  }

  function SnapshotOf(w: World, id: FileId): Snapshot
    requires id in w.staged
  {
    Snapshot(id, w.staged[id].subject, w.staged[id].data, w.staged[id].lastWrite)
  }

  function Moved(w: World, who: nat, progress: Progress): World
    requires Mutating(w, who)
  {
    w.(requests := w.requests[who := w.requests[who].(progress := progress)])
  }

  function Told(w: World, who: nat, answer: ReadProgress): World
    requires Asking(w, who)
  {
    w.(requests := w.requests[who := w.requests[who].(answer := answer)])
  }

  function Next(w: World, e: Event): World
    requires Enabled(w, e)
  {
    match e
    case Begin(who, request) => w.(requests := w.requests[who := request])
    case CheckStaged(who) => Moved(w, who, if w.requests[who].id in w.staged then Staged else Absent)
    case LoadCurrent(who) =>
      Moved(w, who, Loaded(CurrentBlob(w.store, w.names[w.requests[who].id])))
    case InsertLoaded(who, now) =>
      var r := w.requests[who];
      Moved(w, who, Staged).(staged := InsertIfAbsent(w.staged, r.id, w.names[r.id], r.progress.current, now))
    case Mutate(who, now) =>
      var r := w.requests[who];
      w.(staged := Touch(w.staged, r.id, r.patch, now), requests := w.requests - {who})
    case LookStaged(who) =>
      var r := w.requests[who];
      Told(w, who, if r.id in w.staged then Answered(SliceRead(w.staged[r.id].data, r.offset, r.count)) else Missed)
    case Project(who) => Told(w, who, Projected(w.store.files[w.names[w.requests[who].id]]))
    case Fetch(who) =>
      var r := w.requests[who];
      var (bytes, cache) := CachedRead(w.store.blobs, w.cache, r.id, r.answer.file);
      Told(w, who, Answered(SliceRead(bytes.value, r.offset, r.count))).(cache := cache)
    case End(who) => w.(requests := w.requests - {who})
    case TakeReady(ready) =>
      w.(batch := seq(|ready|, i requires 0 <= i < |ready| => SnapshotOf(w, ready[i])), committed := false)
    case CommitNext(chunks) =>
      w.(store := Commit(w.store, w.batch[0].subject, w.batch[0].data, chunks), committed := true)
    case ClearNext =>
      w.(staged := ClearUnlessNewer(w.staged, w.batch[0].id, w.batch[0].wroteAt),
         batch := w.batch[1..], committed := false)
    case AbortFlusher => w.(batch := [], committed := false)
  }

  // ---- The invariant of one file --------------------------------------------------------------

  /** Names lead to different File resources, and blobs are content-addressed. Nothing is asked of any file's
      bytes. */
  ghost predicate Shaped(names: map<FileId, Subject>, store: Store) {
    && Honest(store.blobs)
    && (forall a, b :: a in names && b in names && a != b ==> names[a] != names[b])
    && (forall a :: a in names ==> names[a] in store.files)
  }

  /** The file `f` can be read; others need not be. */
  ghost predicate StoreValid(names: map<FileId, Subject>, store: Store, f: FileId) {
    && Shaped(names, store)
    && f in names && names[f] in store.files && Sound(store.blobs, store.files[names[f]])
  }

  ghost function Persisted(names: map<FileId, Subject>, store: Store, f: FileId): Bytes
    requires StoreValid(names, store, f)
  {
    Contents(store, names[f])
  }

  /** When the file is clean, its persisted bytes are its staged bytes. */
  ghost predicate StagedValid(names: map<FileId, Subject>, store: Store, staged: Staging, f: FileId)
    requires StoreValid(names, store, f)
  {
    && (forall id :: id in staged ==> id in names && staged[id].subject == names[id])
    && (f in staged && !staged[f].dirty ==> Persisted(names, store, f) == staged[f].data)
  }

  /** A snapshot of the file: its stamp identifies the bytes it copied, and until it is committed the file
      is dirty. */
  ghost predicate SnapshotValid(names: map<FileId, Subject>, staged: Staging, snap: Snapshot, pending: bool, f: FileId) {
    && snap.id in staged && snap.id in names && snap.subject == names[snap.id]
    && (snap.id == f && staged[f].lastWrite == snap.wroteAt ==> staged[f].data == snap.data)
    && (snap.id == f && pending ==> staged[f].dirty)
  }

  ghost predicate BatchValid(names: map<FileId, Subject>, store: Store, staged: Staging,
                             batch: seq<Snapshot>, committed: bool, f: FileId)
    requires StoreValid(names, store, f)
  {
    && (forall i :: 0 <= i < |batch| ==> SnapshotValid(names, staged, batch[i], i > 0 || !committed, f))
    && (forall i, j :: 0 <= i < j < |batch| ==> batch[i].id != batch[j].id)
    && (committed ==> batch != [] && (batch[0].id == f ==> Persisted(names, store, f) == batch[0].data))
  }

  ghost predicate RequestValid(names: map<FileId, Subject>, store: Store, staged: Staging, r: Request, f: FileId)
    requires StoreValid(names, store, f)
  {
    && r.id in names
    && (r.id == f && r.Mutation? && r.progress.Loaded? ==> f in staged || r.progress.current == Persisted(names, store, f))
    && (r.Mutation? && r.progress == Staged ==> r.id in staged)
    && (r.id == f && r.Reading? && r.answer.Projected? ==> Sound(store.blobs, r.answer.file))
  }

  ghost predicate RequestsValid(names: map<FileId, Subject>, store: Store, staged: Staging, requests: map<nat, Request>, f: FileId)
    requires StoreValid(names, store, f)
  {
    forall who :: who in requests ==> RequestValid(names, store, staged, requests[who], f)
  }

  ghost predicate Inv(w: World, f: FileId) {
    && StoreValid(w.names, w.store, f)
    && CacheSound(w.cache, f)
    && StagedValid(w.names, w.store, w.staged, f)
    && BatchValid(w.names, w.store, w.staged, w.batch, w.committed, f)
    && RequestsValid(w.names, w.store, w.staged, w.requests, f)
  }

  /** Nothing is staged or under way. */
  predicate AtRest(w: World) {
    w.staged == map[] && w.batch == [] && !w.committed && w.requests == map[]
  }

  /** The one byte sequence a file stands for: the staged bytes, else the persisted ones. */
  ghost function Abstract(w: World, f: FileId): Bytes
    requires Inv(w, f)
  {
    if f in w.staged then w.staged[f].data else Persisted(w.names, w.store, f)
  }

  // ---- Every event keeps the invariant ------------------------------------------------------

  lemma CommitNextKeepsInv(w: World, chunks: seq<Chunk>, f: FileId)
    requires Inv(w, f) && Enabled(w, CommitNext(chunks))
    ensures Inv(Next(w, CommitNext(chunks)), f)
    ensures Persisted(w.names, Next(w, CommitNext(chunks)).store, f)
            == if f == w.batch[0].id then w.batch[0].data else Persisted(w.names, w.store, f)
  {
    hide CacheSound, Contiguous, Commit, Honest, Sound;
    var snap := w.batch[0];
    var w' := Next(w, CommitNext(chunks));
    assert SnapshotValid(w.names, w.staged, snap, true, f);
    if f != snap.id { assert w.names[f] != snap.subject; }
    CommitKeepsEach(w.store, snap.subject, snap.data, chunks, w.names[f]);
    forall who | who in w'.requests
      ensures RequestValid(w.names, w'.store, w.staged, w'.requests[who], f)
    {
      var r := w.requests[who];
      assert RequestValid(w.names, w.store, w.staged, r, f);
      if r.id == f && r.Reading? && r.answer.Projected? {
        SoundGrows(w.store, snap.subject, snap.data, chunks, r.answer.file);
      }
    }
  }

  lemma FlusherKeepsInv(w: World, e: Event, f: FileId)
    requires Inv(w, f) && Enabled(w, e)
    requires e.TakeReady? || e.ClearNext? || e.AbortFlusher?
    ensures Inv(Next(w, e), f)
  {
    hide StoreValid, CacheSound, Persisted;
    var w' := Next(w, e);
    if e.ClearNext? {
      assert SnapshotValid(w.names, w.staged, w.batch[0], !w.committed, f);
      forall i | 0 <= i < |w'.batch|
        ensures SnapshotValid(w.names, w'.staged, w'.batch[i], true, f)
      {
        assert w'.batch[i] == w.batch[i + 1];
        assert SnapshotValid(w.names, w.staged, w.batch[i + 1], true, f);
      }
    }
    forall who | who in w'.requests
      ensures RequestValid(w.names, w.store, w'.staged, w'.requests[who], f)
    {
      assert RequestValid(w.names, w.store, w.staged, w.requests[who], f);
    }
  }

  /** Changing the staged entry of one file, under a fresh stamp if it is `f`, keeps every snapshot valid. */
  lemma RestageKeepsRest(w: World, staged: Staging, id: FileId, f: FileId)
    requires Inv(w, f) && id in staged
    requires staged == w.staged[id := staged[id]]
    requires id == f && f in w.staged ==> staged[f].dirty && FreshStamp(w, f, staged[f].lastWrite)
    ensures BatchValid(w.names, w.store, staged, w.batch, w.committed, f)
    ensures RequestsValid(w.names, w.store, staged, w.requests, f)
  {
    hide StoreValid, CacheSound, Persisted;
    forall i | 0 <= i < |w.batch|
      ensures SnapshotValid(w.names, staged, w.batch[i], i > 0 || !w.committed, f)
    {
      assert SnapshotValid(w.names, w.staged, w.batch[i], i > 0 || !w.committed, f);
    }
    forall who | who in w.requests
      ensures RequestValid(w.names, w.store, staged, w.requests[who], f)
    {
      assert RequestValid(w.names, w.store, w.staged, w.requests[who], f);
    }
  }

  lemma StagingKeepsInv(w: World, e: Event, f: FileId)
    requires Inv(w, f) && Enabled(w, e) && Timely(w, e)
    requires e.InsertLoaded? || e.Mutate?
    ensures Inv(Next(w, e), f)
  {
    hide StoreValid, CacheSound, Persisted, BatchValid, Patched;
    var w' := Next(w, e);
    var r := w.requests[e.who];
    assert RequestValid(w.names, w.store, w.staged, r, f);
    if w'.staged != w.staged {
      RestageKeepsRest(w, w'.staged, r.id, f);
    }
  }

  /** One request moves: every other stays valid. */
  lemma OneRequestMoves(w: World, who: nat, r: Request, f: FileId)
    requires Inv(w, f) && RequestValid(w.names, w.store, w.staged, r, f)
    ensures RequestsValid(w.names, w.store, w.staged, w.requests[who := r], f)
    ensures RequestsValid(w.names, w.store, w.staged, w.requests - {who}, f)
  {
    hide StoreValid, Persisted, BatchValid, StagedValid, CacheSound, RequestValid;
  }

  lemma RequestKeepsInv(w: World, e: Event, f: FileId)
    requires Inv(w, f) && Enabled(w, e)
    requires e.Begin? || e.CheckStaged? || e.LoadCurrent? || e.LookStaged? || e.Project? || e.End?
    ensures Inv(Next(w, e), f)
  {
    hide BatchValid, StagedValid, CacheSound, Honest, RequestsValid, Concatenate;
    if e.Begin? {
      OneRequestMoves(w, e.who, e.request, f);
    } else {
      assert RequestValid(w.names, w.store, w.staged, w.requests[e.who], f) by { RequestAt(w, e.who, f); }
      OneRequestMoves(w, e.who, w.requests[e.who], f);
      if !e.End? {
        OneRequestMoves(w, e.who, Next(w, e).requests[e.who], f);
      }
    }
  }

  lemma RequestAt(w: World, who: nat, f: FileId)
    requires Inv(w, f) && who in w.requests
    ensures RequestValid(w.names, w.store, w.staged, w.requests[who], f)
  {
    hide StoreValid, Persisted, BatchValid, StagedValid, CacheSound, RequestValid;
  }

  lemma FetchKeepsInv(w: World, who: nat, f: FileId)
    requires Inv(w, f) && Enabled(w, Fetch(who))
    ensures Inv(Next(w, Fetch(who)), f)
  {
    hide BatchValid, StagedValid, StoreValid, RequestsValid, ReadBlob;
    var r := w.requests[who];
    RequestAt(w, who, f);
    if r.id == f { CacheTransparent(w.store.blobs, w.cache, r.id, r.answer.file); }
    OneRequestMoves(w, who, Next(w, Fetch(who)).requests[who], f);
  }

  lemma StepKeepsInv(w: World, e: Event, f: FileId)
    requires Inv(w, f) && Enabled(w, e) && Timely(w, e)
    ensures Inv(Next(w, e), f) && Next(w, e).names == w.names
  {
    hide Inv, Timely;
    match e
    case CommitNext(chunks) => CommitNextKeepsInv(w, chunks, f);
    case TakeReady(_) => FlusherKeepsInv(w, e, f);
    case ClearNext => FlusherKeepsInv(w, e, f);
    case AbortFlusher => FlusherKeepsInv(w, e, f);
    case InsertLoaded(_, _) => StagingKeepsInv(w, e, f);
    case Mutate(_, _) => StagingKeepsInv(w, e, f);
    case Fetch(who) => FetchKeepsInv(w, who, f);
    case _ => RequestKeepsInv(w, e, f);
  }

  // ---- Each event is a step of one byte sequence ----------------------------------------------

  /** What an event does to the bytes of `f`: the locked write applies its patch, the rest nothing. */
  function Effect(w: World, e: Event, f: FileId, bytes: Bytes): Bytes {
    if e.Mutate? && Mutating(w, e.who) && w.requests[e.who].id == f then Patched(bytes, w.requests[e.who].patch)
    else bytes
  }

  lemma StagingRefines(w: World, e: Event, f: FileId)
    requires Inv(w, f) && Enabled(w, e) && Timely(w, e) && (e.InsertLoaded? || e.Mutate?)
    ensures Inv(Next(w, e), f) && Abstract(Next(w, e), f) == Effect(w, e, f, Abstract(w, f))
  {
    hide StoreValid, CacheSound, Persisted, BatchValid, RequestsValid;
    StagingKeepsInv(w, e, f);
    assert RequestValid(w.names, w.store, w.staged, w.requests[e.who], f);
  }

  /** Only the locked write changes what a file stands for, and it applies exactly its own patch. */
  lemma StepRefines(w: World, e: Event, f: FileId)
    requires Inv(w, f) && Enabled(w, e) && Timely(w, e)
    ensures Inv(Next(w, e), f) && Next(w, e).names == w.names
    ensures Abstract(Next(w, e), f) == Effect(w, e, f, Abstract(w, f))
  {
    hide StoreValid, CacheSound, Persisted, BatchValid, RequestsValid, StagedValid, Timely;
    if e.CommitNext? {
      CommitNextKeepsInv(w, e.chunks, f);
      CommitKeepsAbstract(w, e.chunks, f);
    } else if e.InsertLoaded? || e.Mutate? { StagingRefines(w, e, f); }
    else { StepKeepsInv(w, e, f); }
  }

  lemma CommitKeepsAbstract(w: World, chunks: seq<Chunk>, f: FileId)
    requires Inv(w, f) && Enabled(w, CommitNext(chunks)) && Inv(Next(w, CommitNext(chunks)), f)
    ensures Abstract(Next(w, CommitNext(chunks)), f) == Abstract(w, f)
  {
    hide CacheSound, Contiguous, Commit, RequestsValid, StoreValid, Persisted;
    CommitNextKeepsInv(w, chunks, f);
    assert SnapshotValid(w.names, w.staged, w.batch[0], true, f);
  }

  /** Consecutive events, each enabled and reading the clock in time. */
  ghost predicate Steps(ws: seq<World>, es: seq<Event>) {
    && |ws| == |es| + 1
    && forall i {:trigger es[i]} :: 0 <= i < |es| ==> Enabled(ws[i], es[i]) && Timely(ws[i], es[i]) && ws[i + 1] == Next(ws[i], es[i])
  }

  /** A run, from any point at which the file `f` is in order; other files may be anything. */
  ghost predicate IsRun(ws: seq<World>, es: seq<Event>, f: FileId) {
    Steps(ws, es) && Inv(ws[0], f)
  }

  /** A drive at rest, with the file readable, is such a point, and the file stands for what it persisted. */
  lemma RestIsStart(w: World, f: FileId)
    requires AtRest(w) && StoreValid(w.names, w.store, f) && CacheSound(w.cache, f)
    ensures Inv(w, f) && Abstract(w, f) == Persisted(w.names, w.store, f)
  {
  }

  lemma {:induction false} RunInv(ws: seq<World>, es: seq<Event>, f: FileId, n: nat)
    requires IsRun(ws, es, f) && n <= |es|
    ensures Inv(ws[n], f) && ws[n].names == ws[0].names
  {
    hide Inv, Enabled, Next, Timely;
    if n > 0 {
      RunInv(ws, es, f, n - 1);
      var w, e := ws[n - 1], es[n - 1];
      StepKeepsInv(w, e, f);
    }
  }

  /** A file's bytes at the start with every completed write applied, in the order the writes held the lock. */
  function Replay(ws: seq<World>, es: seq<Event>, n: nat, f: FileId, initial: Bytes): Bytes
    requires |ws| == |es| + 1 && n <= |es|
  {
    if n == 0 then initial else Effect(ws[n - 1], es[n - 1], f, Replay(ws, es, n - 1, f, initial))
  }

  /** In every interleaving a file stands for the replay of its writes. */
  lemma {:induction false} RunReplays(ws: seq<World>, es: seq<Event>, f: FileId, n: nat)
    requires IsRun(ws, es, f) && n <= |es|
    ensures Inv(ws[n], f) && ws[n].names == ws[0].names
    ensures Abstract(ws[n], f) == Replay(ws, es, n, f, Abstract(ws[0], f))
  {
    hide Inv, Enabled, Next, Effect, Abstract, Timely;
    if n > 0 {
      RunReplays(ws, es, f, n - 1);
      StepRefines(ws[n - 1], es[n - 1], f);
    }
  }

  /** No write is lost: in every interleaving, a file with no dirty staging has persisted exactly the
      replay of all its writes. */
  lemma CleanFilesPersistEveryWrite(ws: seq<World>, es: seq<Event>, f: FileId, n: nat)
    requires IsRun(ws, es, f) && n <= |es|
    requires f in ws[n].staged ==> !ws[n].staged[f].dirty
    ensures f in ws[n].names && ws[n].names[f] in ws[n].store.files
    ensures ReadBlob(ws[n].store.blobs, ws[n].store.files[ws[n].names[f]])
            == Ok(Replay(ws, es, n, f, Abstract(ws[0], f)))
  {
    RunReplays(ws, es, f, n);
  }

  // ---- Reads are linearizable ---------------------------------------------------------------

  ghost predicate BatchSeen(batch: seq<Snapshot>, f: FileId, seen: seq<Bytes>) {
    forall n :: 0 <= n < |batch| && batch[n].id == f ==> batch[n].data in seen
  }

  /** What a read in progress may still return is among the contents seen since it began. */
  ghost predicate Tracked(w: World, r: Request, seen: seq<Bytes>)
    requires r.Reading? && StoreValid(w.names, w.store, r.id)
  {
    match r.answer
    case Asked => true
    case Missed => Persisted(w.names, w.store, r.id) in seen && BatchSeen(w.batch, r.id, seen)
    case Projected(file) => file.internalId.Some? && file.internalId.value.preimage in seen
    case Answered(window) => exists b :: b in seen && window == SliceRead(b, r.offset, r.count)
  }

  /** The world moves while the read waits: commits and snapshots only expose content already seen. */
  lemma WaitKeepsTracked(w: World, e: Event, r: Request, seen: seq<Bytes>)
    requires r.Reading? && Inv(w, r.id) && Enabled(w, e) && Timely(w, e)
    requires Tracked(w, r, seen) && Abstract(w, r.id) in seen
    ensures Inv(Next(w, e), r.id) && Tracked(Next(w, e), r, seen)
  {
    hide StoreValid, CacheSound, Persisted, RequestsValid, StagedValid, Timely;
    if e.CommitNext? {
      CommitNextKeepsInv(w, e.chunks, r.id);
    } else {
      StepKeepsInv(w, e, r.id);
      if r.answer == Missed {
        if e.TakeReady? { assert BatchSeen(Next(w, e).batch, r.id, seen); }
        if e.ClearNext? { assert BatchSeen(w.batch[1..], r.id, seen); }
      }
    }
  }

  /** The read as it stands is the request `r` with its answer moved on to something tracked. */
  ghost predicate MovedOn(w: World, who: nat, r: Request, seen: seq<Bytes>)
    requires r.Reading?
  {
    && Asking(w, who) && StoreValid(w.names, w.store, r.id)
    && w.requests[who] == r.(answer := w.requests[who].answer)
    && Tracked(w, w.requests[who], seen)
  }

  lemma LookKeepsTracked(w: World, who: nat, seen: seq<Bytes>)
    requires Enabled(w, LookStaged(who)) && Inv(w, w.requests[who].id)
    requires Abstract(w, w.requests[who].id) in seen
    ensures MovedOn(Next(w, LookStaged(who)), who, w.requests[who], seen)
  {
    hide StoreValid, CacheSound, RequestsValid;
    var r := w.requests[who];
    if r.id !in w.staged {
      forall n | 0 <= n < |w.batch| ensures w.batch[n].id != r.id {
        assert SnapshotValid(w.names, w.staged, w.batch[n], n > 0 || !w.committed, r.id);
      }
    }
  }

  lemma ProjectKeepsTracked(w: World, who: nat, seen: seq<Bytes>)
    requires Enabled(w, Project(who)) && Inv(w, w.requests[who].id)
    requires Tracked(w, w.requests[who], seen)
    ensures MovedOn(Next(w, Project(who)), who, w.requests[who], seen)
  {
    hide CacheSound, RequestsValid, StagedValid, BatchValid, Concatenate;
  }

  lemma FetchKeepsTracked(w: World, who: nat, seen: seq<Bytes>)
    requires Enabled(w, Fetch(who)) && Inv(w, w.requests[who].id)
    requires Tracked(w, w.requests[who], seen)
    ensures MovedOn(Next(w, Fetch(who)), who, w.requests[who], seen)
  {
    hide StoreValid, RequestsValid, StagedValid, BatchValid, ReadBlob, CachedRead;
    var r := w.requests[who];
    RequestAt(w, who, r.id);
    CacheTransparent(w.store.blobs, w.cache, r.id, r.answer.file);
  }

  lemma ReadStepTracked(w: World, e: Event, who: nat, seen: seq<Bytes>)
    requires Enabled(w, e) && Timely(w, e) && Asking(w, who) && Asking(Next(w, e), who)
    requires Inv(w, w.requests[who].id)
    requires Tracked(w, w.requests[who], seen) && Abstract(w, w.requests[who].id) in seen
    ensures var r, r' := w.requests[who], Next(w, e).requests[who];
            && r'.id == r.id && r'.offset == r.offset && r'.count == r.count
            && StoreValid(Next(w, e).names, Next(w, e).store, r'.id)
            && Tracked(Next(w, e), r', seen)
  {
    hide StoreValid, StagedValid, BatchValid, RequestsValid, CacheSound, Tracked, Abstract, Timely;
    var r := w.requests[who];
    if e == LookStaged(who) { LookKeepsTracked(w, who, seen); }
    else if e == Project(who) { ProjectKeepsTracked(w, who, seen); }
    else if e == Fetch(who) { FetchKeepsTracked(w, who, seen); }
    else {
      WaitKeepsTracked(w, e, r, seen);
      assert Next(w, e).requests[who] == r;
    }
  }

  /** `history` lists what the file stood for at each moment. */
  ghost predicate IsHistory(ws: seq<World>, f: FileId, history: seq<Bytes>) {
    && |history| == |ws|
    && forall k {:trigger history[k]} :: 0 <= k < |ws| ==> StandsFor(ws[k], f, history[k])
  }

  ghost predicate StandsFor(w: World, f: FileId, bytes: Bytes) {
    Inv(w, f) && bytes == Abstract(w, f)
  }

  lemma HistoryAt(ws: seq<World>, f: FileId, history: seq<Bytes>, k: nat)
    requires IsHistory(ws, f, history) && k < |ws|
    ensures |history| == |ws| && StandsFor(ws[k], f, history[k])
  {
    hide StandsFor;
  }

  /** The read asked as `r` is in progress, and tracked by the contents `seen`. */
  ghost predicate InFlight(w: World, who: nat, r: Request, seen: seq<Bytes>) {
    && r.Reading? && Asking(w, who)
    && var r' := w.requests[who];
       && r'.id == r.id && r'.offset == r.offset && r'.count == r.count
       && StoreValid(w.names, w.store, r'.id) && Tracked(w, r', seen)
  }

  lemma InFlightStep(w: World, e: Event, w': World, who: nat, r: Request, seen: seq<Bytes>, more: seq<Bytes>)
    requires Enabled(w, e) && Timely(w, e) && w' == Next(w, e) && Asking(w', who)
    requires InFlight(w, who, r, seen) && seen != [] && StandsFor(w, r.id, seen[|seen| - 1])
    requires seen <= more
    ensures InFlight(w', who, r, more)
  {
    hide Inv, Enabled, Next, StoreValid, Abstract, Timely;
    ReadStepTracked(w, e, who, seen);
    TrackedMonotone(w', w'.requests[who], seen, more);
  }

  lemma InFlightStart(w: World, who: nat, bytes: Bytes)
    requires Asking(w, who) && w.requests[who].answer == Asked && StandsFor(w, w.requests[who].id, bytes)
    ensures InFlight(w, who, w.requests[who], [bytes])
  {
  }

  lemma TrackedMonotone(w: World, r: Request, seen: seq<Bytes>, more: seq<Bytes>)
    requires r.Reading? && StoreValid(w.names, w.store, r.id)
    requires Tracked(w, r, seen) && seen <= more
    ensures Tracked(w, r, more)
  {
    assert forall b :: b in seen ==> b in more;
  }

  /** The same read is in flight from `i` to `j`, and had only just been asked at `i`. */
  ghost predicate ReadInFlight(ws: seq<World>, who: nat, i: nat, j: nat) {
    && i <= j < |ws|
    && (forall k :: i <= k <= j ==> Asking(ws[k], who))
    && ws[i].requests[who].answer == Asked
  }

  lemma {:induction false} ReadTracks(ws: seq<World>, es: seq<Event>, who: nat, i: nat, j: nat, history: seq<Bytes>)
    requires Steps(ws, es) && ReadInFlight(ws, who, i, j)
    requires IsHistory(ws, ws[i].requests[who].id, history)
    ensures InFlight(ws[j], who, ws[i].requests[who], history[i..j + 1])
    decreases j
  {
    hide Inv, Enabled, Next, InFlight, StandsFor, IsHistory, Timely;
    if i == j {
      HistoryAt(ws, ws[i].requests[who].id, history, i);
      InFlightStart(ws[i], who, history[i]);
      assert history[i..i + 1] == [history[i]];
    } else {
      ReadTracks(ws, es, who, i, j - 1, history);
      assert Asking(ws[j], who);
      RunTracksOn(ws, es, who, i, j - 1, ws[i].requests[who], history);
    }
  }

  lemma RunTracksOn(ws: seq<World>, es: seq<Event>, who: nat, i: nat, j: nat, r: Request, history: seq<Bytes>)
    requires Steps(ws, es) && i <= j < |es| && Asking(ws[j + 1], who)
    requires IsHistory(ws, r.id, history) && InFlight(ws[j], who, r, history[i..j + 1])
    ensures InFlight(ws[j + 1], who, r, history[i..j + 2])
  {
    hide Inv, Enabled, Next, InFlight, StandsFor, Timely;
    var seen := history[i..j + 1];
    assert seen[|seen| - 1] == history[j];
    HistoryAt(ws, r.id, history, j);
    InFlightStep(ws[j], es[j], ws[j + 1], who, r, seen, history[i..j + 2]);
  }

  lemma HistoryExists(ws: seq<World>, es: seq<Event>, f: FileId) returns (history: seq<Bytes>)
    requires IsRun(ws, es, f)
    ensures IsHistory(ws, f, history)
  {
    hide Inv, Abstract, Enabled, Next, Timely;
    forall n | 0 <= n < |ws| ensures Inv(ws[n], f) {
      RunInv(ws, es, f, n);
    }
    history := seq(|ws|, n requires 0 <= n < |ws| && Inv(ws[n], f) => Abstract(ws[n], f));
  }

  /** In every interleaving, an answered read of a file that was readable returned the requested window of the
      file's abstract bytes at one moment `k` between its call and its answer. */
  lemma ReadsAreLinearizable(ws: seq<World>, es: seq<Event>, f: FileId, who: nat, i: nat, j: nat)
      returns (history: seq<Bytes>, k: nat)
    requires IsRun(ws, es, f) && ReadInFlight(ws, who, i, j) && ws[j].requests[who].answer.Answered?
    requires ws[i].requests[who].id == f
    ensures IsHistory(ws, f, history)
    ensures i <= k <= j
    ensures ws[j].requests[who].answer.window ==
            SliceRead(history[k], ws[i].requests[who].offset, ws[i].requests[who].count)
  {
    hide Inv, Enabled, Next, Timely, StandsFor;
    var r := ws[i].requests[who];
    history := HistoryExists(ws, es, f);
    ReadTracks(ws, es, who, i, j, history);
    k := i + PickMoment(ws[j].requests[who].answer.window, history[i..j + 1], r.offset, r.count);
  }

  ghost function PickMoment(window: (Bytes, bool), seen: seq<Bytes>, offset: nat, count: nat): (n: nat)
    requires exists b :: b in seen && window == SliceRead(b, offset, count)
    ensures n < |seen| && window == SliceRead(seen[n], offset, count)
  {
    var b :| b in seen && window == SliceRead(b, offset, count);
    var n :| 0 <= n < |seen| && seen[n] == b;
    n
  }
}
