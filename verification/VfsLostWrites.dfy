/** Where the staging of the virtual drive (`desktop/src/vfs.rs`) can lose bytes, and exactly when: a clock
    reading used twice, and a file whose blob is not held. */
module VfsLostWrites {
  import opened Basics
  import opened VfsContent
  import opened VfsStaging

  /** Consecutive enabled events, whatever the clock says. */
  ghost predicate Plays(ws: seq<World>, es: seq<Event>) {
    && |ws| == |es| + 1
    && forall i {:trigger es[i]} :: 0 <= i < |es| ==> Enabled(ws[i], es[i]) && ws[i + 1] == Next(ws[i], es[i])
  }

  /** The file is marked clean, and does not persist what it stages. */
  predicate Lost(w: World, f: FileId) {
    && f in w.staged && !w.staged[f].dirty && f in w.names && w.names[f] in w.store.files
    && ReadBlob(w.store.blobs, w.store.files[w.names[f]]) != Ok(w.staged[f].data)
  }

  /** The whole data as one chunk. */
  function OneChunk(data: Bytes): (r: seq<Chunk>)
    ensures Contiguous(r, 0, |data|)
  {
    assert Contiguous([], |data|, |data|);
    [Chunk(0, |data|)]
  }

  // ---- A stamp used twice -----------------------------------------------------------------------

  /** Some snapshot of the file carries the write's own stamp and other bytes. */
  ghost predicate StampClash(batch: seq<Snapshot>, f: FileId, now: Stamp, data: Bytes) {
    exists i :: 0 <= i < |batch| && batch[i].id == f && batch[i].wroteAt == now && batch[i].data != data
  }

  /** A write keeps the invariant of its file exactly when no snapshot in flight of it has the same stamp and
      other bytes. */
  lemma MutateKeepsInvIff(w: World, who: nat, now: Stamp)
    requires Enabled(w, Mutate(who, now)) && Inv(w, w.requests[who].id)
    ensures var w', f := Next(w, Mutate(who, now)), w.requests[who].id;
            Inv(w', f) <==> !StampClash(w.batch, f, now, w'.staged[f].data)
  {
    hide StoreValid, Persisted, CacheSound, Patched;
    var w' := Next(w, Mutate(who, now));
    var f := w.requests[who].id;
    var data := w'.staged[f].data;
    forall who' | who' in w'.requests ensures RequestValid(w.names, w.store, w'.staged, w'.requests[who'], f) {
      assert RequestValid(w.names, w.store, w.staged, w.requests[who'], f);
    }
    forall i | 0 <= i < |w.batch|
      ensures SnapshotValid(w.names, w'.staged, w.batch[i], i > 0 || !w.committed, f)
              <==> !(w.batch[i].id == f && w.batch[i].wroteAt == now && w.batch[i].data != data)
    {
      assert SnapshotValid(w.names, w.staged, w.batch[i], i > 0 || !w.committed, f);
    }
    assert StagedValid(w'.names, w'.store, w'.staged, f);
  }

  /** The flusher still has to commit a snapshot of the file that the staged bytes, under the same stamp, no
      longer are. */
  ghost predicate Doomed(w: World, f: FileId, i: nat) {
    && StoreValid(w.names, w.store, f) && f in w.staged && i < |w.batch|
    && w.batch[i].id == f && w.batch[i].subject == w.names[f]
    && w.batch[i].wroteAt == w.staged[f].lastWrite && w.batch[i].data != w.staged[f].data
    && (forall k :: 0 <= k < i ==> w.batch[k].id != f && w.batch[k].id in w.names && w.batch[k].subject == w.names[w.batch[k].id])
    && (w.committed && i == 0 ==> Persisted(w.names, w.store, f) == w.batch[0].data)
  }

  lemma Prepended(w: World, e: Event, ws: seq<World>, es: seq<Event>)
    requires Enabled(w, e) && Timely(w, e) && Steps(ws, es) && ws[0] == Next(w, e)
    ensures Steps([w] + ws, [e] + es) && ([w] + ws)[|[e] + es|] == ws[|es|]
  {
    hide Enabled, Next, Timely;
    var ws', es' := [w] + ws, [e] + es;
    forall i | 0 <= i < |es'| ensures Enabled(ws'[i], es'[i]) && Timely(ws'[i], es'[i]) && ws'[i + 1] == Next(ws'[i], es'[i]) {
      if i > 0 { assert es'[i] == es[i - 1]; }
    }
  }

  lemma DoomedCommit(w: World, f: FileId, i: nat)
    requires Doomed(w, f, i) && !w.committed
    ensures Enabled(w, CommitNext(OneChunk(w.batch[0].data))) && Doomed(Next(w, CommitNext(OneChunk(w.batch[0].data))), f, i)
  {
    hide Contiguous, Commit, OneChunk, Honest, Sound;
    var snap := w.batch[0];
    if i > 0 { assert w.names[f] != snap.subject; }
    CommitKeepsEach(w.store, snap.subject, snap.data, OneChunk(snap.data), w.names[f]);
  }

  lemma DoomedClear(w: World, f: FileId, i: nat)
    requires Doomed(w, f, i) && w.committed
    ensures Enabled(w, ClearNext)
    ensures i > 0 ==> Doomed(Next(w, ClearNext), f, i - 1)
    ensures i == 0 ==> Lost(Next(w, ClearNext), f)
  {
    hide Honest;
    var w' := Next(w, ClearNext);
    assert forall k :: 0 <= k < |w'.batch| ==> w'.batch[k] == w.batch[k + 1];
  }

  /** The flusher, left alone, then loses the write. */
  lemma {:induction false} DoomedIsLost(w: World, f: FileId, i: nat) returns (ws: seq<World>, es: seq<Event>)
    requires Doomed(w, f, i)
    ensures Steps(ws, es) && ws[0] == w && Lost(ws[|es|], f)
    decreases i, if w.committed then 0 else 1
  {
    hide Doomed, Lost, Next, Enabled, OneChunk, Contiguous, Timely;
    var e: Event;
    if w.committed {
      e := ClearNext;
      DoomedClear(w, f, i);
      if i == 0 { ws, es := [Next(w, e)], []; } else { ws, es := DoomedIsLost(Next(w, e), f, i - 1); }
    } else {
      DoomedStart(w, f, i);
      e := CommitNext(OneChunk(w.batch[0].data));
      DoomedCommit(w, f, i);
      CommitsNow(w, e.chunks);
      ws, es := DoomedIsLost(Next(w, e), f, i);
    }
    NotAWrite(w, e);
    Prepended(w, e, ws, es);
    ws, es := [w] + ws, [e] + es;
  }

  lemma DoomedStart(w: World, f: FileId, i: nat)
    requires Doomed(w, f, i)
    ensures w.batch != []
  {
  }

  lemma CommitsNow(w: World, chunks: seq<Chunk>)
    requires Enabled(w, CommitNext(chunks))
    ensures Next(w, CommitNext(chunks)).committed
  {
  }

  lemma NotAWrite(w: World, e: Event)
    requires !e.Mutate?
    ensures Timely(w, e)
  {
  }

  lemma ClashIsDoomed(w: World, who: nat, now: Stamp) returns (i: nat)
    requires Enabled(w, Mutate(who, now)) && Inv(w, w.requests[who].id)
    requires StampClash(w.batch, w.requests[who].id, now, Next(w, Mutate(who, now)).staged[w.requests[who].id].data)
    ensures Doomed(Next(w, Mutate(who, now)), w.requests[who].id, i)
  {
    hide CacheSound, Patched, Honest, Sound;
    var f := w.requests[who].id;
    var w' := Next(w, Mutate(who, now));
    i :| 0 <= i < |w.batch| && w.batch[i].id == f && w.batch[i].wroteAt == now && w.batch[i].data != w'.staged[f].data;
    forall k | 0 <= k <= i ensures w.batch[k].id in w.names && w.batch[k].subject == w.names[w.batch[k].id] {
      assert SnapshotValid(w.names, w.staged, w.batch[k], k > 0 || !w.committed, f);
    }
  }

  /** A continuation, from the world after the write, at whose end the write is lost. */
  ghost predicate LosesLater(w: World, f: FileId, ws: seq<World>, es: seq<Event>) {
    Steps(ws, es) && ws[0] == w && Lost(ws[|es|], f)
  }

  /** Whatever stamp it reads, a write to a file in order can be lost later exactly when a snapshot in flight
      of the file carries that stamp and other bytes. */
  lemma WriteLostIff(w: World, who: nat, now: Stamp)
    requires Enabled(w, Mutate(who, now)) && Inv(w, w.requests[who].id)
    ensures var w', f := Next(w, Mutate(who, now)), w.requests[who].id;
            (exists ws, es :: LosesLater(w', f, ws, es)) <==> StampClash(w.batch, f, now, w'.staged[f].data)
  {
    hide Inv, Steps, Lost, Next, StampClash, Doomed, LosesLater;
    var f := w.requests[who].id;
    WrittenIsStaged(w, who, now);
    var w' := Next(w, Mutate(who, now));
    if StampClash(w.batch, f, now, w'.staged[f].data) {
      var i := ClashIsDoomed(w, who, now);
      var ws, es := DoomedIsLost(w', f, i);
      assert LosesLater(w', f, ws, es) by { LostThere(w', f, ws, es); }
    } else {
      MutateKeepsInvIff(w, who, now);
      forall ws, es ensures !LosesLater(w', f, ws, es) { NothingLost(w', ws, es, f); }
    }
  }

  lemma WrittenIsStaged(w: World, who: nat, now: Stamp)
    requires Enabled(w, Mutate(who, now))
    ensures w.requests[who].id in Next(w, Mutate(who, now)).staged
  {
  }

  lemma LostThere(w: World, f: FileId, ws: seq<World>, es: seq<Event>)
    requires Steps(ws, es) && ws[0] == w && Lost(ws[|es|], f)
    ensures LosesLater(w, f, ws, es)
  {
  }

  lemma NothingLost(w: World, ws: seq<World>, es: seq<Event>, f: FileId)
    requires Inv(w, f)
    ensures !LosesLater(w, f, ws, es)
  {
    hide Inv, Lost, Enabled, Next, Timely;
    if Steps(ws, es) && ws[0] == w {
      RunInv(ws, es, f, |es|);
      InOrderIsNotLost(ws[|es|], f);
    }
  }

  lemma InOrderIsNotLost(w: World, f: FileId)
    requires Inv(w, f)
    ensures !Lost(w, f)
  {
    hide CacheSound, BatchValid, RequestsValid;
  }

  // ---- Saving one file, step by step --------------------------------------------------------------

  function Seed(w: World, f: FileId): Bytes
    requires f in w.names && w.names[f] in w.store.files
  {
    CurrentBlob(w.store, w.names[f])
  }

  /** A request stages the file and writes to it. */
  function WriteEvents(who: nat, f: FileId, patch: Patch, now: Stamp): seq<Event> {
    [Begin(who, Mutation(f, patch, Started)), CheckStaged(who), LoadCurrent(who), InsertLoaded(who, now), Mutate(who, now)]
  }

  /** The world after those five events. */
  function Written(w: World, f: FileId, patch: Patch, now: Stamp): World
    requires f in w.names && w.names[f] in w.store.files
  {
    w.(staged := map[f := StagedFile(w.names[f], Patched(Seed(w, f), patch), true, now)])
  }

  lemma WriteEventsPlay(w: World, who: nat, f: FileId, patch: Patch, now: Stamp) returns (ws: seq<World>)
    requires AtRest(w) && f in w.names && w.names[f] in w.store.files
    ensures Plays(ws, WriteEvents(who, f, patch, now)) && Steps(ws, WriteEvents(who, f, patch, now))
    ensures ws[0] == w && ws[5] == Written(w, f, patch, now)
  {
    hide ReadBlob, Patched;
    var es := WriteEvents(who, f, patch, now);
    var w1 := Next(w, es[0]);
    assert w1 == w.(requests := map[who := Mutation(f, patch, Started)]);
    var w2 := Next(w1, es[1]);
    assert w2 == w.(requests := map[who := Mutation(f, patch, Absent)]);
    var w3 := Next(w2, es[2]);
    assert w3 == w.(requests := map[who := Mutation(f, patch, Loaded(Seed(w, f)))]);
    var w4 := Next(w3, es[3]);
    assert w4 == w.(requests := map[who := Mutation(f, patch, Staged)], staged := map[f := StagedFile(w.names[f], Seed(w, f), false, now)]);
    var w5 := Next(w4, es[4]);
    assert w5.requests == map[] && w5.staged == Written(w, f, patch, now).staged;
    assert w5 == Written(w, f, patch, now);
    ws := [w, w1, w2, w3, w4, w5];
  }

  lemma Joined(front: seq<World>, es: seq<Event>, back: seq<World>, fs: seq<Event>)
    requires Plays(front, es) && Plays(back, fs) && front[|es|] == back[0]
    ensures Plays(front + back[1..], es + fs) && (front + back[1..])[|es + fs|] == back[|fs|] && (front + back[1..])[0] == front[0]
    ensures Steps(front, es) && Steps(back, fs) ==> Steps(front + back[1..], es + fs)
  {
    hide Enabled, Next, Timely;
    var ws, all := front + back[1..], es + fs;
    forall i | 0 <= i < |all|
      ensures Enabled(ws[i], all[i]) && ws[i + 1] == Next(ws[i], all[i])
      ensures Steps(front, es) && Steps(back, fs) ==> Timely(ws[i], all[i])
    {
      if i < |es| {
        assert all[i] == es[i] && ws[i] == front[i];
        assert ws[i + 1] == front[i + 1];
      } else {
        assert all[i] == fs[i - |es|];
        assert ws[i] == back[i - |es|];
        assert ws[i + 1] == back[i + 1 - |es|];
      }
    }
  }

  /** The flusher takes, commits and clears it. */
  function FlushEvents(f: FileId, chunks: seq<Chunk>): seq<Event> {
    [TakeReady([f]), CommitNext(chunks), ClearNext]
  }

  /** The world after those three events. */
  function Flushed(w: World, f: FileId, chunks: seq<Chunk>): World
    requires f in w.staged && Contiguous(chunks, 0, |w.staged[f].data|)
  {
    w.(store := Commit(w.store, w.staged[f].subject, w.staged[f].data, chunks), staged := w.staged[f := w.staged[f].(dirty := false)])
  }

  lemma FlushEventsPlay(w: World, f: FileId, chunks: seq<Chunk>) returns (ws: seq<World>)
    requires w.batch == [] && !w.committed && f in w.staged && w.staged[f].dirty && Contiguous(chunks, 0, |w.staged[f].data|)
    ensures Plays(ws, FlushEvents(f, chunks)) && Steps(ws, FlushEvents(f, chunks))
    ensures ws[0] == w && ws[3] == Flushed(w, f, chunks)
  {
    hide Contiguous, Commit;
    var es := FlushEvents(f, chunks);
    var w1 := Next(w, es[0]);
    assert w1.batch == [SnapshotOf(w, f)];
    var w2 := Next(w1, es[1]);
    var w3 := Next(w2, es[2]);
    assert w1.batch[1..] == [];
    assert w3 == Flushed(w, f, chunks);
    ws := [w, w1, w2, w3];
  }

  /** The events of one save: a write to a drive at rest, then the flusher. */
  function SaveEvents(who: nat, f: FileId, patch: Patch, now: Stamp, chunks: seq<Chunk>): seq<Event> {
    WriteEvents(who, f, patch, now) + FlushEvents(f, chunks)
  }

  /** What a save leaves, whether or not the file could be read: the patched seed, marked clean, and persisted
      unless its digest was already the stored one. */
  lemma SaveOutcome(w: World, who: nat, f: FileId, patch: Patch, now: Stamp, chunks: seq<Chunk>) returns (ws: seq<World>)
    requires AtRest(w) && f in w.names && w.names[f] in w.store.files
    requires Contiguous(chunks, 0, |Patched(Seed(w, f), patch)|)
    ensures var es, data, file := SaveEvents(who, f, patch, now, chunks), Patched(Seed(w, f), patch), w.store.files[w.names[f]];
            && Steps(ws, es) && ws[0] == w
            && var w' := ws[|es|];
            && f in w'.staged && !w'.staged[f].dirty && w'.staged[f].data == data
            && w'.names == w.names && w.names[f] in w'.store.files
            && ReadBlob(w'.store.blobs, w'.store.files[w.names[f]]) ==
               if Unchanged(file, data) then ReadBlob(w.store.blobs, file) else Ok(data)
  {
    hide Contiguous, Patched, ReadBlob, Seed, Enabled, Next, Timely, WriteEvents, FlushEvents;
    var front := WriteEventsPlay(w, who, f, patch, now);
    var w5 := Written(w, f, patch, now);
    var back := FlushEventsPlay(w5, f, chunks);
    EventCounts(who, f, patch, now, chunks);
    Joined(front, WriteEvents(who, f, patch, now), back, FlushEvents(f, chunks));
    ws := front + back[1..];
    var data, subject := Patched(Seed(w, f), patch), w.names[f];
    if !Unchanged(w.store.files[subject], data) {
      WrittenReadsBack(w.store, subject, data, chunks);
    }
  }

  lemma EventCounts(who: nat, f: FileId, patch: Patch, now: Stamp, chunks: seq<Chunk>)
    ensures |WriteEvents(who, f, patch, now)| == 5 && |FlushEvents(f, chunks)| == 3
  {
  }

  // ---- A file whose blob is not held ----------------------------------------------------------------

  predicate ZerosUpTo(bytes: Bytes, n: nat) {
    forall k | 0 <= k < n && k < |bytes| :: bytes[k] == 0
  }

  /** The patch leaves nothing of a file of this size to keep, except zeros: it covers the file's end, or cuts
      it off, and what lies before its bytes is zero. */
  predicate Overwrites(patch: Patch, truth: Bytes) {
    match patch
    case WriteAt(offset, data) => |truth| <= offset + |data| && ZerosUpTo(truth, offset)
    case Resize(size) => ZerosUpTo(truth, size)
  }

  lemma OverwritesIff(patch: Patch, truth: Bytes)
    ensures Patched([], patch) == Patched(truth, patch) <==> Overwrites(patch, truth)
  {
    var a, b := Patched([], patch), Patched(truth, patch);
    match patch
    case WriteAt(offset, data) =>
      WritePatchesWindow([], offset, data);
      WritePatchesWindow(truth, offset, data);
      if a == b {
        forall k | 0 <= k < offset && k < |truth| ensures truth[k] == 0 { assert a[k] == b[k]; }
      }
    case Resize(size) =>
      if a == b {
        forall k | 0 <= k < size && k < |truth| ensures truth[k] == 0 { assert a[k] == b[k]; }
      }
  }

  /** The file's resource says what its bytes are, and its blobs either give them or are not all held. */
  predicate Described(blobs: map<Digest, Bytes>, file: FileProps) {
    && file.internalId.Some? && file.filesize == Some(|file.internalId.value.preimage|)
    && (ReadBlob(blobs, file).Ok? ==> Sound(blobs, file))
  }

  /** What the write of a save should have made of the file. */
  function Meant(file: FileProps, patch: Patch): Bytes
    requires file.internalId.Some?
  {
    Patched(file.internalId.value.preimage, patch)
  }

  /** A save persists what its write should give exactly when the file was readable, or the patch overwrites all
      of it but zeros and its bytes have another digest than the stored one. */
  lemma SavePersistsIff(w: World, who: nat, f: FileId, patch: Patch, now: Stamp, chunks: seq<Chunk>) returns (ws: seq<World>)
    requires AtRest(w) && f in w.names && w.names[f] in w.store.files
    requires Described(w.store.blobs, w.store.files[w.names[f]])
    requires Contiguous(chunks, 0, |Patched(Seed(w, f), patch)|)
    ensures var es, file := SaveEvents(who, f, patch, now, chunks), w.store.files[w.names[f]];
            && Steps(ws, es) && ws[0] == w && w.names[f] in ws[|es|].store.files
            && (ReadBlob(ws[|es|].store.blobs, ws[|es|].store.files[w.names[f]]) == Ok(Meant(file, patch)) <==>
                  || ReadBlob(w.store.blobs, file).Ok?
                  || (Overwrites(patch, file.internalId.value.preimage) && file.internalId != Some(Digest(Patched([], patch)))))
  {
    hide Contiguous, Patched, ReadBlob, Steps, Overwrites;
    ws := SaveOutcome(w, who, f, patch, now, chunks);
    var file := w.store.files[w.names[f]];
    OverwritesIff(patch, file.internalId.value.preimage);
  }

  /** A drive with one file of two bytes whose blob has not arrived. */
  const UNSYNCED := World(map[2 := "f"], Store(map["f" := FileProps(Some(Digest([7, 8])), None, Some(2))], map[]), map[], None, [], false, map[])

  /** Writing one byte at its start ends clean, with that byte alone persisted. */
  lemma UnreadableSeedLoses() returns (ws: seq<World>)
    ensures var es := SaveEvents(0, 2, WriteAt(0, [9]), 1, OneChunk([9]));
            && Steps(ws, es) && ws[0] == UNSYNCED && "f" in ws[|es|].store.files
            && 2 in ws[|es|].staged && !ws[|es|].staged[2].dirty
            && ReadBlob(ws[|es|].store.blobs, ws[|es|].store.files["f"]) == Ok([9])
    ensures Meant(UNSYNCED.store.files["f"], WriteAt(0, [9])) == [9, 8]
  {
    hide Steps, SaveEvents;
    assert Seed(UNSYNCED, 2) == [];
    WritePatchesWindow([], 0, [9]);
    WritePatchesWindow([7, 8], 0, [9]);
    assert Patched([], WriteAt(0, [9])) == [9] && Patched([7, 8], WriteAt(0, [9])) == [9, 8];
    ws := SaveOutcome(UNSYNCED, 0, 2, WriteAt(0, [9]), 1, OneChunk([9]));
    var stored: Bytes, data: Bytes := [7, 8], [9];
    assert |stored| != |data|;
  }

  // ---- Two writes within one clock reading -------------------------------------------------------------

  /** The flusher takes its snapshot between the two writes, and commits it after them. */
  function SecondWriteEvents(f: FileId, patch: Patch, now: Stamp, chunks: seq<Chunk>): seq<Event> {
    [TakeReady([f]), Begin(1, Mutation(f, patch, Started)), CheckStaged(1), Mutate(1, now), CommitNext(chunks), ClearNext]
  }

  lemma SecondWritePlays(w: World, f: FileId, patch: Patch, now: Stamp, chunks: seq<Chunk>) returns (ws: seq<World>)
    requires w.requests == map[] && w.batch == [] && !w.committed && f in w.names && w.staged.Keys == {f} && w.staged[f].dirty
    requires w.staged[f].lastWrite == now && Contiguous(chunks, 0, |w.staged[f].data|)
    ensures Plays(ws, SecondWriteEvents(f, patch, now, chunks)) && ws[0] == w
    ensures ws[6] == w.(store := Commit(w.store, w.staged[f].subject, w.staged[f].data, chunks),
                        staged := w.staged[f := w.staged[f].(data := Patched(w.staged[f].data, patch), dirty := false)])
  {
    hide Contiguous, Commit, Patched;
    var es := SecondWriteEvents(f, patch, now, chunks);
    var snap := SnapshotOf(w, f);
    var w1 := Next(w, es[0]);
    assert w1 == w.(batch := [snap]);
    var w2 := Next(w1, es[1]);
    assert w2 == w1.(requests := map[1 := Mutation(f, patch, Started)]);
    var w3 := Next(w2, es[2]);
    assert w3 == w1.(requests := map[1 := Mutation(f, patch, Staged)]);
    var w4 := Next(w3, es[3]);
    var written := w.staged[f].(data := Patched(w.staged[f].data, patch));
    assert w4.requests == map[] && w4.staged == w.staged[f := written];
    var w5 := Next(w4, es[4]);
    var w6 := Next(w5, es[5]);
    assert w5.batch[1..] == [];
    ws := [w, w1, w2, w3, w4, w5, w6];
  }

  /** On any drive at rest with the file readable: two writes that read the same stamp, the flusher's snapshot
      between them. The second is lost exactly when it changes the bytes. */
  lemma TwoWritesOneStampIff(w: World, f: FileId, first: Patch, second: Patch, now: Stamp, chunks: seq<Chunk>) returns (ws: seq<World>)
    requires AtRest(w) && StoreValid(w.names, w.store, f) && Contiguous(chunks, 0, |Patched(Seed(w, f), first)|)
    ensures var es := WriteEvents(0, f, first, now) + SecondWriteEvents(f, second, now, chunks);
            var data := Patched(Seed(w, f), first);
            && Plays(ws, es) && ws[0] == w && (Lost(ws[|es|], f) <==> Patched(data, second) != data)
  {
    hide Contiguous, Patched, ReadBlob, Seed, Enabled, Next, Timely, WriteEvents, SecondWriteEvents, Commit;
    var front := WriteEventsPlay(w, 0, f, first, now);
    var w5 := Written(w, f, first, now);
    var back := SecondWritePlays(w5, f, second, now, chunks);
    SecondCounts(f, first, second, now, chunks);
    Joined(front, WriteEvents(0, f, first, now), back, SecondWriteEvents(f, second, now, chunks));
    ws := front + back[1..];
    CommitKeepsEach(w.store, w.names[f], Patched(Seed(w, f), first), chunks, w.names[f]);
  }

  lemma SecondCounts(f: FileId, first: Patch, second: Patch, now: Stamp, chunks: seq<Chunk>)
    ensures |WriteEvents(0, f, first, now)| == 5 && |SecondWriteEvents(f, second, now, chunks)| == 6
  {
  }

  /** A drive with one readable, empty file. */
  const EMPTY_FILE := World(map[2 := "f"], Store(map["f" := FileProps(Some(Digest([])), None, Some(0))], map[Digest([]) := []]), map[], None, [], false, map[])

  lemma EmptyFileReady()
    ensures AtRest(EMPTY_FILE) && StoreValid(EMPTY_FILE.names, EMPTY_FILE.store, 2) && Seed(EMPTY_FILE, 2) == []
  {
  }

  lemma OneByteWrites(a: Byte, b: Byte)
    ensures Patched([], WriteAt(0, [a])) == [a] && Patched([a], WriteAt(0, [b])) == [b]
  {
    WritePatchesWindow([], 0, [a]);
    WritePatchesWindow([a], 0, [b]);
  }

  /** Writing 5 and then 6 at its start, both at stamp 10, loses the 6. */
  lemma RepeatedStampLosesWrite() returns (ws: seq<World>)
    ensures var es := WriteEvents(0, 2, WriteAt(0, [5]), 10) + SecondWriteEvents(2, WriteAt(0, [6]), 10, OneChunk([5]));
            && Plays(ws, es) && ws[0] == EMPTY_FILE && AtRest(EMPTY_FILE) && Lost(ws[|es|], 2)
  {
    hide Plays, WriteEvents, SecondWriteEvents, Lost, AtRest, StoreValid, Seed, Patched, OneChunk, Contiguous;
    EmptyFileReady();
    OneByteWrites(5, 6);
    ws := TwoWritesOneStampIff(EMPTY_FILE, 2, WriteAt(0, [5]), WriteAt(0, [6]), 10, OneChunk([5]));
    var a: Bytes, b: Bytes := [5], [6];
    assert a[0] != b[0];
  }
}
