/** The content layer of the virtual drive (`desktop/src/vfs.rs`): File resources that point at
    content-addressed blobs, written by `commit_file` and read by `read_blob`. */
module VfsContent {
  import opened Basics

  const CHUNK_THRESHOLD: nat := 4 * 1024 * 1024

  /** A BLAKE3 digest, idealised as collision free: it determines the bytes it was computed from. */
  datatype Digest = Digest(preimage: Bytes)

  /** The blob-dependent properties of a File resource: `internalId`, `chunks` and `filesize`. */
  datatype FileProps = FileProps(internalId: Option<Digest>, chunks: Option<seq<Digest>>, filesize: Option<nat>)

  /** The store: File resources by subject, and the blob tree keyed by digest. */
  datatype Store = Store(files: map<Subject, FileProps>, blobs: map<Digest, Bytes>)

  datatype ReadError = NoEntry | Invalid

  /** One chunk the content-defined chunker yields. */
  datatype Chunk = Chunk(offset: nat, length: nat)

  /** All that is assumed of the chunker: its chunks tile `data[from..to]` in order. */
  predicate Contiguous(chunks: seq<Chunk>, from: nat, to: nat) {
    if chunks == [] then from == to
    else chunks[0].offset == from && Contiguous(chunks[1..], from + chunks[0].length, to)
  }

  // ---- Specification of reading -------------------------------------------------------------

  /** The concatenation of the referenced blobs, or `NoEntry` when one of them is not held. */
  function Concatenate(blobs: map<Digest, Bytes>, refs: seq<Digest>): Result<Bytes, ReadError> {
    if refs == [] then Ok([])
    else if refs[0] !in blobs then Err(NoEntry)
    else match Concatenate(blobs, refs[1..])
      case Err(e) => Err(e)
      case Ok(rest) => Ok(blobs[refs[0]] + rest)
  }

  function ReadBlob(blobs: map<Digest, Bytes>, file: FileProps): Result<Bytes, ReadError> {
    if file.chunks.Some? && file.chunks.value != [] then Concatenate(blobs, file.chunks.value)
    else if file.internalId.None? then Err(Invalid)
    else if file.internalId.value !in blobs then Err(NoEntry)
    else Ok(blobs[file.internalId.value])
  }

  // ---- Specification of committing ----------------------------------------------------------

  function ChunkBytes(data: Bytes, chunks: seq<Chunk>, from: nat): (r: seq<Bytes>)
    requires from <= |data| && Contiguous(chunks, from, |data|)
    ensures |r| == |chunks|
    decreases |chunks|
  {
    if chunks == [] then []
    else
      ContiguousBounds(chunks, from, |data|);
      [data[from..from + chunks[0].length]] + ChunkBytes(data, chunks[1..], from + chunks[0].length)
  }

  lemma ContiguousBounds(chunks: seq<Chunk>, from: nat, to: nat)
    requires Contiguous(chunks, from, to)
    ensures from <= to
    ensures chunks != [] ==> from + chunks[0].length <= to
  {
    if chunks != [] {
      ContiguousBounds(chunks[1..], from + chunks[0].length, to);
    }
  }

  function DigestsOf(pieces: seq<Bytes>): (r: seq<Digest>)
    ensures |r| == |pieces|
  {
    seq(|pieces|, i requires 0 <= i < |pieces| => Digest(pieces[i]))
  }

  function InsertAll(blobs: map<Digest, Bytes>, pieces: seq<Bytes>): map<Digest, Bytes>
    decreases |pieces|
  {
    if pieces == [] then blobs
    else InsertAll(blobs[Digest(pieces[0]) := pieces[0]], pieces[1..])
  }

  /** The pieces `store_bytes` writes as blobs: the whole file, or its chunks above the threshold. */
  function Pieces(data: Bytes, chunks: seq<Chunk>): seq<Bytes>
    requires Contiguous(chunks, 0, |data|)
  {
    if |data| <= CHUNK_THRESHOLD then [data] else ChunkBytes(data, chunks, 0)
  }

  /** The File resource `commit_file` saves. */
  function Committed(file: FileProps, data: Bytes, chunks: seq<Chunk>): FileProps
    requires Contiguous(chunks, 0, |data|)
  {
    FileProps(Some(Digest(data)),
              if |data| <= CHUNK_THRESHOLD then None else Some(DigestsOf(Pieces(data, chunks))),
              Some(|data|))
  }

  predicate Unchanged(file: FileProps, data: Bytes) {
    file.internalId == Some(Digest(data))
  }

  function Commit(st: Store, subject: Subject, data: Bytes, chunks: seq<Chunk>): Store
    requires Contiguous(chunks, 0, |data|)
  {
    if subject !in st.files then st
    else if Unchanged(st.files[subject], data) then st
    else Store(st.files[subject := Committed(st.files[subject], data, chunks)],
               InsertAll(st.blobs, Pieces(data, chunks)))
  }

  // ---- What committing and reading promise together -----------------------------------------

  function Flatten(pieces: seq<Bytes>): Bytes {
    if pieces == [] then [] else pieces[0] + Flatten(pieces[1..])
  }

  lemma {:induction false} ChunksFlattenToData(data: Bytes, chunks: seq<Chunk>, from: nat)
    requires from <= |data| && Contiguous(chunks, from, |data|)
    ensures Flatten(ChunkBytes(data, chunks, from)) == data[from..]
    decreases |chunks|
  {
    if chunks != [] {
      ContiguousBounds(chunks, from, |data|);
      var next := from + chunks[0].length;
      ChunksFlattenToData(data, chunks[1..], next);
      var r := ChunkBytes(data, chunks, from);
      assert r[0] == data[from..next] && r[1..] == ChunkBytes(data, chunks[1..], next);
      assert data[from..] == data[from..next] + data[next..];
    }
  }

  /** Inserting content-addressed pieces gives each its own bytes and leaves every other key alone. */
  lemma {:induction false} InsertAllLookup(blobs: map<Digest, Bytes>, pieces: seq<Bytes>, d: Digest)
    ensures d.preimage in pieces ==> d in InsertAll(blobs, pieces) && InsertAll(blobs, pieces)[d] == d.preimage
    ensures d.preimage !in pieces ==>
              (d in InsertAll(blobs, pieces) <==> d in blobs)
              && (d in blobs ==> InsertAll(blobs, pieces)[d] == blobs[d])
    decreases |pieces|
  {
    if pieces != [] {
      var grown := blobs[Digest(pieces[0]) := pieces[0]];
      InsertAllLookup(grown, pieces[1..], d);
      assert pieces == [pieces[0]] + pieces[1..];
      if d.preimage !in pieces[1..] && d.preimage == pieces[0] {
        assert d == Digest(pieces[0]);
      }
    }
  }

  lemma {:induction false} ConcatenateDigests(blobs: map<Digest, Bytes>, pieces: seq<Bytes>)
    requires forall p :: p in pieces ==> Digest(p) in blobs && blobs[Digest(p)] == p
    ensures Concatenate(blobs, DigestsOf(pieces)) == Ok(Flatten(pieces))
    decreases |pieces|
  {
    if pieces != [] {
      assert DigestsOf(pieces)[1..] == DigestsOf(pieces[1..]);
      ConcatenateDigests(blobs, pieces[1..]);
    }
  }

  lemma {:induction false} WrittenReadsBack(st: Store, subject: Subject, data: Bytes, chunks: seq<Chunk>)
    requires subject in st.files && Contiguous(chunks, 0, |data|)
    requires !Unchanged(st.files[subject], data)
    ensures var st' := Commit(st, subject, data, chunks);
            && ReadBlob(st'.blobs, st'.files[subject]) == Ok(data)
            && st'.files[subject].internalId == Some(Digest(data)) && st'.files[subject].filesize == Some(|data|)
            && (st'.files[subject].chunks.Some? <==> |data| > CHUNK_THRESHOLD)
  {
    var pieces := Pieces(data, chunks);
    var st' := Commit(st, subject, data, chunks);
    forall p | p in pieces
      ensures Digest(p) in st'.blobs && st'.blobs[Digest(p)] == p
    {
      InsertAllLookup(st.blobs, pieces, Digest(p));
    }
    if |data| > CHUNK_THRESHOLD {
      ChunksFlattenToData(data, chunks, 0);
      ConcatenateDigests(st'.blobs, pieces);
      assert chunks != [];
    }
  }

  /** A commit makes the file read back as the committed bytes, for any earlier chunking and any
      split, except when it is skipped because the digest is unchanged while those bytes could not
      be read in the first place. */
  lemma CommitReadsBackIff(st: Store, subject: Subject, data: Bytes, chunks: seq<Chunk>)
    requires subject in st.files && Contiguous(chunks, 0, |data|)
    ensures var st' := Commit(st, subject, data, chunks);
            ReadBlob(st'.blobs, st'.files[subject]) == Ok(data)
            <==> (!Unchanged(st.files[subject], data)
                  || ReadBlob(st.blobs, st.files[subject]) == Ok(data))
  {
    if !Unchanged(st.files[subject], data) {
      WrittenReadsBack(st, subject, data, chunks);
    }
  }

  /** The failing case: the resource has synced but its blob has not, and the same bytes are saved. */
  lemma SkippedCommitCanStayUnreadable()
    ensures var file := FileProps(Some(Digest([7])), None, Some(1));
            var st := Store(map["f" := file], map[]);
            var st' := Commit(st, "f", [7], [Chunk(0, 1)]);
            Contiguous([Chunk(0, 1)], 0, 1) && ReadBlob(st'.blobs, st'.files["f"]) == Err(NoEntry)
  {
    assert Contiguous([Chunk(0, 1)][1..], 1, 1);
  }

  // ---- One readable file ----------------------------------------------------------------------

  /** Blobs are stored under their own digest. */
  ghost predicate Honest(blobs: map<Digest, Bytes>) {
    forall d :: d in blobs ==> blobs[d] == d.preimage
  }

  /** The file reads as the bytes its `internalId` was computed from. */
  predicate Sound(blobs: map<Digest, Bytes>, file: FileProps) {
    && file.internalId.Some?
    && ReadBlob(blobs, file) == Ok(file.internalId.value.preimage)
  }

  /** The persisted bytes of a file. */
  function Contents(st: Store, subject: Subject): Bytes
    requires subject in st.files && Sound(st.blobs, st.files[subject])
  {
    st.files[subject].internalId.value.preimage
  }

  lemma {:induction false} ConcatenateMonotone(blobs: map<Digest, Bytes>, more: map<Digest, Bytes>, refs: seq<Digest>)
    requires forall d :: d in blobs ==> d in more && more[d] == blobs[d]
    requires Concatenate(blobs, refs).Ok?
    ensures Concatenate(more, refs) == Concatenate(blobs, refs)
  {
    if refs != [] {
      ConcatenateMonotone(blobs, more, refs[1..]);
    }
  }

  lemma InsertAllHonest(blobs: map<Digest, Bytes>, pieces: seq<Bytes>)
    requires Honest(blobs)
    ensures Honest(InsertAll(blobs, pieces))
    ensures forall d :: d in blobs ==> d in InsertAll(blobs, pieces) && InsertAll(blobs, pieces)[d] == blobs[d]
  {
    forall d
      ensures d in InsertAll(blobs, pieces) ==> InsertAll(blobs, pieces)[d] == d.preimage
      ensures d in blobs ==> d in InsertAll(blobs, pieces)
    {
      InsertAllLookup(blobs, pieces, d);
    }
  }

  /** A commit keeps every projection of a readable file readable, with the same bytes. */
  lemma SoundGrows(st: Store, subject: Subject, data: Bytes, chunks: seq<Chunk>, file: FileProps)
    requires Honest(st.blobs) && Sound(st.blobs, file) && Contiguous(chunks, 0, |data|)
    ensures Honest(Commit(st, subject, data, chunks).blobs) && Sound(Commit(st, subject, data, chunks).blobs, file)
  {
    InsertAllHonest(st.blobs, Pieces(data, chunks));
    if file.chunks.Some? && file.chunks.value != [] {
      ConcatenateMonotone(st.blobs, Commit(st, subject, data, chunks).blobs, file.chunks.value);
    }
  }

  /** Committing a file keeps every other readable file readable with its own bytes, whatever else the store
      holds or lacks; the file itself then has the data, unless the commit was skipped over missing bytes. */
  lemma CommitKeepsEach(st: Store, subject: Subject, data: Bytes, chunks: seq<Chunk>, other: Subject)
    requires Honest(st.blobs) && other in st.files && Contiguous(chunks, 0, |data|)
    requires Sound(st.blobs, st.files[other]) || (other == subject && !Unchanged(st.files[other], data))
    ensures var st' := Commit(st, subject, data, chunks);
            && Honest(st'.blobs) && st'.files.Keys == st.files.Keys && Sound(st'.blobs, st'.files[other])
            && Contents(st', other) == if other == subject then data else Contents(st, other)
  {
    InsertAllHonest(st.blobs, Pieces(data, chunks));
    if other == subject && !Unchanged(st.files[other], data) {
      WrittenReadsBack(st, subject, data, chunks);
    } else {
      SoundGrows(st, subject, data, chunks, st.files[other]);
    }
  }

  // ---- Runs of commits ----------------------------------------------------------------------

  datatype Save = Save(subject: Subject, data: Bytes, chunks: seq<Chunk>) {
    predicate Valid() { Contiguous(chunks, 0, |data|) }
  }

  function Run(st: Store, saves: seq<Save>): Store
    requires forall i :: 0 <= i < |saves| ==> saves[i].Valid()
    decreases |saves|
  {
    if saves == [] then st
    else
      var n := |saves| - 1;
      assert saves[n].Valid();
      Commit(Run(st, saves[..n]), saves[n].subject, saves[n].data, saves[n].chunks)
  }

  /** The data of the last save of `subject`, or `initial` when there is none. */
  function LastSaved(saves: seq<Save>, subject: Subject, initial: Bytes): Bytes
    decreases |saves|
  {
    if saves == [] then initial
    else if saves[|saves| - 1].subject == subject then saves[|saves| - 1].data
    else LastSaved(saves[..|saves| - 1], subject, initial)
  }

  /** After any run of commits, in any mix of sizes, a file that was readable reads as the bytes last
      committed to it, whatever other files lack. */
  lemma {:induction false} RunReadsLastSaved(st: Store, saves: seq<Save>, subject: Subject)
    requires Honest(st.blobs) && subject in st.files && Sound(st.blobs, st.files[subject])
    requires forall i :: 0 <= i < |saves| ==> saves[i].Valid()
    ensures var st' := Run(st, saves);
            && Honest(st'.blobs) && st'.files.Keys == st.files.Keys && Sound(st'.blobs, st'.files[subject])
            && ReadBlob(st'.blobs, st'.files[subject]) == Ok(LastSaved(saves, subject, Contents(st, subject)))
    decreases |saves|
  {
    if saves != [] {
      var n := |saves| - 1;
      RunReadsLastSaved(st, saves[..n], subject);
      CommitKeepsEach(Run(st, saves[..n]), saves[n].subject, saves[n].data, saves[n].chunks, subject);
    }
  }

  // ---- Windows and the read cache -----------------------------------------------------------

  /** `slice_read`: the window of `bytes` at `offset`, and whether it reaches the end. */
  function SliceRead(bytes: Bytes, offset: nat, count: nat): (r: (Bytes, bool))
    ensures |r.0| <= count
    ensures forall k :: 0 <= k < |r.0| ==> offset + k < |bytes| && r.0[k] == bytes[offset + k]
    ensures |r.0| < count ==> offset + |r.0| >= |bytes|
    ensures r.1 <==> offset + count >= |bytes|
  {
    var start := if offset < |bytes| then offset else |bytes|;
    var end := if start + count < |bytes| then start + count else |bytes|;
    (bytes[start..end], end >= |bytes|)
  }

  /** Reading a file window by window until the end flag returns exactly its bytes. */
  function ReadThrough(bytes: Bytes, offset: nat, count: nat): Bytes
    requires count > 0
    decreases |bytes| - offset
  {
    var (window, eof) := SliceRead(bytes, offset, count);
    if eof then window else window + ReadThrough(bytes, offset + count, count)
  }

  lemma {:induction false} ReadThroughIsWhole(bytes: Bytes, offset: nat, count: nat)
    requires count > 0 && offset <= |bytes|
    ensures ReadThrough(bytes, offset, count) == bytes[offset..]
    decreases |bytes| - offset
  {
    var (window, eof) := SliceRead(bytes, offset, count);
    if !eof {
      ReadThroughIsWhole(bytes, offset + count, count);
      assert bytes[offset..] == bytes[offset..offset + count] + bytes[offset + count..];
    }
  }

  datatype ReadCache = ReadCache(id: nat, internalId: Option<Digest>, bytes: Bytes)

  /** What keeps the one-entry cache from being stale for a file: its bytes are those its digest names. */
  predicate CacheSound(cache: Option<ReadCache>, id: nat) {
    cache.Some? && cache.value.id == id && cache.value.internalId.Some? ==> cache.value.bytes == cache.value.internalId.value.preimage
  }

  predicate CacheHit(cache: Option<ReadCache>, id: nat, file: FileProps) {
    cache.Some? && cache.value.id == id && cache.value.internalId == file.internalId
  }

  /** The persisted-bytes half of `read`: the cache when it matches, else the blobs. */
  function CachedRead(blobs: map<Digest, Bytes>, cache: Option<ReadCache>, id: nat, file: FileProps)
    : (Result<Bytes, ReadError>, Option<ReadCache>)
  {
    if CacheHit(cache, id, file) then (Ok(cache.value.bytes), cache)
    else match ReadBlob(blobs, file)
      case Err(e) => (Err(e), cache)
      case Ok(bytes) => (Ok(bytes), Some(ReadCache(id, file.internalId, bytes)))
  }

  /** The cache is transparent for a file that reads as its digest says, whatever was cached before. */
  lemma CacheTransparent(blobs: map<Digest, Bytes>, cache: Option<ReadCache>, id: nat, file: FileProps)
    requires Sound(blobs, file) && CacheSound(cache, id)
    ensures var (bytes, cache') := CachedRead(blobs, cache, id, file);
            bytes == Ok(file.internalId.value.preimage) && bytes == ReadBlob(blobs, file) && CacheSound(cache', id)
  {
  }

  /** A cache entry some earlier read left: of this file as it was then, in the store as it was then, where a
      digest, if there was one, named the bytes read. */
  ghost predicate Earned(cache: Option<ReadCache>, id: nat) {
    cache.Some? && cache.value.id == id ==>
      exists blobs: map<Digest, Bytes>, file: FileProps ::
        && Honest(blobs) && file.internalId == cache.value.internalId && ReadBlob(blobs, file) == Ok(cache.value.bytes)
        && (file.internalId.Some? ==> Sound(blobs, file))
  }

  /** A readable file is read as it is through whatever an earlier read left in the cache, exactly when it has
      a digest: without one, entries of all its versions share an empty key, and an older one is served. */
  lemma CacheTransparentIff(blobs: map<Digest, Bytes>, id: nat, file: FileProps)
    requires ReadBlob(blobs, file).Ok? && (file.internalId.Some? ==> Sound(blobs, file))
    ensures (forall cache :: Earned(cache, id) ==> CachedRead(blobs, cache, id, file).0 == ReadBlob(blobs, file))
            <==> file.internalId.Some?
  {
    hide ReadBlob;
    if file.internalId.Some? {
      forall cache | Earned(cache, id) ensures CachedRead(blobs, cache, id, file).0 == ReadBlob(blobs, file) {}
    } else {
      var older := ReadBlob(blobs, file).value + [0];
      OneChunkReads(older);
      var earlier := FileProps(None, Some([Digest(older)]), None);
      var cache := Some(ReadCache(id, None, older));
      assert Honest(map[Digest(older) := older]) && earlier.internalId == None;
      assert Earned(cache, id);
      assert CachedRead(blobs, cache, id, file).0 == Ok(older);
      assert |older| == |ReadBlob(blobs, file).value| + 1;
    }
  }

  lemma OneChunkReads(bytes: Bytes)
    ensures ReadBlob(map[Digest(bytes) := bytes], FileProps(None, Some([Digest(bytes)]), None)) == Ok(bytes)
  {
    var blobs := map[Digest(bytes) := bytes];
    assert [Digest(bytes)][1..] == [] && bytes + [] == bytes;
    assert Concatenate(blobs, []) == Ok([]);
    assert Concatenate(blobs, [Digest(bytes)]) == Ok(bytes);
  }

  // ---- The operations, in place on the store ------------------------------------------------

  class Db {
    var files: map<Subject, FileProps>
    var blobs: map<Digest, Bytes>

    function State(): Store reads this { Store(files, blobs) }

    /** `store_bytes`: one blob for a small file, chunk blobs with their ordered list for a large one. */
    method StoreBytes(data: Bytes, chunks: seq<Chunk>) returns (refs: Option<seq<Digest>>)
      requires Contiguous(chunks, 0, |data|)
      modifies this`blobs
      ensures blobs == InsertAll(old(blobs), Pieces(data, chunks))
      ensures refs == if |data| <= CHUNK_THRESHOLD then None else Some(DigestsOf(Pieces(data, chunks)))
    {
      if |data| <= CHUNK_THRESHOLD {
        blobs := blobs[Digest(data) := data];
        assert InsertAll(blobs, [data][1..]) == blobs;
        return None;
      }
      var list: seq<Digest> := [];
      var i, at := 0, 0;
      ghost var pieces := Pieces(data, chunks);
      while i < |chunks|
        invariant 0 <= i <= |chunks| && 0 <= at <= |data|
        invariant Contiguous(chunks[i..], at, |data|)
        invariant pieces[i..] == ChunkBytes(data, chunks[i..], at)
        invariant list == DigestsOf(pieces)[..i]
        invariant InsertAll(blobs, pieces[i..]) == InsertAll(old(blobs), pieces)
      {
        ContiguousBounds(chunks[i..], at, |data|);
        var chunk := chunks[i];
        assert chunks[i..][0] == chunk && chunks[i..][1..] == chunks[i + 1..];
        assert pieces[i..][1..] == pieces[i + 1..];
        var bytes := data[chunk.offset..chunk.offset + chunk.length];
        assert bytes == pieces[i..][0];
        blobs := blobs[Digest(bytes) := bytes];
        list := list + [Digest(bytes)];
        at := at + chunk.length;
        i := i + 1;
      }
      assert DigestsOf(pieces)[..i] == DigestsOf(pieces);
      assert pieces[i..] == [];
      return Some(list);
    }

    /** `commit_file`, with every store call succeeding. */
    method CommitFile(subject: Subject, data: Bytes, chunks: seq<Chunk>)
      requires Contiguous(chunks, 0, |data|)
      modifies this
      ensures State() == Commit(old(State()), subject, data, chunks)
    {
      if subject !in files { return; }
      var resource := files[subject];
      if resource.internalId == Some(Digest(data)) { return; }
      var refs := StoreBytes(data, chunks);
      resource := resource.(internalId := Some(Digest(data)), filesize := Some(|data|));
      match refs {
        case Some(list) => resource := resource.(chunks := Some(list));
        case None =>
          if resource.chunks.Some? { resource := resource.(chunks := None); }
      }
      files := files[subject := resource];
    }

    /** `read_blob`. */
    method Read(file: FileProps) returns (r: Result<Bytes, ReadError>)
      ensures r == ReadBlob(blobs, file)
    {
      if file.chunks.Some? && file.chunks.value != [] {
        var refs := file.chunks.value;
        var out: Bytes := [];
        var i := 0;
        assert refs[0..] == refs;
        assert forall rest: Bytes :: [] + rest == rest;
        while i < |refs|
          invariant 0 <= i <= |refs|
          invariant match Concatenate(blobs, refs[i..])
                    case Ok(rest) => Concatenate(blobs, refs) == Ok(out + rest)
                    case Err(e) => Concatenate(blobs, refs) == Err(e)
        {
          assert refs[i..][1..] == refs[i + 1..];
          if refs[i] !in blobs { return Err(NoEntry); }
          assert forall rest: Bytes :: out + (blobs[refs[i]] + rest) == (out + blobs[refs[i]]) + rest;
          out := out + blobs[refs[i]];
          i := i + 1;
        }
        assert out + [] == out;
        return Ok(out);
      }
      if file.internalId.None? { return Err(Invalid); }
      if file.internalId.value !in blobs { return Err(NoEntry); }
      return Ok(blobs[file.internalId.value]);
    }
  }
}
