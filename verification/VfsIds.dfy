/** The persisted file-id map of the virtual drive (`desktop/src/vfs.rs`, `IdMap`): an in-memory cache
    in front of two persisted directions and a counter, with minted ids queued for a batched write. */
module VfsIds {
  import opened Basics

  type FileId = nat

  const ROOT_ID: FileId := 1

  /** The three key families `IdMap` owns in the key-value store. */
  datatype Disk = Disk(idOf: map<Subject, FileId>, subjectOf: map<FileId, Subject>, next: Option<FileId>)

  datatype Cache = Cache(idOf: map<Subject, FileId>, subjectOf: map<FileId, Subject>, next: Option<FileId>)

  const EMPTY_CACHE := Cache(map[], map[], None)

  datatype Ids = Ids(disk: Disk, cache: Cache, pending: seq<(FileId, Subject)>)

  // ---- The operations, as functions ---------------------------------------------------------

  function Remember(cache: Cache, id: FileId, subject: Subject): Cache {
    cache.(idOf := cache.idOf[subject := id], subjectOf := cache.subjectOf[id := subject])
  }

  /** The next id to hand out. */
  function Frontier(st: Ids): FileId {
    st.cache.next.GetOr(st.disk.next.GetOr(ROOT_ID + 1))
  }

  function GetOrAlloc(st: Ids, subject: Subject): (Ids, FileId) {
    if subject in st.cache.idOf then (st, st.cache.idOf[subject])
    else if subject in st.disk.idOf then
      var id := st.disk.idOf[subject];
      (st.(cache := Remember(st.cache, id, subject)), id)
    else
      var id := Frontier(st);
      (st.(cache := Remember(st.cache.(next := Some(id + 1)), id, subject), pending := st.pending + [(id, subject)]),
       id)
  }

  function SubjectFor(st: Ids, id: FileId): (Ids, Option<Subject>) {
    if id in st.cache.subjectOf then (st, Some(st.cache.subjectOf[id]))
    else if id in st.disk.subjectOf then
      var subject := st.disk.subjectOf[id];
      (st.(cache := Remember(st.cache, id, subject)), Some(subject))
    else (st, None)
  }

  datatype Operation = SetNext(id: FileId) | SetId(subject: Subject, id: FileId) | SetSubject(id: FileId, subject: Subject)

  function Execute(disk: Disk, op: Operation): Disk {
    match op
    case SetNext(id) => disk.(next := Some(id))
    case SetId(subject, id) => disk.(idOf := disk.idOf[subject := id])
    case SetSubject(id, subject) => disk.(subjectOf := disk.subjectOf[id := subject])
  }

  function ApplyBatch(disk: Disk, ops: seq<Operation>): Disk
    decreases |ops|
  {
    if ops == [] then disk else ApplyBatch(Execute(disk, ops[0]), ops[1..])
  }

  function Entries(pending: seq<(FileId, Subject)>): seq<Operation> {
    if pending == [] then []
    else [SetId(pending[0].1, pending[0].0), SetSubject(pending[0].0, pending[0].1)] + Entries(pending[1..])
  }

  function PersistPending(st: Ids): Ids {
    if st.pending == [] then st
    else Ids(ApplyBatch(st.disk, [SetNext(st.cache.next.GetOr(ROOT_ID + 1))] + Entries(st.pending)), st.cache, [])
  }

  function Without(pending: seq<(FileId, Subject)>, id: FileId): seq<(FileId, Subject)> {
    if pending == [] then []
    else if pending[0].0 == id then Without(pending[1..], id)
    else [pending[0]] + Without(pending[1..], id)
  }

  function Forget(st: Ids, id: FileId, subject: Subject): Ids {
    Ids(st.disk.(idOf := st.disk.idOf - {subject}, subjectOf := st.disk.subjectOf - {id}),
        st.cache.(idOf := st.cache.idOf - {subject}, subjectOf := st.cache.subjectOf - {id}),
        Without(st.pending, id))
  }

  /** A crash or an unmount followed by a mount: only the store survives. */
  function Remount(st: Ids): Ids {
    Ids(st.disk, EMPTY_CACHE, [])
  }

  // ---- The map the layers add up to ---------------------------------------------------------

  function IdOf(st: Ids, subject: Subject): Option<FileId> {
    if subject in st.cache.idOf then Some(st.cache.idOf[subject])
    else if subject in st.disk.idOf then Some(st.disk.idOf[subject])
    else None
  }

  function SubjectOf(st: Ids, id: FileId): Option<Subject> {
    if id in st.cache.subjectOf then Some(st.cache.subjectOf[id])
    else if id in st.disk.subjectOf then Some(st.disk.subjectOf[id])
    else None
  }

  ghost predicate Inverse(st: Ids) {
    && (forall s :: IdOf(st, s).Some? ==> SubjectOf(st, IdOf(st, s).value) == Some(s))
    && (forall id: FileId :: SubjectOf(st, id).Some? ==> IdOf(st, SubjectOf(st, id).value) == Some(id))
  }

  ghost predicate Mutual(idOf: map<Subject, FileId>, subjectOf: map<FileId, Subject>) {
    && (forall s :: s in idOf ==> idOf[s] in subjectOf && subjectOf[idOf[s]] == s)
    && (forall id :: id in subjectOf ==> subjectOf[id] in idOf && idOf[subjectOf[id]] == id)
  }

  /** Where the cache and the store both know something, they agree. */
  ghost predicate Agree(st: Ids) {
    && (forall s :: s in st.cache.idOf && s in st.disk.idOf ==> st.cache.idOf[s] == st.disk.idOf[s])
    && (forall id :: id in st.cache.subjectOf && id in st.disk.subjectOf ==>
          st.cache.subjectOf[id] == st.disk.subjectOf[id])
  }

  /** What is cached is stored or queued, and what is queued is cached. */
  ghost predicate Queued(st: Ids) {
    && (forall s :: s in st.cache.idOf && s !in st.disk.idOf ==> (st.cache.idOf[s], s) in st.pending)
    && (forall p :: p in st.pending ==> p.1 in st.cache.idOf && st.cache.idOf[p.1] == p.0)
    && (st.pending != [] ==> st.cache.next.Some?)
  }

  /** Ids lie above the root and below the counters. */
  ghost predicate Bounded(st: Ids) {
    && ROOT_ID < st.disk.next.GetOr(ROOT_ID + 1) <= Frontier(st)
    && (forall id :: id in st.disk.subjectOf ==> ROOT_ID < id < st.disk.next.GetOr(ROOT_ID + 1))
    && (forall id :: id in st.cache.subjectOf ==> ROOT_ID < id < Frontier(st))
  }

  ghost predicate Valid(st: Ids) {
    && Mutual(st.cache.idOf, st.cache.subjectOf) && Mutual(st.disk.idOf, st.disk.subjectOf)
    && Agree(st) && Queued(st) && Bounded(st)
  }

  lemma ValidIsInverse(st: Ids)
    requires Valid(st)
    ensures Inverse(st)
    ensures forall s :: IdOf(st, s).Some? ==> ROOT_ID < IdOf(st, s).value < Frontier(st)
  {
  }

  // ---- Each operation -----------------------------------------------------------------------

  lemma RememberStored(st: Ids, id: FileId, subject: Subject)
    requires Valid(st) && subject in st.disk.idOf && st.disk.idOf[subject] == id
    ensures var st' := st.(cache := Remember(st.cache, id, subject));
            && Valid(st') && (forall s :: IdOf(st', s) == IdOf(st, s))
            && (forall i: FileId :: SubjectOf(st', i) == SubjectOf(st, i))
  {
  }

  /** A fresh id, unknown in every layer, joins the cache and the queue. */
  lemma MintValid(st: Ids, subject: Subject)
    requires Valid(st) && subject !in st.cache.idOf && subject !in st.disk.idOf
    ensures var (st', id) := GetOrAlloc(st, subject);
            && Valid(st') && id !in st.cache.subjectOf && id !in st.disk.subjectOf
  {
    var (st', id) := GetOrAlloc(st, subject);
    assert Mutual(st'.cache.idOf, st'.cache.subjectOf);
    assert Queued(st') by {
      assert st'.pending[|st.pending|] == (id, subject);
      assert forall p :: p in st'.pending <==> p in st.pending || p == (id, subject);
    }
    assert Agree(st');
    assert Bounded(st');
  }

  /** An id already known is returned; otherwise one above every id ever persisted is minted. */
  lemma GetOrAllocValid(st: Ids, subject: Subject)
    requires Valid(st)
    ensures var (st', id) := GetOrAlloc(st, subject);
            && Valid(st') && st'.disk == st.disk
            && IdOf(st', subject) == Some(id) && id != ROOT_ID
            && (IdOf(st, subject).Some? ==> id == IdOf(st, subject).value)
            && (IdOf(st, subject).None? ==> SubjectOf(st, id).None? && id >= st.disk.next.GetOr(ROOT_ID + 1))
            && (forall s :: s != subject ==> IdOf(st', s) == IdOf(st, s))
            && (forall i: FileId :: i != id ==> SubjectOf(st', i) == SubjectOf(st, i))
  {
    hide Queued, Agree;
    if subject in st.cache.idOf {
    } else if subject in st.disk.idOf {
      RememberStored(st, st.disk.idOf[subject], subject);
    } else {
      MintValid(st, subject);
    }
  }

  lemma SubjectForValid(st: Ids, id: FileId)
    requires Valid(st)
    ensures var (st', subject) := SubjectFor(st, id);
            && Valid(st') && subject == SubjectOf(st, id)
            && (forall s :: IdOf(st', s) == IdOf(st, s)) && (forall i: FileId :: SubjectOf(st', i) == SubjectOf(st, i))
  {
    if id !in st.cache.subjectOf && id in st.disk.subjectOf {
      RememberStored(st, id, st.disk.subjectOf[id]);
    }
  }

  /** The batch writes each queued pair in both directions, and nothing else. */
  lemma {:induction false} EntriesApplied(disk: Disk, pending: seq<(FileId, Subject)>)
    requires forall p, q :: p in pending && q in pending ==> (p.0 == q.0 <==> p.1 == q.1)
    ensures var disk' := ApplyBatch(disk, Entries(pending));
            && disk'.next == disk.next
            && (forall p :: p in pending ==>
                  (p.1 in disk'.idOf && disk'.idOf[p.1] == p.0 && p.0 in disk'.subjectOf && disk'.subjectOf[p.0] == p.1))
            && (forall s :: s in disk.idOf ==> s in disk'.idOf)
            && (forall s :: s in disk'.idOf ==>
                  (exists p :: p in pending && p.1 == s) || (s in disk.idOf && disk'.idOf[s] == disk.idOf[s]))
            && (forall i :: i in disk.subjectOf ==> i in disk'.subjectOf)
            && (forall i :: i in disk'.subjectOf ==>
                  (exists p :: p in pending && p.0 == i) || (i in disk.subjectOf && disk'.subjectOf[i] == disk.subjectOf[i]))
    decreases |pending|
  {
    if pending != [] {
      var p, rest := pending[0], pending[1..];
      var once := Execute(Execute(disk, SetId(p.1, p.0)), SetSubject(p.0, p.1));
      var ops := Entries(pending);
      assert ops[0] == SetId(p.1, p.0) && ops[1..][0] == SetSubject(p.0, p.1) && ops[1..][1..] == Entries(rest);
      assert ApplyBatch(disk, ops) == ApplyBatch(once, Entries(rest));
      EntriesApplied(once, rest);
      assert forall q :: q in pending <==> q == p || q in rest;
      assert p in pending;
    }
  }

  /** After the batch the store holds both directions of everything known. */
  lemma PersistStores(st: Ids)
    requires Valid(st) && st.pending != []
    ensures var disk := PersistPending(st).disk;
            && disk.next == st.cache.next
            && (forall s :: s in disk.idOf <==> IdOf(st, s).Some?)
            && (forall s :: s in disk.idOf ==> Some(disk.idOf[s]) == IdOf(st, s))
            && (forall i: FileId :: i in disk.subjectOf <==> SubjectOf(st, i).Some?)
            && (forall i: FileId :: i in disk.subjectOf ==> Some(disk.subjectOf[i]) == SubjectOf(st, i))
  {
    hide Bounded;
    var ops := [SetNext(st.cache.next.value)] + Entries(st.pending);
    assert ops[1..] == Entries(st.pending);
    EntriesApplied(Execute(st.disk, ops[0]), st.pending);
    var disk := PersistPending(st).disk;
    forall s | s in disk.idOf ensures Some(disk.idOf[s]) == IdOf(st, s) {}
    forall i | i in disk.subjectOf ensures Some(disk.subjectOf[i]) == SubjectOf(st, i) {}
  }

  /** Persisting changes no mapping, empties the queue, and everything known is then in the store. */
  lemma PersistPendingValid(st: Ids)
    requires Valid(st)
    ensures var st' := PersistPending(st);
            && Valid(st') && st'.pending == [] && Frontier(st') == Frontier(st)
            && (forall s :: IdOf(st', s) == IdOf(st, s))
            && (forall i: FileId :: SubjectOf(st', i) == SubjectOf(st, i))
            && (forall s :: IdOf(st, s).Some? ==> s in st'.disk.idOf && st'.disk.idOf[s] == IdOf(st, s).value)
            && st'.disk.next.GetOr(ROOT_ID + 1) >= st.disk.next.GetOr(ROOT_ID + 1)
  {
    hide ApplyBatch, Entries;
    if st.pending != [] {
      PersistStores(st);
      ValidIsInverse(st);
      var st' := PersistPending(st);
      assert Mutual(st'.disk.idOf, st'.disk.subjectOf);
      assert Agree(st');
      assert Queued(st');
      assert Bounded(st');
    }
  }

  /** So a remount right after persisting keeps every id. */
  lemma PersistedSurvivesRemount(st: Ids, subject: Subject)
    requires Valid(st)
    ensures IdOf(Remount(PersistPending(st)), subject) == IdOf(st, subject)
  {
    PersistPendingValid(st);
  }

  lemma RemountValid(st: Ids)
    requires Valid(st)
    ensures Valid(Remount(st))
    ensures forall s :: IdOf(Remount(st), s).Some? ==> IdOf(Remount(st), s) == IdOf(st, s)
    ensures forall i: FileId :: SubjectOf(Remount(st), i).Some? ==> SubjectOf(Remount(st), i) == SubjectOf(st, i)
  {
  }

  /** The pair passed to `forget` is one the map holds, or neither half is known. */
  predicate Matched(st: Ids, id: FileId, subject: Subject) {
    IdOf(st, subject) == Some(id) || (IdOf(st, subject).None? && SubjectOf(st, id).None?)
  }

  lemma {:induction false} WithoutMembers(pending: seq<(FileId, Subject)>, id: FileId)
    ensures forall p :: p in Without(pending, id) <==> p in pending && p.0 != id
  {
    if pending != [] {
      WithoutMembers(pending[1..], id);
      assert forall p :: p in pending <==> p == pending[0] || p in pending[1..];
    }
  }

  lemma ForgetView(st: Ids, id: FileId, subject: Subject)
    ensures var st' := Forget(st, id, subject);
            && IdOf(st', subject).None? && SubjectOf(st', id).None?
            && Frontier(st') == Frontier(st) && st'.disk.next == st.disk.next
            && (forall s :: s != subject ==> IdOf(st', s) == IdOf(st, s))
            && (forall i: FileId :: i != id ==> SubjectOf(st', i) == SubjectOf(st, i))
  {
  }

  /** In one layer, the id and subject are a pair, or neither is known. */
  ghost predicate PairOrNone(idOf: map<Subject, FileId>, subjectOf: map<FileId, Subject>, id: FileId, subject: Subject) {
    if subject in idOf then idOf[subject] == id else id !in subjectOf
  }

  lemma MatchedLayers(st: Ids, id: FileId, subject: Subject)
    requires Valid(st) && Matched(st, id, subject)
    ensures PairOrNone(st.cache.idOf, st.cache.subjectOf, id, subject)
    ensures PairOrNone(st.disk.idOf, st.disk.subjectOf, id, subject)
  {
    hide Queued, Bounded;
  }

  lemma PairRemoved(idOf: map<Subject, FileId>, subjectOf: map<FileId, Subject>, id: FileId, subject: Subject)
    requires Mutual(idOf, subjectOf) && PairOrNone(idOf, subjectOf, id, subject)
    ensures Mutual(idOf - {subject}, subjectOf - {id})
    ensures forall s :: s in idOf && s != subject ==> idOf[s] != id
  {
  }

  lemma ForgetQueued(st: Ids, id: FileId, subject: Subject)
    requires Queued(st) && Mutual(st.cache.idOf, st.cache.subjectOf)
    requires PairOrNone(st.cache.idOf, st.cache.subjectOf, id, subject) && PairOrNone(st.disk.idOf, st.disk.subjectOf, id, subject)
    ensures Queued(Forget(st, id, subject))
  {
    hide Mutual;
    PairRemoved(st.cache.idOf, st.cache.subjectOf, id, subject);
    WithoutMembers(st.pending, id);
    assert st.pending == [] ==> Without(st.pending, id) == [];
  }

  lemma ForgetBounded(st: Ids, id: FileId, subject: Subject)
    requires Bounded(st)
    ensures Bounded(Forget(st, id, subject))
  {
  }

  lemma ForgetValid(st: Ids, id: FileId, subject: Subject)
    requires Valid(st) && Matched(st, id, subject)
    ensures Valid(Forget(st, id, subject))
  {
    hide Mutual, Queued, Bounded, PairOrNone;
    MatchedLayers(st, id, subject);
    PairRemoved(st.cache.idOf, st.cache.subjectOf, id, subject);
    PairRemoved(st.disk.idOf, st.disk.subjectOf, id, subject);
    ForgetQueued(st, id, subject);
    ForgetBounded(st, id, subject);
  }

  /** `forget` keeps the two directions inverse exactly for a matched pair. */
  lemma ForgetKeepsInverseIff(st: Ids, id: FileId, subject: Subject)
    requires Valid(st)
    ensures Inverse(Forget(st, id, subject)) <==> Matched(st, id, subject)
  {
    if Matched(st, id, subject) {
      ForgetValid(st, id, subject);
      ValidIsInverse(Forget(st, id, subject));
    } else {
      var st' := Forget(st, id, subject);
      if IdOf(st, subject).Some? {
        var other := IdOf(st, subject).value;
        assert SubjectOf(st', other) == Some(subject) && IdOf(st', subject).None?;
      } else {
        var other := SubjectOf(st, id).value;
        assert IdOf(st', other) == Some(id) && SubjectOf(st', id).None?;
      }
    }
  }

  /** Two overlapping removals of one resource, with a listing between them, pass a stale pair. */
  lemma OverlappingRemovalsBreakInverse(st: Ids, subject: Subject)
    requires Valid(st)
    ensures var (held, id) := GetOrAlloc(st, subject);        // both removals look the id up
            var first := Forget(held, id, subject);           // the first one finishes
            var (relisted, _) := GetOrAlloc(first, subject);  // the subject is listed once more
            id < Frontier(first) && !Inverse(Forget(relisted, id, subject))
  {
    var (held, id) := GetOrAlloc(st, subject);
    GetOrAllocValid(st, subject);
    ValidIsInverse(held);
    ForgetValid(held, id, subject);
    ForgetView(held, id, subject);
    var first := Forget(held, id, subject);
    GetOrAllocValid(first, subject);
    ForgetKeepsInverseIff(GetOrAlloc(first, subject).0, id, subject);
  }

  // ---- Every run ----------------------------------------------------------------------------

  datatype Call =
    | Alloc(subject: Subject)
    | Look(id: FileId)
    | Persist
    | Drop(id: FileId, subject: Subject)
    | Restart

  predicate Allowed(st: Ids, c: Call) {
    c.Drop? ==> Matched(st, c.id, c.subject)
  }

  function After(st: Ids, c: Call): Ids {
    match c
    case Alloc(subject) => GetOrAlloc(st, subject).0
    case Look(id) => SubjectFor(st, id).0
    case Persist => PersistPending(st)
    case Drop(id, subject) => Forget(st, id, subject)
    case Restart => Remount(st)
  }

  lemma CallValid(st: Ids, c: Call)
    requires Valid(st) && Allowed(st, c)
    ensures Valid(After(st, c))
  {
    match c
    case Alloc(subject) => GetOrAllocValid(st, subject);
    case Look(id) => SubjectForValid(st, id);
    case Persist => PersistPendingValid(st);
    case Drop(id, subject) => ForgetValid(st, id, subject);
    case Restart => RemountValid(st);
  }

  // ---- What no call breaks, stale pairs included ----------------------------------------------

  /** The store associates the id with the subject, in either direction. */
  predicate Stored(st: Ids, id: FileId, subject: Subject) {
    || (subject in st.disk.idOf && st.disk.idOf[subject] == id)
    || (id in st.disk.subjectOf && st.disk.subjectOf[id] == subject)
  }

  /** Some layer associates the id with the subject, in either direction. */
  predicate Named(st: Ids, id: FileId, subject: Subject) {
    || Stored(st, id, subject)
    || (subject in st.cache.idOf && st.cache.idOf[subject] == id)
    || (id in st.cache.subjectOf && st.cache.subjectOf[id] == subject)
    || (id, subject) in st.pending
  }

  /** The counter in the store. */
  function StoredNext(st: Ids): FileId { st.disk.next.GetOr(ROOT_ID + 1) }

  /** Named ids lie above the root and below the counters, and none has two subjects. Nothing is asked of
      the two directions. */
  ghost predicate Counted(st: Ids) {
    && ROOT_ID < StoredNext(st) <= Frontier(st) && (st.pending != [] ==> st.cache.next.Some?)
    && (forall id: FileId, s: Subject :: Named(st, id, s) ==> ROOT_ID < id < Frontier(st))
    && (forall id: FileId, s: Subject :: Stored(st, id, s) ==> id < StoredNext(st))
    && (forall id: FileId, s: Subject, t: Subject :: Named(st, id, s) && Named(st, id, t) ==> s == t)
  }

  lemma ValidIsCounted(st: Ids)
    requires Valid(st)
    ensures Counted(st)
  {
  }

  /** The batch associates only what the store had or the queue holds. */
  lemma {:induction false} EntriesNames(disk: Disk, pending: seq<(FileId, Subject)>)
    ensures var disk' := ApplyBatch(disk, Entries(pending));
            && disk'.next == disk.next
            && (forall s :: s in disk'.idOf ==> (s in disk.idOf && disk.idOf[s] == disk'.idOf[s]) || (disk'.idOf[s], s) in pending)
            && (forall i :: i in disk'.subjectOf ==>
                  (i in disk.subjectOf && disk.subjectOf[i] == disk'.subjectOf[i]) || (i, disk'.subjectOf[i]) in pending)
    decreases |pending|
  {
    if pending != [] {
      var p, rest := pending[0], pending[1..];
      var once := Execute(Execute(disk, SetId(p.1, p.0)), SetSubject(p.0, p.1));
      var ops := Entries(pending);
      assert ops[0] == SetId(p.1, p.0) && ops[1..][0] == SetSubject(p.0, p.1) && ops[1..][1..] == Entries(rest);
      EntriesNames(once, rest);
      assert forall q :: q in pending <==> q == p || q in rest;
      assert (p.0, p.1) == p;
    }
  }

  lemma PersistNames(st: Ids, id: FileId, subject: Subject)
    ensures Named(PersistPending(st), id, subject) ==> Named(st, id, subject)
    ensures st.pending != [] ==> PersistPending(st).disk.next == Some(st.cache.next.GetOr(ROOT_ID + 1))
  {
    if st.pending != [] {
      var ops := [SetNext(st.cache.next.GetOr(ROOT_ID + 1))] + Entries(st.pending);
      assert ops[1..] == Entries(st.pending);
      EntriesNames(Execute(st.disk, ops[0]), st.pending);
    }
  }

  /** The only association a call adds is the one it mints, of the next id. */
  lemma CallNames(st: Ids, c: Call, id: FileId, subject: Subject)
    requires Named(After(st, c), id, subject) && !Named(st, id, subject)
    ensures c == Alloc(subject) && id == Frontier(st) && Frontier(After(st, c)) == id + 1
  {
    match c
    case Alloc(s) =>
      if s !in st.cache.idOf && s !in st.disk.idOf {
        assert forall p :: p in After(st, c).pending <==> p in st.pending || p == (Frontier(st), s);
      }
    case Look(_) =>
    case Persist => PersistNames(st, id, subject);
    case Drop(i, _) => WithoutMembers(st.pending, i);
    case Restart =>
  }

  lemma CallCounters(st: Ids, c: Call)
    requires Counted(st)
    ensures StoredNext(st) <= StoredNext(After(st, c)) <= Frontier(After(st, c))
    ensures After(st, c).pending != [] ==> After(st, c).cache.next.Some?
    ensures !c.Restart? ==> Frontier(After(st, c)) >= Frontier(st)
    ensures !c.Persist? ==> After(st, c).disk.next == st.disk.next
  {
    match c
    case Drop(i, _) => WithoutMembers(st.pending, i);
    case Persist => PersistNames(st, 0, "");
    case _ =>
  }

  /** An association in the store after a call was there before, or is a queued one now persisted. */
  lemma CallStores(st: Ids, c: Call, id: FileId, subject: Subject)
    requires Counted(st) && Stored(After(st, c), id, subject)
    ensures id < StoredNext(After(st, c))
  {
    hide Counted;
    CountedNames(st, id, subject);
    if c.Persist? && st.pending != [] {
      PersistNames(st, id, subject);
      assert Named(PersistPending(st), id, subject);
    }
    CallCounters(st, c);
  }

  lemma CountedNames(st: Ids, id: FileId, subject: Subject)
    requires Counted(st)
    ensures Named(st, id, subject) ==> ROOT_ID < id < Frontier(st)
    ensures Stored(st, id, subject) ==> id < StoredNext(st)
    ensures st.pending != [] ==> Frontier(st) == st.cache.next.GetOr(ROOT_ID + 1)
  {
  }

  lemma CallKeepsCounted(st: Ids, c: Call)
    requires Counted(st)
    ensures Counted(After(st, c))
  {
    hide After, Named, Stored;
    var st' := After(st, c);
    CallCounters(st, c);
    forall id: FileId, s: Subject | Named(st', id, s) ensures ROOT_ID < id < Frontier(st') {
      NamedBelow(st, c, id, s);
    }
    forall id: FileId, s: Subject | Stored(st', id, s) ensures id < StoredNext(st') {
      CallStores(st, c, id, s);
    }
    forall id: FileId, s: Subject, t: Subject | Named(st', id, s) && Named(st', id, t) ensures s == t {
      if !Named(st, id, s) { CallNames(st, c, id, s); }
      if !Named(st, id, t) { CallNames(st, c, id, t); }
    }
  }

  lemma NamedBelow(st: Ids, c: Call, id: FileId, subject: Subject)
    requires Counted(st) && Named(After(st, c), id, subject)
    ensures ROOT_ID < id < Frontier(After(st, c))
  {
    hide Counted;
    CallCounters(st, c);
    CountedNames(st, id, subject);
    CountedStart(st);
    if c.Restart? {
      assert Stored(st, id, subject);
    } else if !Named(st, id, subject) {
      CallNames(st, c, id, subject);
    }
  }

  lemma CountedStart(st: Ids)
    requires Counted(st)
    ensures ROOT_ID < StoredNext(st) <= Frontier(st)
  {
  }

  /** Even then, an allocation gives the subject an id, its only one, that the cache knows, and changes no other
      subject's id. */
  lemma GetOrAllocCounted(st: Ids, subject: Subject)
    requires Counted(st)
    ensures var (st', id) := GetOrAlloc(st, subject);
            && Counted(st') && id > ROOT_ID && subject in st'.cache.idOf && st'.cache.idOf[subject] == id
            && (forall t :: Named(st', id, t) ==> t == subject)
            && (forall s :: s != subject ==> IdOf(st', s) == IdOf(st, s))
            && (forall s :: s in st.cache.idOf ==> s in st'.cache.idOf && st'.cache.idOf[s] == st.cache.idOf[s])
  {
    CallKeepsCounted(st, Alloc(subject));
    hide Counted;
    var (st', id) := GetOrAlloc(st, subject);
    assert Named(st', id, subject);
    CountedNames(st', id, subject);
    OnlyName(st', id, subject);
  }

  lemma OnlyName(st: Ids, id: FileId, subject: Subject)
    requires Counted(st) && Named(st, id, subject)
    ensures forall t :: Named(st, id, t) ==> t == subject
  {
  }

  // ---- Every run --------------------------------------------------------------------------------

  /** Any calls, in any order, from any map with its ids below its counters. */
  ghost predicate IsRun(states: seq<Ids>, calls: seq<Call>) {
    && |states| == |calls| + 1 && Counted(states[0])
    && forall k {:trigger calls[k]} :: 0 <= k < |calls| ==> states[k + 1] == After(states[k], calls[k])
  }

  /** The fresh store a run may start from. */
  lemma FreshStoreValid()
    ensures Valid(Ids(Disk(map[], map[], None), EMPTY_CACHE, [])) && Counted(Ids(Disk(map[], map[], None), EMPTY_CACHE, []))
  {
  }

  /** In every run, whatever is forgotten, no subject gets the root id and no id has two subjects. */
  lemma {:induction false} RunCounted(states: seq<Ids>, calls: seq<Call>, n: nat)
    requires IsRun(states, calls) && n <= |calls|
    ensures Counted(states[n])
    ensures forall s :: IdOf(states[n], s) != Some(ROOT_ID)
    ensures forall s, t :: IdOf(states[n], s).Some? && IdOf(states[n], s) == IdOf(states[n], t) ==> s == t
  {
    hide Counted, After;
    if n > 0 {
      RunCounted(states, calls, n - 1);
      CallKeepsCounted(states[n - 1], calls[n - 1]);
    }
    IdOfIsNamed(states[n]);
  }

  lemma IdOfIsNamed(st: Ids)
    requires Counted(st)
    ensures forall s :: IdOf(st, s) != Some(ROOT_ID)
    ensures forall s, t :: IdOf(st, s).Some? && IdOf(st, s) == IdOf(st, t) ==> s == t
  {
    forall s | IdOf(st, s).Some? ensures Named(st, IdOf(st, s).value, s) {}
  }

  /** In every run that forgets only current pairs, the two directions stay inverse. */
  lemma {:induction false} RunInverse(states: seq<Ids>, calls: seq<Call>, n: nat)
    requires IsRun(states, calls) && Valid(states[0]) && n <= |calls|
    requires forall k {:trigger calls[k]} :: 0 <= k < n ==> Allowed(states[k], calls[k])
    ensures Valid(states[n]) && Inverse(states[n])
  {
    hide Valid, After, Inverse, Counted;
    if n > 0 {
      RunInverse(states, calls, n - 1);
      CallValid(states[n - 1], calls[n - 1]);
    }
    ValidIsInverse(states[n]);
  }

  /** Once an id is in the store for a subject, its only subject is that one, for good. */
  lemma {:induction false} RunKeepsNames(states: seq<Ids>, calls: seq<Call>, i: nat, j: nat, id: FileId, subject: Subject)
    requires IsRun(states, calls) && i <= j <= |calls| && Stored(states[i], id, subject)
    ensures id < StoredNext(states[j]) && forall t :: Named(states[j], id, t) ==> t == subject
    decreases j
  {
    hide Counted, After, Named, Stored;
    RunCounted(states, calls, j);
    if i < j {
      var st, c := states[j - 1], calls[j - 1];
      RunKeepsNames(states, calls, i, j - 1, id, subject);
      RunCounted(states, calls, j - 1);
      CallCounters(st, c);
      CountedStart(st);
      forall t | Named(states[j], id, t) ensures t == subject {
        if !Named(st, id, t) { CallNames(st, c, id, t); }
      }
    } else {
      OneSubject(states[i], id, subject);
    }
  }

  lemma OneSubject(st: Ids, id: FileId, subject: Subject)
    requires Counted(st) && Stored(st, id, subject)
    ensures id < StoredNext(st) && forall t :: Named(st, id, t) ==> t == subject
  {
    assert Named(st, id, subject);
  }

  /** An id once persisted for a subject is never another one's, in any later part of any run: whatever is
      forgotten, by current or stale pairs, and across crashes and remounts. */
  lemma PersistedIdNeverReassigned(states: seq<Ids>, calls: seq<Call>, i: nat, j: nat, id: FileId, subject: Subject)
    requires IsRun(states, calls) && i <= j <= |calls| && Stored(states[i], id, subject)
    ensures SubjectOf(states[j], id).Some? ==> SubjectOf(states[j], id).value == subject
    ensures forall t :: IdOf(states[j], t) == Some(id) ==> t == subject
    ensures j < |calls| && calls[j].Alloc? && GetOrAlloc(states[j], calls[j].subject).1 == id ==> calls[j].subject == subject
  {
    hide Counted, After;
    RunKeepsNames(states, calls, i, j, id, subject);
    RunCounted(states, calls, j);
    CountedStart(states[j]);
    var st := states[j];
    assert SubjectOf(st, id).Some? ==> Named(st, id, SubjectOf(st, id).value);
    assert forall t :: IdOf(st, t) == Some(id) ==> Named(st, id, t);
    if j < |calls| && calls[j].Alloc? && GetOrAlloc(st, calls[j].subject).1 == id {
      assert Named(st, id, calls[j].subject);
    }
  }

  // ---- The map itself -----------------------------------------------------------------------

  class IdMap {
    var disk: Disk
    var cache: Cache
    var pending: seq<(FileId, Subject)>

    function State(): Ids reads this { Ids(disk, cache, pending) }

    constructor (disk: Disk)
      ensures State() == Remount(Ids(disk, EMPTY_CACHE, []))
    {
      this.disk, this.cache, this.pending := disk, EMPTY_CACHE, [];
    }

    /** `get_or_alloc`. */
    method Get(subject: Subject) returns (id: FileId)
      modifies this
      ensures (State(), id) == GetOrAlloc(old(State()), subject)
    {
      if subject in cache.idOf { return cache.idOf[subject]; }
      if subject in disk.idOf {
        id := disk.idOf[subject];
        cache := Remember(cache, id, subject);
        return;
      }
      id := if cache.next.Some? then cache.next.value else disk.next.GetOr(ROOT_ID + 1);
      cache := cache.(next := Some(id + 1));
      cache := Remember(cache, id, subject);
      pending := pending + [(id, subject)];
    }

    /** `subject`. */
    method Subject(id: FileId) returns (subject: Option<Subject>)
      modifies this`cache
      ensures (State(), subject) == SubjectFor(old(State()), id)
    {
      if id in cache.subjectOf { return Some(cache.subjectOf[id]); }
      if id !in disk.subjectOf { return None; }
      cache := Remember(cache, id, disk.subjectOf[id]);
      return Some(disk.subjectOf[id]);
    }

    /** `persist_pending`: one batch for the counter and both directions of every queued pair. */
    method Persist()
      modifies this
      ensures State() == PersistPending(old(State()))
    {
      if pending == [] { return; }
      var taken := pending;
      pending := [];
      var ops := [SetNext(cache.next.GetOr(ROOT_ID + 1))];
      var i := 0;
      assert taken[0..] == taken;
      while i < |taken|
        invariant 0 <= i <= |taken|
        invariant ops + Entries(taken[i..]) == [SetNext(cache.next.GetOr(ROOT_ID + 1))] + Entries(taken)
      {
        assert taken[i..][1..] == taken[i + 1..];
        ops := ops + [SetId(taken[i].1, taken[i].0), SetSubject(taken[i].0, taken[i].1)];
        i := i + 1;
      }
      assert ops + Entries([]) == ops;
      disk := ApplyBatch(disk, ops);
    }

    /** `forget`. */
    method Remove(id: FileId, subject: Subject)
      modifies this
      ensures State() == Forget(old(State()), id, subject)
    {
      pending := Without(pending, id);
      disk := disk.(idOf := disk.idOf - {subject});
      disk := disk.(subjectOf := disk.subjectOf - {id});
      cache := cache.(subjectOf := cache.subjectOf - {id});
      cache := cache.(idOf := cache.idOf - {subject});
    }
  }
}
