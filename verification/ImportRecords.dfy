/** The three-way record import (`integrations/localthought/plugin.js`): binding records to destinations
    through local parent references, then merging source, local and baseline values per property. */
module ImportRecords {
  import opened Basics

  type LocalId = string
  type Property = string

  datatype Value =
    | Null
    | Bool(b: bool)
    | Num(n: real)
    | Str(s: string)
    | Arr(items: seq<Value>)
    | Obj(fields: map<string, Value>)

  type Row = map<Property, Value>

  /** What the host holds: rows by subject. */
  type Rows = map<Subject, Row>

  const LOCAL := "local:"
  const PARENT: Property := "https://atomicdata.dev/properties/parent"
  const IS_A: Property := "https://atomicdata.dev/properties/isA"
  const LOCAL_ID: Property := "https://atomicdata.dev/properties/localId"
  const BASELINE: Property := "https://atomicdata.dev/properties/importBaseline"
  const RESOLUTION: Property := "https://atomicdata.dev/properties/importResolution"
  const REFERENCE_REVIEW: Property := "https://atomicdata.dev/properties/importReferenceReview"

  /** The properties source values may not set. */
  const RESERVED: set<Property> := {PARENT, IS_A, LOCAL_ID, BASELINE, RESOLUTION, REFERENCE_REVIEW}

  datatype Record = Record(
    sourceId: string, localId: LocalId, parent: string, isA: seq<string>, append: bool, values: map<Property, Value>)

  predicate IsLocal(s: string) { LOCAL <= s }

  function LocalName(id: LocalId): (s: string)
    ensures IsLocal(s) && s[|LOCAL|..] == id
  {
    LOCAL + id
  }

  /** `pure2`: an identifier without its routing hint. */
  function Pure(s: string): string {
    if "did:" <= s then BeforeHint(s) else s
  }

  function BeforeHint(s: string): string {
    if s == "" || s[0] == '?' then "" else [s[0]] + BeforeHint(s[1..])
  }

  /** An identifier loses its first question mark and what follows; other subjects stay as they are. */
  lemma {:induction false} PureDropsHint(s: string, hint: string)
    requires '?' !in s
    ensures Pure(s) == s && Pure(s + "?" + hint) == if "did:" <= s then s else s + "?" + hint
  {
    if |s| < 4 { assert (s + "?" + hint)[|s|] == '?' && forall i | 0 <= i < 4 :: "did:"[i] != '?'; }
    BeforeFirstHint(s, "");
    BeforeFirstHint(s, "?" + hint);
    assert s + "" == s && s + ("?" + hint) == s + "?" + hint;
  }

  lemma {:induction false} BeforeFirstHint(s: string, rest: string)
    requires '?' !in s && (rest == "" || rest[0] == '?')
    ensures BeforeHint(s + rest) == s
  {
    if s == "" {
      assert s + rest == rest;
    } else {
      assert (s + rest)[1..] == s[1..] + rest;
      BeforeFirstHint(s[1..], rest);
    }
  }

  function Get(row: Row, p: Property): Option<Value> {
    if p in row then Some(row[p]) else None
  }

  // ---- Finding the row a record stands for --------------------------------------------------

  /** The row's parent and import identity are this destination and source. */
  predicate HasIdentity(row: Row, dest: string, sourceId: string) {
    && PARENT in row && row[PARENT].Str? && Pure(row[PARENT].s) == Pure(dest)
    && Get(row, LOCAL_ID) == Some(Str(sourceId))
  }

  function Matches(rows: Rows, dest: string, sourceId: string): set<Subject> {
    if IsLocal(dest) then {} else set s | s in rows && HasIdentity(rows[s], dest, sourceId)
  }

  type Batch = map<LocalId, Record>

  /** The record's chain of local parents leaves the batch within `n` steps. */
  predicate Grounded(batch: Batch, id: LocalId, n: nat)
    decreases n
  {
    && id in batch
    && (!IsLocal(batch[id].parent)
        || (n > 0 && Grounded(batch, batch[id].parent[|LOCAL|..], n - 1)))
  }

  ghost predicate Leaves(batch: Batch, id: LocalId) {
    exists n: nat :: Grounded(batch, id, n)
  }

  /** The one element of a set of at most one, if any. */
  function Only(s: set<Subject>): Option<Subject>
    requires |s| <= 1
  {
    if s == {} then None
    else
      SingletonUnique(s);
      var x :| x in s; Some(x)
  }

  lemma SingletonUnique(s: set<Subject>)
    requires |s| == 1
    ensures forall x, y :: x in s && y in s ==> x == y
  {
    forall x, y | x in s && y in s ensures x == y {
      assert |s - {x}| == 0;
    }
  }

  /** The subject a record binds to, or its own local name when there is no row for it yet. */
  function BindingAt(rows: Rows, dest: string, r: Record): string {
    var found := Matches(rows, dest, r.sourceId);
    if |found| == 1 then Only(found).value else LocalName(r.localId)
  }

  /** Where a record goes: its parent, resolved. */
  function Destination(rows: Rows, batch: Batch, id: LocalId, n: nat): string
    requires Grounded(batch, id, n)
    decreases n, 0
  {
    if !IsLocal(batch[id].parent) then batch[id].parent
    else Binding(rows, batch, batch[id].parent[|LOCAL|..], n - 1)
  }

  function Binding(rows: Rows, batch: Batch, id: LocalId, n: nat): string
    requires Grounded(batch, id, n)
    decreases n, 1
  {
    BindingAt(rows, Destination(rows, batch, id, n), batch[id])
  }

  lemma {:induction false} BindingStable(rows: Rows, batch: Batch, id: LocalId, n: nat, m: nat)
    requires Grounded(batch, id, n) && Grounded(batch, id, m)
    ensures Destination(rows, batch, id, n) == Destination(rows, batch, id, m)
    ensures Binding(rows, batch, id, n) == Binding(rows, batch, id, m)
    decreases n
  {
    if IsLocal(batch[id].parent) {
      BindingStable(rows, batch, batch[id].parent[|LOCAL|..], n - 1, m - 1);
    }
  }

  /** The destination and binding of a record whose chain leaves the batch. */
  ghost function Dest(rows: Rows, batch: Batch, id: LocalId): string
    requires Leaves(batch, id)
  {
    var n: nat :| Grounded(batch, id, n);
    Destination(rows, batch, id, n)
  }

  ghost function Bind(rows: Rows, batch: Batch, id: LocalId): string
    requires Leaves(batch, id)
  {
    BindingAt(rows, Dest(rows, batch, id), batch[id])
  }

  /** A record's chain leaves the batch exactly when its parent is outside or its parent's chain leaves. */
  lemma LeavesStep(batch: Batch, id: LocalId)
    requires id in batch
    ensures Leaves(batch, id) <==> !IsLocal(batch[id].parent) || Leaves(batch, batch[id].parent[|LOCAL|..])
  {
    if !IsLocal(batch[id].parent) {
      assert Grounded(batch, id, 0);
    } else {
      var up := batch[id].parent[|LOCAL|..];
      if Leaves(batch, id) {
        var n: nat :| Grounded(batch, id, n);
        assert Grounded(batch, up, n - 1);
      }
      if Leaves(batch, up) {
        var n: nat :| Grounded(batch, up, n);
        assert Grounded(batch, id, n + 1);
      }
    }
  }

  /** The recursive equation destinations satisfy, free of step counts and of record order. */
  lemma DestStep(rows: Rows, batch: Batch, id: LocalId)
    requires Leaves(batch, id)
    ensures IsLocal(batch[id].parent) ==> Leaves(batch, batch[id].parent[|LOCAL|..])
    ensures Dest(rows, batch, id) ==
            if IsLocal(batch[id].parent) then Bind(rows, batch, batch[id].parent[|LOCAL|..]) else batch[id].parent
  {
    LeavesStep(batch, id);
    var n: nat :| Grounded(batch, id, n) && Dest(rows, batch, id) == Destination(rows, batch, id, n);
    if IsLocal(batch[id].parent) {
      var up := batch[id].parent[|LOCAL|..];
      var m: nat :| Grounded(batch, up, m) && Dest(rows, batch, up) == Destination(rows, batch, up, m);
      BindingStable(rows, batch, up, n - 1, m);
      assert Destination(rows, batch, id, n) == Binding(rows, batch, up, n - 1);
      assert Binding(rows, batch, up, m) == BindingAt(rows, Destination(rows, batch, up, m), batch[up]);
    }
  }

  // ---- When a batch binds -------------------------------------------------------------------

  predicate HasClasses(row: Row, isA: seq<string>) {
    && IS_A in row && row[IS_A].Arr?
    && forall i | 0 <= i < |isA| :: Str(isA[i]) in row[IS_A].items
  }

  predicate Falsy(v: Value) {
    v == Null || v == Bool(false) || v == Num(0.0) || v == Str("")
  }

  datatype ImportError =
    | DuplicateLocalId | MissingIdentity | DuplicateIdentity | WrongClass | ParentCycle
    | ReservedKey | UnknownReference | InvalidBaseline

  /** What the checks at one record say, once its destination is known; `None` when it binds. */
  datatype Trouble = Fail(error: ImportError) | Ambiguous(subjects: set<Subject>)

  predicate AwaitsReview(row: Row) {
    RESOLUTION in row && !Falsy(row[RESOLUTION])
  }

  predicate IsAmbiguous(rows: Rows, dest: string, r: Record) {
    var found := Matches(rows, dest, r.sourceId);
    |found| > 1 || exists s | s in found :: AwaitsReview(rows[s])
  }

  predicate BindsCleanly(rows: Rows, dest: string, r: Record) {
    && !IsAmbiguous(rows, dest, r)
    && forall s | s in Matches(rows, dest, r.sourceId) :: HasClasses(rows[s], r.isA)
  }

  /** The row was imported from this record's source, under this destination. */
  ghost predicate StandsFor(row: Row, dest: string, r: Record) {
    && Get(row, LOCAL_ID) == Some(Str(r.sourceId))
    && exists parent: string :: Get(row, PARENT) == Some(Str(parent)) && Pure(parent) == Pure(dest)
  }

  /** The row awaits no review, and is of every class of the record. */
  ghost predicate Fits(row: Row, r: Record) {
    && (RESOLUTION in row ==> row[RESOLUTION] in {Null, Bool(false), Num(0.0), Str("")})
    && exists classes: seq<Value> :: Get(row, IS_A) == Some(Arr(classes)) && forall c :: c in r.isA ==> Str(c) in classes
  }

  /** A record binds cleanly exactly when at most one row stands for it and that one fits; then it is bound to
      that row, or to its own local name when there is none. Nothing stands for a record whose destination is
      yet to be created. */
  lemma BindsCleanlyIff(rows: Rows, dest: string, r: Record)
    ensures BindsCleanly(rows, dest, r) <==>
            forall s :: s in rows && !IsLocal(dest) && StandsFor(rows[s], dest, r) ==>
              Fits(rows[s], r) && forall t :: t in rows && StandsFor(rows[t], dest, r) ==> t == s
    ensures BindsCleanly(rows, dest, r) && !IsLocal(dest) ==>
            forall s :: s in rows && StandsFor(rows[s], dest, r) ==> BindingAt(rows, dest, r) == s
    ensures (IsLocal(dest) || forall s :: s in rows ==> !StandsFor(rows[s], dest, r)) ==> BindingAt(rows, dest, r) == "local:" + r.localId
  {
    hide Pure, StandsFor, Fits, HasIdentity, HasClasses, AwaitsReview;
    var found := Matches(rows, dest, r.sourceId);
    forall s | s in rows ensures s in found <==> !IsLocal(dest) && StandsFor(rows[s], dest, r) {
      StandsForIff(rows[s], dest, r);
    }
    forall s | s in found ensures Fits(rows[s], r) <==> HasClasses(rows[s], r.isA) && !AwaitsReview(rows[s]) {
      FitsIff(rows[s], r);
    }
    if found != {} {
      var s :| s in found;
      if |found| == 1 { SingletonUnique(found); }
      if forall t :: t in found ==> t == s { assert found == {s}; }
    }
  }

  lemma StandsForIff(row: Row, dest: string, r: Record)
    ensures HasIdentity(row, dest, r.sourceId) <==> StandsFor(row, dest, r)
  {
    hide Pure;
    if HasIdentity(row, dest, r.sourceId) { assert Get(row, PARENT) == Some(Str(row[PARENT].s)); }
  }

  lemma FitsIff(row: Row, r: Record)
    ensures Fits(row, r) <==> HasClasses(row, r.isA) && !AwaitsReview(row)
  {
    if HasClasses(row, r.isA) { assert Get(row, IS_A) == Some(Arr(row[IS_A].items)); }
  }

  function IdentityOf(dest: string, r: Record): (string, string) {
    (Pure(dest), r.sourceId)
  }

  /** Every record names itself, and those whose destination is known bind cleanly to distinct identities. */
  ghost predicate Sound(rows: Rows, batch: Batch) {
    && (forall id :: id in batch ==> id != "" && batch[id].sourceId != "")
    && (forall id :: id in batch && Leaves(batch, id) ==> BindsCleanly(rows, Dest(rows, batch, id), batch[id]))
    && (forall a, b :: a in batch && b in batch && a != b && Leaves(batch, a) && Leaves(batch, b) ==>
          IdentityOf(Dest(rows, batch, a), batch[a]) != IdentityOf(Dest(rows, batch, b), batch[b]))
  }

  ghost predicate AllLeave(batch: Batch) {
    forall id :: id in batch ==> Leaves(batch, id)
  }

  predicate DistinctLocalIds(records: seq<Record>) {
    forall i, j | 0 <= i < j < |records| :: records[i].localId != records[j].localId
  }

  function BatchOf(records: seq<Record>): Batch
    decreases |records|
  {
    if records == [] then map[]
    else BatchOf(records[..|records| - 1])[records[|records| - 1].localId := records[|records| - 1]]
  }

  lemma DistinctLast(records: seq<Record>)
    requires records != []
    ensures var n := |records| - 1;
            DistinctLocalIds(records) <==>
            DistinctLocalIds(records[..n]) && forall r :: r in records[..n] ==> r.localId != records[n].localId
  {
    var n := |records| - 1;
    if DistinctLocalIds(records[..n]) && forall r :: r in records[..n] ==> r.localId != records[n].localId {
      forall i, j | 0 <= i < j < |records| ensures records[i].localId != records[j].localId {
        if j == n { assert records[i] in records[..n]; } else { assert records[..n][i] == records[i] && records[..n][j] == records[j]; }
      }
    }
    if DistinctLocalIds(records) {
      forall i, j | 0 <= i < j < n ensures records[..n][i].localId != records[..n][j].localId {}
    }
  }

  lemma {:induction false} BatchOfRecords(records: seq<Record>)
    ensures forall id :: id in BatchOf(records) ==> BatchOf(records)[id] in records && BatchOf(records)[id].localId == id
    ensures forall r :: r in records ==> r.localId in BatchOf(records)
    ensures DistinctLocalIds(records) ==> forall r :: r in records ==> BatchOf(records)[r.localId] == r
    decreases |records|
  {
    hide DistinctLocalIds;
    if records != [] {
      var n := |records| - 1;
      BatchOfRecords(records[..n]);
      DistinctLast(records);
      assert records == records[..n] + [records[n]];
    }
  }

  /** The batch is as large as its records exactly when no local id repeats. */
  lemma {:induction false} BatchSize(records: seq<Record>)
    ensures |BatchOf(records)| <= |records|
    ensures |BatchOf(records)| == |records| <==> DistinctLocalIds(records)
    decreases |records|
  {
    hide DistinctLocalIds;
    if records != [] {
      var n := |records| - 1;
      var front := BatchOf(records[..n]);
      BatchSize(records[..n]);
      BatchOfRecords(records[..n]);
      DistinctLast(records);
      if records[n].localId in front {
        assert front[records[n].localId] in records[..n];
        assert BatchOf(records).Keys == front.Keys;
      } else {
        assert BatchOf(records).Keys == front.Keys + {records[n].localId};
      }
    } else {
      assert DistinctLocalIds([]) by { EmptyDistinct(); }
    }
  }

  lemma EmptyDistinct()
    ensures DistinctLocalIds([])
  {
  }

  /** The record's parent is local, and itself waiting or not in the batch at all. */
  predicate Waits(batch: Batch, stuck: set<LocalId>, id: LocalId) {
    && id in batch && IsLocal(batch[id].parent)
    && (batch[id].parent[|LOCAL|..] in batch ==> batch[id].parent[|LOCAL|..] in stuck)
  }

  /** The records left over when a pass binds nothing: each waits for one that is not bound. */
  lemma {:induction false} StuckNeverLeave(batch: Batch, stuck: set<LocalId>, id: LocalId, n: nat)
    requires forall i :: i in stuck ==> Waits(batch, stuck, i)
    requires id in stuck
    ensures !Grounded(batch, id, n)
    decreases n
  {
    assert Waits(batch, stuck, id);
    if n > 0 && batch[id].parent[|LOCAL|..] in batch {
      StuckNeverLeave(batch, stuck, batch[id].parent[|LOCAL|..], n - 1);
    }
  }

  // ---- The binding loop ---------------------------------------------------------------------

  datatype Bound = Bindings(of: map<LocalId, string>, destinations: map<LocalId, string>) | Stopped(why: Trouble)

  /** The record is bound, as specified. */
  ghost predicate BoundAs(rows: Rows, batch: Batch, id: LocalId, binding: string, dest: string) {
    && id in batch && id != "" && batch[id].sourceId != "" && Leaves(batch, id)
    && dest == Dest(rows, batch, id) && binding == Bind(rows, batch, id)
    && BindsCleanly(rows, dest, batch[id])
  }

  function Identities(batch: Batch, destinations: map<LocalId, string>): set<(string, string)> {
    set id | id in destinations && id in batch :: IdentityOf(destinations[id], batch[id])
  }

  ghost predicate Apart(batch: Batch, destinations: map<LocalId, string>) {
    forall a, b :: a in destinations && b in destinations && a in batch && b in batch && a != b ==>
      IdentityOf(destinations[a], batch[a]) != IdentityOf(destinations[b], batch[b])
  }

  /** What the loop has done so far: the bound records are those handled, to distinct identities. */
  ghost predicate BoundSoFar(rows: Rows, batch: Batch, bindings: map<LocalId, string>, destinations: map<LocalId, string>,
                             identities: set<(string, string)>)
  {
    && bindings.Keys == destinations.Keys
    && (forall id :: id in bindings ==> BoundAs(rows, batch, id, bindings[id], destinations[id]))
    && identities == Identities(batch, destinations)
    && Apart(batch, destinations)
  }

  lemma NothingBound(rows: Rows, batch: Batch)
    ensures BoundSoFar(rows, batch, map[], map[], {})
  {
  }

  lemma OneMoreApart(batch: Batch, destinations: map<LocalId, string>, id: LocalId, dest: string)
    requires id in batch && id !in destinations && Apart(batch, destinations)
    requires IdentityOf(dest, batch[id]) !in Identities(batch, destinations)
    ensures Apart(batch, destinations[id := dest])
    ensures Identities(batch, destinations[id := dest]) == Identities(batch, destinations) + {IdentityOf(dest, batch[id])}
  {
    hide IdentityOf;
    var d' := destinations[id := dest];
    forall a | a in destinations && a in batch
      ensures IdentityOf(d'[a], batch[a]) != IdentityOf(dest, batch[id])
    {
      assert IdentityOf(destinations[a], batch[a]) in Identities(batch, destinations);
    }
    forall k | k in Identities(batch, destinations) + {IdentityOf(dest, batch[id])} ensures k in Identities(batch, d') {
      if k == IdentityOf(dest, batch[id]) { assert id in d'; }
      else {
        var a :| a in destinations && a in batch && IdentityOf(destinations[a], batch[a]) == k;
        assert a in d' && IdentityOf(d'[a], batch[a]) == k;
      }
    }
  }

  /** Handling one record whose parent is known extends what is bound. */
  lemma OneMoreBound(rows: Rows, batch: Batch, bindings: map<LocalId, string>, destinations: map<LocalId, string>,
                     identities: set<(string, string)>, id: LocalId, binding: string, dest: string)
    requires BoundSoFar(rows, batch, bindings, destinations, identities) && id !in bindings
    requires BoundAs(rows, batch, id, binding, dest) && IdentityOf(dest, batch[id]) !in identities
    ensures BoundSoFar(rows, batch, bindings[id := binding], destinations[id := dest], identities + {IdentityOf(dest, batch[id])})
  {
    hide BoundAs, Apart, Identities;
    assert id in batch by { BoundInBatch(rows, batch, id, binding, dest); }
    OneMoreApart(batch, destinations, id, dest);
  }

  lemma BoundInBatch(rows: Rows, batch: Batch, id: LocalId, binding: string, dest: string)
    requires BoundAs(rows, batch, id, binding, dest)
    ensures id in batch
  {
  }

  /** A record whose parent is outside the batch or bound leaves, and goes where its parent is. */
  lemma DestKnown(rows: Rows, batch: Batch, bindings: map<LocalId, string>, destinations: map<LocalId, string>,
                  identities: set<(string, string)>, id: LocalId)
    requires BoundSoFar(rows, batch, bindings, destinations, identities) && id in batch
    requires IsLocal(batch[id].parent) ==> batch[id].parent[|LOCAL|..] in bindings
    ensures Leaves(batch, id)
    ensures Dest(rows, batch, id) == if IsLocal(batch[id].parent) then bindings[batch[id].parent[|LOCAL|..]] else batch[id].parent
  {
    hide Leaves, BindsCleanly, Dest, Bind;
    LeavesStep(batch, id);
    DestStep(rows, batch, id);
  }

  ghost predicate DuplicatesIdentity(rows: Rows, batch: Batch, a: LocalId, b: LocalId) {
    && a in batch && b in batch && a != b && Leaves(batch, a) && Leaves(batch, b)
    && IdentityOf(Dest(rows, batch, a), batch[a]) == IdentityOf(Dest(rows, batch, b), batch[b])
  }

  ghost predicate HasNoIdentity(batch: Batch, id: LocalId) {
    id in batch && (id == "" || batch[id].sourceId == "")
  }

  ghost predicate BindsBadly(rows: Rows, batch: Batch, id: LocalId) {
    id in batch && Leaves(batch, id) && !BindsCleanly(rows, Dest(rows, batch, id), batch[id])
  }

  /** The trouble a stopped loop reports is real. */
  ghost predicate TroubleIsReal(rows: Rows, batch: Batch, why: Trouble) {
    match why
    case Ambiguous(subjects) => exists id :: BindsBadly(rows, batch, id) && subjects == Matches(rows, Dest(rows, batch, id), batch[id].sourceId)
    case Fail(ParentCycle) => !AllLeave(batch)
    case Fail(MissingIdentity) => exists id :: HasNoIdentity(batch, id)
    case Fail(DuplicateIdentity) => exists a, b :: DuplicatesIdentity(rows, batch, a, b)
    case Fail(WrongClass) => exists id :: BindsBadly(rows, batch, id)
    case Fail(_) => false
  }

  /** The checks on one record whose destination is known, in the source's order. */
  method BindOne(rows: Rows, r: Record, dest: string, identities: set<(string, string)>) returns (t: Option<Trouble>, binding: string)
    ensures t.None? <==> IdentityOf(dest, r) !in identities && BindsCleanly(rows, dest, r)
    ensures t.None? ==> binding == BindingAt(rows, dest, r)
    ensures t.Some? ==> match t.value
                        case Fail(DuplicateIdentity) => IdentityOf(dest, r) in identities
                        case Fail(WrongClass) => !BindsCleanly(rows, dest, r)
                        case Ambiguous(subjects) => subjects == Matches(rows, dest, r.sourceId) && IsAmbiguous(rows, dest, r)
                        case _ => false
  {
    binding := LocalName(r.localId);
    if IdentityOf(dest, r) in identities { return Some(Fail(DuplicateIdentity)), binding; }
    var found := Matches(rows, dest, r.sourceId);
    if IsAmbiguous(rows, dest, r) { return Some(Ambiguous(found)), binding; }
    if |found| == 1 {
      var subject := Only(found).value;
      SingletonUnique(found);
      if !HasClasses(rows[subject], r.isA) { return Some(Fail(WrongClass)), binding; }
      binding := subject;
    }
    t := None;
  }

  /** A reported trouble other than a cycle refutes soundness. */
  lemma TroubleRefutes(rows: Rows, batch: Batch, why: Trouble)
    requires TroubleIsReal(rows, batch, why) && why != Fail(ParentCycle)
    ensures !Sound(rows, batch)
  {
    hide Leaves, BindsCleanly, Dest, IdentityOf;
  }

  lemma BoundAllSound(rows: Rows, batch: Batch, bindings: map<LocalId, string>, destinations: map<LocalId, string>,
                      identities: set<(string, string)>)
    requires BoundSoFar(rows, batch, bindings, destinations, identities) && bindings.Keys == batch.Keys
    ensures Sound(rows, batch) && AllLeave(batch)
  {
    hide Leaves, BindsCleanly, Dest, Bind, IdentityOf, Identities;
    assert forall id :: id in batch ==> BoundAs(rows, batch, id, bindings[id], destinations[id]);
  }

  lemma FailedBindIsReal(rows: Rows, batch: Batch, bindings: map<LocalId, string>, destinations: map<LocalId, string>,
                         identities: set<(string, string)>, id: LocalId, t: Trouble)
    requires BoundSoFar(rows, batch, bindings, destinations, identities) && id !in bindings
    requires id in batch && batch[id].localId == id && Leaves(batch, id)
    requires var dest := Dest(rows, batch, id);
             match t
             case Fail(DuplicateIdentity) => IdentityOf(dest, batch[id]) in identities
             case Fail(WrongClass) => !BindsCleanly(rows, dest, batch[id])
             case Ambiguous(subjects) => subjects == Matches(rows, dest, batch[id].sourceId) && IsAmbiguous(rows, dest, batch[id])
             case _ => false
    ensures TroubleIsReal(rows, batch, t)
  {
    hide Leaves, Dest, Bind, IdentityOf, IsAmbiguous;
    match t
    case Fail(DuplicateIdentity) =>
      var a :| a in destinations && a in batch && IdentityOf(destinations[a], batch[a]) == IdentityOf(Dest(rows, batch, id), batch[id]);
      assert BoundAs(rows, batch, a, bindings[a], destinations[a]);
      assert DuplicatesIdentity(rows, batch, a, id);
    case Fail(WrongClass) => assert BindsBadly(rows, batch, id);
    case Ambiguous(_) => assert BindsBadly(rows, batch, id);
    case Fail(_) =>
  }

  lemma NoIdentityIsReal(rows: Rows, batch: Batch, id: LocalId)
    requires HasNoIdentity(batch, id)
    ensures TroubleIsReal(rows, batch, Fail(MissingIdentity))
  {
  }

  lemma OneMorePending(pending: seq<LocalId>, i: nat)
    requires i < |pending| && forall a, b | 0 <= a < b < |pending| :: pending[a] != pending[b]
    ensures pending[..i + 1] == pending[..i] + [pending[i]] && pending[i..] == [pending[i]] + pending[i + 1..]
    ensures pending[i] !in pending[..i] && pending[i] !in pending[i + 1..]
  {
  }

  /** One pending record: it waits for its parent, binds, or fails. */
  method BindRecord(rows: Rows, batch: Batch, id: LocalId, bindings: map<LocalId, string>,
                    destinations: map<LocalId, string>, identities: set<(string, string)>)
      returns (t: Option<Trouble>, waits: bool, bindings': map<LocalId, string>, destinations': map<LocalId, string>,
               identities': set<(string, string)>)
    requires BoundSoFar(rows, batch, bindings, destinations, identities)
    requires id in batch && batch[id].localId == id && id !in bindings
    ensures t.Some? ==> TroubleIsReal(rows, batch, t.value) && t.value != Fail(ParentCycle)
    ensures BoundSoFar(rows, batch, bindings', destinations', identities')
    ensures t.None? ==> (waits <==> IsLocal(batch[id].parent) && batch[id].parent[|LOCAL|..] !in bindings)
    ensures t.Some? || waits ==> bindings' == bindings
    ensures t.None? && !waits ==> bindings'.Keys == bindings.Keys + {id}
  {
    hide Leaves, BindsCleanly, Dest, Bind, IsAmbiguous, BoundSoFar, TroubleIsReal, IdentityOf, BindingAt, Matches, BoundAs;
    t, waits, bindings', destinations', identities' := None, false, bindings, destinations, identities;
    var r := batch[id];
    if r.sourceId == "" || id == "" {
      assert TroubleIsReal(rows, batch, Fail(MissingIdentity)) by { NoIdentityIsReal(rows, batch, id); }
      t := Some(Fail(MissingIdentity));
      return;
    }
    if IsLocal(r.parent) && r.parent[|LOCAL|..] !in bindings {
      waits := true;
      return;
    }
    var dest := if IsLocal(r.parent) then bindings[r.parent[|LOCAL|..]] else r.parent;
    DestKnown(rows, batch, bindings, destinations, identities, id);
    var trouble, binding := BindOne(rows, r, dest, identities);
    if trouble.Some? {
      FailedBindIsReal(rows, batch, bindings, destinations, identities, id, trouble.value);
      t := trouble;
      return;
    }
    BoundNow(rows, batch, id, binding, dest);
    OneMoreBound(rows, batch, bindings, destinations, identities, id, binding, dest);
    destinations' := destinations[id := dest];
    identities' := identities + {IdentityOf(dest, r)};
    bindings' := bindings[id := binding];
  }

  /** One pass over the pending records. */
  method BindPass(rows: Rows, batch: Batch, pending: seq<LocalId>, bindings: map<LocalId, string>,
                  destinations: map<LocalId, string>, identities: set<(string, string)>)
      returns (t: Option<Trouble>, bindings': map<LocalId, string>, destinations': map<LocalId, string>,
               identities': set<(string, string)>, still: seq<LocalId>)
    requires BoundSoFar(rows, batch, bindings, destinations, identities)
    requires forall id :: id in batch ==> batch[id].localId == id
    requires forall id :: id in pending ==> id in batch && id !in bindings
    requires forall i, j | 0 <= i < j < |pending| :: pending[i] != pending[j]
    ensures t.Some? ==> TroubleIsReal(rows, batch, t.value) && t.value != Fail(ParentCycle)
    ensures BoundSoFar(rows, batch, bindings', destinations', identities')
    ensures t.None? ==> bindings'.Keys + (set id | id in still) == bindings.Keys + (set id | id in pending)
    ensures forall id :: id in still ==> id in batch && id !in bindings'
    ensures forall i, j | 0 <= i < j < |still| :: still[i] != still[j]
    ensures |still| <= |pending|
    ensures t.None? && |still| == |pending| ==>
              bindings' == bindings && still == pending
              && forall id :: id in still ==> IsLocal(batch[id].parent) && batch[id].parent[|LOCAL|..] !in bindings
  {
    hide Leaves, BindsCleanly, Dest, Bind, IsAmbiguous, BoundSoFar, TroubleIsReal, IdentityOf, BindingAt, Matches, BoundAs;
    t, bindings', destinations', identities', still := None, bindings, destinations, identities, [];
    var i := 0;
    while i < |pending|
      invariant 0 <= i <= |pending| && |still| <= i
      invariant BoundSoFar(rows, batch, bindings', destinations', identities')
      invariant forall id :: id in bindings' || id in still <==> id in bindings || id in pending[..i]
      invariant forall id :: id in still ==> id in pending[..i] && id !in bindings'
      invariant forall id :: id in pending[i..] ==> id !in bindings'
      invariant forall a, b | 0 <= a < b < |still| :: still[a] != still[b]
      invariant |still| == i ==>
                  bindings' == bindings && still == pending[..i]
                  && forall id :: id in still ==> IsLocal(batch[id].parent) && batch[id].parent[|LOCAL|..] !in bindings
    {
      var id := pending[i];
      OneMorePending(pending, i);
      var trouble, waits;
      trouble, waits, bindings', destinations', identities' := BindRecord(rows, batch, id, bindings', destinations', identities');
      if trouble.Some? {
        t := trouble;
        return;
      }
      if waits { still := still + [id]; }
      i := i + 1;
    }
    assert pending[..i] == pending;
  }

  lemma BoundNow(rows: Rows, batch: Batch, id: LocalId, binding: string, dest: string)
    requires id in batch && batch[id].localId == id && id != "" && batch[id].sourceId != "" && Leaves(batch, id)
    requires dest == Dest(rows, batch, id) && binding == BindingAt(rows, dest, batch[id]) && BindsCleanly(rows, dest, batch[id])
    ensures BoundAs(rows, batch, id, binding, dest)
  {
    hide Leaves, BindsCleanly, Dest, BindingAt;
  }

  /** The parent-resolution loop: passes over the pending records until none is left or a pass binds
      nothing. Every record is bound exactly when the batch is sound and every chain of local parents
      leaves it; in a sound batch the only other answer is a cycle. */
  method BindAll(rows: Rows, records: seq<Record>) returns (r: Bound)
    requires DistinctLocalIds(records)
    ensures r.Bindings? <==> Sound(rows, BatchOf(records)) && AllLeave(BatchOf(records))
    ensures r.Bindings? ==>
              && r.of.Keys == r.destinations.Keys == BatchOf(records).Keys
              && forall id :: id in r.of ==> BoundAs(rows, BatchOf(records), id, r.of[id], r.destinations[id])
    ensures r.Stopped? ==> TroubleIsReal(rows, BatchOf(records), r.why)
    ensures Sound(rows, BatchOf(records)) && !AllLeave(BatchOf(records)) ==> r == Stopped(Fail(ParentCycle))
  {
    hide BoundAs, Sound, BoundSoFar, TroubleIsReal, BatchOf;
    var batch := BatchOf(records);
    BatchOfRecords(records);
    var bindings: map<LocalId, string>, destinations: map<LocalId, string>, identities: set<(string, string)> := map[], map[], {};
    NothingBound(rows, batch);
    var pending := seq(|records|, i requires 0 <= i < |records| => records[i].localId);
    forall id | id in batch ensures id in pending {
      var i :| 0 <= i < |records| && records[i] == batch[id];
      assert pending[i] == id;
    }
    while pending != []
      invariant BoundSoFar(rows, batch, bindings, destinations, identities)
      invariant forall id :: id in pending ==> id in batch && id !in bindings
      invariant forall i, j | 0 <= i < j < |pending| :: pending[i] != pending[j]
      invariant batch.Keys == bindings.Keys + (set id | id in pending)
      decreases |pending|
    {
      var t, b, d, k, still := BindPass(rows, batch, pending, bindings, destinations, identities);
      if t.Some? {
        TroubleRefutes(rows, batch, t.value);
        return Stopped(t.value);
      }
      if |still| == |pending| {
        CycleLeft(batch, bindings, pending);
        CycleIsReal(rows, batch);
        return Stopped(Fail(ParentCycle));
      }
      bindings, destinations, identities, pending := b, d, k, still;
    }
    BoundAllSound(rows, batch, bindings, destinations, identities);
    BoundParts(rows, batch, bindings, destinations, identities);
    return Bindings(bindings, destinations);
  }

  lemma BoundParts(rows: Rows, batch: Batch, bindings: map<LocalId, string>, destinations: map<LocalId, string>,
                   identities: set<(string, string)>)
    requires BoundSoFar(rows, batch, bindings, destinations, identities)
    ensures bindings.Keys == destinations.Keys
    ensures forall id :: id in bindings ==> BoundAs(rows, batch, id, bindings[id], destinations[id])
  {
    hide BoundAs;
  }

  lemma CycleIsReal(rows: Rows, batch: Batch)
    requires !AllLeave(batch)
    ensures TroubleIsReal(rows, batch, Fail(ParentCycle))
  {
  }

  lemma CycleLeft(batch: Batch, bindings: map<LocalId, string>, pending: seq<LocalId>)
    requires pending != [] && batch.Keys == bindings.Keys + (set id | id in pending)
    requires forall id :: id in pending ==> id in batch && IsLocal(batch[id].parent) && batch[id].parent[|LOCAL|..] !in bindings
    ensures !AllLeave(batch)
  {
    var stuck := set id | id in pending;
    var id := pending[0];
    assert id in stuck;
    forall n: nat ensures !Grounded(batch, id, n) {
      forall i | i in stuck ensures Waits(batch, stuck, i) {
        if batch[i].parent[|LOCAL|..] in batch { assert batch[i].parent[|LOCAL|..] in batch.Keys; }
      }
      StuckNeverLeave(batch, stuck, id, n);
    }
    assert !Leaves(batch, id);
  }
}
