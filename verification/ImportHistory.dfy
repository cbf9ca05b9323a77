/** Whole histories of imports and local edits: an import only ever changes a property that still holds
    the value the last conflict-free import supplied. */
module ImportHistory {
  import opened Basics
  import opened ImportRecords
  import opened ImportMerge
  import opened ImportAgain
  import opened ImportTwice
  import opened ImportIdempotent

  // ---- What one run supplies ------------------------------------------------------------------

  /** The record is bound to this row, or created as it. */
  ghost predicate Owns(rows: Rows, records: seq<Record>, minted: Minted, i: nat, s: Subject)
    requires Importable(rows, records)
  {
    && i < |records|
    && (var binds := BindingsOf(rows, BatchOf(records));
        records[i].localId in binds && RewriteText(binds[records[i].localId], minted) == s)
  }

  /** The saved value a row's baseline holds for a property. */
  function SavedIn(rows: Rows, s: Subject, p: Property): Option<Value> {
    if s in rows && PriorOf(rows[s]).Ok? then Saved(PriorOf(rows[s]).value, p) else None
  }

  /** The value record `i` supplies, as the host stores it. */
  ghost function Incoming(rows: Rows, records: seq<Record>, minted: Minted, i: nat, p: Property): Value
    requires Importable(rows, records) && i < |records| && p in records[i].values
  {
    assert Mergeable(rows, BindingsOf(rows, BatchOf(records)), records[i]);
    Rewrite(Resolved(records[i].values[p], BindingsOf(rows, BatchOf(records))), minted)
  }

  /** What record `i` supplies to a property of its row: nothing when it conflicts or does not carry it. */
  ghost function SuppliedFrom(rows: Rows, records: seq<Record>, minted: Minted, i: nat, p: Property): Option<Value>
    requires Importable(rows, records) && i < |records|
  {
    if !Plans(rows, records)[i].Conflict? && p in records[i].values then Some(Incoming(rows, records, minted, i, p)) else None
  }

  /** What a run supplies to a property of a row. */
  ghost function Supplied(rows: Rows, records: seq<Record>, minted: Minted, s: Subject, p: Property): Option<Value>
    requires Importable(rows, records)
  {
    if exists i: nat :: Owns(rows, records, minted, i, s) then
      var i: nat :| Owns(rows, records, minted, i, s); SuppliedFrom(rows, records, minted, i, p)
    else None
  }

  /** The merge of one record into its row, property by property: without a conflict, a property that
      still holds its saved value follows the source, one edited since keeps the edit, and the saved values
      become the source's; a conflict leaves row and saved values alone. */
  lemma MergeOutcome(s: Subject, row: Row, values: Row, append: bool, minted: Minted)
    requires PriorOf(row).Ok? && CleanSaved(row, minted) && NoReserved(values)
    ensures var plan := MergeInto(s, row, PriorOf(row).value, values, append);
            var row' := RowAfter(row, plan, minted);
            && PriorOf(row').Ok?
            && (plan.Conflict? ==> row' == row)
            && (forall p :: Saved(PriorOf(row').value, p) ==
                  if !plan.Conflict? && p in values then Some(Rewrite(values[p], minted)) else Saved(PriorOf(row).value, p))
            && (forall p :: p != BASELINE ==>
                  Get(row', p) == if !plan.Conflict? && p in values && Get(row, p) == Saved(PriorOf(row).value, p)
                                  then Some(Rewrite(values[p], minted)) else Get(row, p))
  {
    hide RowAfter, MergeInto, CleanSaved, PriorOf, Rewrite, Clean, Saved, Get;
    var plan := MergeInto(s, row, PriorOf(row).value, values, append);
    ConflictIff(s, row, PriorOf(row).value, values, append, minted);
    if !plan.Conflict? {
      SavedAfter(s, row, values, append, minted);
      forall p | p != BASELINE
        ensures Get(RowAfter(row, plan, minted), p) == if p in values && Get(row, p) == Saved(PriorOf(row).value, p)
                                                       then Some(Rewrite(values[p], minted)) else Get(row, p)
      {
        PropertyAfter(s, row, values, append, minted, p);
      }
    }
  }

  /** A record conflicts exactly when source and row disagree beyond repair on some property: without a
      baseline, when the row does not hold the incoming value; appending to one, when the source no longer
      says what was saved; otherwise when the row holds neither the incoming nor the saved value, and these
      differ. Then its row is left as it was. */
  lemma ConflictIff(s: Subject, row: Row, prior: Option<Row>, values: Row, append: bool, minted: Minted)
    ensures var plan := MergeInto(s, row, prior, values, append);
            && (plan.Conflict? <==> exists p :: p in values && Disputed(row, prior, values, append, p))
            && (plan.Conflict? ==> RowAfter(row, plan, minted) == row)
            && (!plan.Conflict? ==> RowAfter(row, plan, minted) == row + RewriteRow(Changes(row, prior, values, append), minted))
  {
    hide VerdictOn, Changes, Rewrite, Disputed;
    ConflictMeans(s, row, prior, values, append);
    assert row + RewriteRow(map[], minted) == row;
  }

  lemma SavedAfter(s: Subject, row: Row, values: Row, append: bool, minted: Minted)
    requires PriorOf(row).Ok? && CleanSaved(row, minted) && NoReserved(values)
    requires !MergeInto(s, row, PriorOf(row).value, values, append).Conflict?
    ensures var row' := RowAfter(row, MergeInto(s, row, PriorOf(row).value, values, append), minted);
            && PriorOf(row').Ok?
            && forall p :: Saved(PriorOf(row').value, p) ==
                 if p in values then Some(Rewrite(values[p], minted)) else Saved(PriorOf(row).value, p)
  {
    hide MergeInto, RowAfter, CleanRow, PriorOf, Rewrite, Changes;
    var prior := PriorOf(row).value;
    var next := NextBaseline(prior, values);
    ConflictIff(s, row, prior, values, append, minted);
    if prior.Some? { CleanStays(prior.value, minted); }
    if prior != Some(next) {
      BaselineWritten(row, prior, values, append, minted);
    } else {
      BaselineKept(row, prior, values, append, minted);
      SamePrior(row, row + RewriteRow(Changes(row, prior, values, append), minted));
      AgreedClean(next, values, minted);
      CleanStays(values, minted);
    }
  }

  lemma PropertyAfter(s: Subject, row: Row, values: Row, append: bool, minted: Minted, p: Property)
    requires PriorOf(row).Ok? && CleanSaved(row, minted) && NoReserved(values) && p != BASELINE
    requires !MergeInto(s, row, PriorOf(row).value, values, append).Conflict?
    ensures Get(RowAfter(row, MergeInto(s, row, PriorOf(row).value, values, append), minted), p) ==
            if p in values && Get(row, p) == Saved(PriorOf(row).value, p) then Some(Rewrite(values[p], minted)) else Get(row, p)
  {
    hide MergeInto, RowAfter, Clean, PriorOf, Rewrite, Changes, Disputed;
    var prior := PriorOf(row).value;
    ConflictIff(s, row, prior, values, append, minted);
    ChangesMean(row, prior, values, append);
    if p in values && prior.Some? && p in prior.value { RewriteClean(prior.value[p], prior.value[p], minted); }
  }

  // ---- What saved values may say ------------------------------------------------------------------

  /** The value names no local record. */
  predicate NoLocal(v: Value) {
    match v
    case Str(s) => !IsLocal(s)
    case Arr(items) => forall i | 0 <= i < |items| :: NoLocal(items[i])
    case Obj(fields) => forall k | k in fields :: NoLocal(fields[k])
    case _ => true
  }

  /** The value mentions none of the minted subjects. */
  predicate Avoids(v: Value, minted: Minted) {
    match v
    case Str(s) => s !in minted.Values
    case Arr(items) => forall i | 0 <= i < |items| :: Avoids(items[i], minted)
    case Obj(fields) => forall k | k in fields :: Avoids(fields[k], minted)
    case _ => true
  }

  /** No saved source value of any row names a local record. */
  ghost predicate SavedPlain(rows: Rows) {
    forall s, p :: SavedIn(rows, s, p).Some? ==> NoLocal(SavedIn(rows, s, p).value)
  }

  /** The minted subjects are new to every saved source value. */
  ghost predicate SavedAvoid(rows: Rows, minted: Minted) {
    forall s, p :: SavedIn(rows, s, p).Some? ==> Avoids(SavedIn(rows, s, p).value, minted)
  }

  ghost predicate SavedClean(rows: Rows, minted: Minted) {
    forall s :: s in rows ==> CleanSaved(rows[s], minted)
  }

  lemma {:induction false} PlainAndNewIsClean(v: Value, minted: Minted)
    requires NoLocal(v) && Avoids(v, minted)
    ensures Clean(v, minted)
  {
    match v
    case Arr(items) => forall i | 0 <= i < |items| ensures Clean(items[i], minted) { PlainAndNewIsClean(items[i], minted); }
    case Obj(fields) => forall k | k in fields ensures Clean(fields[k], minted) { PlainAndNewIsClean(fields[k], minted); }
    case _ =>
  }

  lemma PlainIsClean(rows: Rows, minted: Minted)
    requires SavedPlain(rows) && SavedAvoid(rows, minted)
    ensures SavedClean(rows, minted)
  {
    hide NoLocal, Avoids, Clean, PriorOf;
    forall s | s in rows ensures CleanSaved(rows[s], minted) {
      if PriorOf(rows[s]).Ok? && PriorOf(rows[s]).value.Some? {
        var saved := PriorOf(rows[s]).value.value;
        forall p | p in saved ensures Clean(saved[p], minted) {
          assert SavedIn(rows, s, p) == Some(saved[p]);
          PlainAndNewIsClean(saved[p], minted);
        }
      }
    }
  }

  /** What a run supplies names no local record: every one it names was minted. */
  lemma {:induction false} SuppliedIsPlain(v: Value, binds: map<LocalId, string>, minted: Minted)
    requires Resolvable(v, binds)
    requires forall id :: id in binds && IsLocal(binds[id]) ==> binds[id][|LOCAL|..] in minted
    requires forall id :: id in minted ==> !IsLocal(minted[id])
    ensures NoLocal(Rewrite(Resolved(v, binds), minted))
  {
    match v
    case Str(s) =>
    case Arr(items) =>
      forall i | 0 <= i < |items| ensures NoLocal(Rewrite(Resolved(items[i], binds), minted)) { SuppliedIsPlain(items[i], binds, minted); }
      assert forall i | 0 <= i < |items| :: Rewrite(Resolved(v, binds), minted).items[i] == Rewrite(Resolved(items[i], binds), minted);
    case Obj(fields) =>
      forall k | k in fields ensures NoLocal(Rewrite(Resolved(fields[k], binds), minted)) { SuppliedIsPlain(fields[k], binds, minted); }
      assert forall k | k in fields :: Rewrite(Resolved(v, binds), minted).fields[k] == Rewrite(Resolved(fields[k], binds), minted);
    case _ =>
  }

  // ---- One run, row by row --------------------------------------------------------------------

  /** What the run does to the row of record `i`: nothing when the record conflicts; otherwise the saved
      values become the source's, and a property follows the source exactly when it still held its saved
      value. */
  ghost predicate RowOutcome(rows: Rows, records: seq<Record>, minted: Minted, i: nat, s: Subject, rows': Rows)
    requires Importable(rows, records) && i < |records|
  {
    && s in rows'
    && (Plans(rows, records)[i].Conflict? ==> s in rows && rows'[s] == rows[s])
    && (forall p :: SavedIn(rows', s, p) == SuppliedFrom(rows, records, minted, i, p).Or(SavedIn(rows, s, p)))
    && (s in rows ==> forall p :: p != BASELINE ==>
          Get(rows'[s], p) == if Get(rows[s], p) == SavedIn(rows, s, p)
                              then SuppliedFrom(rows, records, minted, i, p).Or(Get(rows[s], p)) else Get(rows[s], p))
    && (s !in rows ==> forall p :: p !in RESERVED ==> Get(rows'[s], p) == SuppliedFrom(rows, records, minted, i, p))
  }

  lemma CreatedHolds(dest: string, r: Record, values: Row, minted: Minted, p: Property)
    requires NoReserved(values) && p !in RESERVED
    ensures Get(RowAfter(map[], Create(r.localId, dest, r.isA, CreateRow(r, values)), minted), p)
         == if p in values then Some(Rewrite(values[p], minted)) else None
  {
    hide Rewrite, RewriteText, Classes, BaselineValue;
    assert PARENT in RESERVED && IS_A in RESERVED && LOCAL_ID in RESERVED && BASELINE in RESERVED;
  }

  /** A created record's row holds what it supplied. */
  lemma NewRowOutcome(rows: Rows, records: seq<Record>, minted: Minted, i: nat)
    requires Importable(rows, records) && Mints(rows, records, minted) && i < |records| && records[i].localId in minted
    ensures RowOutcome(rows, records, minted, i, minted[records[i].localId], AppliedAll(rows, Plans(rows, records), minted))
    ensures BindingsOf(rows, BatchOf(records)).Keys == BatchOf(records).Keys && records[i].localId in BatchOf(records)
    ensures RewriteText(BindingsOf(rows, BatchOf(records))[records[i].localId], minted) == minted[records[i].localId]
  {
    hide FirstRun, RowAfter, MergeInto, RewriteText, PriorOf, Rewrite, Resolvable, Lists, PlainSources, Mints, BatchOf, AppliedAll, Sound, Dest, Bind, Leaves, DistinctLocalIds;
    var batch, plans, r := BatchOf(records), Plans(rows, records), records[i];
    var dests, binds := DestsOf(rows, batch), BindingsOf(rows, batch);
    FirstRunOf(rows, records, minted);
    OwnRowNotLocal(rows, batch, dests, binds, minted, records, i);
    RowAfterRun(rows, batch, records, dests, binds, minted, plans, i);
    TargetIsOwnRow(rows, batch, records, dests, binds, minted, plans, i);
    MintedApart(rows, batch, dests, binds, minted, r.localId);
    CreatedSaves(rows, batch, records, dests, binds, minted, plans, i);
    ResolvedKeepsKeys(r.values, binds);
    forall p | p !in RESERVED
      ensures Get(RowAfter(map[], plans[i], minted), p) == SuppliedFrom(rows, records, minted, i, p)
    {
      CreatedHolds(dests[r.localId], r, ResolvedRow(r.values, binds), minted, p);
    }
  }

  lemma OldRowPlan(rows: Rows, records: seq<Record>, minted: Minted, i: nat)
    requires Importable(rows, records) && Mints(rows, records, minted) && i < |records| && records[i].localId !in minted
    ensures BindingsOf(rows, BatchOf(records)).Keys == BatchOf(records).Keys && records[i].localId in BatchOf(records)
    ensures var binds, rows', r := BindingsOf(rows, BatchOf(records)), AppliedAll(rows, Plans(rows, records), minted), records[i];
            var s := binds[r.localId];
            && RewriteText(s, minted) == s && s in rows && PriorOf(rows[s]).Ok?
            && ResolvableRow(r.values, binds) && NoReserved(ResolvedRow(r.values, binds))
            && Plans(rows, records)[i] == MergeInto(s, rows[s], PriorOf(rows[s]).value, ResolvedRow(r.values, binds), r.append)
            && s in rows' && rows'[s] == RowAfter(rows[s], Plans(rows, records)[i], minted)
  {
    hide FirstRun, RowAfter, MergeInto, RewriteText, PriorOf, Rewrite, Resolvable, NoReserved, Lists, PlainSources, Mints, BatchOf, AppliedAll, Sound, Dest, Bind, Leaves, DistinctLocalIds;
    var batch, plans, r := BatchOf(records), Plans(rows, records), records[i];
    var dests, binds := DestsOf(rows, batch), BindingsOf(rows, batch);
    FirstRunOf(rows, records, minted);
    OwnRowNotLocal(rows, batch, dests, binds, minted, records, i);
    RowAfterRun(rows, batch, records, dests, binds, minted, plans, i);
    TargetIsOwnRow(rows, batch, records, dests, binds, minted, plans, i);
    ResolvedKeepsKeys(r.values, binds);
  }

  /** The row a record is bound to holds what its merge makes of it. */
  lemma OldRowOutcome(rows: Rows, records: seq<Record>, minted: Minted, i: nat)
    requires Importable(rows, records) && Mints(rows, records, minted) && i < |records| && records[i].localId !in minted
    requires SavedClean(rows, minted)
    ensures BindingsOf(rows, BatchOf(records)).Keys == BatchOf(records).Keys && records[i].localId in BatchOf(records)
    ensures var s := BindingsOf(rows, BatchOf(records))[records[i].localId];
            RewriteText(s, minted) == s && RowOutcome(rows, records, minted, i, s, AppliedAll(rows, Plans(rows, records), minted))
  {
    hide Sound, DistinctLocalIds, Mergeable, Plans, RowAfter, MergeInto, RewriteText, PriorOf, Rewrite, Resolvable, NoReserved, Mints, BatchOf, AppliedAll, BindingsOf, CleanSaved, Saved, AllLeave;
    OldRowPlan(rows, records, minted, i);
    var binds, r := BindingsOf(rows, BatchOf(records)), records[i];
    var s := binds[r.localId];
    MergeOutcome(s, rows[s], ResolvedRow(r.values, binds), r.append, minted);
  }

  lemma OwnedRow(rows: Rows, records: seq<Record>, minted: Minted, i: nat, s: Subject)
    requires Importable(rows, records) && Mints(rows, records, minted) && SavedClean(rows, minted) && Owns(rows, records, minted, i, s)
    ensures RowOutcome(rows, records, minted, i, s, AppliedAll(rows, Plans(rows, records), minted))
  {
    hide Mints, BatchOf, AppliedAll, RowOutcome, RewriteText, Sound, Mergeable, Bind, Leaves, DistinctLocalIds, SavedClean;
    if records[i].localId in minted { NewRowOutcome(rows, records, minted, i); } else { OldRowOutcome(rows, records, minted, i); }
  }

  lemma OwnedOnce(rows: Rows, records: seq<Record>, minted: Minted, i: nat, j: nat, s: Subject)
    requires Importable(rows, records) && Mints(rows, records, minted)
    requires Owns(rows, records, minted, i, s) && Owns(rows, records, minted, j, s)
    ensures i == j
  {
    hide FirstRun, RewriteText, Mints, BatchOf, Sound, Mergeable, Bind, Dest, Leaves, RanAs;
    FirstRunOf(rows, records, minted);
    var batch := BatchOf(records);
    assert i != j ==> records[i].localId != records[j].localId by {
      assert i < j ==> records[i].localId != records[j].localId;
      assert j < i ==> records[j].localId != records[i].localId;
    }
    if i != j {
      SubjectsApart(rows, batch, DestsOf(rows, batch), BindingsOf(rows, batch), minted, records[i].localId, records[j].localId);
    }
  }

  lemma OwnsInRange(rows: Rows, records: seq<Record>, minted: Minted, i: nat, s: Subject)
    requires Importable(rows, records) && Owns(rows, records, minted, i, s)
    ensures i < |records|
  {
    hide Importable;
  }

  /** A row has at most one record, so what is supplied to it is what its record supplies. */
  lemma SuppliedByOwner(rows: Rows, records: seq<Record>, minted: Minted, i: nat, s: Subject, p: Property)
    requires Importable(rows, records) && Mints(rows, records, minted) && Owns(rows, records, minted, i, s)
    ensures Supplied(rows, records, minted, s, p) == SuppliedFrom(rows, records, minted, i, p)
  {
    hide Importable, Mints, SuppliedFrom, Owns;
    OwnsInRange(rows, records, minted, i, s);
    forall j: nat | Owns(rows, records, minted, j, s) ensures j == i {
      OwnedOnce(rows, records, minted, i, j, s);
    }
  }

  lemma UnownedRow(rows: Rows, records: seq<Record>, minted: Minted, s: Subject)
    requires Importable(rows, records) && Mints(rows, records, minted)
    requires forall i: nat :: !Owns(rows, records, minted, i, s)
    ensures s in AppliedAll(rows, Plans(rows, records), minted) <==> s in rows
    ensures s in rows ==> AppliedAll(rows, Plans(rows, records), minted)[s] == rows[s]
  {
    hide FirstRun, RewriteText, Mints, BatchOf, Sound, Mergeable, Bind, Dest, Leaves, RanAs, DistinctLocalIds, Target;
    FirstRunOf(rows, records, minted);
    var batch, plans := BatchOf(records), Plans(rows, records);
    forall i | 0 <= i < |plans| ensures Target(plans[i], minted) != Some(s) {
      TargetIsOwnRow(rows, batch, records, DestsOf(rows, batch), BindingsOf(rows, batch), minted, plans, i);
      assert !Owns(rows, records, minted, i, s);
    }
    UntouchedRow(rows, plans, minted, s);
  }

  /** One run moves the saved value of a property to what it supplied, and nothing else does. */
  lemma RunSaves(rows: Rows, records: seq<Record>, minted: Minted, s: Subject, p: Property)
    requires Importable(rows, records) && Mints(rows, records, minted) && SavedClean(rows, minted)
    ensures SavedIn(AppliedAll(rows, Plans(rows, records), minted), s, p) == Supplied(rows, records, minted, s, p).Or(SavedIn(rows, s, p))
  {
    hide Owns, Mints, Importable, AppliedAll, SuppliedFrom, SavedIn, Plans, SavedClean;
    if exists i: nat :: Owns(rows, records, minted, i, s) {
      var i: nat :| Owns(rows, records, minted, i, s);
      OwnsInRange(rows, records, minted, i, s);
      SuppliedByOwner(rows, records, minted, i, s, p);
      OwnedRow(rows, records, minted, i, s);
    } else {
      UnownedRow(rows, records, minted, s);
      SameSaved(rows, AppliedAll(rows, Plans(rows, records), minted), s, p);
    }
  }

  lemma SameSaved(rows: Rows, rows': Rows, s: Subject, p: Property)
    requires s in rows' <==> s in rows
    requires s in rows ==> Get(rows'[s], BASELINE) == Get(rows[s], BASELINE)
    ensures SavedIn(rows', s, p) == SavedIn(rows, s, p)
  {
    hide PriorOf;
    if s in rows { SamePrior(rows[s], rows'[s]); }
  }

  /** What a run leaves saved still names no local record. */
  lemma RunStaysPlain(rows: Rows, records: seq<Record>, minted: Minted)
    requires Importable(rows, records) && Mints(rows, records, minted) && SavedClean(rows, minted) && SavedPlain(rows)
    ensures SavedPlain(AppliedAll(rows, Plans(rows, records), minted))
  {
    hide Importable, Mints, AppliedAll, SavedIn, NoLocal, SavedClean, Owns, SuppliedFrom, Plans;
    var rows' := AppliedAll(rows, Plans(rows, records), minted);
    forall s, p | SavedIn(rows', s, p).Some? ensures NoLocal(SavedIn(rows', s, p).value) {
      RunSaves(rows, records, minted, s, p);
      if exists i: nat :: Owns(rows, records, minted, i, s) {
        var i: nat :| Owns(rows, records, minted, i, s);
        OwnsInRange(rows, records, minted, i, s);
        SuppliedByOwner(rows, records, minted, i, s, p);
        OwnerSuppliesPlain(rows, records, minted, i, p);
      }
    }
  }

  lemma OwnerSuppliesPlain(rows: Rows, records: seq<Record>, minted: Minted, i: nat, p: Property)
    requires Importable(rows, records) && Mints(rows, records, minted) && i < |records|
    ensures SuppliedFrom(rows, records, minted, i, p).Some? ==> NoLocal(SuppliedFrom(rows, records, minted, i, p).value)
  {
    hide NoLocal, Sound, Dest, Bind, Leaves, BatchOf, DistinctLocalIds, Rewrite, Resolved, Resolvable, FirstRun, Lists, RanAs;
    if SuppliedFrom(rows, records, minted, i, p).Some? {
      FirstRunOf(rows, records, minted);
      var batch := BatchOf(records);
      var binds := BindingsOf(rows, batch);
      forall id | id in binds ensures IsLocal(binds[id]) ==> binds[id][|LOCAL|..] in minted {
        BoundLocally(rows, batch, DestsOf(rows, batch), binds, minted, id);
      }
      assert Mergeable(rows, binds, records[i]);
      SuppliedIsPlain(records[i].values[p], binds, minted);
    }
  }

  lemma BoundLocally(rows: Rows, batch: Batch, dests: Names, binds: Names, minted: Minted, id: LocalId)
    requires FirstRun(rows, batch, dests, binds, minted) && id in binds
    ensures IsLocal(binds[id]) ==> binds[id][|LOCAL|..] in minted
  {
    hide BindsCleanly, BindingAt, Matches, Pure;
    OneKeySet(rows, batch, dests, binds, minted);
    LocalNames(rows, batch, dests, binds, minted, id);
  }

  // ---- Histories ------------------------------------------------------------------------------

  datatype Step = Import(records: seq<Record>, minted: Minted) | Edit

  /** One step: an import, which writes nothing unless it runs to the end, or any local edits. Edits may
      add rows, remove them, and change every property of a row except its baseline. */
  ghost predicate Stepped(rows: Rows, e: Step, rows': Rows) {
    match e
    case Import(records, minted) =>
      if Importable(rows, records) then
        Mints(rows, records, minted) && SavedAvoid(rows, minted) && rows' == AppliedAll(rows, Plans(rows, records), minted)
      else rows' == rows
    case Edit =>
      && (forall s :: s in rows && s in rows' ==> Get(rows'[s], BASELINE) == Get(rows[s], BASELINE))
      && (forall s :: s in rows' && s !in rows ==> BASELINE !in rows'[s])
  }

  /** Rows may say anything; only the values saved at the start name no local record, as no import saves one
      that does. */
  ghost predicate History(states: seq<Rows>, steps: seq<Step>) {
    && |states| == |steps| + 1 && SavedPlain(states[0])
    && forall i {:trigger steps[i]} | 0 <= i < |steps| :: Stepped(states[i], steps[i], states[i + 1])
  }

  ghost function SuppliedBy(rows: Rows, e: Step, s: Subject, p: Property): Option<Value> {
    if e.Import? && Importable(rows, e.records) then Supplied(rows, e.records, e.minted, s, p) else None
  }

  /** The value the last conflict-free import among the first `n` steps supplied to a property of a row,
      counted from when the row last appeared; before any, the value saved at the start. */
  ghost function LastSupplied(states: seq<Rows>, steps: seq<Step>, s: Subject, p: Property, n: nat): Option<Value>
    requires |states| == |steps| + 1 && n <= |steps|
  {
    if s !in states[n] then None
    else if n == 0 then SavedIn(states[0], s, p)
    else SuppliedBy(states[n - 1], steps[n - 1], s, p).Or(LastSupplied(states, steps, s, p, n - 1))
  }

  /** Throughout any history, the saved value of every property of every row is the one the last
      conflict-free import that carried it supplied. */
  lemma {:induction false} BaselineIsLastSupplied(states: seq<Rows>, steps: seq<Step>, s: Subject, p: Property, n: nat)
    requires History(states, steps) && n <= |steps|
    ensures SavedIn(states[n], s, p) == LastSupplied(states, steps, s, p, n)
    decreases n
  {
    hide Importable, Supplied, AppliedAll, Mints, PriorOf, SavedPlain, SavedAvoid;
    if n > 0 {
      BaselineIsLastSupplied(states, steps, s, p, n - 1);
      HistoryPlain(states, steps, n - 1);
      var rows, e, rows' := states[n - 1], steps[n - 1], states[n];
      assert Stepped(rows, e, rows');
      StepSaves(rows, e, rows', s, p);
    }
  }

  lemma {:induction false} HistoryPlain(states: seq<Rows>, steps: seq<Step>, n: nat)
    requires History(states, steps) && n <= |steps|
    ensures SavedPlain(states[n])
  {
    hide Stepped, SavedPlain;
    if n > 0 {
      HistoryPlain(states, steps, n - 1);
      assert Stepped(states[n - 1], steps[n - 1], states[n]);
      StepStaysPlain(states[n - 1], steps[n - 1], states[n]);
    }
  }

  lemma StepStaysPlain(rows: Rows, e: Step, rows': Rows)
    requires Stepped(rows, e, rows') && SavedPlain(rows)
    ensures SavedPlain(rows')
  {
    hide Importable, AppliedAll, Mints, Plans, NoLocal, SavedIn, SavedAvoid, SavedClean;
    if e.Import? && Importable(rows, e.records) {
      PlainIsClean(rows, e.minted);
      RunStaysPlain(rows, e.records, e.minted);
    } else if e.Edit? {
      forall s, p | SavedIn(rows', s, p).Some? ensures NoLocal(SavedIn(rows', s, p).value) {
        EditSaves(rows, rows', s, p);
      }
    }
  }

  /** An edit leaves the saved values of the rows it keeps, and gives none to others. */
  lemma EditSaves(rows: Rows, rows': Rows, s: Subject, p: Property)
    requires Stepped(rows, Edit, rows')
    ensures SavedIn(rows', s, p) == if s in rows' then SavedIn(rows, s, p) else None
  {
    hide PriorOf;
    if s in rows' {
      if s in rows { SamePrior(rows[s], rows'[s]); } else { NoBaseline(rows'[s]); }
    }
  }

  lemma StepSaves(rows: Rows, e: Step, rows': Rows, s: Subject, p: Property)
    requires Stepped(rows, e, rows') && SavedPlain(rows)
    ensures SavedIn(rows', s, p) == if s in rows' then SuppliedBy(rows, e, s, p).Or(SavedIn(rows, s, p)) else None
  {
    hide Importable, Supplied, AppliedAll, Mints, PriorOf, Plans, SavedPlain, SavedAvoid, SavedClean;
    if e.Import? && Importable(rows, e.records) {
      PlainIsClean(rows, e.minted);
      RunSaves(rows, e.records, e.minted, s, p);
    } else if e.Edit? {
      EditSaves(rows, rows', s, p);
    }
  }

  lemma NoBaseline(row: Row)
    requires BASELINE !in row
    ensures PriorOf(row) == Ok(None)
  {
  }

  /** In any history, an import never overwrites a local edit: a property it changes still held the value
      the last conflict-free import supplied, and becomes what the source now says. */
  lemma LocalEditsSurvive(states: seq<Rows>, steps: seq<Step>, n: nat, s: Subject, p: Property)
    requires History(states, steps) && n < |steps| && steps[n].Import? && s in states[n] && p != BASELINE
    ensures s in states[n + 1]
    ensures Get(states[n + 1][s], p) != Get(states[n][s], p) ==>
              && Get(states[n][s], p) == LastSupplied(states, steps, s, p, n)
              && Importable(states[n], steps[n].records)
              && Supplied(states[n], steps[n].records, steps[n].minted, s, p).Some?
              && Get(states[n + 1][s], p) == Supplied(states[n], steps[n].records, steps[n].minted, s, p)
  {
    hide Importable, AppliedAll, Mints, SavedIn, LastSupplied, Plans, Owns, SuppliedFrom, SavedPlain, SavedAvoid, SavedClean;
    BaselineIsLastSupplied(states, steps, s, p, n);
    HistoryPlain(states, steps, n);
    var rows, records, minted := states[n], steps[n].records, steps[n].minted;
    assert Stepped(rows, steps[n], states[n + 1]);
    if Importable(rows, records) {
      PlainIsClean(rows, minted);
      if exists i: nat :: Owns(rows, records, minted, i, s) {
        var i: nat :| Owns(rows, records, minted, i, s);
        OwnsInRange(rows, records, minted, i, s);
        SuppliedByOwner(rows, records, minted, i, s, p);
        OwnedRow(rows, records, minted, i, s);
      } else {
        UnownedRow(rows, records, minted, s);
      }
    }
  }

  /** The same, the other way: in any history, a property still holding the last supplied value is brought
      to what the source says by a record without a conflict, and a record created says it from the start. */
  lemma SourceArrives(states: seq<Rows>, steps: seq<Step>, n: nat, i: nat, s: Subject, p: Property)
    requires History(states, steps) && n < |steps| && steps[n].Import? && Importable(states[n], steps[n].records)
    requires Owns(states[n], steps[n].records, steps[n].minted, i, s) && p in steps[n].records[i].values
    requires !Plans(states[n], steps[n].records)[i].Conflict?
    requires s in states[n] ==> Get(states[n][s], p) == LastSupplied(states, steps, s, p, n)
    ensures s in states[n + 1]
    ensures Get(states[n + 1][s], p) == Some(Incoming(states[n], steps[n].records, steps[n].minted, i, p))
  {
    hide Importable, AppliedAll, Mints, SavedIn, LastSupplied, Plans, Owns, SavedPlain, SavedAvoid, SavedClean, Incoming;
    var rows, records, minted := states[n], steps[n].records, steps[n].minted;
    assert Stepped(rows, steps[n], states[n + 1]);
    BaselineIsLastSupplied(states, steps, s, p, n);
    HistoryPlain(states, steps, n);
    PlainIsClean(rows, minted);
    OwnsInRange(rows, records, minted, i, s);
    OwnedRow(rows, records, minted, i, s);
    RecordNotReserved(rows, records, i, p);
  }

  lemma RecordNotReserved(rows: Rows, records: seq<Record>, i: nat, p: Property)
    requires Importable(rows, records) && i < |records| && p in records[i].values
    ensures p !in RESERVED && p != BASELINE
  {
    hide Sound, AllLeave, DistinctLocalIds, BatchOf, BindingsOf;
    assert records[i] in records;
  }

  /** In any history, a record never conflicts over an imported row without local edits, unless it may only
      append; so an import brings every property it carries there to what the source says. */
  lemma UneditedRowFollows(states: seq<Rows>, steps: seq<Step>, n: nat, i: nat, s: Subject, p: Property)
    requires History(states, steps) && n < |steps| && steps[n].Import? && Importable(states[n], steps[n].records)
    requires Owns(states[n], steps[n].records, steps[n].minted, i, s) && s in states[n] && p in steps[n].records[i].values
    requires !steps[n].records[i].append && PriorOf(states[n][s]).Ok? && PriorOf(states[n][s]).value.Some?
    requires forall q :: q in steps[n].records[i].values ==> Get(states[n][s], q) == LastSupplied(states, steps, s, q, n)
    ensures !Plans(states[n], steps[n].records)[i].Conflict?
    ensures s in states[n + 1]
    ensures Get(states[n + 1][s], p) == Some(Incoming(states[n], steps[n].records, steps[n].minted, i, p))
  {
    hide AppliedAll, Mints, LastSupplied, Plans, Importable, Incoming, PriorOf, Owns, SavedIn, Stepped, SavedPlain;
    var rows, records := states[n], steps[n].records;
    HistoryMints(states, steps, n);
    OwnsInRange(rows, records, steps[n].minted, i, s);
    forall q | q in records[i].values ensures Get(rows[s], q) == SavedIn(rows, s, q) {
      BaselineIsLastSupplied(states, steps, s, q, n);
    }
    UneditedRowMerges(rows, records, steps[n].minted, i, s);
    SourceArrives(states, steps, n, i, s, p);
  }

  lemma HistoryMints(states: seq<Rows>, steps: seq<Step>, n: nat)
    requires History(states, steps) && n < |steps| && steps[n].Import? && Importable(states[n], steps[n].records)
    ensures Mints(states[n], steps[n].records, steps[n].minted)
  {
    hide AppliedAll, Mints, Plans, Importable, SavedPlain, SavedAvoid;
    assert Stepped(states[n], steps[n], states[n + 1]);
  }

  lemma UneditedRowMerges(rows: Rows, records: seq<Record>, minted: Minted, i: nat, s: Subject)
    requires Importable(rows, records) && Mints(rows, records, minted) && Owns(rows, records, minted, i, s) && s in rows
    requires !records[i].append && PriorOf(rows[s]).Ok? && PriorOf(rows[s]).value.Some?
    requires forall q :: q in records[i].values ==> Get(rows[s], q) == SavedIn(rows, s, q)
    ensures !Plans(rows, records)[i].Conflict?
  {
    hide Mints, Plans, PriorOf, MergeInto, Resolvable, Sound, DistinctLocalIds, BatchOf, Bind, Mergeable;
    OwnedOld(rows, records, minted, i, s);
    ConflictMeans(s, rows[s], PriorOf(rows[s]).value, ResolvedRow(records[i].values, BindingsOf(rows, BatchOf(records))), false);
  }

  lemma OwnedOld(rows: Rows, records: seq<Record>, minted: Minted, i: nat, s: Subject)
    requires Importable(rows, records) && Mints(rows, records, minted) && Owns(rows, records, minted, i, s) && s in rows
    ensures var binds := BindingsOf(rows, BatchOf(records));
            && PriorOf(rows[s]).Ok? && ResolvableRow(records[i].values, binds)
            && Plans(rows, records)[i] ==
               MergeInto(s, rows[s], PriorOf(rows[s]).value, ResolvedRow(records[i].values, binds), records[i].append)
  {
    hide MergeInto, RewriteText, PriorOf, Resolvable, NoReserved, BatchOf, AppliedAll, Sound, Dest, Bind, Leaves, DistinctLocalIds, FirstRun, RowAfter;
    OwnsInRange(rows, records, minted, i, s);
    var batch := BatchOf(records);
    FirstRunOf(rows, records, minted);
    OwnRowNotLocal(rows, batch, DestsOf(rows, batch), BindingsOf(rows, batch), minted, records, i);
    MintedApart(rows, batch, DestsOf(rows, batch), BindingsOf(rows, batch), minted, records[i].localId);
    if records[i].localId in minted { NewRowOutcome(rows, records, minted, i); } else { OldRowPlan(rows, records, minted, i); }
  }

  /** In any history, a record with a conflict leaves its row wholly as it was. */
  lemma ConflictLeavesRow(states: seq<Rows>, steps: seq<Step>, n: nat, i: nat, s: Subject)
    requires History(states, steps) && n < |steps| && steps[n].Import? && Importable(states[n], steps[n].records)
    requires Owns(states[n], steps[n].records, steps[n].minted, i, s) && Plans(states[n], steps[n].records)[i].Conflict?
    ensures s in states[n] && s in states[n + 1] && states[n + 1][s] == states[n][s]
  {
    hide Importable, AppliedAll, Mints, SavedIn, Plans, SavedPlain, SavedAvoid, SavedClean;
    assert Stepped(states[n], steps[n], states[n + 1]);
    HistoryPlain(states, steps, n);
    PlainIsClean(states[n], steps[n].minted);
    OwnedRow(states[n], steps[n].records, steps[n].minted, i, s);
  }
}
