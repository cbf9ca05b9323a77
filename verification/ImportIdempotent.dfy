/** Idempotence of the import: what the applied plans leave in the rows, and what the merge makes of it
    when the same records come again. */
module ImportIdempotent {
  import opened Basics
  import opened ImportRecords
  import opened ImportMerge
  import opened ImportAgain
  import opened ImportTwice

  // ---- One record, merged again -------------------------------------------------------------

  /** Where the baseline already holds the incoming values, the merge has nothing to do, whatever the
      row itself holds: local edits since are kept. */
  lemma AgreedBaselineUnchanged(subject: Subject, row: Row, saved: Row, values: Row, append: bool)
    requires forall p :: p in values ==> p in saved && saved[p] == values[p]
    ensures MergeInto(subject, row, Some(saved), values, append) == Unchanged(subject)
  {
    assert NextBaseline(Some(saved), values) == saved;
    assert forall p | p in values :: VerdictOn(row, Some(saved), values, append, p) == Keep;
    assert Clashes(row, Some(saved), values, append) == map[];
    assert Taken(row, Some(saved), values, append) == map[];
  }

  function RewriteClashes(clashes: map<Property, ClashInfo>, minted: Minted): map<Property, ClashInfo> {
    map p | p in clashes :: clashes[p].(source := Rewrite(clashes[p].source, minted))
  }

  /** What the row holds where the record has something to say. */
  predicate CleanAt(row: Row, values: Row, minted: Minted) {
    forall p | p in values && p in row :: Clean(row[p], minted)
  }

  /** The row's saved source values. */
  predicate CleanSaved(row: Row, minted: Minted) {
    PriorOf(row).Ok? && PriorOf(row).value.Some? ==> CleanRow(PriorOf(row).value.value, minted)
  }

  lemma SameVerdict(row: Row, prior: Option<Row>, values: Row, append: bool, minted: Minted, p: Property)
    requires CleanAt(row, values, minted) && (prior.Some? ==> CleanRow(prior.value, minted)) && p in values
    ensures VerdictOn(row, prior, RewriteRow(values, minted), append, p) == VerdictOn(row, prior, values, append, p)
  {
    hide Clean, Rewrite;
    if p in row { RewriteClean(values[p], row[p], minted); }
    if prior.Some? && p in prior.value { RewriteClean(values[p], prior.value[p], minted); }
    var incoming' := Rewrite(values[p], minted);
    assert Some(incoming') == Get(row, p) <==> Some(values[p]) == Get(row, p);
    assert Some(incoming') == Saved(prior, p) <==> Some(values[p]) == Saved(prior, p);
  }

  /** A conflict over a row that did not change is met again. */
  lemma ConflictAgain(subject: Subject, row: Row, prior: Option<Row>, values: Row, append: bool, minted: Minted)
    requires CleanAt(row, values, minted) && (prior.Some? ==> CleanRow(prior.value, minted))
    requires MergeInto(subject, row, prior, values, append).Conflict?
    ensures MergeInto(subject, row, prior, RewriteRow(values, minted), append)
         == Conflict(subject, RewriteClashes(Clashes(row, prior, values, append), minted))
  {
    hide VerdictOn, CleanRow, CleanAt, Rewrite;
    var values' := RewriteRow(values, minted);
    var clashes, clashes' := Clashes(row, prior, values, append), Clashes(row, prior, values', append);
    forall p | p in values ensures VerdictOn(row, prior, values', append, p) == VerdictOn(row, prior, values, append, p) {
      SameVerdict(row, prior, values, append, minted, p);
    }
    assert clashes'.Keys == clashes.Keys;
    assert clashes' == RewriteClashes(clashes, minted);
    assert clashes != map[];
    var p :| p in clashes;
    assert p in clashes';
  }

  // ---- Baselines under rewriting -------------------------------------------------------------

  lemma RewriteOfObject(row: Row, minted: Minted)
    ensures Rewrite(Obj(row), minted) == Obj(RewriteRow(row, minted))
  {
  }

  lemma RewrittenPair(k: string, u: Row, l: string, v: Row, minted: Minted)
    requires k != l
    ensures Rewrite(Obj(map[k := Obj(u), l := Obj(v)]), minted)
         == Obj(map[k := Obj(RewriteRow(u, minted)), l := Obj(RewriteRow(v, minted))])
  {
    hide Rewrite;
    var pair: Row := map[k := Obj(u), l := Obj(v)];
    RewriteOfObject(pair, minted);
    RewriteOfObject(u, minted);
    RewriteOfObject(v, minted);
  }

  lemma RewrittenBaseline(values: Row, previous: Row, minted: Minted)
    ensures Rewrite(BaselineValue(values, previous), minted) == BaselineValue(RewriteRow(values, minted), RewriteRow(previous, minted))
  {
    hide Rewrite, RewriteRow;
    assert |"values"| == 6 && |"previous"| == 8;
    RewrittenPair("values", values, "previous", previous, minted);
  }

  lemma CleanStays(row: Row, minted: Minted)
    requires CleanRow(row, minted)
    ensures RewriteRow(row, minted) == row
  {
    forall p | p in row ensures Rewrite(row[p], minted) == row[p] { RewriteClean(row[p], row[p], minted); }
  }

  /** The reserved properties are different properties. */
  lemma ReservedApart()
    ensures |RESERVED| == 6
    ensures BASELINE !in {PARENT, IS_A, LOCAL_ID, RESOLUTION} && LOCAL_ID !in {PARENT, IS_A, RESOLUTION}
    ensures RESOLUTION !in {PARENT, IS_A} && PARENT != IS_A
  {
    assert |PARENT| == 40 && |IS_A| == 37 && |LOCAL_ID| == 41 && |BASELINE| == 48 && |RESOLUTION| == 50 && |REFERENCE_REVIEW| == 55;
  }

  // ---- The rows after the run ----------------------------------------------------------------

  ghost predicate RanAs(rows: Rows, records: seq<Record>, dests: Names, binds: Names, plans: seq<Plan>) {
    && |plans| == |records|
    && forall i | 0 <= i < |records| ::
         Mergeable(rows, binds, records[i]) && records[i].localId in dests
         && plans[i] == PlanOf(rows, binds, dests[records[i].localId], records[i])
  }

  /** A plan writes the minted row of a created record, or the row the record is bound to. */
  lemma PlanTarget(rows: Rows, dests: Names, binds: Names, minted: Minted, r: Record)
    requires Mergeable(rows, binds, r) && r.localId in dests
    requires IsLocal(binds[r.localId]) <==> r.localId in minted
    ensures var plan := PlanOf(rows, binds, dests[r.localId], r);
            && (r.localId in minted ==> plan.Create? && Target(plan, minted) == Some(minted[r.localId]))
            && (r.localId !in minted ==>
                  (plan.Update? && Target(plan, minted) == Some(binds[r.localId]))
                  || (!plan.Update? && !plan.Create? && Target(plan, minted) == None))
  {
  }

  /** A created row carries the record's identity, as long as the host does not take its source id for
      a reference. */
  lemma CreatedRowIdentity(dest: string, r: Record, values: Row, minted: Minted)
    requires NoReserved(values)
    ensures var row := RowAfter(map[], Create(r.localId, dest, r.isA, CreateRow(r, values)), minted);
            && (CreatedIdentity(row, RewriteText(dest, minted), r) <==> RewriteText(r.sourceId, minted) == r.sourceId)
            && PriorOf(row) == Ok(Some(RewriteRow(values, minted)))
  {
    hide RewriteText, Rewrite, Classes;
    ReservedApart();
    var set_ := CreateRow(r, values);
    var row := RowAfter(map[], Create(r.localId, dest, r.isA, set_), minted);
    assert LOCAL_ID in set_ && set_[LOCAL_ID] == Str(r.sourceId) && BASELINE in set_ && set_[BASELINE] == BaselineValue(values, map[]);
    assert row[LOCAL_ID] == Str(RewriteText(r.sourceId, minted)) by { RewriteOfText(r.sourceId, minted); }
    RewrittenBaseline(values, map[], minted);
    PriorOfBaseline(row, RewriteRow(values, minted), RewriteRow(map[], minted));
    assert RESOLUTION in RESERVED && RESOLUTION !in values;
    assert RESOLUTION !in set_;
  }

  lemma RewriteOfText(s: string, minted: Minted)
    ensures Rewrite(Str(s), minted) == Str(RewriteText(s, minted))
  {
  }

  /** An update touches the baseline and source properties only. */
  lemma UpdateKeepsIdentity(row: Row, prior: Option<Row>, values: Row, append: bool, minted: Minted)
    requires NoReserved(values)
    ensures SameIdentity(row, row + RewriteRow(Changes(row, prior, values, append), minted))
  {
    hide Rewrite, VerdictOn, NextBaseline;
    ReservedApart();
    var set_ := Changes(row, prior, values, append);
    assert forall p :: p in set_ ==> p in values || p == BASELINE;
    assert PARENT in RESERVED && IS_A in RESERVED && LOCAL_ID in RESERVED && RESOLUTION in RESERVED;
    assert PARENT !in set_ && IS_A !in set_ && LOCAL_ID !in set_ && RESOLUTION !in set_;
  }

  /** The records of a batch, by position. */
  ghost predicate Lists(batch: Batch, records: seq<Record>) {
    && DistinctLocalIds(records)
    && (forall i :: 0 <= i < |records| ==> records[i].localId in batch && batch[records[i].localId] == records[i])
    && (forall id :: id in batch ==> exists i :: 0 <= i < |records| && records[i].localId == id)
  }

  lemma ResolvedKeepsKeys(values: Row, binds: Names)
    requires ResolvableRow(values, binds) && NoReserved(values)
    ensures NoReserved(ResolvedRow(values, binds))
  {
  }

  lemma SubjectsApart(rows: Rows, batch: Batch, dests: Names, binds: Names, minted: Minted, a: LocalId, b: LocalId)
    requires FirstRun(rows, batch, dests, binds, minted) && a in batch && b in batch && a != b
    ensures RewriteText(binds[a], minted) != RewriteText(binds[b], minted)
  {
    hide BindsCleanly, BindingAt, RewriteText, Matches;
    LocalNames(rows, batch, dests, binds, minted, a);
    LocalNames(rows, batch, dests, binds, minted, b);
    MatchesAreRows(rows, dests[a], batch[a].sourceId);
    MatchesAreRows(rows, dests[b], batch[b].sourceId);
    if a in minted && b in minted { assert Pure(minted[a]) != Pure(minted[b]); }
    assert IdentityOf(dests[a], batch[a]) != IdentityOf(dests[b], batch[b]);
  }

  /** A plan's target is the row the record is bound to after the run. */
  lemma TargetIsOwnRow(rows: Rows, batch: Batch, records: seq<Record>, dests: Names, binds: Names, minted: Minted, plans: seq<Plan>, i: nat)
    requires FirstRun(rows, batch, dests, binds, minted) && Lists(batch, records) && RanAs(rows, records, dests, binds, plans) && i < |records|
    ensures Target(plans[i], minted).Some? ==> Target(plans[i], minted).value == RewriteText(binds[records[i].localId], minted)
    ensures records[i].localId in minted ==> plans[i].Create? && Target(plans[i], minted) == Some(minted[records[i].localId])
    ensures records[i].localId !in minted ==> !plans[i].Create? && (plans[i].Update? ==> Target(plans[i], minted) == Some(binds[records[i].localId]))
    ensures records[i].localId !in minted ==> binds[records[i].localId] in rows && RewriteText(binds[records[i].localId], minted) == binds[records[i].localId]
  {
    hide BindsCleanly, BindingAt, RewriteText, Matches, PlanOf, DistinctLocalIds, Mergeable, CleanBatch;
    var id := records[i].localId;
    LocalNames(rows, batch, dests, binds, minted, id);
    MatchesAreRows(rows, dests[id], batch[id].sourceId);
    PlanTarget(rows, dests, binds, minted, records[i]);
  }

  lemma PlansApart(rows: Rows, batch: Batch, records: seq<Record>, dests: Names, binds: Names, minted: Minted, plans: seq<Plan>)
    requires FirstRun(rows, batch, dests, binds, minted) && Lists(batch, records) && RanAs(rows, records, dests, binds, plans)
    ensures TargetsApart(plans, minted)
  {
    hide FirstRun, RewriteText, PlanOf, Mergeable, Target;
    OneKeySet(rows, batch, dests, binds, minted);
    forall i, j | 0 <= i < j < |plans|
      ensures Target(plans[i], minted).Some? ==> Target(plans[i], minted) != Target(plans[j], minted)
    {
      TargetIsOwnRow(rows, batch, records, dests, binds, minted, plans, i);
      TargetIsOwnRow(rows, batch, records, dests, binds, minted, plans, j);
      SubjectsApart(rows, batch, dests, binds, minted, records[i].localId, records[j].localId);
    }
  }

  /** What one record's row holds after the run. */
  lemma RowAfterRun(rows: Rows, batch: Batch, records: seq<Record>, dests: Names, binds: Names, minted: Minted, plans: seq<Plan>, i: nat)
    requires FirstRun(rows, batch, dests, binds, minted) && Lists(batch, records) && RanAs(rows, records, dests, binds, plans) && i < |records|
    ensures var id := records[i].localId;
            var s, rows' := RewriteText(binds[id], minted), AppliedAll(rows, plans, minted);
            && s in rows'
            && (id in minted ==> s == minted[id] && rows'[s] == RowAfter(map[], plans[i], minted))
            && (id !in minted ==> s == binds[id] && s in rows && rows'[s] == RowAfter(rows[s], plans[i], minted))
  {
    hide FirstRun, RewriteText, PlanOf, Mergeable, RowAfter;
    OneKeySet(rows, batch, dests, binds, minted);
    var id := records[i].localId;
    var s := RewriteText(binds[id], minted);
    TargetIsOwnRow(rows, batch, records, dests, binds, minted, plans, i);
    PlansApart(rows, batch, records, dests, binds, minted, plans);
    MintedApart(rows, batch, dests, binds, minted, id);
    if Target(plans[i], minted).Some? {
      PlannedRow(rows, plans, minted, i);
    } else {
      forall j | 0 <= j < |plans| ensures Target(plans[j], minted) != Some(s) {
        if j != i {
          TargetIsOwnRow(rows, batch, records, dests, binds, minted, plans, j);
          SubjectsApart(rows, batch, dests, binds, minted, id, records[j].localId);
        }
      }
      UntouchedRow(rows, plans, minted, s);
      RowAfterNothing(rows[s], plans[i], minted);
    }
  }

  lemma RowAfterNothing(row: Row, plan: Plan, minted: Minted)
    requires Target(plan, minted) == None && !plan.Create?
    ensures RowAfter(row, plan, minted) == row
  {
  }

  lemma MintedApart(rows: Rows, batch: Batch, dests: Names, binds: Names, minted: Minted, id: LocalId)
    requires FirstRun(rows, batch, dests, binds, minted)
    ensures id in minted ==> minted[id] !in rows && id in batch
  {
    hide BindsCleanly, BindingAt;
  }

  /** Applying the plans keeps every old row's identity and adds the created rows. */
  lemma RunLands(rows: Rows, batch: Batch, records: seq<Record>, dests: Names, binds: Names, minted: Minted, plans: seq<Plan>)
    requires FirstRun(rows, batch, dests, binds, minted) && Lists(batch, records) && RanAs(rows, records, dests, binds, plans)
    requires PlainSources(batch, minted)
    ensures Landed(rows, AppliedAll(rows, plans, minted), batch, dests, minted)
  {
    hide FirstRun, RewriteText, RanAs, Lists, SameIdentity, CreatedIdentity, AppliedAll, PlainSources;
    OneKeySet(rows, batch, dests, binds, minted);
    var rows' := AppliedAll(rows, plans, minted);
    forall s ensures s in rows ==> s in rows' && SameIdentity(rows[s], rows'[s])
             ensures s in rows' ==> s in rows || s in minted.Values
    {
      OldRowLands(rows, batch, records, dests, binds, minted, plans, s);
    }
    forall id | id in minted
      ensures id in batch && id in dests && minted[id] in rows'
      ensures CreatedIdentity(rows'[minted[id]], RewriteText(dests[id], minted), batch[id])
    {
      NewRowLands(rows, batch, records, dests, binds, minted, plans, id);
    }
  }

  lemma NewRowLands(rows: Rows, batch: Batch, records: seq<Record>, dests: Names, binds: Names, minted: Minted, plans: seq<Plan>, id: LocalId)
    requires FirstRun(rows, batch, dests, binds, minted) && Lists(batch, records) && RanAs(rows, records, dests, binds, plans)
    requires PlainSources(batch, minted) && id in minted
    ensures id in batch && id in dests && minted[id] in AppliedAll(rows, plans, minted)
    ensures CreatedIdentity(AppliedAll(rows, plans, minted)[minted[id]], RewriteText(dests[id], minted), batch[id])
  {
    hide FirstRun, RewriteText, RanAs, RowAfter, SameIdentity, CreatedIdentity, Target, AppliedAll, PriorOf, PlainSources;
    OneKeySet(rows, batch, dests, binds, minted);
    MintedApart(rows, batch, dests, binds, minted, id);
    var i :| 0 <= i < |records| && records[i].localId == id;
    RowAfterRun(rows, batch, records, dests, binds, minted, plans, i);
    CreatedLands(rows, batch, records, dests, binds, minted, plans, i);
  }

  lemma OldRowLands(rows: Rows, batch: Batch, records: seq<Record>, dests: Names, binds: Names, minted: Minted, plans: seq<Plan>, s: Subject)
    requires FirstRun(rows, batch, dests, binds, minted) && Lists(batch, records) && RanAs(rows, records, dests, binds, plans)
    ensures s in rows ==> s in AppliedAll(rows, plans, minted) && SameIdentity(rows[s], AppliedAll(rows, plans, minted)[s])
    ensures s in AppliedAll(rows, plans, minted) ==> s in rows || s in minted.Values
  {
    hide FirstRun, RewriteText, PlanOf, Mergeable, RowAfter, SameIdentity, Target, Lists;
    if Untouched(plans, minted, s) {
      UntouchedRow(rows, plans, minted, s);
      assert s in rows ==> SameIdentity(rows[s], rows[s]) by { SameRow(RowOf(rows, s)); }
    } else {
      var i :| 0 <= i < |plans| && Target(plans[i], minted) == Some(s);
      TargetIsOwnRow(rows, batch, records, dests, binds, minted, plans, i);
      RowAfterRun(rows, batch, records, dests, binds, minted, plans, i);
      MintedApart(rows, batch, dests, binds, minted, records[i].localId);
      if s in rows { UpdateLands(rows, dests, binds, minted, records[i]); }
    }
  }

  lemma SameRow(row: Row)
    ensures SameIdentity(row, row)
  {
  }

  lemma UpdateLands(rows: Rows, dests: Names, binds: Names, minted: Minted, r: Record)
    requires Mergeable(rows, binds, r) && r.localId in dests && !PlanOf(rows, binds, dests[r.localId], r).Create?
    ensures binds[r.localId] in rows
    ensures SameIdentity(rows[binds[r.localId]], RowAfter(rows[binds[r.localId]], PlanOf(rows, binds, dests[r.localId], r), minted))
  {
    hide SameIdentity, Changes, Clashes, RewriteRow;
    var row := rows[binds[r.localId]];
    ResolvedKeepsKeys(r.values, binds);
    UpdateKeepsIdentity(row, PriorOf(row).value, ResolvedRow(r.values, binds), r.append, minted);
    SameRow(row);
  }

  /** A created row's baseline holds what its record supplied. */
  lemma CreatedSaves(rows: Rows, batch: Batch, records: seq<Record>, dests: Names, binds: Names, minted: Minted, plans: seq<Plan>, i: nat)
    requires FirstRun(rows, batch, dests, binds, minted) && Lists(batch, records) && RanAs(rows, records, dests, binds, plans)
    requires i < |records| && records[i].localId in minted
    ensures ResolvableRow(records[i].values, binds)
    ensures PriorOf(RowAfter(map[], plans[i], minted)) == Ok(Some(RewriteRow(ResolvedRow(records[i].values, binds), minted)))
  {
    hide FirstRun, RewriteText, RowAfter, CreatedIdentity, CreateRow, PriorOf, RewriteRow;
    TargetIsOwnRow(rows, batch, records, dests, binds, minted, plans, i);
    ResolvedKeepsKeys(records[i].values, binds);
    CreatedRowIdentity(dests[records[i].localId], records[i], ResolvedRow(records[i].values, binds), minted);
  }

  lemma CreatedLands(rows: Rows, batch: Batch, records: seq<Record>, dests: Names, binds: Names, minted: Minted, plans: seq<Plan>, i: nat)
    requires FirstRun(rows, batch, dests, binds, minted) && Lists(batch, records) && RanAs(rows, records, dests, binds, plans)
    requires PlainSources(batch, minted) && i < |records| && records[i].localId in minted
    ensures CreatedIdentity(RowAfter(map[], plans[i], minted), RewriteText(dests[records[i].localId], minted), records[i])
  {
    hide FirstRun, RewriteText, RowAfter, CreatedIdentity, CreateRow, PriorOf, RewriteRow;
    TargetIsOwnRow(rows, batch, records, dests, binds, minted, plans, i);
    ResolvedKeepsKeys(records[i].values, binds);
    CreatedRowIdentity(dests[records[i].localId], records[i], ResolvedRow(records[i].values, binds), minted);
  }

  // ---- The second run ------------------------------------------------------------------------

  /** What the second run plans for a record, given what the first planned: nothing for what was written,
      and the same conflict with its references rewritten. */
  function Again(plan: Plan, minted: Minted): Plan {
    match plan
    case Create(id, _, _, _) => Unchanged(if id in minted then minted[id] else LocalName(id))
    case Update(s, _) => Unchanged(s)
    case Unchanged(s) => Unchanged(s)
    case Conflict(s, clashes) => Conflict(s, RewriteClashes(clashes, minted))
  }

  lemma BaselineWritten(row: Row, prior: Option<Row>, values: Row, append: bool, minted: Minted)
    requires NoReserved(values) && prior != Some(NextBaseline(prior, values))
    ensures PriorOf(row + RewriteRow(Changes(row, prior, values, append), minted))
         == Ok(Some(RewriteRow(NextBaseline(prior, values), minted)))
  {
    hide Rewrite, Taken, NextBaseline;
    var next, previous := NextBaseline(prior, values), prior.GetOr(map[]);
    RewrittenBaseline(next, previous, minted);
    var set_ := Changes(row, prior, values, append);
    assert BASELINE in set_ && set_[BASELINE] == BaselineValue(next, previous);
    var row' := row + RewriteRow(set_, minted);
    PriorOfBaseline(row', RewriteRow(next, minted), RewriteRow(previous, minted));
  }

  /** A record merged into the row its own plan left. */
  lemma MergeAgain(s: Subject, row: Row, values: Row, append: bool, minted: Minted)
    requires PriorOf(row).Ok? && CleanAt(row, values, minted) && CleanSaved(row, minted) && NoReserved(values)
    ensures var plan := MergeInto(s, row, PriorOf(row).value, values, append);
            var row' := RowAfter(row, plan, minted);
            && PriorOf(row').Ok?
            && MergeInto(s, row', PriorOf(row').value, RewriteRow(values, minted), append) == Again(plan, minted)
  {
    hide Taken, Clashes, CleanRow, CleanAt, RewriteClashes, BaselineValue, PriorOf;
    var prior := PriorOf(row).value;
    var plan := MergeInto(s, row, prior, values, append);
    var next := NextBaseline(prior, values);
    var row' := RowAfter(row, plan, minted);
    var values' := RewriteRow(values, minted);
    if plan.Conflict? {
      ConflictAgain(s, row, prior, values, append, minted);
    } else if prior != Some(next) {
      BaselineWritten(row, prior, values, append, minted);
      AgreedBaselineUnchanged(s, row', RewriteRow(next, minted), values', append);
    } else {
      assert CleanRow(values, minted) by { AgreedClean(next, values, minted); }
      CleanStays(values, minted);
      BaselineKept(row, prior, values, append, minted);
      SamePrior(row, row');
      AgreedBaselineUnchanged(s, row', next, values, append);
    }
  }

  lemma AgreedClean(saved: Row, values: Row, minted: Minted)
    requires CleanRow(saved, minted) && saved == saved + values
    ensures CleanRow(values, minted)
  {
    hide Clean;
    forall p | p in values ensures Clean(values[p], minted) { assert (saved + values)[p] == values[p]; }
  }

  lemma BaselineKept(row: Row, prior: Option<Row>, values: Row, append: bool, minted: Minted)
    requires prior == Some(NextBaseline(prior, values)) && NoReserved(values)
    ensures Get(row + RewriteRow(Changes(row, prior, values, append), minted), BASELINE) == Get(row, BASELINE)
  {
    hide Rewrite, VerdictOn;
    assert BASELINE in RESERVED && BASELINE !in values;
  }

  /** The rows a batch is bound to hold no local name and no minted subject where the record has something to
      say, and none among their saved values. */
  predicate CleanBound(rows: Rows, records: seq<Record>, binds: Names, minted: Minted) {
    forall i | 0 <= i < |records| ::
      var id := records[i].localId;
      id in binds && binds[id] in rows ==>
        CleanAt(rows[binds[id]], records[i].values, minted) && CleanSaved(rows[binds[id]], minted)
  }

  lemma ResolvedCleanAt(row: Row, values: Row, binds: Names, minted: Minted)
    requires CleanAt(row, values, minted) && ResolvableRow(values, binds)
    ensures CleanAt(row, ResolvedRow(values, binds), minted)
  {
  }

  /** The second plan of one record. */
  lemma PlanAgain(rows: Rows, batch: Batch, records: seq<Record>, dests: Names, binds: Names, minted: Minted, plans: seq<Plan>, i: nat)
    requires FirstRun(rows, batch, dests, binds, minted) && Lists(batch, records) && RanAs(rows, records, dests, binds, plans)
    requires PlainSources(batch, minted) && CleanBound(rows, records, binds, minted) && i < |records|
    ensures var rows', binds' := AppliedAll(rows, plans, minted), Rewritten(binds, minted);
            && Mergeable(rows', binds', records[i])
            && PlanOf(rows', binds', RewriteText(dests[records[i].localId], minted), records[i]) == Again(plans[i], minted)
  {
    hide FirstRun, RowAfter, MergeInto, RewriteText, PriorOf, Rewrite, Resolvable, NoReserved, Lists, PlainSources, CleanAt, CleanSaved;
    var r := records[i];
    var id := r.localId;
    OneKeySet(rows, batch, dests, binds, minted);
    OwnRowNotLocal(rows, batch, dests, binds, minted, records, i);
    RowAfterRun(rows, batch, records, dests, binds, minted, plans, i);
    RewriteResolvedRow(r.values, binds, Rewritten(binds, minted), minted);
    TargetIsOwnRow(rows, batch, records, dests, binds, minted, plans, i);
    if id in minted {
      CreatedSaves(rows, batch, records, dests, binds, minted, plans, i);
      var values' := RewriteRow(ResolvedRow(r.values, binds), minted);
      AgreedBaselineUnchanged(minted[id], RowAfter(map[], plans[i], minted), values', values', r.append);
    } else {
      ResolvedCleanAt(rows[binds[id]], r.values, binds, minted);
      ResolvedKeepsKeys(r.values, binds);
      MergeAgain(binds[id], rows[binds[id]], ResolvedRow(r.values, binds), r.append, minted);
    }
  }

  lemma OwnRowNotLocal(rows: Rows, batch: Batch, dests: Names, binds: Names, minted: Minted, records: seq<Record>, i: nat)
    requires FirstRun(rows, batch, dests, binds, minted) && Lists(batch, records) && i < |records|
    ensures records[i].localId in batch && !IsLocal(RewriteText(binds[records[i].localId], minted))
    ensures IsLocal(binds[records[i].localId]) <==> records[i].localId in minted
  {
    hide BindsCleanly, BindingAt, Matches;
    var id := records[i].localId;
    LocalNames(rows, batch, dests, binds, minted, id);
  }

  /** The host mints subjects for exactly the created records of a run, and all of them are new to it. */
  ghost predicate Mints(rows: Rows, records: seq<Record>, minted: Minted)
    requires Importable(rows, records)
  {
    var batch := BatchOf(records);
    FreshFor(rows, batch, DestsOf(rows, batch), BindingsOf(rows, batch), minted)
  }

  lemma ListsOf(records: seq<Record>)
    requires DistinctLocalIds(records)
    ensures Lists(BatchOf(records), records) && OwnIds(BatchOf(records))
  {
    hide DistinctLocalIds, BatchOf;
    BatchOfRecords(records);
    forall id | id in BatchOf(records) ensures exists i :: 0 <= i < |records| && records[i].localId == id {
      var i :| 0 <= i < |records| && records[i] == BatchOf(records)[id];
    }
  }

  lemma SoundIsClean(rows: Rows, batch: Batch)
    requires Sound(rows, batch) && AllLeave(batch)
    ensures CleanBatch(rows, batch, DestsOf(rows, batch))
  {
    hide BindsCleanly, IdentityOf, Dest, Leaves;
    assert forall id :: id in batch ==> Leaves(batch, id);
  }

  lemma RanOf(rows: Rows, records: seq<Record>)
    requires Importable(rows, records)
    ensures RanAs(rows, records, DestsOf(rows, BatchOf(records)), BindingsOf(rows, BatchOf(records)), Plans(rows, records))
  {
    hide Sound, PlanOf, Mergeable, Dest, Bind, DistinctLocalIds, BatchOf, Leaves;
    BatchOfRecords(records);
  }

  lemma FirstRunOf(rows: Rows, records: seq<Record>, minted: Minted)
    requires Importable(rows, records) && Mints(rows, records, minted)
    ensures var batch := BatchOf(records);
            && FirstRun(rows, batch, DestsOf(rows, batch), BindingsOf(rows, batch), minted) && Lists(batch, records)
            && RanAs(rows, records, DestsOf(rows, batch), BindingsOf(rows, batch), Plans(rows, records))
  {
    hide PlanOf, Mergeable, Sound, Dest, Bind, DistinctLocalIds, BatchOf, Leaves, FreshFor, CleanBatch, Settled, Lists, OwnIds, RanAs;
    ListsOf(records);
    SoundIsClean(rows, BatchOf(records));
    BoundIsSettled(rows, BatchOf(records));
    RanOf(rows, records);
  }

  /** Importing is idempotent: with the first run's plans applied and nothing edited since, the second run
      of the same records ends, plans no create and no update, and reports exactly the conflicts of the
      first run. */
  lemma ImportIsIdempotent(rows: Rows, records: seq<Record>, minted: Minted)
    requires Importable(rows, records) && Mints(rows, records, minted)
    requires PlainSources(BatchOf(records), minted) && CleanBound(rows, records, BindingsOf(rows, BatchOf(records)), minted)
    ensures var rows' := AppliedAll(rows, Plans(rows, records), minted);
            && Importable(rows', records)
            && (forall i | 0 <= i < |records| :: Plans(rows', records)[i] == Again(Plans(rows, records)[i], minted))
  {
    hide FirstRun, PlanOf, Mergeable, CleanBatch, Settled, Bind, Dest, Leaves, BatchOf, RewriteText, Again, Sound, CleanBound, PlainSources;
    var batch, plans := BatchOf(records), Plans(rows, records);
    var dests, binds := DestsOf(rows, batch), BindingsOf(rows, batch);
    var rows', dests', binds' := AppliedAll(rows, plans, minted), Rewritten(dests, minted), Rewritten(binds, minted);
    FirstRunOf(rows, records, minted);
    RunLands(rows, batch, records, dests, binds, minted, plans);
    BoundAgain(rows, rows', batch, dests, binds, minted);
    SettledIsBound(rows', batch, dests', binds');
    SoundAgain(rows, rows', records, dests');
    forall i | 0 <= i < |records|
      ensures Mergeable(rows', binds', records[i]) && PlanOf(rows', binds', dests'[records[i].localId], records[i]) == Again(plans[i], minted)
    {
      PlanAgain(rows, batch, records, dests, binds, minted, plans, i);
    }
  }

  lemma SoundAgain(rows: Rows, rows': Rows, records: seq<Record>, dests': Names)
    requires Importable(rows, records) && CleanBatch(rows', BatchOf(records), dests')
    requires forall id :: id in BatchOf(records) ==> dests'[id] == Dest(rows', BatchOf(records), id)
    ensures Sound(rows', BatchOf(records))
  {
    hide BindsCleanly, IdentityOf, Dest, Leaves, Mergeable;
  }
}
