/** Merging one batch (`integrations/localthought/plugin.js`): each record's source values against the
    row it is bound to and the baseline saved by the last import. */
module ImportMerge {
  import opened Basics
  import opened ImportRecords

  // ---- Resolving references -----------------------------------------------------------------

  predicate Resolvable(v: Value, bindings: map<LocalId, string>) {
    match v
    case Str(s) => IsLocal(s) ==> s[|LOCAL|..] in bindings
    case Arr(items) => forall i | 0 <= i < |items| :: Resolvable(items[i], bindings)
    case Obj(fields) => forall k | k in fields :: Resolvable(fields[k], bindings)
    case _ => true
  }

  function Resolved(v: Value, bindings: map<LocalId, string>): Value
    requires Resolvable(v, bindings)
  {
    match v
    case Str(s) => if IsLocal(s) then Str(bindings[s[|LOCAL|..]]) else v
    case Arr(items) => Arr(seq(|items|, i requires 0 <= i < |items| => Resolved(items[i], bindings)))
    case Obj(fields) => Obj(map k | k in fields :: Resolved(fields[k], bindings))
    case _ => v
  }

  predicate ResolvableRow(row: Row, bindings: map<LocalId, string>) {
    forall p | p in row :: Resolvable(row[p], bindings)
  }

  function ResolvedRow(row: Row, bindings: map<LocalId, string>): Row
    requires ResolvableRow(row, bindings)
  {
    map p | p in row :: Resolved(row[p], bindings)
  }

  datatype Key = Index(i: nat) | Field(k: string)

  /** The value a path leads to inside another. */
  function Inside(v: Value, path: seq<Key>): Option<Value>
    decreases |path|
  {
    if path == [] then Some(v)
    else match (v, path[0])
      case (Arr(items), Index(i)) => if i < |items| then Inside(items[i], path[1..]) else None
      case (Obj(fields), Field(k)) => if k in fields then Inside(fields[k], path[1..]) else None
      case _ => None
  }

  /** One node was turned into another: text into this text, anything else into its like. */
  predicate Became(u: Value, w: Value, text: string) {
    match (u, w)
    case (Str(_), Str(t)) => t == text
    case (Arr(x), Arr(y)) => |x| == |y|
    case (Obj(x), Obj(y)) => x.Keys == y.Keys
    case _ => u == w && !u.Str?
  }

  /** Resolving replaces exactly the texts that name a local record, at any depth, by what the record is bound
      to; every other node stays what and where it is. */
  lemma {:induction false} ResolvedInside(v: Value, bindings: map<LocalId, string>, path: seq<Key>)
    requires Resolvable(v, bindings)
    ensures match (Inside(v, path), Inside(Resolved(v, bindings), path))
            case (Some(Str(s)), Some(w)) =>
              if "local:" <= s then s[6..] in bindings && w == Str(bindings[s[6..]]) else w == Str(s)
            case (Some(u), Some(w)) => Became(u, w, "")
            case (None, None) => true
            case _ => false
    decreases |path|
  {
    if path != [] {
      match (v, path[0])
      case (Arr(items), Index(i)) => if i < |items| { ResolvedInside(items[i], bindings, path[1..]); }
      case (Obj(fields), Field(k)) => if k in fields { ResolvedInside(fields[k], bindings, path[1..]); }
      case _ =>
    }
  }

  // ---- The saved baseline -------------------------------------------------------------------

  /** The saved source values: none when there is no baseline, an error when it is malformed. */
  function PriorOf(row: Row): Result<Option<Row>, ImportError> {
    if BASELINE !in row || Falsy(row[BASELINE]) then Ok(None)
    else
      var v := row[BASELINE];
      if v.Obj? && "values" in v.fields && v.fields["values"].Obj? then Ok(Some(v.fields["values"].fields))
      else Err(InvalidBaseline)
  }

  function BaselineValue(values: Row, previous: Row): Value {
    Obj(map["values" := Obj(values), "previous" := Obj(previous)])
  }

  lemma PriorOfBaseline(row: Row, values: Row, previous: Row)
    requires BASELINE in row && row[BASELINE] == BaselineValue(values, previous)
    ensures PriorOf(row) == Ok(Some(values))
    ensures row[BASELINE].Obj? && "previous" in row[BASELINE].fields && row[BASELINE].fields["previous"] == Obj(previous)
  {
    assert "values" != "previous" by { assert |"values"| == 6 && |"previous"| == 8; }
  }

  // ---- One property -------------------------------------------------------------------------

  datatype Verdict = Keep | Take | Clash

  /** The saved source value of a property. */
  function Saved(prior: Option<Row>, p: Property): Option<Value> {
    if prior.Some? then Get(prior.value, p) else None
  }

  function Judge(prior: Option<Row>, current: Option<Value>, p: Property, incoming: Value, append: bool): Verdict {
    var saved := Saved(prior, p);
    var changedAppendSource := prior.Some? && append && saved != Some(incoming);
    if current == Some(incoming) && !changedAppendSource then Keep
    else if prior.None? || changedAppendSource || (current != saved && Some(incoming) != saved) then Clash
    else if Some(incoming) == saved then Keep
    else Take
  }

  // ---- One record ---------------------------------------------------------------------------

  datatype ClashInfo = ClashInfo(source: Value, current: Option<Value>, previous: Option<Value>, appendOnly: bool, adoption: bool)

  datatype Plan =
    | Create(localId: LocalId, parent: string, isA: seq<string>, row: Row)
    | Update(subject: Subject, row: Row)
    | Unchanged(subject: Subject)
    | Conflict(subject: Subject, clashes: map<Property, ClashInfo>)

  function VerdictOn(row: Row, prior: Option<Row>, values: Row, append: bool, p: Property): Verdict
    requires p in values
  {
    Judge(prior, Get(row, p), p, values[p], append)
  }

  function ClashOn(row: Row, prior: Option<Row>, values: Row, append: bool, p: Property): ClashInfo
    requires p in values
  {
    ClashInfo(values[p], Get(row, p), Saved(prior, p), append, prior.None?)
  }

  function Clashes(row: Row, prior: Option<Row>, values: Row, append: bool): map<Property, ClashInfo> {
    map p | p in values && VerdictOn(row, prior, values, append, p) == Clash :: ClashOn(row, prior, values, append, p)
  }

  function Taken(row: Row, prior: Option<Row>, values: Row, append: bool): Row {
    map p | p in values && VerdictOn(row, prior, values, append, p) == Take :: values[p]
  }

  function NextBaseline(prior: Option<Row>, values: Row): Row {
    prior.GetOr(map[]) + values
  }

  /** What a record's row is set to when nothing clashes. */
  function Changes(row: Row, prior: Option<Row>, values: Row, append: bool): Row {
    var next := NextBaseline(prior, values);
    if prior == Some(next) then Taken(row, prior, values, append)
    else Taken(row, prior, values, append)[BASELINE := BaselineValue(next, prior.GetOr(map[]))]
  }

  function MergeInto(subject: Subject, row: Row, prior: Option<Row>, values: Row, append: bool): Plan {
    if Clashes(row, prior, values, append) != map[] then Conflict(subject, Clashes(row, prior, values, append))
    else
      var set_ := Changes(row, prior, values, append);
      if set_ == map[] then Unchanged(subject) else Update(subject, set_)
  }

  function CreateRow(r: Record, values: Row): Row {
    values + map[LOCAL_ID := Str(r.sourceId), BASELINE := BaselineValue(values, map[])]
  }

  predicate NoReserved(values: Row) {
    forall p | p in values :: p !in RESERVED
  }

  /** The record passes every check of the merging loop. */
  predicate Mergeable(rows: Rows, bindings: map<LocalId, string>, r: Record) {
    && NoReserved(r.values) && ResolvableRow(r.values, bindings)
    && r.localId in bindings
    && (!IsLocal(bindings[r.localId]) ==>
          bindings[r.localId] in rows && PriorOf(rows[bindings[r.localId]]).Ok?)
  }

  function PlanOf(rows: Rows, bindings: map<LocalId, string>, dest: string, r: Record): Plan
    requires Mergeable(rows, bindings, r)
  {
    var values := ResolvedRow(r.values, bindings);
    var subject := bindings[r.localId];
    if IsLocal(subject) then Create(r.localId, dest, r.isA, CreateRow(r, values))
    else MergeInto(subject, rows[subject], PriorOf(rows[subject]).value, values, r.append)
  }

  // ---- What a merge means -------------------------------------------------------------------

  /** Source and row disagree beyond repair on a property: without a baseline, when the row does not hold
      the incoming value already; appending to one, when the source changed; and otherwise when source and
      row both changed, to different values. */
  predicate Disputed(row: Row, prior: Option<Row>, values: Row, append: bool, p: Property)
    requires p in values
  {
    match prior
    case None => Get(row, p) != Some(values[p])
    case Some(saved) =>
      if append then Get(saved, p) != Some(values[p])
      else Get(row, p) != Some(values[p]) && Get(row, p) != Get(saved, p) && Get(saved, p) != Some(values[p])
  }

  /** A merge conflicts exactly when some property is disputed, and reports exactly the disputed ones, each
      with its three values. */
  lemma ConflictMeans(subject: Subject, row: Row, prior: Option<Row>, values: Row, append: bool)
    ensures var plan := MergeInto(subject, row, prior, values, append);
            && plan.subject == subject
            && (plan.Conflict? <==> exists p :: p in values && Disputed(row, prior, values, append, p))
            && (plan.Conflict? ==> forall p :: p in plan.clashes <==> p in values && Disputed(row, prior, values, append, p))
            && (plan.Conflict? ==> forall p :: p in plan.clashes ==>
                  plan.clashes[p] == ClashInfo(values[p], Get(row, p), if prior.Some? then Get(prior.value, p) else None, append, prior.None?))
  {
    hide VerdictOn, Changes, Disputed;
    forall p | p in values ensures VerdictOn(row, prior, values, append, p) == Clash <==> Disputed(row, prior, values, append, p) {
      ClashIsDispute(row, prior, values, append, p);
    }
    var clashes := Clashes(row, prior, values, append);
    if exists p :: p in values && Disputed(row, prior, values, append, p) {
      var p :| p in values && Disputed(row, prior, values, append, p);
      assert p in clashes;
    }
    if clashes != map[] { var p :| p in clashes; }
  }

  lemma ClashIsDispute(row: Row, prior: Option<Row>, values: Row, append: bool, p: Property)
    requires p in values
    ensures VerdictOn(row, prior, values, append, p) == Clash <==> Disputed(row, prior, values, append, p)
    ensures VerdictOn(row, prior, values, append, p) == Take <==>
            prior.Some? && !Disputed(row, prior, values, append, p) && Get(row, p) != Some(values[p]) && Get(row, p) == Get(prior.value, p)
  {
  }

  /** The row once a plan to change it is carried out. */
  function Merged(row: Row, plan: Plan): Row {
    if plan.Update? then row + plan.row else row
  }

  /** Without a conflict, an unedited property holds the incoming value after the merge and an edited one is
      left alone; the saved values are the old ones overridden by the incoming ones, and the old ones are kept
      as the previous; what is written always differs from what was there, and nothing is written only when
      nothing would change. */
  lemma MergeMeans(subject: Subject, row: Row, prior: Option<Row>, values: Row, append: bool)
    requires PriorOf(row) == Ok(prior) && NoReserved(values)
    ensures var plan := MergeInto(subject, row, prior, values, append);
            var row' := Merged(row, plan);
            !plan.Conflict? ==>
              && (forall p :: p != BASELINE ==>
                    Get(row', p) == if p in values && (Get(row, p) == if prior.Some? then Get(prior.value, p) else None)
                                    then Some(values[p]) else Get(row, p))
              && PriorOf(row') == Ok(Some(prior.GetOr(map[]) + values))
              && (plan.Update? ==> forall p :: p in plan.row ==> Get(row, p) != Some(plan.row[p]))
              && (plan.Update? && BASELINE in plan.row ==>
                    && plan.row[BASELINE].Obj? && "previous" in plan.row[BASELINE].fields
                    && plan.row[BASELINE].fields["previous"] == Obj(prior.GetOr(map[])))
              && (plan.Unchanged? <==> row' == row)
  {
    hide VerdictOn, Disputed, BaselineValue, PriorOf, Changes, NoReserved;
    ConflictMeans(subject, row, prior, values, append);
    if !MergeInto(subject, row, prior, values, append).Conflict? {
      MergedProperties(subject, row, prior, values, append);
      var set_, next := Changes(row, prior, values, append), NextBaseline(prior, values);
      var row' := Merged(row, MergeInto(subject, row, prior, values, append));
      ChangesMean(row, prior, values, append);
      assert row' == row + set_ by { assert row + map[] == row; }
      if prior == Some(next) {
        SamePrior(row, row');
      } else {
        PriorOfBaseline(row', next, prior.GetOr(map[]));
        if Get(row, BASELINE) == Some(set_[BASELINE]) { PriorOfBaseline(row, next, prior.GetOr(map[])); }
      }
      if set_ != map[] {
        var p :| p in set_;
        assert row'[p] == set_[p];
      }
    }
  }

  lemma MergedProperties(subject: Subject, row: Row, prior: Option<Row>, values: Row, append: bool)
    requires NoReserved(values) && !MergeInto(subject, row, prior, values, append).Conflict?
    ensures var row' := Merged(row, MergeInto(subject, row, prior, values, append));
            forall p :: p != BASELINE ==>
              Get(row', p) == if p in values && (Get(row, p) == if prior.Some? then Get(prior.value, p) else None)
                              then Some(values[p]) else Get(row, p)
  {
    hide VerdictOn, Disputed, BaselineValue, Changes, NoReserved;
    ConflictMeans(subject, row, prior, values, append);
    ChangesMean(row, prior, values, append);
    assert Merged(row, MergeInto(subject, row, prior, values, append)) == row + Changes(row, prior, values, append) by {
      assert row + map[] == row;
    }
  }

  lemma MergeIntoIs(subject: Subject, row: Row, prior: Option<Row>, values: Row, append: bool)
    ensures MergeInto(subject, row, prior, values, append) ==
            if Clashes(row, prior, values, append) != map[] then Conflict(subject, Clashes(row, prior, values, append))
            else if Changes(row, prior, values, append) == map[] then Unchanged(subject)
            else Update(subject, Changes(row, prior, values, append))
  {
  }

  /** With no dispute, a merge sets the unedited properties the source changed, and the baseline unless it
      already says what the source does. */
  lemma ChangesMean(row: Row, prior: Option<Row>, values: Row, append: bool)
    requires NoReserved(values) && forall p :: p in values ==> !Disputed(row, prior, values, append, p)
    ensures var set_, next := Changes(row, prior, values, append), NextBaseline(prior, values);
            && (BASELINE in set_ <==> prior != Some(next))
            && (BASELINE in set_ ==> set_[BASELINE] == BaselineValue(next, prior.GetOr(map[])))
            && (forall p :: p in values && prior.None? ==> Get(row, p) == Some(values[p]))
            && forall p :: p != BASELINE ==>
                 && (p in set_ <==> p in values && prior.Some? && Get(row, p) != Some(values[p]) && Get(row, p) == Get(prior.value, p))
                 && (p in set_ ==> set_[p] == values[p])
  {
    hide VerdictOn, Disputed, BaselineValue;
    assert BASELINE !in values;
    forall p | p in values
      ensures VerdictOn(row, prior, values, append, p) == Take <==>
              prior.Some? && Get(row, p) != Some(values[p]) && Get(row, p) == Get(prior.value, p)
      ensures prior.None? ==> Get(row, p) == Some(values[p])
    {
      ClashIsDispute(row, prior, values, append, p);
      if prior.None? { Undisputed(row, values, append, p); }
    }
  }

  lemma Undisputed(row: Row, values: Row, append: bool, p: Property)
    requires p in values && !Disputed(row, None, values, append, p)
    ensures Get(row, p) == Some(values[p])
  {
  }

  lemma SamePrior(row: Row, row': Row)
    requires Get(row', BASELINE) == Get(row, BASELINE)
    ensures PriorOf(row') == PriorOf(row)
  {
  }

  // ---- The merging loop over one record's properties ----------------------------------------

  /** The loop over the incoming properties of a record bound to an existing row. */
  method MergeRecord(subject: Subject, row: Row, prior: Option<Row>, values: Row, append: bool) returns (plan: Plan)
    requires NoReserved(values)
    ensures plan == MergeInto(subject, row, prior, values, append)
    ensures plan.Conflict? <==> exists p :: p in values && Disputed(row, prior, values, append, p)
    ensures plan.Conflict? ==> forall p :: p in plan.clashes <==> p in values && Disputed(row, prior, values, append, p)
    ensures !plan.Conflict? ==> forall p :: p != BASELINE ==>
              Get(Merged(row, plan), p) == if p in values && (Get(row, p) == if prior.Some? then Get(prior.value, p) else None)
                                           then Some(values[p]) else Get(row, p)
  {
    hide VerdictOn, ClashOn, Disputed, Merged, MergeInto;
    ConflictMeans(subject, row, prior, values, append);
    if !MergeInto(subject, row, prior, values, append).Conflict? { MergedProperties(subject, row, prior, values, append); }
    var set_: Row := map[];
    var clashes: map<Property, ClashInfo> := map[];
    var todo := values.Keys;
    while todo != {}
      invariant todo <= values.Keys
      invariant forall p :: p in clashes <==> p in values && p !in todo && VerdictOn(row, prior, values, append, p) == Clash
      invariant forall p :: p in clashes ==> clashes[p] == ClashOn(row, prior, values, append, p)
      invariant forall p :: p in set_ <==> p in values && p !in todo && VerdictOn(row, prior, values, append, p) == Take
      invariant forall p :: p in set_ ==> set_[p] == values[p]
      decreases todo
    {
      var p :| p in todo;
      match VerdictOn(row, prior, values, append, p) {
        case Clash => clashes := clashes[p := ClashOn(row, prior, values, append, p)];
        case Take => set_ := set_[p := values[p]];
        case Keep =>
      }
      todo := todo - {p};
    }
    assert clashes == Clashes(row, prior, values, append);
    assert set_ == Taken(row, prior, values, append);
    MergeIntoIs(subject, row, prior, values, append);
    if clashes != map[] { return Conflict(subject, clashes); }
    var next := NextBaseline(prior, values);
    if prior != Some(next) {
      set_ := set_[BASELINE := BaselineValue(next, prior.GetOr(map[]))];
    }
    return if set_ == map[] then Unchanged(subject) else Update(subject, set_);
  }

  // ---- The whole run ------------------------------------------------------------------------

  ghost function BindingsOf(rows: Rows, batch: Batch): map<LocalId, string>
    requires AllLeave(batch)
  {
    map id | id in batch :: Bind(rows, batch, id)
  }

  /** An import of these records over these rows runs to the end. */
  ghost predicate Importable(rows: Rows, records: seq<Record>) {
    && DistinctLocalIds(records)
    && Sound(rows, BatchOf(records)) && AllLeave(BatchOf(records))
    && forall r :: r in records ==> Mergeable(rows, BindingsOf(rows, BatchOf(records)), r)
  }

  ghost function PlanFor(rows: Rows, records: seq<Record>, r: Record): Plan
    requires Importable(rows, records) && r in records
  {
    BatchOfRecords(records);
    PlanOf(rows, BindingsOf(rows, BatchOf(records)), Dest(rows, BatchOf(records), r.localId), r)
  }

  /** The plan for each record, in order. */
  ghost function Plans(rows: Rows, records: seq<Record>): (r: seq<Plan>)
    requires Importable(rows, records)
    ensures |r| == |records|
    ensures forall i :: 0 <= i < |records| ==> r[i] == PlanFor(rows, records, records[i])
  {
    seq(|records|, i requires 0 <= i < |records| => PlanFor(rows, records, records[i]))
  }

  function Count(plans: seq<Plan>, pick: Plan -> bool): nat {
    if plans == [] then 0 else Count(plans[..|plans| - 1], pick) + if pick(plans[|plans| - 1]) then 1 else 0
  }

  datatype Outcome =
    | Done(plans: seq<Plan>, created: nat, updated: nat, same: nat)
    | Collision(subjects: set<Subject>)
    | Threw(error: ImportError)

  ghost predicate Tallied(plans: seq<Plan>, created: nat, updated: nat, same: nat) {
    && created == Count(plans, (p: Plan) => p.Create?) && updated == Count(plans, (p: Plan) => p.Update?)
    && same == Count(plans, (p: Plan) => p.Unchanged?)
    && created + updated + same + Count(plans, (p: Plan) => p.Conflict?) == |plans|
  }

  lemma TalliedNone()
    ensures Tallied([], 0, 0, 0)
  {
  }

  lemma TalliedOneMore(plans: seq<Plan>, plan: Plan, created: nat, updated: nat, same: nat)
    requires Tallied(plans, created, updated, same)
    ensures Tallied(plans + [plan], created + (if plan.Create? then 1 else 0), updated + (if plan.Update? then 1 else 0),
                    same + if plan.Unchanged? then 1 else 0)
  {
    assert (plans + [plan])[..|plans|] == plans;
  }

  /** The merging loop over the whole batch. */
  method MergeAll(rows: Rows, bindings: map<LocalId, string>, destinations: map<LocalId, string>, records: seq<Record>)
      returns (failed: Option<ImportError>, plans: seq<Plan>, created: nat, updated: nat, same: nat)
    requires forall r :: r in records ==> BoundInRows(rows, bindings, destinations, r)
    ensures failed.None? <==> forall r :: r in records ==> Mergeable(rows, bindings, r)
    ensures failed.None? ==> |plans| == |records| && Tallied(plans, created, updated, same)
    ensures failed.None? ==> forall j | 0 <= j < |records| ::
                               Mergeable(rows, bindings, records[j]) && records[j].localId in destinations
                               && plans[j] == PlanOf(rows, bindings, destinations[records[j].localId], records[j])
    ensures failed.Some? ==> failed.value in {ReservedKey, UnknownReference, InvalidBaseline}
  {
    hide Mergeable, PlanOf, Tallied;
    failed, plans, created, updated, same := None, [], 0, 0, 0;
    TalliedNone();
    var i := 0;
    while i < |records|
      invariant 0 <= i <= |records| && |plans| == i
      invariant forall j | 0 <= j < i ::
                  Mergeable(rows, bindings, records[j]) && records[j].localId in destinations
                  && plans[j] == PlanOf(rows, bindings, destinations[records[j].localId], records[j])
      invariant Tallied(plans, created, updated, same)
    {
      var r := records[i];
      assert BoundInRows(rows, bindings, destinations, r);
      var wrong, plan := MergeOne(rows, bindings, destinations[r.localId], r);
      if wrong.Some? {
        assert r in records;
        failed := wrong;
        return;
      }
      TalliedOneMore(plans, plan, created, updated, same);
      plans := plans + [plan];
      match plan {
        case Create(_, _, _, _) => created := created + 1;
        case Update(_, _) => updated := updated + 1;
        case Unchanged(_) => same := same + 1;
        case Conflict(_, _) =>
      }
      i := i + 1;
    }
  }

  /** The record is bound, to its own local name or to a row. */
  predicate BoundInRows(rows: Rows, bindings: map<LocalId, string>, destinations: map<LocalId, string>, r: Record) {
    && r.localId in bindings && r.localId in destinations
    && (IsLocal(bindings[r.localId]) || bindings[r.localId] in rows)
  }

  lemma BoundIsInRows(rows: Rows, batch: Batch, bindings: map<LocalId, string>, destinations: map<LocalId, string>, r: Record)
    requires r.localId in bindings && r.localId in destinations && r.localId in batch && batch[r.localId] == r
    requires BoundAs(rows, batch, r.localId, bindings[r.localId], destinations[r.localId])
    ensures BoundInRows(rows, bindings, destinations, r)
  {
    BindingInRows(rows, Dest(rows, batch, r.localId), r);
  }

  lemma BindingInRows(rows: Rows, dest: string, r: Record)
    ensures BindingAt(rows, dest, r) == LocalName(r.localId) || BindingAt(rows, dest, r) in Matches(rows, dest, r.sourceId)
  {
    hide HasIdentity;
  }

  /** `importRecords`: runs to the end exactly on an importable batch, with the plan of every record;
      every record is counted once, as created, updated, unchanged or in conflict; a collision or an
      error leaves no plans. */
  method RunImport(rows: Rows, records: seq<Record>) returns (o: Outcome)
    ensures o.Done? <==> Importable(rows, records)
    ensures o.Done? ==> o.plans == Plans(rows, records) && Tallied(o.plans, o.created, o.updated, o.same)
    ensures o == Threw(DuplicateLocalId) <==> !DistinctLocalIds(records)
    ensures DistinctLocalIds(records) && Sound(rows, BatchOf(records)) ==>
              (o == Threw(ParentCycle) <==> !AllLeave(BatchOf(records)))
  {
    hide Sound, DistinctLocalIds, BatchOf, BoundAs, TroubleIsReal, Mergeable, PlanOf, Leaves, Tallied, BoundInRows;
    BatchSize(records);
    if |BatchOf(records)| != |records| { return Threw(DuplicateLocalId); }
    var batch := BatchOf(records);
    BatchOfRecords(records);
    var bound := BindAll(rows, records);
    if bound.Stopped? {
      if bound.why.Ambiguous? {
        return Collision(bound.why.subjects);
      }
      StoppedErrors(rows, batch, bound.why);
      return Threw(bound.why.error);
    }
    var bindings, destinations := bound.of, bound.destinations;
    BoundBindings(rows, batch, bindings, destinations);
    forall r | r in records ensures BoundInRows(rows, bindings, destinations, r) {
      BoundIsInRows(rows, batch, bindings, destinations, r);
    }
    var failed, plans, created, updated, same := MergeAll(rows, bindings, destinations, records);
    if failed.Some? { return Threw(failed.value); }
    PlansAre(rows, records, bindings, destinations, plans);
    return Done(plans, created, updated, same);
  }

  lemma PlansAre(rows: Rows, records: seq<Record>, bindings: map<LocalId, string>, destinations: map<LocalId, string>, plans: seq<Plan>)
    requires Importable(rows, records) && |plans| == |records|
    requires bindings == BindingsOf(rows, BatchOf(records)) && destinations.Keys == bindings.Keys
    requires forall id :: id in bindings ==> BoundAs(rows, BatchOf(records), id, bindings[id], destinations[id])
    requires forall j | 0 <= j < |records| ::
               Mergeable(rows, bindings, records[j]) && records[j].localId in destinations
               && plans[j] == PlanOf(rows, bindings, destinations[records[j].localId], records[j])
    ensures plans == Plans(rows, records)
  {
    hide Sound, BoundAs, Mergeable, PlanOf, Leaves;
    forall j | 0 <= j < |records| ensures plans[j] == PlanFor(rows, records, records[j]) {
      BatchOfRecords(records);
      BoundDest(rows, BatchOf(records), bindings, destinations, records[j].localId);
    }
  }

  lemma BoundBindings(rows: Rows, batch: Batch, bindings: map<LocalId, string>, destinations: map<LocalId, string>)
    requires AllLeave(batch) && bindings.Keys == destinations.Keys == batch.Keys
    requires forall id :: id in bindings ==> BoundAs(rows, batch, id, bindings[id], destinations[id])
    ensures bindings == BindingsOf(rows, batch)
  {
    hide Bind, Dest, BindsCleanly;
  }

  lemma BoundDest(rows: Rows, batch: Batch, bindings: map<LocalId, string>, destinations: map<LocalId, string>, id: LocalId)
    requires id in bindings && id in destinations && BoundAs(rows, batch, id, bindings[id], destinations[id])
    ensures Leaves(batch, id) && destinations[id] == Dest(rows, batch, id)
  {
    hide Bind, Dest, BindsCleanly;
  }

  lemma StoppedErrors(rows: Rows, batch: Batch, why: Trouble)
    requires TroubleIsReal(rows, batch, why) && why.Fail?
    ensures why.error != DuplicateLocalId
    ensures why.error == ParentCycle ==> !AllLeave(batch)
  {
    hide Leaves, BindsCleanly, Dest;
  }

  /** The loop body of one record. */
  method MergeOne(rows: Rows, bindings: map<LocalId, string>, dest: string, r: Record) returns (failed: Option<ImportError>, plan: Plan)
    requires r.localId in bindings
    requires !IsLocal(bindings[r.localId]) ==> bindings[r.localId] in rows
    ensures failed.None? <==> Mergeable(rows, bindings, r)
    ensures failed.None? ==> plan == PlanOf(rows, bindings, dest, r)
    ensures failed.Some? ==> failed.value in {ReservedKey, UnknownReference, InvalidBaseline}
  {
    plan := Unchanged("");
    if !NoReserved(r.values) { return Some(ReservedKey), plan; }
    if !ResolvableRow(r.values, bindings) { return Some(UnknownReference), plan; }
    var values := ResolvedRow(r.values, bindings);
    var subject := bindings[r.localId];
    if IsLocal(subject) {
      return None, Create(r.localId, dest, r.isA, CreateRow(r, values));
    }
    var prior := PriorOf(rows[subject]);
    if prior.Err? { return Some(prior.error), plan; }
    plan := MergeRecord(subject, rows[subject], prior.value, values, r.append);
    failed := None;
  }

  lemma ReorderedBatch(records: seq<Record>, records': seq<Record>)
    requires multiset(records) == multiset(records') && DistinctLocalIds(records)
    ensures DistinctLocalIds(records') && BatchOf(records') == BatchOf(records)
    ensures forall r :: r in records <==> r in records'
  {
    hide DistinctLocalIds, BatchOf;
    BatchOfRecords(records);
    BatchOfRecords(records');
    BatchSize(records);
    BatchSize(records');
    assert forall r :: r in records <==> r in multiset(records);
    assert forall r :: r in records' <==> r in multiset(records');
    assert |records| == |multiset(records)| == |multiset(records')| == |records'|;
    assert BatchOf(records').Keys == BatchOf(records).Keys;
  }

  /** Reordering a batch changes neither whether it runs nor any record's plan: bindings do not depend on
      the order of the records. */
  lemma OrderIrrelevant(rows: Rows, records: seq<Record>, records': seq<Record>)
    requires multiset(records) == multiset(records') && DistinctLocalIds(records)
    ensures Importable(rows, records') <==> Importable(rows, records)
    ensures Importable(rows, records) ==> forall r :: r in records ==> r in records' && PlanFor(rows, records', r) == PlanFor(rows, records, r)
  {
    hide DistinctLocalIds, BatchOf, Sound, Mergeable, PlanOf, Leaves, Bind, Dest;
    ReorderedBatch(records, records');
  }
}
