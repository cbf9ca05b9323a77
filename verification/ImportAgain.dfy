/** Applying an import and importing again (`integrations/localthought/plugin.js`, with the host's
    rewriting of local references in `server/src/plugins/plan.rs`): the second run of the same records
    plans no write and meets exactly the conflicts of the first. */
module ImportAgain {
  import opened Basics
  import opened ImportRecords
  import opened ImportMerge

  // ---- Rewriting local references -----------------------------------------------------------

  /** The subjects the host minted for created records. */
  type Minted = map<LocalId, Subject>

  function RewriteText(s: string, minted: Minted): string {
    if IsLocal(s) && s[|LOCAL|..] in minted then minted[s[|LOCAL|..]] else s
  }

  /** `rewrite`: every string naming a minted record becomes its subject; object keys are kept. */
  function Rewrite(v: Value, minted: Minted): Value {
    match v
    case Str(s) => Str(RewriteText(s, minted))
    case Arr(items) => Arr(seq(|items|, i requires 0 <= i < |items| => Rewrite(items[i], minted)))
    case Obj(fields) => Obj(map k | k in fields :: Rewrite(fields[k], minted))
    case _ => v
  }

  function RewriteRow(row: Row, minted: Minted): Row {
    map p | p in row :: Rewrite(row[p], minted)
  }

  /** Rewriting replaces exactly the texts that name a minted record, at any depth, by its subject; every other
      node stays what and where it is. */
  lemma {:induction false} RewriteInside(v: Value, minted: Minted, path: seq<Key>)
    ensures match (Inside(v, path), Inside(Rewrite(v, minted), path))
            case (Some(Str(s)), Some(w)) =>
              w == Str(if "local:" <= s && s[6..] in minted then minted[s[6..]] else s)
            case (Some(u), Some(w)) => Became(u, w, "")
            case (None, None) => true
            case _ => false
    decreases |path|
  {
    if path != [] {
      match (v, path[0])
      case (Arr(items), Index(i)) => if i < |items| { RewriteInside(items[i], minted, path[1..]); }
      case (Obj(fields), Field(k)) => if k in fields { RewriteInside(fields[k], minted, path[1..]); }
      case _ =>
    }
  }

  /** The value names no local record and none of the minted subjects. */
  predicate Clean(v: Value, minted: Minted) {
    match v
    case Str(s) => !IsLocal(s) && s !in minted.Values
    case Arr(items) => forall i | 0 <= i < |items| :: Clean(items[i], minted)
    case Obj(fields) => forall k | k in fields :: Clean(fields[k], minted)
    case _ => true
  }

  predicate CleanRow(row: Row, minted: Minted) {
    forall p | p in row :: Clean(row[p], minted)
  }

  /** Only a clean value itself rewrites to a clean value. */
  lemma {:induction false} RewriteClean(v: Value, u: Value, minted: Minted)
    requires Clean(u, minted)
    ensures Rewrite(v, minted) == u <==> v == u
    decreases v, u
  {
    match v
    case Str(s) =>
    case Arr(items) =>
      if u.Arr? && |u.items| == |items| {
        forall i | 0 <= i < |items| ensures Rewrite(items[i], minted) == u.items[i] <==> items[i] == u.items[i] {
          RewriteClean(items[i], u.items[i], minted);
        }
        if Rewrite(v, minted) == u {
          forall i | 0 <= i < |items| ensures items[i] == u.items[i] {
            assert Rewrite(v, minted).items[i] == Rewrite(items[i], minted);
          }
          assert items == u.items;
        }
        if v == u { assert Rewrite(v, minted).items == u.items; }
      } else {
        assert |Rewrite(v, minted).items| == |items|;
      }
    case Obj(fields) =>
      if u.Obj? && u.fields.Keys == fields.Keys {
        forall k | k in fields ensures Rewrite(fields[k], minted) == u.fields[k] <==> fields[k] == u.fields[k] {
          RewriteClean(fields[k], u.fields[k], minted);
        }
        if Rewrite(v, minted) == u {
          forall k | k in fields ensures fields[k] == u.fields[k] {
            assert Rewrite(v, minted).fields[k] == Rewrite(fields[k], minted);
          }
          assert fields == u.fields;
        }
        if v == u { assert Rewrite(v, minted).fields == u.fields; }
      } else {
        assert Rewrite(v, minted).fields.Keys == fields.Keys;
      }
    case _ =>
  }

  /** Resolving against rewritten bindings is resolving, then rewriting. */
  lemma {:induction false} RewriteResolved(v: Value, binds: map<LocalId, string>, binds': map<LocalId, string>, minted: Minted)
    requires Resolvable(v, binds) && binds'.Keys == binds.Keys
    requires forall id :: id in binds ==> binds'[id] == RewriteText(binds[id], minted)
    ensures Resolvable(v, binds')
    ensures Resolved(v, binds') == Rewrite(Resolved(v, binds), minted)
    decreases v
  {
    match v
    case Str(s) =>
    case Arr(items) =>
      forall i | 0 <= i < |items| ensures Resolvable(items[i], binds') && Resolved(items[i], binds') == Rewrite(Resolved(items[i], binds), minted) {
        RewriteResolved(items[i], binds, binds', minted);
      }
      var inner := Resolved(v, binds).items;
      assert Resolved(v, binds').items == Rewrite(Arr(inner), minted).items;
    case Obj(fields) =>
      forall k | k in fields ensures Resolvable(fields[k], binds') && Resolved(fields[k], binds') == Rewrite(Resolved(fields[k], binds), minted) {
        RewriteResolved(fields[k], binds, binds', minted);
      }
      var inner := Resolved(v, binds).fields;
      assert Resolved(v, binds').fields == Rewrite(Obj(inner), minted).fields;
    case _ =>
  }

  lemma RewriteResolvedRow(values: Row, binds: map<LocalId, string>, binds': map<LocalId, string>, minted: Minted)
    requires ResolvableRow(values, binds) && binds'.Keys == binds.Keys
    requires forall id :: id in binds ==> binds'[id] == RewriteText(binds[id], minted)
    ensures ResolvableRow(values, binds')
    ensures ResolvedRow(values, binds') == RewriteRow(ResolvedRow(values, binds), minted)
  {
    forall p | p in values
      ensures Resolvable(values[p], binds') && Resolved(values[p], binds') == Rewrite(Resolved(values[p], binds), minted)
    {
      RewriteResolved(values[p], binds, binds', minted);
    }
  }

  // ---- Applying plans -----------------------------------------------------------------------

  function Target(plan: Plan, minted: Minted): Option<Subject> {
    match plan
    case Create(id, _, _, _) => if id in minted then Some(minted[id]) else None
    case Update(s, _) => Some(s)
    case _ => None
  }

  function Classes(isA: seq<string>): Value {
    Arr(seq(|isA|, i requires 0 <= i < |isA| => Str(isA[i])))
  }

  /** The row a plan leaves at its target. */
  function RowAfter(row: Row, plan: Plan, minted: Minted): Row {
    match plan
    case Create(_, parent, isA, set_) =>
      RewriteRow(set_, minted) + map[PARENT := Str(RewriteText(parent, minted)), IS_A := Classes(isA)]
    case Update(_, set_) => row + RewriteRow(set_, minted)
    case _ => row
  }

  function RowOf(rows: Rows, s: Subject): Row {
    if s in rows then rows[s] else map[]
  }

  function Applied(rows: Rows, plan: Plan, minted: Minted): Rows {
    var target := Target(plan, minted);
    if target.None? then rows else rows[target.value := RowAfter(RowOf(rows, target.value), plan, minted)]
  }

  /** The host after the planned writes, in order. */
  function AppliedAll(rows: Rows, plans: seq<Plan>, minted: Minted): Rows
    decreases |plans|
  {
    if plans == [] then rows
    else Applied(AppliedAll(rows, plans[..|plans| - 1], minted), plans[|plans| - 1], minted)
  }

  predicate TargetsApart(plans: seq<Plan>, minted: Minted) {
    forall i, j | 0 <= i < j < |plans| ::
      Target(plans[i], minted).Some? ==> Target(plans[i], minted) != Target(plans[j], minted)
  }

  predicate Untouched(plans: seq<Plan>, minted: Minted, s: Subject) {
    forall i | 0 <= i < |plans| :: Target(plans[i], minted) != Some(s)
  }

  lemma {:induction false} UntouchedRow(rows: Rows, plans: seq<Plan>, minted: Minted, s: Subject)
    requires Untouched(plans, minted, s)
    ensures s in AppliedAll(rows, plans, minted) <==> s in rows
    ensures s in rows ==> AppliedAll(rows, plans, minted)[s] == rows[s]
    decreases |plans|
  {
    hide Target, RowAfter;
    if plans != [] {
      var n := |plans| - 1;
      assert Target(plans[n], minted) != Some(s);
      forall i | 0 <= i < n ensures Target(plans[..n][i], minted) != Some(s) { assert plans[..n][i] == plans[i]; }
      UntouchedRow(rows, plans[..n], minted, s);
    }
  }

  /** With distinct targets, every planned write is found in the result. */
  lemma {:induction false} PlannedRow(rows: Rows, plans: seq<Plan>, minted: Minted, k: nat)
    requires TargetsApart(plans, minted) && k < |plans| && Target(plans[k], minted).Some?
    ensures var s := Target(plans[k], minted).value;
            s in AppliedAll(rows, plans, minted)
            && AppliedAll(rows, plans, minted)[s] == RowAfter(RowOf(rows, s), plans[k], minted)
    decreases |plans|
  {
    hide Target, RowAfter;
    var n := |plans| - 1;
    var s := Target(plans[k], minted).value;
    if k == n {
      forall i | 0 <= i < n ensures Target(plans[..n][i], minted) != Some(s) { assert plans[..n][i] == plans[i]; }
      UntouchedRow(rows, plans[..n], minted, s);
    } else {
      forall i, j | 0 <= i < j < n ensures Target(plans[..n][i], minted).Some? ==> Target(plans[..n][i], minted) != Target(plans[..n][j], minted) {
        assert plans[..n][i] == plans[i] && plans[..n][j] == plans[j];
      }
      assert plans[..n][k] == plans[k];
      PlannedRow(rows, plans[..n], minted, k);
      assert Target(plans[n], minted) != Some(s);
    }
  }

  // ---- Bindings as the solution of one step's equations --------------------------------------

  /** Destinations and bindings satisfy the one-step equations of the binding loop. */
  predicate Settled(rows: Rows, batch: Batch, dests: map<LocalId, string>, binds: map<LocalId, string>) {
    && dests.Keys == binds.Keys == batch.Keys
    && forall id | id in batch ::
         && (IsLocal(batch[id].parent) ==> batch[id].parent[|LOCAL|..] in batch)
         && dests[id] == (if IsLocal(batch[id].parent) then binds[batch[id].parent[|LOCAL|..]] else batch[id].parent)
         && binds[id] == BindingAt(rows, dests[id], batch[id])
  }

  /** When every chain leaves the batch, the equations have one solution. */
  lemma {:induction false} SettledUnique(rows: Rows, batch: Batch, dests: map<LocalId, string>, binds: map<LocalId, string>, id: LocalId, n: nat)
    requires Settled(rows, batch, dests, binds) && Grounded(batch, id, n)
    ensures dests[id] == Destination(rows, batch, id, n) && binds[id] == Binding(rows, batch, id, n)
    decreases n
  {
    hide BindingAt;
    if IsLocal(batch[id].parent) {
      SettledUnique(rows, batch, dests, binds, batch[id].parent[|LOCAL|..], n - 1);
    }
  }

  lemma SettledIsBound(rows: Rows, batch: Batch, dests: map<LocalId, string>, binds: map<LocalId, string>)
    requires Settled(rows, batch, dests, binds) && AllLeave(batch)
    ensures binds == BindingsOf(rows, batch)
    ensures forall id :: id in batch ==> dests[id] == Dest(rows, batch, id)
  {
    hide BindingAt;
    forall id | id in batch ensures dests[id] == Dest(rows, batch, id) && binds[id] == Bind(rows, batch, id) {
      assert Leaves(batch, id);
      var n: nat :| Grounded(batch, id, n) && Dest(rows, batch, id) == Destination(rows, batch, id, n);
      SettledUnique(rows, batch, dests, binds, id, n);
    }
  }

  ghost function DestsOf(rows: Rows, batch: Batch): map<LocalId, string>
    requires AllLeave(batch)
  {
    map id | id in batch :: Dest(rows, batch, id)
  }

  lemma BoundIsSettled(rows: Rows, batch: Batch)
    requires AllLeave(batch)
    ensures Settled(rows, batch, DestsOf(rows, batch), BindingsOf(rows, batch))
  {
    hide BindingAt, Dest, Leaves;
    forall id | id in batch
      ensures IsLocal(batch[id].parent) ==> batch[id].parent[|LOCAL|..] in batch
      ensures DestsOf(rows, batch)[id] ==
              if IsLocal(batch[id].parent) then BindingsOf(rows, batch)[batch[id].parent[|LOCAL|..]] else batch[id].parent
    {
      DestStep(rows, batch, id);
      if IsLocal(batch[id].parent) { LeavesInBatch(batch, batch[id].parent[|LOCAL|..]); }
    }
  }

  lemma LeavesInBatch(batch: Batch, id: LocalId)
    requires Leaves(batch, id)
    ensures id in batch
  {
    var n: nat :| Grounded(batch, id, n);
  }
}
