/** Importing the same records again after applying the first run: no record is written, and the
    conflicts are those of the first run with their references rewritten. */
module ImportTwice {
  import opened Basics
  import opened ImportRecords
  import opened ImportMerge
  import opened ImportAgain

  type Names = map<LocalId, string>

  // ---- Minting ------------------------------------------------------------------------------

  /** Exactly the records without a row are minted, under subjects that are new: apart from each other,
      from every destination, from every row and from every row's parent. Nothing is asked of what rows say. */
  ghost predicate FreshFor(rows: Rows, batch: Batch, dests: Names, binds: Names, minted: Minted)
    requires dests.Keys == binds.Keys == batch.Keys
  {
    && (forall id :: id in minted <==> id in batch && IsLocal(binds[id]))
    && (forall a, b :: a in minted && b in minted && a != b ==> Pure(minted[a]) != Pure(minted[b]))
    && (forall a :: a in minted ==> !IsLocal(minted[a]) && minted[a] !in rows)
    && (forall a, id :: a in minted && id in batch && !IsLocal(dests[id]) ==> Pure(minted[a]) != Pure(dests[id]))
    && (forall a, s :: a in minted && s in rows && PARENT in rows[s] && rows[s][PARENT].Str? ==>
          Pure(rows[s][PARENT].s) != Pure(minted[a]))
    && (forall s :: s in rows ==> !IsLocal(s))
  }

  /** No created record's source id is itself a reference the host would rewrite. */
  ghost predicate PlainSources(batch: Batch, minted: Minted) {
    forall id :: id in minted && id in batch ==> RewriteText(batch[id].sourceId, minted) == batch[id].sourceId
  }

  ghost predicate OwnIds(batch: Batch) {
    forall id :: id in batch ==> batch[id].localId == id
  }

  /** Every record binds cleanly, to an identity of its own. */
  ghost predicate CleanBatch(rows: Rows, batch: Batch, dests: Names) {
    && (forall id :: id in batch ==> id in dests && BindsCleanly(rows, dests[id], batch[id]))
    && (forall a, b :: a in batch && b in batch && a in dests && b in dests && a != b ==>
          IdentityOf(dests[a], batch[a]) != IdentityOf(dests[b], batch[b]))
  }

  /** What the first run gives: bindings and destinations, and subjects minted for its creates. */
  ghost predicate FirstRun(rows: Rows, batch: Batch, dests: Names, binds: Names, minted: Minted) {
    && Settled(rows, batch, dests, binds) && OwnIds(batch)
    && FreshFor(rows, batch, dests, binds, minted) && CleanBatch(rows, batch, dests)
  }

  lemma SettledKeys(rows: Rows, batch: Batch, dests: Names, binds: Names)
    requires Settled(rows, batch, dests, binds)
    ensures dests.Keys == binds.Keys == batch.Keys
  {
    hide BindingAt;
  }

  lemma OneKeySet(rows: Rows, batch: Batch, dests: Names, binds: Names, minted: Minted)
    requires FirstRun(rows, batch, dests, binds, minted)
    ensures dests.Keys == binds.Keys == batch.Keys
  {
    hide BindingAt, BindsCleanly;
  }

  // ---- What a run leaves of identities -------------------------------------------------------

  predicate SameIdentity(a: Row, b: Row) {
    && Get(a, PARENT) == Get(b, PARENT) && Get(a, LOCAL_ID) == Get(b, LOCAL_ID)
    && Get(a, IS_A) == Get(b, IS_A) && Get(a, RESOLUTION) == Get(b, RESOLUTION)
  }

  predicate CreatedIdentity(row: Row, dest: string, r: Record) {
    && Get(row, PARENT) == Some(Str(dest)) && Get(row, LOCAL_ID) == Some(Str(r.sourceId))
    && Get(row, IS_A) == Some(Classes(r.isA)) && RESOLUTION !in row
  }

  /** The rows after the run: those before with their identities kept, and one for each minted record. */
  ghost predicate Landed(rows: Rows, rows': Rows, batch: Batch, dests: Names, minted: Minted) {
    && (forall s :: s in rows ==> s in rows' && SameIdentity(rows[s], rows'[s]))
    && (forall id :: id in minted ==>
          id in batch && id in dests && minted[id] in rows'
          && CreatedIdentity(rows'[minted[id]], RewriteText(dests[id], minted), batch[id]))
    && (forall s :: s in rows' ==> s in rows || s in minted.Values)
  }

  function Rewritten(names: Names, minted: Minted): Names {
    map id | id in names :: RewriteText(names[id], minted)
  }

  /** A record without a row is minted under its own name; local destinations are minted records. */
  lemma LocalNames(rows: Rows, batch: Batch, dests: Names, binds: Names, minted: Minted, id: LocalId)
    requires Settled(rows, batch, dests, binds) && OwnIds(batch) && FreshFor(rows, batch, dests, binds, minted) && id in batch
    ensures IsLocal(binds[id]) <==> id in minted
    ensures id in minted ==> binds[id] == LocalName(id) && RewriteText(binds[id], minted) == minted[id]
    ensures id !in minted ==> binds[id] in Matches(rows, dests[id], batch[id].sourceId) && RewriteText(binds[id], minted) == binds[id]
  {
    hide Matches;
    BindingInRows(rows, dests[id], batch[id]);
    assert binds[id] in Matches(rows, dests[id], batch[id].sourceId) ==> binds[id] in rows by {
      MatchesAreRows(rows, dests[id], batch[id].sourceId);
    }
  }

  lemma MatchesAreRows(rows: Rows, dest: string, sourceId: string)
    ensures forall s :: s in Matches(rows, dest, sourceId) <==> s in rows && !IsLocal(dest) && HasIdentity(rows[s], dest, sourceId)
  {
    hide HasIdentity;
  }

  lemma LocalDestination(rows: Rows, batch: Batch, dests: Names, binds: Names, minted: Minted, id: LocalId)
    requires Settled(rows, batch, dests, binds) && OwnIds(batch) && FreshFor(rows, batch, dests, binds, minted) && id in batch
    ensures IsLocal(dests[id]) ==> dests[id][|LOCAL|..] in minted && dests[id] == LocalName(dests[id][|LOCAL|..])
    ensures !IsLocal(dests[id]) ==> RewriteText(dests[id], minted) == dests[id]
    ensures !IsLocal(RewriteText(dests[id], minted))
  {
    hide BindingAt;
    if IsLocal(dests[id]) {
      assert IsLocal(batch[id].parent);
      LocalNames(rows, batch, dests, binds, minted, batch[id].parent[|LOCAL|..]);
    }
  }

  /** Rewriting keeps the identities of a batch apart. */
  lemma IdentitiesStayApart(rows: Rows, batch: Batch, dests: Names, binds: Names, minted: Minted, a: LocalId, b: LocalId)
    requires FirstRun(rows, batch, dests, binds, minted) && a in batch && b in batch && a != b
    ensures IdentityOf(RewriteText(dests[a], minted), batch[a]) != IdentityOf(RewriteText(dests[b], minted), batch[b])
  {
    hide BindingAt, BindsCleanly, Settled, Pure;
    assert IdentityOf(dests[a], batch[a]) != IdentityOf(dests[b], batch[b]);
    assert dests.Keys == batch.Keys by { SettledKeys(rows, batch, dests, binds); }
    LocalDestination(rows, batch, dests, binds, minted, a);
    LocalDestination(rows, batch, dests, binds, minted, b);
  }

  /** An old row has the rewritten identity exactly when it had the identity and the destination was not local. */
  lemma OldRowMatches(rows: Rows, rows': Rows, batch: Batch, dests: Names, binds: Names, minted: Minted, id: LocalId, s: Subject)
    requires Settled(rows, batch, dests, binds) && OwnIds(batch) && FreshFor(rows, batch, dests, binds, minted)
    requires Landed(rows, rows', batch, dests, minted) && id in batch && s in rows
    ensures HasIdentity(rows'[s], RewriteText(dests[id], minted), batch[id].sourceId) <==> s in Matches(rows, dests[id], batch[id].sourceId)
  {
    hide BindingAt, Settled, Pure, CreatedIdentity;
    assert dests.Keys == batch.Keys by { SettledKeys(rows, batch, dests, binds); }
    LocalDestination(rows, batch, dests, binds, minted, id);
    assert SameIdentity(rows[s], rows'[s]);
  }

  /** A minted row has the rewritten identity of its own record only. */
  lemma NewRowMatches(rows: Rows, rows': Rows, batch: Batch, dests: Names, binds: Names, minted: Minted, id: LocalId, a: LocalId)
    requires FirstRun(rows, batch, dests, binds, minted) && Landed(rows, rows', batch, dests, minted) && id in batch && a in minted
    ensures HasIdentity(rows'[minted[a]], RewriteText(dests[id], minted), batch[id].sourceId) <==> a == id
  {
    hide BindingAt, Settled, Pure, SameIdentity, FreshFor, CleanBatch;
    assert dests.Keys == batch.Keys by { SettledKeys(rows, batch, dests, binds); }
    assert CreatedIdentity(rows'[minted[a]], RewriteText(dests[a], minted), batch[a]);
    if a != id { IdentitiesStayApart(rows, batch, dests, binds, minted, a, id); }
  }

  /** A row after the run has the rewritten identity exactly when it is the record's own. */
  lemma MatchesOwnRow(rows: Rows, rows': Rows, batch: Batch, dests: Names, binds: Names, minted: Minted, id: LocalId, s: Subject)
    requires FirstRun(rows, batch, dests, binds, minted) && Landed(rows, rows', batch, dests, minted) && id in batch
    requires s in rows'
    ensures HasIdentity(rows'[s], RewriteText(dests[id], minted), batch[id].sourceId) <==> s == RewriteText(binds[id], minted)
  {
    hide HasIdentity, SameIdentity, CreatedIdentity, BindingAt, Matches, BindsCleanly, RewriteText, IdentityOf;
    LocalNames(rows, batch, dests, binds, minted, id);
    if s in rows {
      OldRowMatches(rows, rows', batch, dests, binds, minted, id, s);
      OnlyMatch(rows, batch, dests, binds, minted, id);
    } else {
      var a :| a in minted && minted[a] == s;
      NewRowMatches(rows, rows', batch, dests, binds, minted, id, a);
      MatchesAreRows(rows, dests[id], batch[id].sourceId);
      assert id in minted && a != id ==> Pure(minted[a]) != Pure(minted[id]);
    }
  }

  lemma OwnRowThere(rows: Rows, rows': Rows, batch: Batch, dests: Names, binds: Names, minted: Minted, id: LocalId)
    requires FirstRun(rows, batch, dests, binds, minted) && Landed(rows, rows', batch, dests, minted) && id in batch
    ensures RewriteText(binds[id], minted) in rows'
    ensures !IsLocal(RewriteText(dests[id], minted))
  {
    hide HasIdentity, SameIdentity, CreatedIdentity, BindingAt, Matches, BindsCleanly, RewriteText, IdentityOf;
    LocalNames(rows, batch, dests, binds, minted, id);
    LocalDestination(rows, batch, dests, binds, minted, id);
    MatchesAreRows(rows, dests[id], batch[id].sourceId);
  }

  /** In the second run a record matches exactly the row it was bound to, or was created as. */
  lemma MatchesAgain(rows: Rows, rows': Rows, batch: Batch, dests: Names, binds: Names, minted: Minted, id: LocalId)
    requires FirstRun(rows, batch, dests, binds, minted) && Landed(rows, rows', batch, dests, minted) && id in batch
    requires id in dests && id in binds
    ensures Matches(rows', RewriteText(dests[id], minted), batch[id].sourceId) == {RewriteText(binds[id], minted)}
  {
    hide FirstRun, Landed, RewriteText, HasIdentity, Matches;
    MatchesAreRows(rows', RewriteText(dests[id], minted), batch[id].sourceId);
    OwnRowThere(rows, rows', batch, dests, binds, minted, id);
    forall s | s in rows'
      ensures HasIdentity(rows'[s], RewriteText(dests[id], minted), batch[id].sourceId) <==> s == RewriteText(binds[id], minted)
    {
      MatchesOwnRow(rows, rows', batch, dests, binds, minted, id, s);
    }
  }

  /** A cleanly bound record matches its row and no other. */
  lemma OnlyMatch(rows: Rows, batch: Batch, dests: Names, binds: Names, minted: Minted, id: LocalId)
    requires FirstRun(rows, batch, dests, binds, minted) && id in batch
    ensures Matches(rows, dests[id], batch[id].sourceId) == if id in minted then {} else {binds[id]}
  {
    hide Matches, HasClasses, Pure;
    LocalNames(rows, batch, dests, binds, minted, id);
    var found := Matches(rows, dests[id], batch[id].sourceId);
    assert BindsCleanly(rows, dests[id], batch[id]);
    assert |found| <= 1;
    if |found| == 1 {
      SingletonUnique(found);
      var s :| s in found;
      assert found == {s};
      assert binds[id] == s;
      MatchesAreRows(rows, dests[id], batch[id].sourceId);
    }
  }

  /** The row a record binds to in the second run carries its classes and no resolution. */
  lemma RowAgain(rows: Rows, rows': Rows, batch: Batch, dests: Names, binds: Names, minted: Minted, id: LocalId)
    requires FirstRun(rows, batch, dests, binds, minted) && Landed(rows, rows', batch, dests, minted) && id in batch
    ensures RewriteText(binds[id], minted) in rows'
    ensures !AwaitsReview(rows'[RewriteText(binds[id], minted)])
    ensures HasClasses(rows'[RewriteText(binds[id], minted)], batch[id].isA)
  {
    hide Matches, RewriteText, BindingAt, HasClasses, Falsy;
    LocalNames(rows, batch, dests, binds, minted, id);
    OnlyMatch(rows, batch, dests, binds, minted, id);
    MatchesAreRows(rows, dests[id], batch[id].sourceId);
    var x := RewriteText(binds[id], minted);
    assert BindsCleanly(rows, dests[id], batch[id]);
    if id in minted {
      ClassesHeld(rows'[x], batch[id].isA);
    } else {
      assert x in Matches(rows, dests[id], batch[id].sourceId);
      SameClasses(rows[x], rows'[x], batch[id].isA);
    }
  }

  lemma SameClasses(row: Row, row': Row, isA: seq<string>)
    requires SameIdentity(row, row') && HasClasses(row, isA)
    ensures HasClasses(row', isA)
    ensures AwaitsReview(row') <==> AwaitsReview(row)
  {
  }

  lemma BindsAgain(rows: Rows, rows': Rows, batch: Batch, dests: Names, binds: Names, minted: Minted, id: LocalId)
    requires FirstRun(rows, batch, dests, binds, minted) && Landed(rows, rows', batch, dests, minted) && id in batch
    ensures BindsCleanly(rows', RewriteText(dests[id], minted), batch[id])
    ensures BindingAt(rows', RewriteText(dests[id], minted), batch[id]) == RewriteText(binds[id], minted)
  {
    hide Matches, RewriteText, FirstRun, Landed, HasClasses, AwaitsReview;
    assert dests.Keys == binds.Keys == batch.Keys by { OneKeySet(rows, batch, dests, binds, minted); }
    MatchesAgain(rows, rows', batch, dests, binds, minted, id);
    RowAgain(rows, rows', batch, dests, binds, minted, id);
  }

  lemma ClassesHeld(row: Row, isA: seq<string>)
    requires Get(row, IS_A) == Some(Classes(isA))
    ensures HasClasses(row, isA)
  {
    forall i | 0 <= i < |isA| ensures Str(isA[i]) in row[IS_A].items {
      assert row[IS_A].items[i] == Str(isA[i]);
    }
  }

  lemma CleanAgain(rows: Rows, rows': Rows, batch: Batch, dests: Names, binds: Names, minted: Minted)
    requires FirstRun(rows, batch, dests, binds, minted) && Landed(rows, rows', batch, dests, minted)
    ensures CleanBatch(rows', batch, Rewritten(dests, minted))
  {
    hide BindsCleanly, FirstRun, Landed, IdentityOf, RewriteText;
    OneKeySet(rows, batch, dests, binds, minted);
    forall id | id in batch ensures BindsCleanly(rows', RewriteText(dests[id], minted), batch[id]) {
      BindsAgain(rows, rows', batch, dests, binds, minted, id);
    }
    forall a, b | a in batch && b in batch && a != b
      ensures IdentityOf(RewriteText(dests[a], minted), batch[a]) != IdentityOf(RewriteText(dests[b], minted), batch[b])
    {
      IdentitiesStayApart(rows, batch, dests, binds, minted, a, b);
    }
  }

  /** A destination is rewritten as the binding it comes from. */
  lemma StepAgain(rows: Rows, batch: Batch, dests: Names, binds: Names, minted: Minted, id: LocalId)
    requires FirstRun(rows, batch, dests, binds, minted) && id in batch
    ensures IsLocal(batch[id].parent) ==> batch[id].parent[|LOCAL|..] in batch
    ensures RewriteText(dests[id], minted) ==
            if IsLocal(batch[id].parent) then RewriteText(binds[batch[id].parent[|LOCAL|..]], minted) else batch[id].parent
  {
    hide BindsCleanly, BindingAt, IdentityOf, Pure;
    if !IsLocal(batch[id].parent) { LocalDestination(rows, batch, dests, binds, minted, id); }
  }

  /** The second run binds every record, to the rewritten binding, at the rewritten destination. */
  lemma BoundAgain(rows: Rows, rows': Rows, batch: Batch, dests: Names, binds: Names, minted: Minted)
    requires FirstRun(rows, batch, dests, binds, minted) && Landed(rows, rows', batch, dests, minted)
    ensures Settled(rows', batch, Rewritten(dests, minted), Rewritten(binds, minted))
    ensures CleanBatch(rows', batch, Rewritten(dests, minted))
  {
    hide BindingAt, FirstRun, Landed, RewriteText, CleanBatch;
    OneKeySet(rows, batch, dests, binds, minted);
    CleanAgain(rows, rows', batch, dests, binds, minted);
    forall id | id in batch
      ensures RewriteText(binds[id], minted) == BindingAt(rows', RewriteText(dests[id], minted), batch[id])
    {
      BindsAgain(rows, rows', batch, dests, binds, minted, id);
    }
    forall id | id in batch
      ensures IsLocal(batch[id].parent) ==> batch[id].parent[|LOCAL|..] in batch
      ensures RewriteText(dests[id], minted) ==
              if IsLocal(batch[id].parent) then RewriteText(binds[batch[id].parent[|LOCAL|..]], minted) else batch[id].parent
    {
      StepAgain(rows, batch, dests, binds, minted, id);
    }
  }
}
