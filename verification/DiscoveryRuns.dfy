/** Every interleaving of replicas publishing to one relay register. */
module DiscoveryRuns {
  import opened Basics
  import opened Discovery

  /** A call in progress: `wrote` once the relay took its packet, `lost` when the answer to that never came. */
  datatype Running = Running(call: Call, phase: Phase, wrote: bool, lost: bool)

  /** The register, the calls, and what was published so far: ids and origins, in the order the relay took them. */
  datatype World = World(relay: Register, calls: map<nat, Running>, published: seq<string>, shared: seq<string>)

  datatype Delivery = Delivered | AnswerLost | Refused

  datatype Event = Begin(id: nat, call: Call) | Read(id: nat, reachable: bool) | Write(id: nat, now: nat, delivery: Delivery)

  /** The relay takes a packet that names the stamp it holds and is newer. */
  predicate Takes(relay: Register, cas: Option<nat>, now: nat) {
    cas == StampOf(relay) && (relay.Some? ==> now > relay.value.stamp)
  }

  function One(item: Option<string>): seq<string> {
    match item case Some(s) => [s] case None => []
  }

  function Written(w: World, id: nat, now: nat, delivery: Delivery): World
    requires id in w.calls && w.calls[id].phase.Writing?
  {
    var c := w.calls[id];
    var attempt := c.phase.attempt;
    if delivery.Refused? then w.(calls := w.calls[id := c.(phase := OnWrite(attempt, OtherError))])
    else if !Takes(w.relay, c.phase.cas, now) then
      w.(calls := w.calls[id := c.(phase := OnWrite(attempt, if delivery.Delivered? then Overtaken else OtherError))])
    else
      World(Some(Packet(now, c.phase.merged)),
            w.calls[id := Running(c.call, OnWrite(attempt, if delivery.Delivered? then Accepted else OtherError), true, delivery.AnswerLost?)],
            w.published + One(c.call.id), w.shared + One(c.call.origin))
  }

  /** One step; a step that does not apply leaves everything. */
  function Step(env: Env, w: World, e: Event): World {
    match e
    case Begin(id, call) => if id in w.calls then w else w.(calls := w.calls[id := Running(call, Start(call), false, false)])
    case Read(id, reachable) =>
      if id in w.calls && w.calls[id].phase.Reading? then
        var c := w.calls[id];
        w.(calls := w.calls[id := c.(phase := OnRead(env, c.call, c.phase.attempt, if reachable then Current(w.relay) else Unreachable))])
      else w
    case Write(id, now, delivery) =>
      if id in w.calls && w.calls[id].phase.Writing? then Written(w, id, now, delivery) else w
  }

  function Run(env: Env, w: World, es: seq<Event>): World
    decreases |es|
  {
    if es == [] then w else Step(env, Run(env, w, es[..|es| - 1]), es[|es| - 1])
  }

  function Initial(relay: Register): World {
    World(relay, map[], [], [])
  }

  // ---- Assumptions ----------------------------------------------------------------------------

  /** Normalizing an origin twice is normalizing it once. */
  ghost predicate Stable(env: Env) {
    forall o :: env.origin(o).Some? ==> env.origin(env.origin(o).value) == env.origin(o)
  }

  predicate NormalCall(env: Env, call: Call) {
    call.origin.Some? ==> env.origin(call.origin.value) == call.origin
  }

  ghost predicate NormalEvents(env: Env, es: seq<Event>) {
    forall i {:trigger es[i]} | 0 <= i < |es| :: es[i].Begin? ==> NormalCall(env, es[i].call)
  }

  ghost predicate AllNormal(env: Env, origins: seq<string>) {
    forall o :: o in origins ==> env.origin(o) == Some(o)
  }

  lemma {:induction false} NormalizedStays(env: Env, origins: seq<string>)
    requires AllNormal(env, origins)
    ensures Normalized(env, origins) == origins
  {
    if origins != [] {
      assert origins[0] in origins;
      NormalizedStays(env, origins[1..]);
    }
  }

  lemma {:induction false} NormalizedIsNormal(env: Env, origins: seq<string>)
    requires Stable(env)
    ensures AllNormal(env, Normalized(env, origins))
  {
    if origins != [] { NormalizedIsNormal(env, origins[1..]); }
  }

  // ---- The invariant --------------------------------------------------------------------------

  /** The origins after a log of published ones: each new one once, at the end. */
  function Collected(base: seq<string>, log: seq<string>): seq<string> {
    if log == [] then base else Added(Collected(base, log[..|log| - 1]), log[|log| - 1])
  }

  /** A record for the ids and origins published so far. */
  predicate RecordOf(start: DriveRecord, published: seq<string>, shared: seq<string>, now: DriveRecord) {
    && now.nodeIds == Kept(start.nodeIds, published)
    && now.origins == Collected(start.origins, shared)
  }

  /** A call about to write holds the merge of what the register still holds, or names a stamp it no longer has. */
  predicate WritesMerge(env: Env, relay: Register, c: Running) {
    c.phase.Writing? ==>
      && (c.phase.cas == StampOf(relay) ==> c.phase.merged == Merged(c.call, Parsed(env, relay)))
      && (c.phase.cas.Some? ==> relay.Some? && c.phase.cas.value <= relay.value.stamp)
  }

  /** Whether a call has written is what its end says, up to a lost answer. */
  predicate Accounted(c: Running) {
    && (c.lost ==> c.wrote)
    && match c.phase
       case Reading(attempt) => !c.wrote && attempt < ATTEMPTS
       case Writing(attempt, _, _) => !c.wrote && attempt < ATTEMPTS
       case Finished(ok) => if ok then (c.wrote && !c.lost) || c.call == Call(None, None) else c.wrote == c.lost
  }

  ghost predicate CallsFine(env: Env, w: World) {
    forall id :: id in w.calls ==> WritesMerge(env, w.relay, w.calls[id]) && Accounted(w.calls[id]) && NormalCall(env, w.calls[id].call)
  }

  ghost predicate Inv(env: Env, start: DriveRecord, w: World) {
    && RecordOf(start, w.published, w.shared, Parsed(env, w.relay))
    && AllNormal(env, Parsed(env, w.relay).origins)
    && CallsFine(env, w)
  }

  /** Parsing what was just written gives the merge back. */
  lemma ParsedBack(env: Env, call: Call, record: DriveRecord, now: nat)
    requires AllNormal(env, record.origins) && NormalCall(env, call)
    ensures Parsed(env, Some(Packet(now, Merged(call, record)))) == Merged(call, record)
    ensures AllNormal(env, Merged(call, record).origins)
  {
    NormalizedStays(env, Merged(call, record).origins);
  }

  /** One merge extends the record by exactly what the call publishes. */
  lemma MergedRecord(start: DriveRecord, published: seq<string>, shared: seq<string>, now: DriveRecord, call: Call)
    requires RecordOf(start, published, shared, now)
    ensures RecordOf(start, published + One(call.id), shared + One(call.origin), Merged(call, now))
  {
    hide Front, Foremost, Added;
    if call.id.Some? {
      assert (published + [call.id.value])[..|published|] == published;
    } else {
      assert published + One(call.id) == published;
    }
    CollectedOneMore(start.origins, shared, call.origin);
  }

  lemma CollectedOneMore(base: seq<string>, shared: seq<string>, origin: Option<string>)
    ensures Collected(base, shared + One(origin)) == if origin.Some? then Added(Collected(base, shared), origin.value) else Collected(base, shared)
  {
    if origin.Some? {
      assert (shared + [origin.value])[..|shared|] == shared;
    } else {
      assert shared + One(origin) == shared;
    }
  }

  lemma TakenKeepsInv(env: Env, start: DriveRecord, w: World, id: nat, now: nat, delivery: Delivery)
    requires Inv(env, start, w)
    requires id in w.calls && w.calls[id].phase.Writing? && !delivery.Refused? && Takes(w.relay, w.calls[id].phase.cas, now)
    ensures Inv(env, start, Written(w, id, now, delivery))
  {
    hide RecordOf, Merged, Parsed, AllNormal;
    var c := w.calls[id];
    ParsedBack(env, c.call, Parsed(env, w.relay), now);
    MergedRecord(start, w.published, w.shared, Parsed(env, w.relay), c.call);
  }

  lemma StepKeepsInv(env: Env, start: DriveRecord, w: World, e: Event)
    requires Inv(env, start, w)
    requires e.Begin? ==> NormalCall(env, e.call)
    ensures Inv(env, start, Step(env, w, e))
  {
    hide RecordOf, Merged, Parsed, AllNormal, Takes;
    match e
    case Begin(id, call) =>
    case Read(id, reachable) =>
    case Write(id, now, delivery) =>
      if id in w.calls && w.calls[id].phase.Writing? && !delivery.Refused? && Takes(w.relay, w.calls[id].phase.cas, now) {
        TakenKeepsInv(env, start, w, id, now, delivery);
      }
  }

  lemma {:induction false} RunKeepsInv(env: Env, relay: Register, es: seq<Event>)
    requires Stable(env) && NormalEvents(env, es)
    ensures Inv(env, Parsed(env, relay), Run(env, Initial(relay), es))
    decreases |es|
  {
    hide Inv;
    if es == [] {
      StartInv(env, relay);
    } else {
      var n := |es| - 1;
      assert forall i | 0 <= i < n :: es[..n][i] == es[i];
      RunKeepsInv(env, relay, es[..n]);
      StepKeepsInv(env, Parsed(env, relay), Run(env, Initial(relay), es[..n]), es[n]);
    }
  }

  lemma StartInv(env: Env, relay: Register)
    requires Stable(env)
    ensures Inv(env, Parsed(env, relay), Initial(relay))
  {
    if relay.Some? { NormalizedIsNormal(env, relay.value.record.origins); }
  }

  // ---- What every run keeps -------------------------------------------------------------------

  /** In every interleaving the register lists the ids of the accepted publishes, in their order, each moved
      to the front and the list truncated; from a tame start that is the first six by most recent publish, as
      if truncated only once at the end. */
  lemma NodeIdsAreMostRecent(env: Env, relay: Register, es: seq<Event>)
    requires Stable(env) && NormalEvents(env, es)
    ensures var w, base := Run(env, Initial(relay), es), Parsed(env, relay).nodeIds;
            && Parsed(env, w.relay).nodeIds == Kept(base, w.published)
            && (Tame(base) ==> Parsed(env, w.relay).nodeIds == KeptOnce(base, w.published))
  {
    hide Kept, KeptOnce, Tame;
    RunKeepsInv(env, relay, es);
    var base, published := Parsed(env, relay).nodeIds, Run(env, Initial(relay), es).published;
    if Tame(base) { TameKeepsExactly(base, published); }
  }

  lemma PrecedesOneWay(list: seq<string>, i: nat, j: nat)
    requires NoRepeats(list) && i < j < |list|
    ensures Precedes(list, list[i], list[j]) && !Precedes(list, list[j], list[i])
  {
  }

  lemma WholeListByRecency(base: seq<string>, log: seq<string>, i: nat, j: nat)
    requires NoRepeats(base) && i < j < |Recent(base, log)| && Recent(base, log)[j] in log
    ensures LastUse(log, Recent(base, log)[i]) > LastUse(log, Recent(base, log)[j])
  {
    hide Precedes, LastUse, Recent;
    var all := Recent(base, log);
    RecentNoRepeats(base, log);
    PrecedesOneWay(all, i, j);
    assert all[i] != all[j];
    if all[i] in log {
      RecentOrder(base, log, all[i], all[j]);
    } else {
      NeverUsed(log, all[i], all[j]);
      RecentOrder(base, log, all[j], all[i]);
    }
  }

  /** What the list means: no id twice, at most six, the later published before the earlier, and every
      published id that is not listed was published before each that is. */
  lemma ListedByRecency(base: seq<string>, log: seq<string>)
    requires NoRepeats(base) && log != []
    ensures var ids := Front(Recent(base, log));
            && NoRepeats(ids) && |ids| <= MAX_NODE_IDS && ids != [] && ids[0] == log[|log| - 1]
            && (forall i, j | 0 <= i < j < |ids| :: ids[j] in log ==> LastUse(log, ids[i]) > LastUse(log, ids[j]))
            && (forall i, b | 0 <= i < |ids| && b in log && b !in ids :: LastUse(log, ids[i]) > LastUse(log, b))
  {
    var all := Recent(base, log);
    assert all[0] == log[|log| - 1];
    hide Precedes, LastUse, Recent;
    RecentNoRepeats(base, log);
    var ids := Front(all);
    forall i, j | 0 <= i < j < |ids| && ids[j] in log ensures LastUse(log, ids[i]) > LastUse(log, ids[j]) {
      WholeListByRecency(base, log, i, j);
    }
    forall i, b | 0 <= i < |ids| && b in log && b !in ids ensures LastUse(log, ids[i]) > LastUse(log, b) {
      assert b in all && all == ids + all[|ids|..];
      var k :| 0 <= k < |all| - |ids| && all[|ids|..][k] == b;
      assert all[|ids| + k] == b;
      WholeListByRecency(base, log, i, |ids| + k);
    }
  }

  lemma NeverUsed(log: seq<string>, a: string, b: string)
    requires a !in log && b in log
    ensures LastUse(log, b) > LastUse(log, a)
  {
  }

  lemma {:induction false} CollectedGrows(base: seq<string>, log: seq<string>, more: seq<string>)
    ensures Collected(base, log) <= Collected(base, log + more)
    decreases |more|
  {
    if more == [] { assert log + more == log; } else {
      var n := |more| - 1;
      assert (log + more)[..|log + more| - 1] == log + more[..n];
      CollectedGrows(base, log, more[..n]);
    }
  }

  lemma {:induction false} LogsGrow(env: Env, w: World, es: seq<Event>)
    ensures w.published <= Run(env, w, es).published && w.shared <= Run(env, w, es).shared
    decreases |es|
  {
    if es != [] { LogsGrow(env, w, es[..|es| - 1]); }
  }

  lemma {:induction false} RunConcat(env: Env, w: World, es: seq<Event>, more: seq<Event>)
    ensures Run(env, w, es + more) == Run(env, Run(env, w, es), more)
    decreases |more|
  {
    if more == [] { assert es + more == es; } else {
      var n := |more| - 1;
      assert (es + more)[..|es + more| - 1] == es + more[..n];
      RunConcat(env, w, es, more[..n]);
    }
  }

  /** The origins are grow-only: whatever a run reads, every longer run still reads, in the same places. */
  lemma OriginsOnlyGrow(env: Env, relay: Register, es: seq<Event>, more: seq<Event>)
    requires Stable(env) && NormalEvents(env, es + more)
    ensures Parsed(env, Run(env, Initial(relay), es).relay).origins <= Parsed(env, Run(env, Initial(relay), es + more).relay).origins
  {
    assert NormalEvents(env, es) by { assert forall i | 0 <= i < |es| :: (es + more)[i] == es[i]; }
    RunKeepsInv(env, relay, es);
    RunKeepsInv(env, relay, es + more);
    RunConcat(env, Initial(relay), es, more);
    var w, w' := Run(env, Initial(relay), es), Run(env, Initial(relay), es + more);
    LogsGrow(env, w, more);
    assert w'.shared == w.shared + w'.shared[|w.shared|..];
    CollectedGrows(Parsed(env, relay).origins, w.shared, w'.shared[|w.shared|..]);
  }

  /** No write is lost: the register changes only when it takes a packet from a call that had not written
      yet, and what it then holds is that call merged into what it held. */
  lemma OnlyMergesAreTaken(env: Env, start: DriveRecord, w: World, e: Event)
    requires Inv(env, start, w) && Step(env, w, e).relay != w.relay
    ensures e.Write? && e.id in w.calls && !w.calls[e.id].wrote && Step(env, w, e).calls[e.id].wrote
    ensures Parsed(env, Step(env, w, e).relay) == Merged(w.calls[e.id].call, Parsed(env, w.relay))
  {
    hide Merged, Parsed, RecordOf, AllNormal;
    ParsedBack(env, w.calls[e.id].call, Parsed(env, w.relay), e.now);
  }

  /** In every run a call that failed changed nothing, unless the relay took its packet and the answer was
      lost; a call that succeeded changed the register, unless it had nothing to publish. */
  lemma FailedCallsChangeNothing(env: Env, relay: Register, es: seq<Event>, id: nat)
    requires Stable(env) && NormalEvents(env, es)
    requires id in Run(env, Initial(relay), es).calls
    ensures var c := Run(env, Initial(relay), es).calls[id];
            && (c.phase == Finished(false) ==> (c.wrote <==> c.lost))
            && (c.phase == Finished(true) ==> (c.wrote <==> c.call != Call(None, None)))
            && (!c.phase.Finished? ==> !c.wrote)
  {
    RunKeepsInv(env, relay, es);
    if Run(env, Initial(relay), es).calls[id].call == Call(None, None) { EmptyNeverWrites(env, relay, es, id); }
  }

  lemma {:induction false} EmptyNeverWrites(env: Env, relay: Register, es: seq<Event>, id: nat)
    requires id in Run(env, Initial(relay), es).calls && Run(env, Initial(relay), es).calls[id].call == Call(None, None)
    ensures Run(env, Initial(relay), es).calls[id] == Running(Call(None, None), Finished(true), false, false)
    decreases |es|
  {
    var n := |es| - 1;
    var w := Run(env, Initial(relay), es[..n]);
    if id in w.calls { EmptyNeverWrites(env, relay, es[..n], id); }
  }

  // ---- Publishing gets through ------------------------------------------------------------------

  /** A call that is about to read, and whose write then meets the register it read, succeeds: what it wrote is
      what every later reader starts from, and no other call is disturbed. */
  lemma UndisturbedPublishSucceeds(env: Env, w: World, id: nat, now: nat)
    requires id in w.calls && w.calls[id].phase.Reading? && Sendable(env, w.calls[id].call, Current(w.relay))
    requires w.relay.Some? ==> now > w.relay.value.stamp
    ensures var w', call := Run(env, w, [Read(id, true), Write(id, now, Delivered)]), w.calls[id].call;
            && w'.relay == Some(Packet(now, Merged(call, Parsed(env, w.relay))))
            && w'.calls == w.calls[id := Running(call, Finished(true), true, false)]
            && w'.published == w.published + One(call.id) && w'.shared == w.shared + One(call.origin)
  {
    hide Merged, Parsed;
    var es := [Read(id, true), Write(id, now, Delivered)];
    assert es[..1] == [es[0]] && es[..1][..0] == [];
    var w1 := Step(env, w, es[0]);
    assert Run(env, w, es[..1]) == w1 by { assert Run(env, w, []) == w; }
    assert Run(env, w, es) == Step(env, w1, es[1]);
  }

  /** A call overtaken by another reads again as long as it has attempts left, and changes nothing; so it fails
      for being overtaken only when every attempt was. */
  lemma OvertakenReadsAgain(env: Env, w: World, id: nat, now: nat)
    requires id in w.calls && w.calls[id].phase.Writing? && !Takes(w.relay, w.calls[id].phase.cas, now)
    ensures var w', attempt := Step(env, w, Write(id, now, Delivered)), w.calls[id].phase.attempt;
            && w' == w.(calls := w.calls[id := w.calls[id].(phase := w'.calls[id].phase)])
            && w'.calls[id].phase == if attempt < 2 then Reading(attempt + 1) else Finished(false)
  {
  }

  /** So a new call that nobody disturbs publishes. */
  lemma FreshPublishSucceeds(env: Env, w: World, id: nat, call: Call, now: nat)
    requires id !in w.calls && call != Call(None, None) && Sendable(env, call, Current(w.relay))
    requires w.relay.Some? ==> now > w.relay.value.stamp
    ensures var w' := Run(env, w, [Begin(id, call)] + [Read(id, true), Write(id, now, Delivered)]);
            && w'.relay == Some(Packet(now, Merged(call, Parsed(env, w.relay))))
            && w'.calls == w.calls[id := Running(call, Finished(true), true, false)]
  {
    hide Merged, Parsed;
    var begun := Step(env, w, Begin(id, call));
    assert [Begin(id, call)][..0] == [] && Run(env, w, []) == w;
    assert Run(env, w, [Begin(id, call)]) == begun;
    RunConcat(env, w, [Begin(id, call)], [Read(id, true), Write(id, now, Delivered)]);
    UndisturbedPublishSucceeds(env, begun, id, now);
  }
}
