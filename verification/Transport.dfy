/** The rotating-code transport (`integrations/localthought/browser.ts`): every secret is taken out of
    storage before it is sent, so a lost answer never lets it be sent again. */
module Transport {
  import opened Basics

  datatype Owner = Owner(drive: string, actor: string, origin: string)

  datatype Connection = Connection(
    owner: Owner, platform: string, expires: int, code: Option<string>, verifier: Option<string>, ready: bool)

  type Storage = map<string, Connection>

  const MAX_CODE: nat := 4096
  const HANDOFF_MS: int := 600000

  datatype TransportError = Reconnect | NotYours | HttpFailed | WrongPlatform | InvalidCode | NoRotation | UnknownPlatform

  /** The browser's storage, and what crossed the wire: verifiers drawn and sent, codes the server issued
      and the browser sent. */
  datatype Seen = Seen(
    storage: Storage, drawn: seq<string>, sentVerifiers: seq<string>, issued: seq<string>, sentCodes: seq<string>)

  /** `connection`. */
  function Lookup(storage: Storage, id: string, owner: Owner): Result<Connection, TransportError> {
    if id !in storage then Err(Reconnect)
    else if storage[id].owner != owner then Err(NotYours)
    else Ok(storage[id])
  }

  predicate Truthy(s: Option<string>) { s.Some? && s.value != "" }

  function Started(s: Seen, state: string, owner: Owner, platform: string, now: int, verifier: string): Seen {
    s.(storage := s.storage[state := Connection(owner, platform, now + HANDOFF_MS, None, Some(verifier), false)],
       drawn := s.drawn + [verifier])
  }

  function Cancelled(s: Seen, state: string, owner: Owner): Seen {
    if Lookup(s.storage, state, owner).Ok? then s.(storage := s.storage - {state}) else s
  }

  /** The part of `finish` before its request is answered: the connection as it waits for the answer. */
  function FinishSent(s: Seen, state: string, owner: Owner, code: string, now: int): (Seen, Result<Connection, TransportError>) {
    match Lookup(s.storage, state, owner)
    case Err(e) => (s, Err(e))
    case Ok(c) =>
      if c.expires < now then (s.(storage := s.storage - {state}), Err(Reconnect))
      else if c.ready || !Truthy(c.verifier) || code == "" || |code| > MAX_CODE then (s, Err(Reconnect))
      else
        var waiting := c.(verifier := None);
        (s.(storage := s.storage[state := waiting], sentVerifiers := s.sentVerifiers + [c.verifier.value]), Ok(waiting))
  }

  /** The answer to a redeem request. */
  datatype Redeemed = LostRedeem | Refused | Redeem(platform: string, code: Option<string>)

  function Issued(s: Seen, code: Option<string>): Seen {
    if code.Some? then s.(issued := s.issued + [code.value]) else s
  }

  function FinishAnswered(s: Seen, state: string, waiting: Connection, answer: Redeemed): (Seen, Option<TransportError>) {
    match answer
    case LostRedeem => (s, Some(HttpFailed))
    case Refused => (s, Some(HttpFailed))
    case Redeem(platform, code) =>
      var s' := Issued(s, code);
      if platform != waiting.platform then (s', Some(WrongPlatform))
      else if !Truthy(code) || |code.value| > MAX_CODE then (s', Some(InvalidCode))
      else (s'.(storage := s'.storage[state := waiting.(ready := true, code := code)]), None)
  }

  /** The part of `send` before its request is answered. */
  function SendSent(s: Seen, id: string, owner: Owner): (Seen, Result<Connection, TransportError>) {
    match Lookup(s.storage, id, owner)
    case Err(e) => (s, Err(e))
    case Ok(c) =>
      if !c.ready || !Truthy(c.code) then (s, Err(Reconnect))
      else
        var waiting := c.(code := None);
        (s.(storage := s.storage[id := waiting], sentCodes := s.sentCodes + [c.code.value]), Ok(waiting))
  }

  /** The answer to a proxied request: its rotated code, if the header shows. */
  datatype Rotated = LostAnswer | Rotated(next: Option<string>)

  function SendAnswered(s: Seen, id: string, waiting: Connection, answer: Rotated): (Seen, Option<TransportError>) {
    match answer
    case LostAnswer => (s, Some(HttpFailed))
    case Rotated(next) =>
      var s' := Issued(s, next);
      if !Truthy(next) then (s', Some(NoRotation))
      else (s'.(storage := s'.storage[id := waiting.(code := next)]), None)
  }

  // ---- A kept code can be spent ---------------------------------------------------------------

  /** The connection's next request goes out, and spends exactly this code. */
  predicate Spends(s: Seen, id: string, owner: Owner, code: string) {
    var (s', r) := SendSent(s, id, owner);
    r.Ok? && s'.sentCodes == s.sentCodes + [code]
  }

  /** Every connection but one is found as before, by whoever asks. */
  ghost predicate OthersKept(storage: Storage, storage': Storage, id: string) {
    forall other, who :: other != id ==> Lookup(storage', other, who) == Lookup(storage, other, who)
  }

  /** Whatever else happened while a request was out, an answer with a rotated code succeeds: the same owner's
      next request goes out and spends that code, nobody else's does, and other connections are untouched. Any
      other answer fails and leaves storage alone. */
  lemma RotatedCodeIsSpentNext(before: Seen, id: string, owner: Owner, s: Seen, answer: Rotated)
    requires SendSent(before, id, owner).1.Ok?
    ensures var waiting := SendSent(before, id, owner).1.value;
            var (s', failed) := SendAnswered(s, id, waiting, answer);
            && (failed.None? <==> answer.Rotated? && answer.next.Some? && answer.next.value != "")
            && (failed.None? ==> Spends(s', id, owner, answer.next.value))
            && (failed.None? ==> forall who :: who != owner ==> Lookup(s'.storage, id, who) == Err(NotYours))
            && (failed.Some? ==> s'.storage == s.storage)
            && OthersKept(s.storage, s'.storage, id)
            && s'.sentCodes == s.sentCodes
            && OthersKept(before.storage, SendSent(before, id, owner).0.storage, id)
  {
  }

  /** The same of a handoff: redeemed for its own platform with a usable code, the connection's first request
      goes out and spends that code, and the handoff cannot be finished again. */
  lemma RedeemedCodeIsSpentNext(before: Seen, state: string, owner: Owner, code: string, now: int, s: Seen, answer: Redeemed)
    requires FinishSent(before, state, owner, code, now).1.Ok?
    ensures var waiting := FinishSent(before, state, owner, code, now).1.value;
            var (s', failed) := FinishAnswered(s, state, waiting, answer);
            && (failed.None? <==>
                  && answer.Redeem? && answer.platform == before.storage[state].platform
                  && answer.code.Some? && 0 < |answer.code.value| <= MAX_CODE)
            && (failed.None? ==> Spends(s', state, owner, answer.code.value))
            && (failed.None? ==> forall who, again, t :: FinishSent(s', state, who, again, t).1.Err?)
            && (failed.Some? ==> s'.storage == s.storage)
            && OthersKept(s.storage, s'.storage, state)
            && s'.sentCodes == s.sentCodes
            && OthersKept(before.storage, FinishSent(before, state, owner, code, now).0.storage, state)
  {
  }

  /** Cancelling is the owner's alone: it removes that connection, and nobody else's call changes anything. */
  lemma CancelIsOwners(s: Seen, id: string, owner: Owner)
    ensures var s' := Cancelled(s, id, owner);
            && (id in s.storage && s.storage[id].owner == owner ==> forall who :: Lookup(s'.storage, id, who) == Err(Reconnect))
            && (id !in s.storage || s.storage[id].owner != owner ==> s' == s)
            && OthersKept(s.storage, s'.storage, id) && s'.sentCodes == s.sentCodes && s'.sentVerifiers == s.sentVerifiers
  {
  }

  // ---- Every interleaving ---------------------------------------------------------------------

  datatype Pending = Finishing(state: string, waiting: Connection) | Sending(id: string, waiting: Connection)

  datatype World = World(seen: Seen, pending: map<nat, Pending>)

  datatype Event =
    | Start(state: string, owner: Owner, platform: string, now: int, verifier: string)
    | Cancel(state: string, owner: Owner)
    | Finish(call: nat, state: string, owner: Owner, code: string, now: int)
    | FinishAnswer(call: nat, redeemed: Redeemed)
    | Send(call: nat, id: string, owner: Owner)
    | SendAnswer(call: nat, rotated: Rotated)

  function Step(w: World, e: Event): World {
    match e
    case Start(state, owner, platform, now, verifier) => w.(seen := Started(w.seen, state, owner, platform, now, verifier))
    case Cancel(state, owner) => w.(seen := Cancelled(w.seen, state, owner))
    case Finish(call, state, owner, code, now) =>
      if call in w.pending then w
      else
        var (s, r) := FinishSent(w.seen, state, owner, code, now);
        World(s, if r.Ok? then w.pending[call := Finishing(state, r.value)] else w.pending)
    case FinishAnswer(call, redeemed) =>
      if call in w.pending && w.pending[call].Finishing? then
        World(FinishAnswered(w.seen, w.pending[call].state, w.pending[call].waiting, redeemed).0, w.pending - {call})
      else w
    case Send(call, id, owner) =>
      if call in w.pending then w
      else
        var (s, r) := SendSent(w.seen, id, owner);
        World(s, if r.Ok? then w.pending[call := Sending(id, r.value)] else w.pending)
    case SendAnswer(call, rotated) =>
      if call in w.pending && w.pending[call].Sending? then
        World(SendAnswered(w.seen, w.pending[call].id, w.pending[call].waiting, rotated).0, w.pending - {call})
      else w
  }

  function Continued(w: World, es: seq<Event>): World {
    if es == [] then w else Step(Continued(w, es[..|es| - 1]), es[|es| - 1])
  }

  const EMPTY := World(Seen(map[], [], [], [], []), map[])

  function Run(es: seq<Event>): World { Continued(EMPTY, es) }

  // ---- A conversation goes on -------------------------------------------------------------------

  /** One request after another, each answered with the next code. */
  function Conversation(call: nat, id: string, owner: Owner, codes: seq<string>): seq<Event> {
    if codes == [] then []
    else
      Conversation(call, id, owner, codes[..|codes| - 1])
      + [Send(call, id, owner)] + [SendAnswer(call, Rotated(Some(codes[|codes| - 1])))]
  }

  /** As long as answers carry a code, a connection never dies: each request spends the code the answer before
      it brought, in order, and the last one is left for the next request. */
  lemma {:induction false} ConversationSpendsEach(w: World, call: nat, id: string, owner: Owner, first: string, codes: seq<string>)
    requires call !in w.pending && Spends(w.seen, id, owner, first)
    requires forall i :: 0 <= i < |codes| ==> codes[i] != ""
    ensures var w', all := Continued(w, Conversation(call, id, owner, codes)), [first] + codes;
            && w'.pending == w.pending
            && w'.seen.sentCodes == w.seen.sentCodes + all[..|codes|]
            && Spends(w'.seen, id, owner, all[|codes|])
    decreases |codes|
  {
    hide Spends, Step;
    if codes == [] { return; }
    var n := |codes| - 1;
    ConversationSpendsEach(w, call, id, owner, first, codes[..n]);
    var all, before := [first] + codes, Conversation(call, id, owner, codes[..n]);
    var w1 := Continued(w, before);
    assert ([first] + codes[..n])[..n] == all[..n] && ([first] + codes[..n])[n] == all[n];
    ContinuedByTwo(w, before, Send(call, id, owner), SendAnswer(call, Rotated(Some(codes[n]))));
    ExchangeSpends(w1, call, id, owner, all[n], codes[n]);
    assert all[..n] + [all[n]] == all[..n + 1];
  }

  lemma ContinuedByTwo(w: World, es: seq<Event>, e: Event, f: Event)
    ensures Continued(w, es + [e] + [f]) == Step(Step(Continued(w, es), e), f)
  {
    hide Step;
    assert (es + [e])[..|es|] == es && (es + [e] + [f])[..|es| + 1] == es + [e];
  }

  lemma ExchangeSpends(w: World, call: nat, id: string, owner: Owner, code: string, next: string)
    requires call !in w.pending && Spends(w.seen, id, owner, code) && next != ""
    ensures var w' := Step(Step(w, Send(call, id, owner)), SendAnswer(call, Rotated(Some(next))));
            && w'.pending == w.pending && w'.seen.sentCodes == w.seen.sentCodes + [code] && Spends(w'.seen, id, owner, next)
  {
    var (s, r) := SendSent(w.seen, id, owner);
    RotatedCodeIsSpentNext(w.seen, id, owner, s, Rotated(Some(next)));
    assert w.pending[call := Sending(id, r.value)] - {call} == w.pending;
  }

  /** A handoff carried through within its time makes a connection: its verifier is sent, and its first request
      spends the code it was redeemed for. */
  lemma HandoffConnects(w: World, call: nat, state: string, owner: Owner, platform: string, now: int, verifier: string,
                        code: string, later: int, first: string)
    requires call !in w.pending && verifier != "" && 0 < |code| <= MAX_CODE && 0 < |first| <= MAX_CODE && later <= now + HANDOFF_MS
    ensures var es := [] + [Start(state, owner, platform, now, verifier)] + [Finish(call, state, owner, code, later)]
                         + [FinishAnswer(call, Redeem(platform, Some(first)))];
            var w' := Continued(w, es);
            && w'.pending == w.pending && w'.seen.sentVerifiers == w.seen.sentVerifiers + [verifier]
            && Spends(w'.seen, state, owner, first) && OthersKept(w.seen.storage, w'.seen.storage, state)
  {
    var begun: seq<Event> := [] + [Start(state, owner, platform, now, verifier)];
    var answer := FinishAnswer(call, Redeem(platform, Some(first)));
    ContinuedByTwo(w, begun, Finish(call, state, owner, code, later), answer);
    assert begun[..0] == [] && Continued(w, begun) == Step(w, begun[0]);
    var s := Started(w.seen, state, owner, platform, now, verifier);
    FinishConnects(World(s, w.pending), call, state, owner, code, later, first);
  }

  lemma FinishConnects(w: World, call: nat, state: string, owner: Owner, code: string, now: int, first: string)
    requires call !in w.pending && FinishSent(w.seen, state, owner, code, now).1.Ok? && 0 < |first| <= MAX_CODE
    ensures var platform := w.seen.storage[state].platform;
            var w' := Step(Step(w, Finish(call, state, owner, code, now)), FinishAnswer(call, Redeem(platform, Some(first))));
            && w'.pending == w.pending && Spends(w'.seen, state, owner, first)
            && w'.seen.sentVerifiers == FinishSent(w.seen, state, owner, code, now).0.sentVerifiers
            && OthersKept(w.seen.storage, w'.seen.storage, state)
  {
    var (s, r) := FinishSent(w.seen, state, owner, code, now);
    RedeemedCodeIsSpentNext(w.seen, state, owner, code, now, s, Redeem(w.seen.storage[state].platform, Some(first)));
    assert w.pending[call := Finishing(state, r.value)] - {call} == w.pending;
  }

  // ---- Secrets are spent once -------------------------------------------------------------------

  type Held = map<string, Option<string>>

  function CodesIn(storage: Storage): Held { map id | id in storage :: storage[id].code }
  function VerifiersIn(storage: Storage): Held { map id | id in storage :: storage[id].verifier }

  function Keepers(held: Held, x: string): set<string> { set id | id in held && held[id] == Some(x) }

  /** Each secret was sent, or is still held, at most as often as it was made. */
  ghost predicate Balanced(held: Held, sent: seq<string>, made: seq<string>) {
    forall x :: multiset(sent)[x] + |Keepers(held, x)| <= multiset(made)[x]
  }

  lemma KeepersWithout(held: Held, id: string, x: string)
    ensures Keepers(held[id := None], x) == Keepers(held, x) - {id} && Keepers(held - {id}, x) == Keepers(held, x) - {id}
    ensures |Keepers(held, x) - {id}| == |Keepers(held, x)| - if id in held && held[id] == Some(x) then 1 else 0
  {
  }

  lemma KeepersWith(held: Held, id: string, y: string, x: string)
    ensures |Keepers(held[id := Some(y)], x)| <= |Keepers(held, x)| + if x == y then 1 else 0
  {
    var after := Keepers(held[id := Some(y)], x);
    if x == y {
      assert after == Keepers(held, x) + {id};
    } else {
      assert after == Keepers(held, x) - {id};
      KeepersWithout(held, id, x);
    }
  }

  /** Taking a held secret out and sending it keeps the balance. */
  lemma SpendBalanced(held: Held, sent: seq<string>, made: seq<string>, id: string)
    requires Balanced(held, sent, made) && id in held && held[id].Some?
    ensures Balanced(held[id := None], sent + [held[id].value], made)
  {
    forall x ensures multiset(sent + [held[id].value])[x] + |Keepers(held[id := None], x)| <= multiset(made)[x] {
      KeepersWithout(held, id, x);
      assert multiset(sent)[x] + |Keepers(held, x)| <= multiset(made)[x];
    }
  }

  lemma GainBalanced(held: Held, sent: seq<string>, made: seq<string>, id: string, y: string)
    requires Balanced(held, sent, made)
    ensures Balanced(held[id := Some(y)], sent, made + [y])
  {
    forall x ensures multiset(sent)[x] + |Keepers(held[id := Some(y)], x)| <= multiset(made + [y])[x] {
      KeepersWith(held, id, y, x);
      assert multiset(sent)[x] + |Keepers(held, x)| <= multiset(made)[x];
    }
  }

  lemma DropBalanced(held: Held, sent: seq<string>, made: seq<string>, id: string)
    requires Balanced(held, sent, made)
    ensures Balanced(held[id := None], sent, made) && Balanced(held - {id}, sent, made)
  {
    forall x
      ensures multiset(sent)[x] + |Keepers(held[id := None], x)| <= multiset(made)[x]
      ensures multiset(sent)[x] + |Keepers(held - {id}, x)| <= multiset(made)[x]
    {
      KeepersWithout(held, id, x);
      assert multiset(sent)[x] + |Keepers(held, x)| <= multiset(made)[x];
    }
  }

  lemma WastedBalanced(held: Held, sent: seq<string>, made: seq<string>, y: string)
    requires Balanced(held, sent, made)
    ensures Balanced(held, sent, made + [y])
  {
    forall x ensures multiset(sent)[x] + |Keepers(held, x)| <= multiset(made + [y])[x] {
      assert multiset(sent)[x] + |Keepers(held, x)| <= multiset(made)[x];
    }
  }

  /** Both kinds of secret are balanced. */
  ghost predicate SeenBalanced(s: Seen) {
    && Balanced(CodesIn(s.storage), s.sentCodes, s.issued)
    && Balanced(VerifiersIn(s.storage), s.sentVerifiers, s.drawn)
  }

  /** A connection that can send has no verifier left, so writing back what a request waited with brings no
      verifier back. */
  predicate Shaped(storage: Storage) {
    forall id | id in storage :: storage[id].ready ==> storage[id].verifier == None
  }

  predicate Waits(p: Pending) {
    p.waiting.verifier == None && (p.Sending? ==> p.waiting.ready)
  }

  ghost predicate Inv(w: World) {
    && SeenBalanced(w.seen) && Shaped(w.seen.storage)
    && forall call :: call in w.pending ==> Waits(w.pending[call])
  }

  lemma StoredHeld(storage: Storage, id: string, c: Connection)
    ensures CodesIn(storage[id := c]) == CodesIn(storage)[id := c.code]
    ensures VerifiersIn(storage[id := c]) == VerifiersIn(storage)[id := c.verifier]
    ensures CodesIn(storage - {id}) == CodesIn(storage) - {id} && VerifiersIn(storage - {id}) == VerifiersIn(storage) - {id}
  {
  }

  lemma SameHeld(held: Held, id: string)
    requires id in held
    ensures held[id := held[id]] == held
  {
  }

  lemma StartKeeps(s: Seen, state: string, owner: Owner, platform: string, now: int, verifier: string)
    requires SeenBalanced(s) && Shaped(s.storage)
    ensures SeenBalanced(Started(s, state, owner, platform, now, verifier)) && Shaped(Started(s, state, owner, platform, now, verifier).storage)
  {
    hide Balanced;
    StoredHeld(s.storage, state, Connection(owner, platform, now + HANDOFF_MS, None, Some(verifier), false));
    DropBalanced(CodesIn(s.storage), s.sentCodes, s.issued, state);
    GainBalanced(VerifiersIn(s.storage), s.sentVerifiers, s.drawn, state, verifier);
  }

  lemma RemoveKeeps(s: Seen, id: string)
    requires SeenBalanced(s) && Shaped(s.storage)
    ensures SeenBalanced(s.(storage := s.storage - {id})) && Shaped(s.storage - {id})
  {
    hide Balanced;
    if id in s.storage { StoredHeld(s.storage, id, s.storage[id]); } else { assert s.storage - {id} == s.storage; }
    DropBalanced(CodesIn(s.storage), s.sentCodes, s.issued, id);
    DropBalanced(VerifiersIn(s.storage), s.sentVerifiers, s.drawn, id);
  }

  lemma FinishSentKeeps(s: Seen, state: string, owner: Owner, code: string, now: int)
    requires SeenBalanced(s) && Shaped(s.storage)
    ensures var (s', r) := FinishSent(s, state, owner, code, now);
            SeenBalanced(s') && Shaped(s'.storage) && (r.Ok? ==> r.value.verifier == None)
  {
    hide Balanced, CodesIn, VerifiersIn;
    if Lookup(s.storage, state, owner).Ok? {
      var c := s.storage[state];
      RemoveKeeps(s, state);
      StoredHeld(s.storage, state, c.(verifier := None));
      HeldHas(s.storage, state);
      SameHeld(CodesIn(s.storage), state);
      if Truthy(c.verifier) { SpendBalanced(VerifiersIn(s.storage), s.sentVerifiers, s.drawn, state); }
    }
  }

  lemma HeldHas(storage: Storage, id: string)
    requires id in storage
    ensures id in CodesIn(storage) && CodesIn(storage)[id] == storage[id].code
    ensures id in VerifiersIn(storage) && VerifiersIn(storage)[id] == storage[id].verifier
  {
  }

  /** Writing an answer's code back with what the request waited with. */
  lemma WriteBackKeeps(s: Seen, id: string, waiting: Connection, code: string)
    requires SeenBalanced(s) && Shaped(s.storage) && waiting.verifier == None
    ensures SeenBalanced(Issued(s, Some(code)).(storage := s.storage[id := waiting.(ready := true, code := Some(code))]))
    ensures Shaped(s.storage[id := waiting.(ready := true, code := Some(code))])
  {
    hide Balanced, CodesIn, VerifiersIn;
    StoredHeld(s.storage, id, waiting.(ready := true, code := Some(code)));
    GainBalanced(CodesIn(s.storage), s.sentCodes, s.issued, id, code);
    DropBalanced(VerifiersIn(s.storage), s.sentVerifiers, s.drawn, id);
  }

  lemma IssuedKeeps(s: Seen, code: Option<string>)
    requires SeenBalanced(s)
    ensures SeenBalanced(Issued(s, code))
  {
    hide Balanced, CodesIn, VerifiersIn;
    if code.Some? { WastedBalanced(CodesIn(s.storage), s.sentCodes, s.issued, code.value); }
  }

  lemma SendSentKeeps(s: Seen, id: string, owner: Owner)
    requires SeenBalanced(s) && Shaped(s.storage)
    ensures var (s', r) := SendSent(s, id, owner);
            SeenBalanced(s') && Shaped(s'.storage) && (r.Ok? ==> r.value.verifier == None && r.value.ready)
  {
    hide Balanced, CodesIn, VerifiersIn;
    if Lookup(s.storage, id, owner).Ok? {
      var c := s.storage[id];
      StoredHeld(s.storage, id, c.(code := None));
      HeldHas(s.storage, id);
      SameHeld(VerifiersIn(s.storage), id);
      if Truthy(c.code) { SpendBalanced(CodesIn(s.storage), s.sentCodes, s.issued, id); }
    }
  }

  lemma StepKeepsInv(w: World, e: Event)
    requires Inv(w)
    ensures Inv(Step(w, e))
  {
    hide SeenBalanced, Shaped, FinishSent, SendSent, Started;
    match e
    case Start(state, owner, platform, now, verifier) => StartKeeps(w.seen, state, owner, platform, now, verifier);
    case Cancel(state, owner) => RemoveKeeps(w.seen, state);
    case Finish(call, state, owner, code, now) => FinishSentKeeps(w.seen, state, owner, code, now);
    case Send(call, id, owner) => SendSentKeeps(w.seen, id, owner);
    case FinishAnswer(call, redeemed) =>
      if call in w.pending && w.pending[call].Finishing? && redeemed.Redeem? {
        IssuedKeeps(w.seen, redeemed.code);
        if redeemed.code.Some? { WriteBackKeeps(w.seen, w.pending[call].state, w.pending[call].waiting, redeemed.code.value); }
      }
    case SendAnswer(call, rotated) =>
      if call in w.pending && w.pending[call].Sending? && rotated.Rotated? {
        IssuedKeeps(w.seen, rotated.next);
        var waiting := w.pending[call].waiting;
        assert waiting.ready ==> forall next :: waiting.(ready := true, code := next) == waiting.(code := next);
        if rotated.next.Some? { WriteBackKeeps(w.seen, w.pending[call].id, waiting, rotated.next.value); }
      }
  }

  lemma {:induction false} RunKeepsInv(es: seq<Event>)
    ensures Inv(Run(es))
  {
    hide Inv, Step;
    if es == [] { NothingSeen(); } else {
      RunKeepsInv(es[..|es| - 1]);
      StepKeepsInv(Run(es[..|es| - 1]), es[|es| - 1]);
    }
  }

  lemma NothingSeen()
    ensures Inv(EMPTY)
  {
  }

  lemma {:induction false} RepeatCounts(list: seq<string>, i: nat, j: nat)
    requires i < j < |list| && list[i] == list[j]
    ensures multiset(list)[list[i]] >= 2
  {
    assert list == list[..j] + [list[j]] + list[j + 1..];
    assert list[i] == list[..j][i] && list[i] in list[..j];
    assert list[i] in multiset(list[..j]);
  }

  lemma {:induction false} FreshCounts(list: seq<string>, x: string)
    requires NoRepeats(list)
    ensures multiset(list)[x] <= 1
  {
    if list != [] {
      var n := |list| - 1;
      assert list == list[..n] + [list[n]];
      FreshCounts(list[..n], x);
      if list[n] == x { assert x !in list[..n]; }
    }
  }

  lemma OnceEach(held: Held, sent: seq<string>, made: seq<string>)
    requires Balanced(held, sent, made) && NoRepeats(made)
    ensures NoRepeats(sent)
    ensures forall id :: id in held && held[id].Some? ==> held[id].value !in sent
  {
    forall i, j | 0 <= i < j < |sent| ensures sent[i] != sent[j] {
      FreshCounts(made, sent[i]);
      if sent[i] == sent[j] { RepeatCounts(sent, i, j); }
    }
    forall id | id in held && held[id].Some? ensures held[id].value !in sent {
      var x := held[id].value;
      FreshCounts(made, x);
      assert id in Keepers(held, x);
      assert x in sent ==> multiset(sent)[x] >= 1;
    }
  }

  /** In every interleaving, with any answers lost, no connection code and no verifier is sent more often
      than it was made; so when the server never repeats a code and no verifier is drawn twice, each is sent
      at most once, and what storage still holds was never sent. */
  lemma SecretsSentOnce(es: seq<Event>)
    ensures var s := Run(es).seen;
            && (forall x :: multiset(s.sentCodes)[x] <= multiset(s.issued)[x])
            && (forall x :: multiset(s.sentVerifiers)[x] <= multiset(s.drawn)[x])
            && (NoRepeats(s.issued) ==> NoRepeats(s.sentCodes)
                                        && forall id :: id in s.storage && s.storage[id].code.Some? ==> s.storage[id].code.value !in s.sentCodes)
            && (NoRepeats(s.drawn) ==> NoRepeats(s.sentVerifiers)
                                       && forall id :: id in s.storage && s.storage[id].verifier.Some? ==> s.storage[id].verifier.value !in s.sentVerifiers)
  {
    hide Run, NoRepeats, Shaped, CodesIn, VerifiersIn, Keepers;
    RunKeepsInv(es);
    var s := Run(es).seen;
    forall id | id in s.storage
      ensures id in CodesIn(s.storage) && CodesIn(s.storage)[id] == s.storage[id].code
      ensures id in VerifiersIn(s.storage) && VerifiersIn(s.storage)[id] == s.storage[id].verifier
    {
      HeldHas(s.storage, id);
    }
    if NoRepeats(s.issued) { OnceEach(CodesIn(s.storage), s.sentCodes, s.issued); }
    if NoRepeats(s.drawn) { OnceEach(VerifiersIn(s.storage), s.sentVerifiers, s.drawn); }
  }

  // ---- Cancelling -----------------------------------------------------------------------------------

  function IdOf(p: Pending): string {
    match p case Finishing(state, _) => state case Sending(id, _) => id
  }

  /** A request of the connection, to finish it or through it, waits for its answer. */
  ghost predicate Waiting(w: World, id: string) {
    exists call :: call in w.pending && IdOf(w.pending[call]) == id
  }

  ghost predicate NeverStarted(es: seq<Event>, id: string) {
    forall i {:trigger es[i]} | 0 <= i < |es| :: es[i].Start? ==> es[i].state != id
  }

  lemma {:induction false} GoneStaysGone(w: World, es: seq<Event>, id: string)
    requires id !in w.seen.storage && !Waiting(w, id) && NeverStarted(es, id)
    ensures id !in Continued(w, es).seen.storage && !Waiting(Continued(w, es), id)
    decreases |es|
  {
    hide Step, Waiting;
    if es != [] {
      var n := |es| - 1;
      assert forall i | 0 <= i < n :: es[..n][i] == es[i];
      GoneStaysGone(w, es[..n], id);
      StepStaysGone(Continued(w, es[..n]), es[n], id);
    }
  }

  lemma StepStaysGone(w: World, e: Event, id: string)
    requires id !in w.seen.storage && !Waiting(w, id) && (e.Start? ==> e.state != id)
    ensures id !in Step(w, e).seen.storage && !Waiting(Step(w, e), id)
  {
  }

  /** An answer that brings the connection back: a rotated code, or a redeemed one for its platform. */
  function Revival(call: nat, p: Pending): Event {
    match p
    case Finishing(_, waiting) => FinishAnswer(call, Redeem(waiting.platform, Some("code")))
    case Sending(_, _) => SendAnswer(call, Rotated(Some("code")))
  }

  lemma AnswerRevives(w: World, call: nat)
    requires call in w.pending
    ensures IdOf(w.pending[call]) in Step(w, Revival(call, w.pending[call])).seen.storage
  {
    assert |"code"| == 4;
  }

  /** A cancelled connection stays out of storage, whatever happens next short of starting it anew, exactly
      when none of its requests was waiting for an answer at the moment of the cancel. */
  lemma CancelStaysIff(w: World, id: string, owner: Owner)
    requires Lookup(w.seen.storage, id, owner).Ok?
    ensures (forall es :: NeverStarted(es, id) ==> id !in Continued(Step(w, Cancel(id, owner)), es).seen.storage) <==> !Waiting(w, id)
  {
    hide Revival;
    var w' := Step(w, Cancel(id, owner));
    assert w'.pending == w.pending && id !in w'.seen.storage;
    if Waiting(w, id) {
      var call :| call in w.pending && IdOf(w.pending[call]) == id;
      var es := [Revival(call, w.pending[call])];
      AnswerRevives(w', call);
      assert es[..0] == [] && Continued(w', []) == w';
      assert Continued(w', es) == Step(w', es[0]);
      assert NeverStarted(es, id) by { RevivalStartsNothing(call, w.pending[call]); }
    } else {
      forall es | NeverStarted(es, id) ensures id !in Continued(w', es).seen.storage {
        GoneStaysGone(w', es, id);
      }
    }
  }

  lemma RevivalStartsNothing(call: nat, p: Pending)
    ensures !Revival(call, p).Start?
  {
  }

  // ---- The client ---------------------------------------------------------------------------------

  class BrowserIntegrations {
    var storage: Storage
    const origin: string
    ghost var seen: Seen

    ghost predicate Valid() reads this { seen.storage == storage }

    constructor (origin: string)
      ensures Valid() && storage == map[] && seen == Seen(map[], [], [], [], []) && this.origin == origin
    {
      storage, this.origin, seen := map[], origin, Seen(map[], [], [], [], []);
    }

    /** `start`, once the platform is known: its owner, and nobody else, can finish the handoff, for ten
        minutes; no other connection is touched. */
    method Start(drive: string, actor: string, platform: string, now: int, state: string, verifier: string)
      requires Valid()
      modifies this
      ensures Valid() && seen == Started(old(seen), state, Owner(drive, actor, origin), platform, now, verifier)
      ensures forall who, code, t ::
                FinishSent(seen, state, who, code, t).1.Ok? <==>
                who == Owner(drive, actor, origin) && t <= now + HANDOFF_MS && verifier != "" && code != "" && |code| <= MAX_CODE
      ensures forall id, who :: id != state ==> Lookup(storage, id, who) == Lookup(old(storage), id, who)
    {
      storage := storage[state := Connection(Owner(drive, actor, origin), platform, now + HANDOFF_MS, None, Some(verifier), false)];
      seen := Started(seen, state, Owner(drive, actor, origin), platform, now, verifier);
    }

    /** `finish` up to its request: takes the verifier out before sending it. */
    method BeginFinish(drive: string, actor: string, state: string, code: string, now: int)
        returns (r: Result<Connection, TransportError>, verifier: string)
      requires Valid()
      modifies this
      ensures Valid() && (seen, r) == FinishSent(old(seen), state, Owner(drive, actor, origin), code, now)
      ensures r.Ok? ==> seen.sentVerifiers == old(seen).sentVerifiers + [verifier]
    {
      verifier := "";
      var found := Lookup(storage, state, Owner(drive, actor, origin));
      if found.Err? { return found, verifier; }
      var c := found.value;
      if c.expires < now {
        storage := storage - {state};
        seen := seen.(storage := storage);
        return Err(Reconnect), verifier;
      }
      if c.ready || !Truthy(c.verifier) || code == "" || |code| > MAX_CODE { return Err(Reconnect), verifier; }
      verifier := c.verifier.value;
      c := c.(verifier := None);
      storage := storage[state := c];
      seen := seen.(storage := storage, sentVerifiers := seen.sentVerifiers + [verifier]);
      return Ok(c), verifier;
    }

    /** `finish` from its answer on. */
    method EndFinish(state: string, waiting: Connection, answer: Redeemed) returns (failed: Option<TransportError>)
      requires Valid()
      modifies this
      ensures Valid() && (seen, failed) == FinishAnswered(old(seen), state, waiting, answer)
      ensures failed.None? <==>
                answer.Redeem? && answer.platform == waiting.platform && answer.code.Some? && 0 < |answer.code.value| <= MAX_CODE
      ensures failed.None? ==> Spends(seen, state, waiting.owner, answer.code.value)
      ensures OthersKept(old(storage), storage, state) && (failed.Some? ==> storage == old(storage))
    {
      if !answer.Redeem? { return Some(HttpFailed); }
      seen := Issued(seen, answer.code);
      if answer.platform != waiting.platform { return Some(WrongPlatform); }
      if !Truthy(answer.code) || |answer.code.value| > MAX_CODE { return Some(InvalidCode); }
      storage := storage[state := waiting.(ready := true, code := answer.code)];
      seen := seen.(storage := storage);
      return None;
    }

    /** `send` up to its request: takes the code out before sending it. */
    method BeginSend(drive: string, actor: string, id: string) returns (r: Result<Connection, TransportError>, code: string)
      requires Valid()
      modifies this
      ensures Valid() && (seen, r) == SendSent(old(seen), id, Owner(drive, actor, origin))
      ensures r.Ok? ==> seen.sentCodes == old(seen).sentCodes + [code]
    {
      code := "";
      var found := Lookup(storage, id, Owner(drive, actor, origin));
      if found.Err? { return found, code; }
      var current := found.value;
      if !current.ready || !Truthy(current.code) { return Err(Reconnect), code; }
      code := current.code.value;
      current := current.(code := None);
      storage := storage[id := current];
      seen := seen.(storage := storage, sentCodes := seen.sentCodes + [code]);
      return Ok(current), code;
    }

    /** `send` from its answer on: keeps the rotated code before anything reads the answer. */
    method EndSend(id: string, waiting: Connection, answer: Rotated) returns (failed: Option<TransportError>)
      requires Valid()
      modifies this
      ensures Valid() && (seen, failed) == SendAnswered(old(seen), id, waiting, answer)
      ensures failed.None? <==> answer.Rotated? && answer.next.Some? && answer.next.value != ""
      ensures failed.None? && waiting.ready ==> Spends(seen, id, waiting.owner, answer.next.value)
      ensures OthersKept(old(storage), storage, id) && (failed.Some? ==> storage == old(storage))
    {
      if answer.LostAnswer? { return Some(HttpFailed); }
      seen := Issued(seen, answer.next);
      if !Truthy(answer.next) { return Some(NoRotation); }
      storage := storage[id := waiting.(code := answer.next)];
      seen := seen.(storage := storage);
      return None;
    }
  }
}
