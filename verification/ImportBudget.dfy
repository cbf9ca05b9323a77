/** Request budgets of an import or an access check (`fetchRecords` in
    `integrations/localthought/browser.ts`): the engine may ask for any URLs, any number of times. */
module ImportBudget {
  import opened Basics
  import opened Transport

  const RETRIES: nat := 3

  datatype FetchError = Aborted | LeftOrigin | TooManyRequests | DelayTooLong | ProbeDone | SendFailed(error: TransportError)

  /** What one send meets: its answer, its status, the finite retry delay its header asks for, the time
      left then, and whether the import is aborted by the end of that delay. */
  datatype Turn = Turn(answer: Rotated, status: nat, retryAfter: Option<int>, remaining: int, aborted: bool)

  /** One URL the engine asks for: whether the import is aborted at the start or after the request interval,
      whether the URL stays at the catalog's origin, and what each send would meet. */
  datatype Ask = Ask(aborted: bool, sameOrigin: bool, abortedAfterWait: bool, turns: seq<Turn>)

  predicate Enough(ask: Ask) { |ask.turns| == RETRIES + 1 }

  /** A too-many-requests answer with a finite delay that fits is worth another send. */
  predicate Retried(turn: Turn, retries: nat) {
    turn.status == 429 && retries < RETRIES && turn.retryAfter.Some?
  }

  function Delay(turn: Turn): int
    requires turn.retryAfter.Some?
  {
    if turn.retryAfter.value < 0 then 0 else turn.retryAfter.value
  }

  /** One send of `send`: its request and its answer. */
  function Sent(s: Seen, id: string, owner: Owner, answer: Rotated): (Seen, Option<TransportError>) {
    var (s1, r) := SendSent(s, id, owner);
    match r
    case Err(e) => (s1, Some(e))
    case Ok(waiting) => SendAnswered(s1, id, waiting, answer)
  }

  /** The retry loop of one URL. */
  function Attempts(s: Seen, id: string, owner: Owner, requests: nat, max: nat, retries: nat, turns: seq<Turn>): (Seen, nat, Result<nat, FetchError>)
    requires retries <= RETRIES && |turns| + retries == RETRIES + 1
    decreases |turns|
  {
    if requests + 1 > max then (s, requests + 1, Err(TooManyRequests))
    else
      var turn := turns[0];
      var (s', failed) := Sent(s, id, owner, turn.answer);
      if failed.Some? then (s', requests + 1, Err(SendFailed(failed.value)))
      else if !Retried(turn, retries) then (s', requests + 1, Ok(turn.status))
      else if Delay(turn) > turn.remaining then (s', requests + 1, Err(DelayTooLong))
      else if turn.aborted then (s', requests + 1, Err(Aborted))
      else Attempts(s', id, owner, requests + 1, max, retries + 1, turns[1..])
  }

  function Fetched(s: Seen, id: string, owner: Owner, requests: nat, max: nat, ask: Ask): (Seen, nat, Result<nat, FetchError>)
    requires Enough(ask)
  {
    if ask.aborted then (s, requests, Err(Aborted))
    else if !ask.sameOrigin then (s, requests, Err(LeftOrigin))
    else if ask.abortedAfterWait then (s, requests, Err(Aborted))
    else Attempts(s, id, owner, requests, max, 0, ask.turns)
  }

  /** All URLs of an import, in whatever order the engine asks. */
  function Imported(s: Seen, id: string, owner: Owner, requests: nat, max: nat, asks: seq<Ask>): (Seen, nat)
    requires forall ask :: ask in asks ==> Enough(ask)
    decreases |asks|
  {
    if asks == [] then (s, requests)
    else
      assert Enough(asks[0]);
      var (s', requests', _) := Fetched(s, id, owner, requests, max, asks[0]);
      Imported(s', id, owner, requests', max, asks[1..])
  }

  /** An access check: the first URL that passes the checks is sent once, everything later is refused. */
  function Probed(s: Seen, id: string, owner: Owner, attempted: bool, ask: Ask): (Seen, bool)
    requires Enough(ask)
  {
    if attempted || ask.aborted || !ask.sameOrigin then (s, attempted) else (Sent(s, id, owner, ask.turns[0].answer).0, true)
  }

  function Validated(s: Seen, id: string, owner: Owner, attempted: bool, asks: seq<Ask>): (Seen, bool)
    requires forall ask :: ask in asks ==> Enough(ask)
    decreases |asks|
  {
    if asks == [] then (s, attempted)
    else
      assert Enough(asks[0]);
      var (s', attempted') := Probed(s, id, owner, attempted, asks[0]);
      Validated(s', id, owner, attempted', asks[1..])
  }

  // ---- Budgets --------------------------------------------------------------------------------

  function Min(a: int, b: int): int { if a < b then a else b }

  lemma SentOnce(s: Seen, id: string, owner: Owner, answer: Rotated)
    ensures s.sentCodes <= Sent(s, id, owner, answer).0.sentCodes && |Sent(s, id, owner, answer).0.sentCodes| <= |s.sentCodes| + 1
  {
  }

  lemma {:induction false} AttemptsWithin(s: Seen, id: string, owner: Owner, requests: nat, max: nat, retries: nat, turns: seq<Turn>)
    requires retries <= RETRIES && |turns| + retries == RETRIES + 1
    ensures var (s', requests', _) := Attempts(s, id, owner, requests, max, retries, turns);
            && requests' >= requests && s.sentCodes <= s'.sentCodes
            && |s'.sentCodes| - |s.sentCodes| <= |turns|
            && |s'.sentCodes| - |s.sentCodes| <= Min(requests', max) - Min(requests, max)
    decreases |turns|
  {
    hide Sent, Delay;
    if requests + 1 <= max {
      var turn := turns[0];
      SentOnce(s, id, owner, turn.answer);
      var (s', failed) := Sent(s, id, owner, turn.answer);
      if failed.None? && Retried(turn, retries) {
        AttemptsWithin(s', id, owner, requests + 1, max, retries + 1, turns[1..]);
      }
    }
  }

  /** One URL costs at most four sends. */
  lemma UrlWithinRetries(s: Seen, id: string, owner: Owner, requests: nat, max: nat, ask: Ask)
    requires Enough(ask)
    ensures |Fetched(s, id, owner, requests, max, ask).0.sentCodes| <= |s.sentCodes| + RETRIES + 1
  {
    AttemptsWithin(s, id, owner, requests, max, 0, ask.turns);
  }

  lemma {:induction false} ImportedWithin(s: Seen, id: string, owner: Owner, requests: nat, max: nat, asks: seq<Ask>)
    requires forall ask :: ask in asks ==> Enough(ask)
    ensures var (s', requests') := Imported(s, id, owner, requests, max, asks);
            requests' >= requests && |s'.sentCodes| - |s.sentCodes| <= Min(requests', max) - Min(requests, max)
    decreases |asks|
  {
    hide Attempts;
    if asks != [] {
      assert Enough(asks[0]);
      AttemptsWithin(s, id, owner, requests, max, 0, asks[0].turns);
      var (s', requests', r) := Fetched(s, id, owner, requests, max, asks[0]);
      ImportedWithin(s', id, owner, requests', max, asks[1..]);
    }
  }

  /** However many URLs the engine asks for, an import sends at most its budget of requests, and an access
      check at most one. */
  lemma ImportWithinBudget(s: Seen, id: string, owner: Owner, max: nat, asks: seq<Ask>)
    requires forall ask :: ask in asks ==> Enough(ask)
    ensures |Imported(s, id, owner, 0, max, asks).0.sentCodes| <= |s.sentCodes| + max
    ensures |Validated(s, id, owner, false, asks).0.sentCodes| <= |s.sentCodes| + 1
  {
    ImportedWithin(s, id, owner, 0, max, asks);
    ValidatedWithin(s, id, owner, false, asks);
  }

  lemma {:induction false} ValidatedWithin(s: Seen, id: string, owner: Owner, attempted: bool, asks: seq<Ask>)
    requires forall ask :: ask in asks ==> Enough(ask)
    ensures |Validated(s, id, owner, attempted, asks).0.sentCodes| <= |s.sentCodes| + if attempted then 0 else 1
    decreases |asks|
  {
    hide Sent;
    if asks != [] {
      assert Enough(asks[0]);
      SentOnce(s, id, owner, asks[0].turns[0].answer);
      var (s', attempted') := Probed(s, id, owner, attempted, asks[0]);
      ValidatedWithin(s', id, owner, attempted', asks[1..]);
    }
  }

  // ---- Exactly what is sent -------------------------------------------------------------------

  /** Worth another send: too many requests, with a finite delay that fits the time left, and not aborted. */
  predicate Worthwhile(turn: Turn) {
    turn.status == 429 && turn.retryAfter.Some? && turn.retryAfter.value <= turn.remaining && 0 <= turn.remaining && !turn.aborted
  }

  predicate Rotates(turn: Turn) {
    turn.answer.Rotated? && turn.answer.next.Some? && turn.answer.next.value != ""
  }

  /** The code held at first, then the one each answer brings. */
  function CodesFrom(first: string, turns: seq<Turn>): (r: seq<string>)
    requires forall k | 0 <= k < |turns| :: Rotates(turns[k])
    ensures |r| == |turns| + 1
  {
    [first] + seq(|turns|, k requires 0 <= k < |turns| && Rotates(turns[k]) => turns[k].answer.next.value)
  }

  /** What the loop makes of the turn it stops at. */
  predicate StopsWith(turn: Turn, last: bool, r: Result<nat, FetchError>) {
    if last || turn.status != 429 || turn.retryAfter.None? then r == Ok(turn.status)
    else if turn.retryAfter.value > turn.remaining || 0 > turn.remaining then r == Err(DelayTooLong)
    else r == Err(Aborted)
  }

  lemma SentSpends(s: Seen, id: string, owner: Owner, code: string, answer: Rotated)
    requires Spends(s, id, owner, code) && answer.Rotated? && answer.next.Some? && answer.next.value != ""
    ensures var (s', failed) := Sent(s, id, owner, answer);
            failed == None && s'.sentCodes == s.sentCodes + [code] && Spends(s', id, owner, answer.next.value)
  {
    RotatedCodeIsSpentNext(s, id, owner, SendSent(s, id, owner).0, answer);
  }

  /** As long as answers bring codes, one URL is sent again after every worthwhile answer, up to three times and
      while requests are left, each time with the code the answer before brought; it ends as the first answer not
      worth a retry says, or for want of requests. */
  lemma {:induction false} AttemptsExactly(s: Seen, id: string, owner: Owner, requests: nat, max: nat, retries: nat, turns: seq<Turn>, first: string, n: nat)
    requires retries <= RETRIES && |turns| + retries == RETRIES + 1 && Spends(s, id, owner, first)
    requires forall k | 0 <= k < |turns| :: Rotates(turns[k])
    requires n < |turns| && (forall k | 0 <= k < n :: Worthwhile(turns[k])) && (n + 1 == |turns| || !Worthwhile(turns[n]))
    ensures var (s', requests', r) := Attempts(s, id, owner, requests, max, retries, turns);
            var codes := CodesFrom(first, turns);
            if requests + n + 1 <= max then
              requests' == requests + n + 1 && s'.sentCodes == s.sentCodes + codes[..n + 1] && StopsWith(turns[n], n + 1 == |turns|, r)
            else
              var left := if requests <= max then max - requests else 0;
              requests' == requests + left + 1 && s'.sentCodes == s.sentCodes + codes[..left] && r == Err(TooManyRequests)
    decreases |turns|
  {
    hide Sent, Spends;
    var codes := CodesFrom(first, turns);
    if requests + 1 > max {
      assert codes[..0] == [];
    } else {
      assert Rotates(turns[0]);
      var next := turns[0].answer.next.value;
      SentSpends(s, id, owner, first, turns[0].answer);
      var s1 := Sent(s, id, owner, turns[0].answer).0;
      assert codes[..1] == [first];
      if n > 0 {
        assert Worthwhile(turns[0]);
        assert forall k | 0 <= k < |turns[1..]| :: turns[1..][k] == turns[k + 1];
        AttemptsExactly(s1, id, owner, requests + 1, max, retries + 1, turns[1..], next, n - 1);
        var later := CodesFrom(next, turns[1..]);
        assert codes[1..] == later;
        assert forall m: nat | m < |codes| :: [first] + later[..m] == codes[..m + 1];
        assert forall m: nat | m < |codes| :: s.sentCodes + [first] + later[..m] == s.sentCodes + codes[..m + 1] by {
          assert forall m: nat | m < |codes| :: s.sentCodes + [first] + later[..m] == s.sentCodes + ([first] + later[..m]);
        }
      }
    }
  }

  /** The checks come first: an import that is aborted, or a URL off the catalog's origin, sends nothing and
      costs no request. */
  lemma RefusedSendsNothing(s: Seen, id: string, owner: Owner, requests: nat, max: nat, ask: Ask)
    requires Enough(ask) && (ask.aborted || !ask.sameOrigin || ask.abortedAfterWait)
    ensures var (s', requests', r) := Fetched(s, id, owner, requests, max, ask);
            s' == s && requests' == requests && r == Err(if ask.aborted || ask.sameOrigin then Aborted else LeftOrigin)
  {
  }

  predicate Passes(ask: Ask) { !ask.aborted && ask.sameOrigin }

  /** An access check of a usable connection sends once, exactly when some URL passes the checks. */
  lemma {:induction false} CheckSendsOnceIff(s: Seen, id: string, owner: Owner, code: string, asks: seq<Ask>)
    requires Spends(s, id, owner, code) && forall ask :: ask in asks ==> Enough(ask)
    ensures var (s', attempted) := Validated(s, id, owner, false, asks);
            && s'.sentCodes == s.sentCodes + (if exists ask :: ask in asks && Passes(ask) then [code] else [])
            && (attempted <==> exists ask :: ask in asks && Passes(ask))
    decreases |asks|
  {
    hide Sent;
    if asks != [] {
      assert Enough(asks[0]) && asks[0] in asks;
      assert asks == [asks[0]] + asks[1..];
      if Passes(asks[0]) {
        SentSpendsOne(s, id, owner, code, asks[0].turns[0].answer);
        NothingAfterCheck(Probed(s, id, owner, false, asks[0]).0, id, owner, asks[1..]);
      } else {
        CheckSendsOnceIff(s, id, owner, code, asks[1..]);
      }
    }
  }

  lemma SentSpendsOne(s: Seen, id: string, owner: Owner, code: string, answer: Rotated)
    requires Spends(s, id, owner, code)
    ensures Sent(s, id, owner, answer).0.sentCodes == s.sentCodes + [code]
  {
  }

  lemma {:induction false} NothingAfterCheck(s: Seen, id: string, owner: Owner, asks: seq<Ask>)
    requires forall ask :: ask in asks ==> Enough(ask)
    ensures Validated(s, id, owner, true, asks) == (s, true)
    decreases |asks|
  {
    if asks != [] {
      assert Enough(asks[0]);
      NothingAfterCheck(s, id, owner, asks[1..]);
    }
  }

  // ---- The import's own loop --------------------------------------------------------------------

  class ImportRun {
    const client: BrowserIntegrations
    const id: string
    const drive: string
    const actor: string
    const maxRequests: nat
    var requests: nat
    var probeAttempted: bool

    constructor (client: BrowserIntegrations, id: string, drive: string, actor: string, maxRequests: nat)
      ensures this.client == client && this.id == id && this.drive == drive && this.actor == actor
      ensures this.maxRequests == maxRequests && requests == 0 && !probeAttempted
    {
      this.client, this.id, this.drive, this.actor, this.maxRequests := client, id, drive, actor, maxRequests;
      requests, probeAttempted := 0, false;
    }

    function Who(): Owner reads client { Owner(drive, actor, client.origin) }

    /** `send`: the code is consumed before the request and rotated before the answer is used. */
    method Send(answer: Rotated) returns (failed: Option<TransportError>)
      requires client.Valid()
      modifies client
      ensures client.Valid() && (client.seen, failed) == Sent(old(client.seen), id, Who(), answer)
    {
      var waiting, code := client.BeginSend(drive, actor, id);
      if waiting.Err? { return Some(waiting.error); }
      failed := client.EndSend(id, waiting.value, answer);
    }

    /** The transport of an access check: one send, then the traversal is stopped. */
    method Probe(ask: Ask) returns (failed: Option<FetchError>)
      requires client.Valid() && Enough(ask)
      modifies client, this`probeAttempted
      ensures client.Valid()
      ensures (client.seen, probeAttempted) == Probed(old(client.seen), id, Who(), old(probeAttempted), ask)
      ensures failed.Some?
    {
      if probeAttempted { return Some(ProbeDone); }
      if ask.aborted { return Some(Aborted); }
      if !ask.sameOrigin { return Some(LeftOrigin); }
      probeAttempted := true;
      var sendFailed := Send(ask.turns[0].answer);
      return Some(ProbeDone);
    }

    /** The transport the engine is given for an import: checks, then sends until an answer is not worth a retry. */
    method Fetch(ask: Ask) returns (r: Result<nat, FetchError>)
      requires client.Valid() && Enough(ask)
      modifies client, this`requests
      ensures client.Valid()
      ensures (client.seen, requests, r) == Fetched(old(client.seen), id, Who(), old(requests), maxRequests, ask)
    {
      if ask.aborted { return Err(Aborted); }
      if !ask.sameOrigin { return Err(LeftOrigin); }
      if ask.abortedAfterWait { return Err(Aborted); }
      var retries := 0;
      while true
        invariant 0 <= retries <= RETRIES && client.Valid()
        invariant Attempts(client.seen, id, Who(), requests, maxRequests, retries, ask.turns[retries..])
               == Attempts(old(client.seen), id, Who(), old(requests), maxRequests, 0, ask.turns)
        decreases RETRIES - retries
      {
        var turn := ask.turns[retries];
        assert ask.turns[retries..][1..] == ask.turns[retries + 1..];
        requests := requests + 1;
        if requests > maxRequests { return Err(TooManyRequests); }
        var failed := Send(turn.answer);
        if failed.Some? { return Err(SendFailed(failed.value)); }
        if turn.status != 429 || retries >= RETRIES || turn.retryAfter.None? { return Ok(turn.status); }
        if Delay(turn) > turn.remaining { return Err(DelayTooLong); }
        if turn.aborted { return Err(Aborted); }
        retries := retries + 1;
      }
    }
  }
}
