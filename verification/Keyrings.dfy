/** The keyring of a conversation (`lib/src/conversation.rs`): one key per epoch, wrapped to that epoch's
    members; a membership change starts an epoch. */
module Keyrings {
  import opened Basics
  import opened Sealing

  type Epoch = e: nat | e < EPOCHS

  datatype Member = Member(agent: Name, encryptionKey: string)
  datatype KeyWrapper = KeyWrapper(agent: Name, ephemeral: string, nonce: string, wrappedKey: string)
  datatype EpochKeys = EpochKeys(epoch: Epoch, wrappers: seq<KeyWrapper>)

  /** What one wrapper draws: its one-off secret and its nonce. */
  datatype Draw = Draw(secret: Bytes, nonce: Bytes)

  function EncryptionPublicKey(c: Crypto, proof: Bytes): string { c.encode(c.publicOf(c.secretOf(proof))) }

  function Wrap(c: Crypto, key: Bytes, epoch: Epoch, m: Member, draw: Draw): Result<KeyWrapper, SealError> {
    match c.decode(m.encryptionKey)
    case None => Err(BadEncoding)
    case Some(recipient) =>
      if !c.isKey(recipient) then Err(BadKey)
      else
        var ephemeral := c.publicOf(draw.secret);
        match c.shared(draw.secret, recipient)
        case None => Err(BadKey)
        case Some(shared) =>
          var binding := WrapperBinding(m.agent, epoch);
          var kek := c.wrapKey(shared, ephemeral, recipient, binding);
          Ok(KeyWrapper(m.agent, c.encode(ephemeral), c.encode(draw.nonce), c.encode(c.seal(kek, draw.nonce, key, binding))))
  }

  function Unwrap(c: Crypto, w: KeyWrapper, epoch: Epoch, proof: Bytes): Result<ConversationKey, SealError> {
    var secret := c.secretOf(proof);
    match c.decode(w.ephemeral)
    case None => Err(BadEncoding)
    case Some(ephemeral) =>
      if !c.isKey(ephemeral) then Err(BadWrapper)
      else
        match c.shared(secret, ephemeral)
        case None => Err(BadWrapper)
        case Some(shared) =>
          var binding := WrapperBinding(w.agent, epoch);
          var kek := c.wrapKey(shared, ephemeral, c.publicOf(secret), binding);
          match (c.decode(w.nonce), c.decode(w.wrappedKey))
          case (Some(nonce), Some(wrapped)) =>
            if |nonce| != NONCE_LEN then Err(BadWrapper)
            else
              (match c.open(kek, nonce, wrapped, binding)
               case None => Err(CannotDecrypt)
               case Some(key) => if c.isKey(key) then Ok(ConversationKey(epoch, key)) else Err(BadWrapper))
          case _ => Err(BadEncoding)
  }

  /** A wrapper made for a key pair opens, to the wrapped key, exactly for that pair's proof and under the
      agent and epoch it was made for. */
  lemma UnwrapsIff(c: Crypto, key: Bytes, epoch: Epoch, m: Member, draw: Draw, owner: Bytes, agent: Name, epoch': Epoch, proof: Bytes)
    requires Ideal(c) && m.encryptionKey == EncryptionPublicKey(c, owner) && c.isKey(key) && |draw.nonce| == NONCE_LEN
    requires Wrap(c, key, epoch, m, draw).Ok?
    ensures var got := Unwrap(c, Wrap(c, key, epoch, m, draw).value.(agent := agent), epoch', proof);
            && (got.Ok? <==> proof == owner && agent == m.agent && epoch' == epoch)
            && (got.Ok? ==> got.value == ConversationKey(epoch, key))
            && (got.Err? ==> got.error == if c.shared(c.secretOf(proof), c.publicOf(draw.secret)).None? then BadWrapper else CannotDecrypt)
  {
    hide WrapperBinding;
    var recipient := c.publicOf(c.secretOf(owner));
    assert c.decode(m.encryptionKey) == Some(recipient);
    var ephemeral := c.publicOf(draw.secret);
    var shared := c.shared(draw.secret, recipient).value;
    var binding, binding' := WrapperBinding(m.agent, epoch), WrapperBinding(agent, epoch');
    var kek := c.wrapKey(shared, ephemeral, recipient, binding);
    WrapperBindingInjective(m.agent, epoch, agent, epoch');
    var mine := c.shared(c.secretOf(proof), ephemeral);
    if proof == owner { assert mine == Some(shared); }
    if mine.Some? {
      var kek' := c.wrapKey(mine.value, ephemeral, c.publicOf(c.secretOf(proof)), binding');
      OpensOnlyOwn(c, kek, draw.nonce, key, binding, kek', binding');
    }
  }

  function WrapAll(c: Crypto, key: Bytes, epoch: Epoch, members: seq<Member>, draws: seq<Draw>): (r: Result<seq<KeyWrapper>, SealError>)
    requires |draws| == |members|
    ensures r.Ok? <==> forall i | 0 <= i < |members| :: Wrap(c, key, epoch, members[i], draws[i]).Ok?
    ensures r.Ok? ==> |r.value| == |members|
                      && forall i | 0 <= i < |members| :: Wrap(c, key, epoch, members[i], draws[i]) == Ok(r.value[i])
  {
    if members == [] then Ok([])
    else
      assert forall i | 0 < i < |members| :: members[1..][i - 1] == members[i] && draws[1..][i - 1] == draws[i];
      match Wrap(c, key, epoch, members[0], draws[0])
      case Err(e) => Err(e)
      case Ok(w) =>
        var rest := WrapAll(c, key, epoch, members[1..], draws[1..]);
        assert rest.Err? ==> exists i :: 0 <= i < |members[1..]| && Wrap(c, key, epoch, members[1..][i], draws[1..][i]).Err?;
        match rest
        case Err(e) => Err(e)
        case Ok(ws) => Ok([w] + ws)
  }

  /** The error is that of the first member whose key cannot be wrapped to. */
  lemma {:induction false} WrapAllFails(c: Crypto, key: Bytes, epoch: Epoch, members: seq<Member>, draws: seq<Draw>, i: nat)
    requires |draws| == |members| && i < |members|
    requires Wrap(c, key, epoch, members[i], draws[i]).Err? && forall j | 0 <= j < i :: Wrap(c, key, epoch, members[j], draws[j]).Ok?
    ensures WrapAll(c, key, epoch, members, draws) == Err(Wrap(c, key, epoch, members[i], draws[i]).error)
    decreases |members|
  {
    hide Wrap;
    if i > 0 {
      assert Wrap(c, key, epoch, members[0], draws[0]).Ok?;
      assert forall j | 0 <= j < |members| - 1 :: members[1..][j] == members[j + 1] && draws[1..][j] == draws[j + 1];
      WrapAllFails(c, key, epoch, members[1..], draws[1..], i - 1);
    }
  }

  /** A key can be wrapped exactly to a published key that decodes and that this exchange contributes to. */
  lemma WrapIff(c: Crypto, key: Bytes, epoch: Epoch, m: Member, draw: Draw)
    ensures var r := Wrap(c, key, epoch, m, draw);
            && (r.Ok? <==> Usable(c, m, draw))
            && (r.Ok? ==> r.value.agent == m.agent)
            && (r.Err? ==> r.error == if c.decode(m.encryptionKey).None? then BadEncoding else BadKey)
  {
  }

  predicate Usable(c: Crypto, m: Member, draw: Draw) {
    && c.decode(m.encryptionKey).Some? && c.isKey(c.decode(m.encryptionKey).value)
    && c.shared(draw.secret, c.decode(m.encryptionKey).value).Some?
  }

  /** The newest epoch. */
  function CurrentEpoch(epochs: seq<EpochKeys>): (r: Option<Epoch>)
    ensures r.None? <==> epochs == []
    ensures r.Some? ==> (exists e :: e in epochs && e.epoch == r.value) && forall e :: e in epochs ==> e.epoch <= r.value
  {
    if epochs == [] then None
    else
      match CurrentEpoch(epochs[1..])
      case None => Some(epochs[0].epoch)
      case Some(m) => if epochs[0].epoch > m then Some(epochs[0].epoch) else Some(m)
  }

  /** One after the newest, in the 32 bits the source has. */
  function NextEpoch(epochs: seq<EpochKeys>): Epoch {
    match CurrentEpoch(epochs)
    case None => 0
    case Some(e) => (e + 1) % EPOCHS
  }

  predicate Increasing(epochs: seq<EpochKeys>) {
    forall i, j | 0 <= i < j < |epochs| :: epochs[i].epoch < epochs[j].epoch
  }

  /** A new epoch keeps the epochs increasing exactly while the newest is not the last that fits. */
  lemma AddedKeepsIncreasingIff(epochs: seq<EpochKeys>, wrappers: seq<KeyWrapper>)
    requires Increasing(epochs)
    ensures Increasing(epochs + [EpochKeys(NextEpoch(epochs), wrappers)]) <==> CurrentEpoch(epochs) != Some(EPOCHS - 1)
  {
    var all := epochs + [EpochKeys(NextEpoch(epochs), wrappers)];
    if CurrentEpoch(epochs) == Some(EPOCHS - 1) {
      var i :| 0 <= i < |epochs| && epochs[i].epoch == EPOCHS - 1;
      assert all[i].epoch >= all[|epochs|].epoch;
    } else {
      forall i, j | 0 <= i < j < |all| ensures all[i].epoch < all[j].epoch {
        if j == |epochs| { assert epochs[i] in epochs; }
      }
    }
  }

  /** The epoch a membership change starts. */
  function Begun(c: Crypto, epochs: seq<EpochKeys>, members: seq<Member>, key: Bytes, draws: seq<Draw>): Result<EpochKeys, SealError>
    requires |draws| == |members|
  {
    if members == [] then Err(NoMembers)
    else
      match WrapAll(c, key, NextEpoch(epochs), members, draws)
      case Err(e) => Err(e)
      case Ok(wrappers) => Ok(EpochKeys(NextEpoch(epochs), wrappers))
  }

  /** A change takes effect exactly when there are members and each one's key can be wrapped to; then there is
      one wrapper for each, in order. */
  lemma BegunIff(c: Crypto, epochs: seq<EpochKeys>, members: seq<Member>, key: Bytes, draws: seq<Draw>)
    requires |draws| == |members|
    ensures var r := Begun(c, epochs, members, key, draws);
            && (r.Ok? <==> members != [] && forall i | 0 <= i < |members| :: Usable(c, members[i], draws[i]))
            && (r.Ok? ==> |r.value.wrappers| == |members|
                          && forall i | 0 <= i < |members| :: r.value.wrappers[i].agent == members[i].agent)
  {
    hide Wrap, Usable, NextEpoch;
    forall i | 0 <= i < |members|
      ensures Wrap(c, key, NextEpoch(epochs), members[i], draws[i]).Ok? <==> Usable(c, members[i], draws[i])
      ensures Wrap(c, key, NextEpoch(epochs), members[i], draws[i]).Ok? ==>
                Wrap(c, key, NextEpoch(epochs), members[i], draws[i]).value.agent == members[i].agent
    {
      WrapIff(c, key, NextEpoch(epochs), members[i], draws[i]);
    }
  }

  // ---- Opening --------------------------------------------------------------------------------

  /** The first wrapper for an agent. */
  function WrapperFor(wrappers: seq<KeyWrapper>, agent: Name): (r: Option<KeyWrapper>)
    ensures r.None? <==> forall w :: w in wrappers ==> w.agent != agent
    ensures r.Some? ==> r.value in wrappers && r.value.agent == agent
  {
    if wrappers == [] then None else if wrappers[0].agent == agent then Some(wrappers[0]) else WrapperFor(wrappers[1..], agent)
  }

  /** The keys an agent can open, in the order of the epochs; an error when one of its wrappers fails. */
  function Collected(c: Crypto, epochs: seq<EpochKeys>, agent: Name, proof: Bytes): Result<seq<ConversationKey>, SealError> {
    if epochs == [] then Ok([])
    else
      var n := |epochs| - 1;
      match Collected(c, epochs[..n], agent, proof)
      case Err(e) => Err(e)
      case Ok(keys) =>
        match WrapperFor(epochs[n].wrappers, agent)
        case None => Ok(keys)
        case Some(w) =>
          match Unwrap(c, w, epochs[n].epoch, proof)
          case Err(e) => Err(e)
          case Ok(key) => Ok(keys + [key])
  }

  predicate SortedByEpoch(keys: seq<ConversationKey>) {
    forall i, j | 0 <= i < j < |keys| :: keys[i].epoch <= keys[j].epoch
  }

  function Inserted(keys: seq<ConversationKey>, key: ConversationKey): seq<ConversationKey> {
    if keys == [] || keys[|keys| - 1].epoch <= key.epoch then keys + [key]
    else Inserted(keys[..|keys| - 1], key) + [keys[|keys| - 1]]
  }

  /** A stable sort by epoch. */
  function Sorted(keys: seq<ConversationKey>): seq<ConversationKey> {
    if keys == [] then [] else Inserted(Sorted(keys[..|keys| - 1]), keys[|keys| - 1])
  }

  predicate AtMost(keys: seq<ConversationKey>, epoch: nat) {
    forall k :: k in keys ==> k.epoch <= epoch
  }

  lemma SortedSplit(keys: seq<ConversationKey>, last: ConversationKey)
    ensures SortedByEpoch(keys + [last]) <==> SortedByEpoch(keys) && AtMost(keys, last.epoch)
  {
    var all := keys + [last];
    if SortedByEpoch(all) {
      forall k | k in keys ensures k.epoch <= last.epoch {
        var i :| 0 <= i < |keys| && keys[i] == k;
        assert all[i].epoch <= all[|keys|].epoch;
      }
      forall i, j | 0 <= i < j < |keys| ensures keys[i].epoch <= keys[j].epoch { assert all[i].epoch <= all[j].epoch; }
    }
    if SortedByEpoch(keys) && AtMost(keys, last.epoch) {
      forall i, j | 0 <= i < j < |all| ensures all[i].epoch <= all[j].epoch {
        if j == |keys| { assert keys[i] in keys; }
      }
    }
  }

  lemma {:induction false} InsertedIsSorted(keys: seq<ConversationKey>, key: ConversationKey)
    requires SortedByEpoch(keys)
    ensures SortedByEpoch(Inserted(keys, key)) && multiset(Inserted(keys, key)) == multiset(keys) + multiset{key}
    ensures forall k :: k in Inserted(keys, key) <==> k in keys || k == key
    ensures AtMost(keys, key.epoch) ==> Inserted(keys, key) == keys + [key]
    decreases |keys|
  {
    hide SortedByEpoch;
    if keys == [] {
      SortedSplit(keys, key);
      assert AtMost(keys, key.epoch);
      assert [] + [key] == [key];
    } else {
      var front, last := keys[..|keys| - 1], keys[|keys| - 1];
      assert keys == front + [last];
      SortedSplit(front, last);
      SortedSplit(keys, key);
      if last.epoch > key.epoch {
        InsertedIsSorted(front, key);
        SortedSplit(Inserted(front, key), last);
        assert last in keys;
      }
    }
  }

  /** Sorting sorts, keeps every key, and leaves sorted keys as they are. */
  lemma {:induction false} SortedIsSorted(keys: seq<ConversationKey>)
    ensures SortedByEpoch(Sorted(keys)) && multiset(Sorted(keys)) == multiset(keys)
    ensures SortedByEpoch(keys) ==> Sorted(keys) == keys
    decreases |keys|
  {
    hide Inserted, SortedByEpoch;
    if keys != [] {
      var front, last := keys[..|keys| - 1], keys[|keys| - 1];
      assert keys == front + [last];
      SortedIsSorted(front);
      InsertedIsSorted(Sorted(front), last);
      SortedSplit(front, last);
    } else {
      NothingSorted();
    }
  }

  lemma NothingSorted()
    ensures SortedByEpoch([])
  {
  }

  class Keyring {
    var epochs: seq<EpochKeys>

    constructor ()
      ensures epochs == []
    {
      epochs := [];
    }

    /** `add_epoch`: an epoch after all others, with the key wrapped to exactly the members; nothing
        changes when there are none or one of their keys cannot be wrapped to. */
    method AddEpoch(c: Crypto, members: seq<Member>, key: Bytes, draws: seq<Draw>) returns (r: Result<Epoch, SealError>)
      requires |draws| == |members|
      modifies this
      ensures r.Ok? <==> members != [] && forall i | 0 <= i < |members| :: Usable(c, members[i], draws[i])
      ensures match Begun(c, old(epochs), members, key, draws)
              case Ok(e) => r == Ok(e.epoch) && epochs == old(epochs) + [e]
              case Err(e) => r == Err(e) && epochs == old(epochs)
    {
      hide Wrap, Usable, NextEpoch;
      BegunIff(c, epochs, members, key, draws);
      if members == [] { return Err(NoMembers); }
      var epoch := NextEpoch(epochs);
      var wrappers: seq<KeyWrapper> := [];
      var i := 0;
      while i < |members|
        invariant 0 <= i <= |members| && |wrappers| == i
        invariant forall k | 0 <= k < i :: Wrap(c, key, epoch, members[k], draws[k]) == Ok(wrappers[k])
      {
        var w := Wrap(c, key, epoch, members[i], draws[i]);
        if w.Err? {
          WrapAllFails(c, key, epoch, members, draws, i);
          return Err(w.error);
        }
        wrappers := wrappers + [w.value];
        i := i + 1;
      }
      assert wrappers == WrapAll(c, key, epoch, members, draws).value;
      epochs := epochs + [EpochKeys(epoch, wrappers)];
      return Ok(epoch);
    }

    /** `open`: the keys the agent can open, oldest first. */
    method Open(c: Crypto, agent: Name, proof: Bytes) returns (r: Result<seq<ConversationKey>, SealError>)
      ensures r.Ok? <==> Collected(c, epochs, agent, proof).Ok?
      ensures r.Ok? ==> SortedByEpoch(r.value) && multiset(r.value) == multiset(Collected(c, epochs, agent, proof).value)
      ensures r == OpenedKeys(c, epochs, agent, proof)
    {
      var keys: seq<ConversationKey> := [];
      var i := 0;
      while i < |epochs|
        invariant 0 <= i <= |epochs|
        invariant Collected(c, epochs[..i], agent, proof) == Ok(keys)
      {
        assert epochs[..i + 1][..i] == epochs[..i];
        var w := WrapperFor(epochs[i].wrappers, agent);
        if w.Some? {
          var key := Unwrap(c, w.value, epochs[i].epoch, proof);
          if key.Err? {
            FailedStays(c, epochs, i + 1, agent, proof);
            return Err(key.error);
          }
          keys := keys + [key.value];
        }
        i := i + 1;
      }
      assert epochs[..i] == epochs;
      SortedIsSorted(keys);
      return Ok(Sorted(keys));
    }

    /** `open_current`: the newest epoch's key. */
    method OpenCurrent(c: Crypto, agent: Name, proof: Bytes) returns (r: Result<ConversationKey, SealError>)
      ensures r == CurrentKey(c, epochs, agent, proof)
      ensures r.Ok? ==> CurrentEpoch(epochs) == Some(r.value.epoch)
    {
      var current := CurrentEpoch(epochs);
      if current.None? { return Err(NoKeys); }
      var keys := Open(c, agent, proof);
      if keys.Err? { return Err(keys.error); }
      var key := KeyFor(keys.value, current.value);
      return if key.Some? then Ok(key.value) else Err(NotMember);
    }
  }

  /** The agent's wrapper in this epoch, if it has one, opens. */
  predicate EpochOpensFor(c: Crypto, e: EpochKeys, agent: Name, proof: Bytes) {
    WrapperFor(e.wrappers, agent).Some? ==> Unwrap(c, WrapperFor(e.wrappers, agent).value, e.epoch, proof).Ok?
  }

  /** A keyring opens for an agent exactly when every epoch that has a wrapper for it opens: one that does not
      withholds the keys of all the others. */
  lemma {:induction false} OpensIff(c: Crypto, epochs: seq<EpochKeys>, agent: Name, proof: Bytes)
    ensures Collected(c, epochs, agent, proof).Ok? <==> forall e :: e in epochs ==> EpochOpensFor(c, e, agent, proof)
    decreases |epochs|
  {
    hide EpochOpensFor;
    if epochs != [] {
      var n := |epochs| - 1;
      OpensIff(c, epochs[..n], agent, proof);
      LastOpens(c, epochs, agent, proof);
      assert forall e :: e in epochs <==> e in epochs[..n] || e == epochs[n];
    }
  }

  lemma LastOpens(c: Crypto, epochs: seq<EpochKeys>, agent: Name, proof: Bytes)
    requires epochs != []
    ensures var n := |epochs| - 1;
            Collected(c, epochs, agent, proof).Ok? <==>
            Collected(c, epochs[..n], agent, proof).Ok? && EpochOpensFor(c, epochs[n], agent, proof)
  {
    hide Unwrap;
  }

  /** The error is that of the first epoch that fails. */
  lemma {:induction false} FailedStays(c: Crypto, epochs: seq<EpochKeys>, i: nat, agent: Name, proof: Bytes)
    requires i <= |epochs| && Collected(c, epochs[..i], agent, proof).Err?
    ensures Collected(c, epochs, agent, proof) == Err(Collected(c, epochs[..i], agent, proof).error)
    decreases |epochs|
  {
    if i == |epochs| { assert epochs[..i] == epochs; } else {
      assert epochs[..|epochs| - 1][..i] == epochs[..i];
      FailedStays(c, epochs[..|epochs| - 1], i, agent, proof);
    }
  }

  function OpenedKeys(c: Crypto, epochs: seq<EpochKeys>, agent: Name, proof: Bytes): Result<seq<ConversationKey>, SealError> {
    match Collected(c, epochs, agent, proof)
    case Err(e) => Err(e)
    case Ok(keys) => Ok(Sorted(keys))
  }

  function CurrentKey(c: Crypto, epochs: seq<EpochKeys>, agent: Name, proof: Bytes): Result<ConversationKey, SealError> {
    match CurrentEpoch(epochs)
    case None => Err(NoKeys)
    case Some(current) =>
      match OpenedKeys(c, epochs, agent, proof)
      case Err(e) => Err(e)
      case Ok(keys) => match KeyFor(keys, current) case Some(k) => Ok(k) case None => Err(NotMember)
  }
}
