/** Every run of membership changes on a keyring: who reads which messages, now and later. */
module KeyringRuns {
  import opened Basics
  import opened Sealing
  import opened Keyrings
  import opened SealingModel

  /** One membership change: the members, the epoch key and what each wrapper draws. */
  datatype Change = Change(members: seq<Member>, key: Bytes, draws: seq<Draw>)

  /** The keyring, and the changes that took effect. */
  datatype World = World(epochs: seq<EpochKeys>, log: seq<Change>)

  predicate IsMember(a: Change, agent: Name) {
    exists i | 0 <= i < |a.members| :: a.members[i].agent == agent
  }

  /** Agents are distinct, and the keys published for them are the ones their proofs give. */
  predicate Fine(c: Crypto, proofs: map<Name, Bytes>, a: Change) {
    && |a.draws| == |a.members| && c.isKey(a.key)
    && (forall i | 0 <= i < |a.draws| :: |a.draws[i].nonce| == NONCE_LEN)
    && (forall i, j | 0 <= i < j < |a.members| :: a.members[i].agent != a.members[j].agent)
    && (forall i | 0 <= i < |a.members| ::
          a.members[i].agent in proofs && a.members[i].encryptionKey == EncryptionPublicKey(c, proofs[a.members[i].agent]))
  }

  function TakesEffect(c: Crypto, epochs: seq<EpochKeys>, a: Change): Result<EpochKeys, SealError>
    requires |a.draws| == |a.members|
  {
    Begun(c, epochs, a.members, a.key, a.draws)
  }

  ghost predicate AllFine(c: Crypto, proofs: map<Name, Bytes>, changes: seq<Change>) {
    forall a :: a in changes ==> Fine(c, proofs, a)
  }

  /** The keyring after a run of changes, starting from none. */
  ghost function After(c: Crypto, proofs: map<Name, Bytes>, changes: seq<Change>): World
    requires AllFine(c, proofs, changes)
    decreases |changes|
  {
    if changes == [] then World([], [])
    else
      var w := After(c, proofs, changes[..|changes| - 1]);
      var a := changes[|changes| - 1];
      assert a in changes && Fine(c, proofs, a);
      match TakesEffect(c, w.epochs, a)
      case Err(_) => w
      case Ok(e) => World(w.epochs + [e], w.log + [a])
  }

  predicate MadeBy(c: Crypto, i: nat, e: EpochKeys, a: Change) {
    && e.epoch == i && |a.draws| == |a.members| && WrapAll(c, a.key, e.epoch, a.members, a.draws) == Ok(e.wrappers)
  }

  predicate Inv(c: Crypto, proofs: map<Name, Bytes>, w: World) {
    && |w.log| == |w.epochs|
    && forall i {:trigger w.epochs[i]} | 0 <= i < |w.epochs| :: Fine(c, proofs, w.log[i]) && MadeBy(c, i, w.epochs[i], w.log[i])
  }

  predicate Consecutive(epochs: seq<EpochKeys>) {
    forall i | 0 <= i < |epochs| :: epochs[i].epoch == i
  }

  lemma InvLengths(c: Crypto, proofs: map<Name, Bytes>, w: World)
    requires Inv(c, proofs, w)
    ensures |w.log| == |w.epochs| && w.epochs[..|w.log|] == w.epochs
    ensures Consecutive(w.epochs)
  {
    hide Fine;
  }

  lemma EpochIn(epochs: seq<EpochKeys>, e: EpochKeys)
    requires Consecutive(epochs) && e in epochs
    ensures e.epoch < |epochs|
  {
  }

  /** Consecutive epochs: the newest is the last, and the next is the length. */
  lemma NewestIsLast(epochs: seq<EpochKeys>)
    requires Consecutive(epochs)
    ensures CurrentEpoch(epochs) == if epochs == [] then None else Some(|epochs| - 1)
  {
    hide CurrentEpoch;
    if epochs != [] {
      var n := |epochs| - 1;
      assert epochs[n] in epochs && epochs[n].epoch == n;
      var newest := CurrentEpoch(epochs).value;
      var e :| e in epochs && e.epoch == newest;
      EpochIn(epochs, e);
    }
  }

  lemma NextIsLength(epochs: seq<EpochKeys>)
    requires Consecutive(epochs) && |epochs| < EPOCHS
    ensures NextEpoch(epochs) == |epochs|
  {
    hide Consecutive, CurrentEpoch;
    NewestIsLast(epochs);
  }

  lemma EffectKeepsInv(c: Crypto, proofs: map<Name, Bytes>, w: World, a: Change)
    requires Inv(c, proofs, w) && |w.epochs| < EPOCHS && Fine(c, proofs, a) && TakesEffect(c, w.epochs, a).Ok?
    ensures Inv(c, proofs, World(w.epochs + [TakesEffect(c, w.epochs, a).value], w.log + [a]))
  {
    hide WrapAll, NextEpoch, MadeBy, TakesEffect;
    InvLengths(c, proofs, w);
    var e := TakesEffect(c, w.epochs, a).value;
    assert MadeBy(c, |w.epochs|, e, a) by { EffectMakes(c, w.epochs, a); }
    var w' := World(w.epochs + [e], w.log + [a]);
    forall i | 0 <= i < |w'.epochs| ensures Fine(c, proofs, w'.log[i]) && MadeBy(c, i, w'.epochs[i], w'.log[i]) {
      if i < |w.epochs| { assert w'.epochs[i] == w.epochs[i] && w'.log[i] == w.log[i]; }
    }
  }

  lemma EffectMakes(c: Crypto, epochs: seq<EpochKeys>, a: Change)
    requires Consecutive(epochs) && |epochs| < EPOCHS && |a.draws| == |a.members| && TakesEffect(c, epochs, a).Ok?
    ensures MadeBy(c, |epochs|, TakesEffect(c, epochs, a).value, a)
  {
    hide WrapAll, NextEpoch;
    NextIsLength(epochs);
  }

  /** In every run the epochs are numbered consecutively from zero: unique and increasing. */
  lemma {:induction false} RunKeepsInv(c: Crypto, proofs: map<Name, Bytes>, changes: seq<Change>)
    requires AllFine(c, proofs, changes) && |changes| <= EPOCHS
    ensures Inv(c, proofs, After(c, proofs, changes)) && |After(c, proofs, changes).epochs| <= |changes|
    ensures Consecutive(After(c, proofs, changes).epochs) && Increasing(After(c, proofs, changes).epochs)
    decreases |changes|
  {
    hide Inv, TakesEffect, Consecutive, Increasing, EncryptionPublicKey;
    if changes != [] {
      var n := |changes| - 1;
      RunKeepsInv(c, proofs, changes[..n]);
      var w := After(c, proofs, changes[..n]);
      assert Fine(c, proofs, changes[n]) by { assert changes[n] in changes; }
      if TakesEffect(c, w.epochs, changes[n]).Ok? { EffectKeepsInv(c, proofs, w, changes[n]); }
    } else {
      NothingYet(c, proofs);
    }
    InvLengths(c, proofs, After(c, proofs, changes));
    ConsecutiveIncreases(After(c, proofs, changes).epochs);
  }

  lemma ConsecutiveIncreases(epochs: seq<EpochKeys>)
    requires Consecutive(epochs)
    ensures Increasing(epochs)
  {
  }

  lemma NothingYet(c: Crypto, proofs: map<Name, Bytes>)
    ensures Inv(c, proofs, World([], []))
  {
  }

  lemma {:induction false} RunExtends(c: Crypto, proofs: map<Name, Bytes>, changes: seq<Change>, n: nat)
    requires AllFine(c, proofs, changes) && n <= |changes|
    ensures AllFine(c, proofs, changes[..n])
    ensures After(c, proofs, changes[..n]).epochs <= After(c, proofs, changes).epochs
    ensures After(c, proofs, changes[..n]).log <= After(c, proofs, changes).log
    decreases |changes|
  {
    hide Fine;
    if n == |changes| { assert changes[..n] == changes; } else {
      assert changes[..|changes| - 1][..n] == changes[..n];
      RunExtends(c, proofs, changes[..|changes| - 1], n);
    }
  }

  // ---- What an agent opens ----------------------------------------------------------------------

  /** The keys of the epochs an agent was a member of, among the first `n`. */
  function MemberKeys(log: seq<Change>, agent: Name, n: nat): seq<ConversationKey>
    requires n <= |log|
  {
    if n == 0 then []
    else MemberKeys(log, agent, n - 1) + if IsMember(log[n - 1], agent) then [ConversationKey(n - 1, log[n - 1].key)] else []
  }

  lemma {:induction false} WrapperAt(wrappers: seq<KeyWrapper>, agent: Name, i: nat)
    requires i < |wrappers| && wrappers[i].agent == agent && forall j | 0 <= j < i :: wrappers[j].agent != agent
    ensures WrapperFor(wrappers, agent) == Some(wrappers[i])
  {
    if i > 0 { WrapperAt(wrappers[1..], agent, i - 1); }
  }

  /** An epoch's wrapper opens, for a member with the right proof, to that epoch's key. */
  lemma EpochOpens(c: Crypto, proofs: map<Name, Bytes>, i: nat, e: EpochKeys, a: Change, agent: Name, proof: Bytes)
    requires Ideal(c) && Fine(c, proofs, a) && MadeBy(c, i, e, a)
    ensures WrapperFor(e.wrappers, agent).Some? <==> IsMember(a, agent)
    ensures IsMember(a, agent) ==>
              agent in proofs
              && (Unwrap(c, WrapperFor(e.wrappers, agent).value, e.epoch, proof).Ok? <==> proof == proofs[agent])
              && (proof == proofs[agent] ==>
                    Unwrap(c, WrapperFor(e.wrappers, agent).value, e.epoch, proof) == Ok(ConversationKey(i, a.key)))
  {
    hide Ideal, Unwrap, EncryptionPublicKey;
    assert forall j | 0 <= j < |a.members| :: Wrap(c, a.key, e.epoch, a.members[j], a.draws[j]) == Ok(e.wrappers[j]);
    assert forall j | 0 <= j < |a.members| :: e.wrappers[j].agent == a.members[j].agent;
    hide Wrap;
    if IsMember(a, agent) {
      var j :| 0 <= j < |a.members| && a.members[j].agent == agent;
      WrapperAt(e.wrappers, agent, j);
      UnwrapsIff(c, a.key, e.epoch, a.members[j], a.draws[j], proofs[agent], agent, e.epoch, proof);
      assert e.wrappers[j].(agent := agent) == e.wrappers[j];
    }
  }

  /** With its own proof an agent opens exactly the keys of its epochs. */
  lemma {:induction false} CollectedIs(c: Crypto, proofs: map<Name, Bytes>, w: World, n: nat, agent: Name)
    requires Ideal(c) && Inv(c, proofs, w) && n <= |w.epochs| && agent in proofs
    ensures Collected(c, w.epochs[..n], agent, proofs[agent]) == Ok(MemberKeys(w.log, agent, n))
  {
    hide Ideal, Unwrap, Fine, MadeBy, IsMember;
    if n > 0 {
      CollectedIs(c, proofs, w, n - 1, agent);
      assert w.epochs[..n][..n - 1] == w.epochs[..n - 1];
      EpochOpens(c, proofs, n - 1, w.epochs[n - 1], w.log[n - 1], agent, proofs[agent]);
      var keys := MemberKeys(w.log, agent, n - 1);
      assert keys + [] == keys;
    }
  }

  lemma {:induction false} MemberKeysSorted(log: seq<Change>, agent: Name, n: nat)
    requires n <= |log|
    ensures forall k :: k in MemberKeys(log, agent, n) ==>
              k.epoch < n && IsMember(log[k.epoch], agent) && k.key == log[k.epoch].key
    ensures forall e | 0 <= e < n && IsMember(log[e], agent) :: ConversationKey(e, log[e].key) in MemberKeys(log, agent, n)
    ensures SortedByEpoch(MemberKeys(log, agent, n))
  {
    hide IsMember;
    if n > 0 { MemberKeysSorted(log, agent, n - 1); }
  }

  lemma OpenedIs(c: Crypto, proofs: map<Name, Bytes>, w: World, agent: Name)
    requires Ideal(c) && Inv(c, proofs, w) && agent in proofs
    ensures OpenedKeys(c, w.epochs, agent, proofs[agent]) == Ok(MemberKeys(w.log, agent, |w.log|))
  {
    hide Ideal, Inv, Sorted, SortedByEpoch;
    assert w.epochs[..|w.log|] == w.epochs && |w.log| == |w.epochs| by { InvLengths(c, proofs, w); }
    CollectedIs(c, proofs, w, |w.log|, agent);
    MemberKeysSorted(w.log, agent, |w.log|);
    SortedIsSorted(MemberKeys(w.log, agent, |w.log|));
  }

  lemma KeyForMember(log: seq<Change>, agent: Name, epoch: nat)
    ensures KeyFor(MemberKeys(log, agent, |log|), epoch)
         == if epoch < |log| && IsMember(log[epoch], agent) then Some(ConversationKey(epoch, log[epoch].key)) else None
  {
    hide IsMember;
    MemberKeysSorted(log, agent, |log|);
  }

  /** A wrong proof opens nothing: an error where the agent has a wrapper, no keys where it has none. */
  lemma {:induction false} WrongProofOpensNothing(c: Crypto, proofs: map<Name, Bytes>, w: World, n: nat, agent: Name, proof: Bytes)
    requires Ideal(c) && Inv(c, proofs, w) && n <= |w.epochs|
    requires agent in proofs ==> proof != proofs[agent]
    ensures Collected(c, w.epochs[..n], agent, proof).Err? <==> exists i | 0 <= i < n :: IsMember(w.log[i], agent)
    ensures Collected(c, w.epochs[..n], agent, proof).Ok? ==> Collected(c, w.epochs[..n], agent, proof).value == []
  {
    hide Ideal, Unwrap, Fine, MadeBy, IsMember;
    if n > 0 {
      WrongProofOpensNothing(c, proofs, w, n - 1, agent, proof);
      assert w.epochs[..n][..n - 1] == w.epochs[..n - 1];
      EpochOpens(c, proofs, n - 1, w.epochs[n - 1], w.log[n - 1], agent, proof);
    }
  }

  // ---- Who reads a message ------------------------------------------------------------------------

  /** Only a member of the newest epoch can seal, with that epoch's key. */
  lemma CurrentIs(c: Crypto, proofs: map<Name, Bytes>, w: World, agent: Name)
    requires Ideal(c) && Inv(c, proofs, w) && agent in proofs
    ensures var n, current := |w.log|, CurrentKey(c, w.epochs, agent, proofs[agent]);
            && (current.Ok? <==> n > 0 && IsMember(w.log[n - 1], agent))
            && (current.Ok? ==> current.value == ConversationKey(n - 1, w.log[n - 1].key))
  {
    hide Ideal, Inv, IsMember, OpenedKeys, MemberKeys, Consecutive;
    OpenedIs(c, proofs, w, agent);
    InvLengths(c, proofs, w);
    NewestIsLast(w.epochs);
    if w.log != [] { KeyForMember(w.log, agent, |w.log| - 1); }
  }

  /** A message sealed by a then-current member opens to its text, at that and every later state of the
      keyring, for exactly the members of the epoch it was sealed in, and only in its own conversation. */
  lemma MessageReadersIff(c: Crypto, proofs: map<Name, Bytes>, changes: seq<Change>, n: nat, sender: Name, reader: Name,
                          conversation: Name, conversation': Name, text: Bytes, messageId: Bytes, nonce: Bytes)
    requires Ideal(c) && AllFine(c, proofs, changes) && |changes| <= EPOCHS && n <= |changes| && AllFine(c, proofs, changes[..n])
    requires sender in proofs && reader in proofs && |messageId| == MESSAGE_ID_LEN && |nonce| == NONCE_LEN
    requires CurrentKey(c, After(c, proofs, changes[..n]).epochs, sender, proofs[sender]).Ok?
    ensures var before, now := After(c, proofs, changes[..n]), After(c, proofs, changes);
            var key := CurrentKey(c, before.epochs, sender, proofs[sender]).value;
            && before.log != [] && key.epoch == |before.log| - 1 && key.epoch < EPOCHS
            && OpenedKeys(c, now.epochs, reader, proofs[reader]).Ok?
            && var got := OpenMessage(c, OpenedKeys(c, now.epochs, reader, proofs[reader]).value, conversation',
                                      SealMessage(c, key, conversation, text, messageId, nonce));
            && (got.Ok? <==> IsMember(before.log[key.epoch], reader) && conversation' == conversation)
            && (got.Ok? ==> got.value == text)
  {
    hide Ideal, Inv, IsMember, OpenedKeys, MemberKeys, CurrentKey, After, AllFine, OpenMessage, SealMessage, Increasing;
    var before, now := After(c, proofs, changes[..n]), After(c, proofs, changes);
    RunKeepsInv(c, proofs, changes[..n]);
    RunKeepsInv(c, proofs, changes);
    RunExtends(c, proofs, changes, n);
    CurrentIs(c, proofs, before, sender);
    InvLengths(c, proofs, before);
    OpenedIs(c, proofs, now, reader);
    var key := CurrentKey(c, before.epochs, sender, proofs[sender]).value;
    KeyForMember(now.log, reader, key.epoch);
    assert now.log[key.epoch] == before.log[key.epoch];
    OpenSealedIff(c, key, conversation, text, messageId, nonce, MemberKeys(now.log, reader, |now.log|), conversation');
  }

  // ---- One bad wrapper ------------------------------------------------------------------------------

  const WRAPPED_KEY: Bytes := [7]

  /** A two-epoch keyring over the symbolic primitives: the agent was wrapped to in the first epoch, and its
      wrapper in the second has an ephemeral key that does not decode. */
  ghost function SpoiltKeyring(agent: Name, proof: Bytes): Result<seq<EpochKeys>, SealError> {
    var c := Symbolic();
    var m := Member(agent, EncryptionPublicKey(c, proof));
    match Wrap(c, WRAPPED_KEY, 0, m, Draw([5], seq(NONCE_LEN, i => 0)))
    case Err(e) => Err(e)
    case Ok(w) => Ok([EpochKeys(0, [w]), EpochKeys(1, [KeyWrapper(agent, "\U{100}", "", "")])])
  }

  /** The member of the first epoch, who could read it before, gets no key at all. */
  lemma SpoiltWrapperWithholdsAll(agent: Name, proof: Bytes)
    ensures SpoiltKeyring(agent, proof).Ok?
    ensures var c, epochs := Symbolic(), SpoiltKeyring(agent, proof).value;
            && OpenedKeys(c, epochs[..1], agent, proof) == Ok([ConversationKey(0, WRAPPED_KEY)])
            && OpenedKeys(c, epochs, agent, proof) == Err(BadEncoding)
  {
    hide Ideal, SymbolicSeal, SymbolicOpen, Quad, Unwrap, Sorted, SortedByEpoch;
    var c := Symbolic();
    var m := Member(agent, EncryptionPublicKey(c, proof));
    var draw := Draw([5], seq(NONCE_LEN, i => 0));
    LettersRoundTrip(proof);
    SymbolicIsIdeal();
    var epochs := SpoiltKeyring(agent, proof).value;
    var w := epochs[0].wrappers[0];
    UnwrapsIff(c, WRAPPED_KEY, 0, m, draw, proof, agent, 0, proof);
    assert w.(agent := agent) == w;
    assert WrapperFor([w], agent) == Some(w);
    assert epochs[..1] == [epochs[0]] && epochs[..1][..0] == [];
    var key := ConversationKey(0, WRAPPED_KEY);
    assert Collected(c, [], agent, proof) == Ok([]);
    assert [] + [key] == [key];
    assert Collected(c, epochs[..1], agent, proof) == Ok([key]);
    assert SortedByEpoch([key]) by { OneIsSorted(key); }
    SortedIsSorted([key]);
    NotBytes();
    UndecodableFails(c, epochs[1].wrappers[0], proof);
    assert Collected(c, epochs, agent, proof) == Err(BadEncoding);
  }

  lemma NotBytes()
    ensures BytesOf("\U{100}") == None
  {
    assert "\U{100}"[0] as int == 256;
  }

  lemma OneIsSorted(key: ConversationKey)
    ensures SortedByEpoch([key])
  {
  }

  lemma UndecodableFails(c: Crypto, w: KeyWrapper, proof: Bytes)
    requires c.decode(w.ephemeral) == None
    ensures Unwrap(c, w, 1, proof) == Err(BadEncoding)
  {
  }
}
