/** Sealing messages and files (`lib/src/conversation.rs`): binary framing and associated data over
    idealised cryptography. */
module Sealing {
  import opened Basics

  /** Names (agents, conversations) as their bytes. */
  type Name = Bytes

  const SEALED_VERSION: Byte := 1
  const FILE_VERSION: Byte := 1
  const MESSAGE_ID_LEN: nat := 16
  const NONCE_LEN: nat := 24
  const SEALED_HEADER_LEN: nat := 45
  const FILE_HEADER_LEN: nat := 25
  const FILE_TAG_LEN: nat := 16
  const EPOCHS: nat := 0x1_0000_0000

  /** The context string that starts a file's associated data. */
  const FILE_CONTEXT: Bytes := [97, 116, 111, 109, 105, 99, 32, 50, 48, 50, 54, 32, 99, 111, 110, 118, 101, 114, 115, 97, 116, 105, 111, 110, 32, 102, 105, 108, 101]

  /** The primitives. `isKey` stands for the check of a key's length; `shared` is `None` when the
      exchange is not contributory. */
  datatype Crypto = Crypto(
    isKey: Bytes -> bool,
    secretOf: Bytes -> Bytes,
    publicOf: Bytes -> Bytes,
    shared: (Bytes, Bytes) -> Option<Bytes>,
    wrapKey: (Bytes, Bytes, Bytes, Bytes) -> Bytes,
    messageKey: (Bytes, Bytes) -> Bytes,
    seal: (Bytes, Bytes, Bytes, Bytes) -> Bytes,
    open: (Bytes, Bytes, Bytes, Bytes) -> Option<Bytes>,
    encode: Bytes -> string,
    decode: string -> Option<Bytes>)

  /** What ideal primitives satisfy: opening inverts sealing and accepts nothing else; a ciphertext
      determines its key, nonce, text and associated data; both ends of an exchange get the same secret;
      derived keys determine what they were derived from. Lengths are idealised away: `isKey` is any test
      that public and derived keys pass, because injective keys of one fixed length cannot exist. */
  ghost predicate Ideal(c: Crypto) {
    && (forall k, n, m, a :: c.open(k, n, c.seal(k, n, m, a), a) == Some(m))
    && (forall k, n, x, a :: c.open(k, n, x, a).Some? ==> x == c.seal(k, n, c.open(k, n, x, a).value, a))
    && (forall k, n, m, a, k', n', m', a' :: c.seal(k, n, m, a) == c.seal(k', n', m', a') ==> k == k' && n == n' && m == m' && a == a')
    && (forall k, n, m, a :: |c.seal(k, n, m, a)| >= FILE_TAG_LEN)
    && (forall s, t :: c.shared(s, c.publicOf(t)) == c.shared(t, c.publicOf(s)))
    && (forall s :: c.isKey(c.publicOf(s)))
    && (forall k, i :: c.isKey(c.messageKey(k, i)))
    && (forall s, t :: c.publicOf(s) == c.publicOf(t) ==> s == t)
    && (forall p, q :: c.secretOf(p) == c.secretOf(q) ==> p == q)
    && (forall s, e, r, b, s', e', r', b' :: c.wrapKey(s, e, r, b) == c.wrapKey(s', e', r', b') ==> s == s' && r == r' && b == b')
    && (forall k, i, k', i' :: c.messageKey(k, i) == c.messageKey(k', i') ==> k == k' && i == i')
    && (forall x :: c.decode(c.encode(x)) == Some(x))
  }

  // ---- Bytes ----------------------------------------------------------------------------------

  /** Big-endian, four bytes. */
  function EpochBytes(epoch: nat): (r: Bytes)
    requires epoch < EPOCHS
    ensures |r| == 4
  {
    var q := epoch / 0x100;
    var r := q / 0x100;
    [(r / 0x100) as Byte, (r % 0x100) as Byte, (q % 0x100) as Byte, (epoch % 0x100) as Byte]
  }

  function EpochOf(b: Bytes): (r: nat)
    requires |b| == 4
    ensures r < EPOCHS
  {
    ((b[0] as nat * 0x100 + b[1] as nat) * 0x100 + b[2] as nat) * 0x100 + b[3] as nat
  }

  lemma LastDigit(a: nat, b: nat)
    requires b < 0x100
    ensures (a * 0x100 + b) / 0x100 == a && (a * 0x100 + b) % 0x100 == b
  {
  }

  lemma EpochRoundTrip(epoch: nat)
    requires epoch < EPOCHS
    ensures EpochOf(EpochBytes(epoch)) == epoch
  {
    var q := epoch / 0x100;
    var r := q / 0x100;
    assert r / 0x100 * 0x100 + r % 0x100 == r;
    assert r * 0x100 + q % 0x100 == q;
    assert q * 0x100 + epoch % 0x100 == epoch;
  }

  lemma EpochBytesRoundTrip(b: Bytes)
    requires |b| == 4
    ensures EpochBytes(EpochOf(b)) == b
  {
    var r: nat := b[0] as nat * 0x100 + b[1] as nat;
    var q: nat := r * 0x100 + b[2] as nat;
    LastDigit(b[0] as nat, b[1] as nat);
    LastDigit(r, b[2] as nat);
    LastDigit(q, b[3] as nat);
  }

  /** What a wrapper is bound to. */
  function WrapperBinding(agent: Name, epoch: nat): (r: Bytes)
    requires epoch < EPOCHS
    ensures |r| == |agent| + 5 && agent + [0] <= r && EpochOf(r[|r| - 4..]) == epoch
  {
    EpochRoundTrip(epoch);
    assert (agent + [0] + EpochBytes(epoch))[|agent| + 1..] == EpochBytes(epoch);
    agent + [0] + EpochBytes(epoch)
  }

  lemma WrapperBindingInjective(agent: Name, epoch: nat, agent': Name, epoch': nat)
    requires epoch < EPOCHS && epoch' < EPOCHS
    ensures WrapperBinding(agent, epoch) == WrapperBinding(agent', epoch') ==> agent == agent' && epoch == epoch'
  {
    hide EpochBytes, EpochOf;
    var b, b' := WrapperBinding(agent, epoch), WrapperBinding(agent', epoch');
    if b == b' {
      assert b[..|agent|] == agent && b'[..|agent'|] == agent';
      assert b[|b| - 4..] == EpochBytes(epoch) && b'[|b'| - 4..] == EpochBytes(epoch');
      EpochRoundTrip(epoch);
      EpochRoundTrip(epoch');
    }
  }

  // ---- Framing --------------------------------------------------------------------------------

  datatype SealError = BadEncoding | TooShort | BadVersion | NoKey | BadKey | CannotDecrypt | NoMembers | NoKeys | NotMember | BadWrapper

  datatype Sealed = Sealed(epoch: nat, messageId: Bytes, nonce: Bytes, ciphertext: Bytes)

  predicate Framable(s: Sealed) {
    s.epoch < EPOCHS && |s.messageId| == MESSAGE_ID_LEN && |s.nonce| == NONCE_LEN
  }

  function Header(epoch: nat, messageId: Bytes, nonce: Bytes): Bytes
    requires epoch < EPOCHS
  {
    [SEALED_VERSION] + EpochBytes(epoch) + messageId + nonce
  }

  function Frame(s: Sealed): Bytes
    requires Framable(s)
  {
    Header(s.epoch, s.messageId, s.nonce) + s.ciphertext
  }

  /** `parse_sealed`. */
  function ParseSealed(raw: Bytes): Result<Sealed, SealError> {
    if |raw| < SEALED_HEADER_LEN then Err(TooShort)
    else if raw[0] != SEALED_VERSION then Err(BadVersion)
    else Ok(Sealed(EpochOf(raw[1..5]), raw[5..21], raw[21..45], raw[45..]))
  }

  /** Framing and parsing are inverses: a frame parses to what was framed, and what parses is its frame. */
  lemma ParseFrame(s: Sealed)
    requires Framable(s)
    ensures ParseSealed(Frame(s)) == Ok(s) && Frame(s)[..SEALED_HEADER_LEN] == Header(s.epoch, s.messageId, s.nonce)
  {
    hide EpochBytes, EpochOf;
    var raw := Frame(s);
    EpochRoundTrip(s.epoch);
    assert raw[1..5] == EpochBytes(s.epoch) && raw[5..21] == s.messageId && raw[21..45] == s.nonce && raw[45..] == s.ciphertext;
  }

  lemma FrameParsed(raw: Bytes)
    requires ParseSealed(raw).Ok?
    ensures Framable(ParseSealed(raw).value) && Frame(ParseSealed(raw).value) == raw
  {
    hide EpochBytes, EpochOf;
    EpochBytesRoundTrip(raw[1..5]);
    assert raw == [raw[0]] + raw[1..5] + raw[5..21] + raw[21..45] + raw[45..];
  }

  /** What does not parse is too short or of another version. */
  lemma ParsesIff(raw: Bytes)
    ensures ParseSealed(raw).Ok? <==> |raw| >= 45 && raw[0] == SEALED_VERSION
    ensures ParseSealed(raw).Err? ==> ParseSealed(raw).error == if |raw| < 45 then TooShort else BadVersion
  {
  }

  function SealedAad(header: Bytes, conversation: Name): Bytes { header + conversation }

  function FileAad(conversation: Name): Bytes { FILE_CONTEXT + conversation }

  /** The associated data of a message determines its header and conversation. */
  lemma SealedAadInjective(h: Bytes, conversation: Name, h': Bytes, conversation': Name)
    requires |h| == |h'|
    ensures SealedAad(h, conversation) == SealedAad(h', conversation') <==> h == h' && conversation == conversation'
  {
    var a, a' := SealedAad(h, conversation), SealedAad(h', conversation');
    assert a[..|h|] == h && a'[..|h|] == h' && a[|h|..] == conversation && a'[|h|..] == conversation';
  }

  /** A file's associated data determines its conversation, and is never a message's. */
  lemma FileAadApart(conversation: Name, conversation': Name, epoch: nat, messageId: Bytes, nonce: Bytes)
    requires epoch < EPOCHS
    ensures FileAad(conversation) == FileAad(conversation') <==> conversation == conversation'
    ensures FileAad(conversation) != SealedAad(Header(epoch, messageId, nonce), conversation')
  {
    hide EpochBytes;
    var a, a' := FileAad(conversation), FileAad(conversation');
    assert a[|FILE_CONTEXT|..] == conversation && a'[|FILE_CONTEXT|..] == conversation';
    assert a[0] == 97 && SealedAad(Header(epoch, messageId, nonce), conversation')[0] == SEALED_VERSION;
  }

  // ---- Messages -------------------------------------------------------------------------------

  datatype ConversationKey = ConversationKey(epoch: nat, key: Bytes)

  /** `seal_message`, with the message id and nonce drawn by the caller. */
  function SealMessage(c: Crypto, key: ConversationKey, conversation: Name, plaintext: Bytes, messageId: Bytes, nonce: Bytes): string
    requires key.epoch < EPOCHS && |messageId| == MESSAGE_ID_LEN && |nonce| == NONCE_LEN
  {
    var aad := SealedAad(Header(key.epoch, messageId, nonce), conversation);
    c.encode(Frame(Sealed(key.epoch, messageId, nonce, c.seal(c.messageKey(key.key, messageId), nonce, plaintext, aad))))
  }

  /** The first key of an epoch. */
  function KeyFor(keys: seq<ConversationKey>, epoch: nat): (r: Option<ConversationKey>)
    ensures r.Some? ==> r.value in keys && r.value.epoch == epoch
    ensures r.None? ==> forall k :: k in keys ==> k.epoch != epoch
  {
    if keys == [] then None else if keys[0].epoch == epoch then Some(keys[0]) else KeyFor(keys[1..], epoch)
  }

  function Opened(r: Option<Bytes>): Result<Bytes, SealError> {
    match r case Some(m) => Ok(m) case None => Err(CannotDecrypt)
  }

  /** `open_message`. */
  function OpenMessage(c: Crypto, keys: seq<ConversationKey>, conversation: Name, sealed: string): Result<Bytes, SealError> {
    match c.decode(sealed)
    case None => Err(BadEncoding)
    case Some(raw) =>
      match ParseSealed(raw)
      case Err(e) => Err(e)
      case Ok(h) =>
        match KeyFor(keys, h.epoch)
        case None => Err(NoKey)
        case Some(key) =>
          Opened(c.open(c.messageKey(key.key, h.messageId), h.nonce, h.ciphertext, SealedAad(raw[..SEALED_HEADER_LEN], conversation)))
  }

  /** A sealed message opens, to its text, exactly with its epoch's key and in its own conversation; without
      any key of its epoch that is the error. */
  lemma OpenSealedIff(c: Crypto, key: ConversationKey, conversation: Name, plaintext: Bytes, messageId: Bytes, nonce: Bytes,
                      keys: seq<ConversationKey>, conversation': Name)
    requires Ideal(c) && key.epoch < EPOCHS && |messageId| == MESSAGE_ID_LEN && |nonce| == NONCE_LEN
    ensures var got := OpenMessage(c, keys, conversation', SealMessage(c, key, conversation, plaintext, messageId, nonce));
            && (got.Ok? <==> KeyFor(keys, key.epoch) == Some(key) && conversation' == conversation)
            && (got.Ok? ==> got.value == plaintext)
            && (got.Err? ==> got.error == if KeyFor(keys, key.epoch).None? then NoKey else CannotDecrypt)
  {
    hide EpochBytes, EpochOf, ParseSealed, Frame;
    var header := Header(key.epoch, messageId, nonce);
    var aad := SealedAad(header, conversation);
    var k := c.messageKey(key.key, messageId);
    var s := Sealed(key.epoch, messageId, nonce, c.seal(k, nonce, plaintext, aad));
    ParseFrame(s);
    SealedAadInjective(header, conversation, header, conversation');
    var found := KeyFor(keys, key.epoch);
    if found.Some? {
      OpensOnlyOwn(c, k, nonce, plaintext, aad, c.messageKey(found.value.key, messageId), SealedAad(header, conversation'));
    }
  }

  /** A ciphertext opens exactly under its own key and associated data. */
  lemma OpensOnlyOwn(c: Crypto, k: Bytes, n: Bytes, m: Bytes, a: Bytes, k': Bytes, a': Bytes)
    requires Ideal(c)
    ensures c.open(k', n, c.seal(k, n, m, a), a').Some? <==> k' == k && a' == a
    ensures c.open(k', n, c.seal(k, n, m, a), a').Some? ==> c.open(k', n, c.seal(k, n, m, a), a') == Some(m)
  {
    var x := c.seal(k, n, m, a);
    var got := c.open(k', n, x, a');
    if got.Some? { assert x == c.seal(k', n, got.value, a'); }
  }

  /** Nobody without the key makes a message that opens: whatever opens is what sealing makes. */
  lemma OnlySealedOpens(c: Crypto, keys: seq<ConversationKey>, conversation: Name, sealed: string)
    requires Ideal(c) && OpenMessage(c, keys, conversation, sealed).Ok?
    ensures exists key, messageId, nonce ::
              && key in keys && key.epoch < EPOCHS && |messageId| == MESSAGE_ID_LEN && |nonce| == NONCE_LEN
              && c.decode(sealed) == c.decode(SealMessage(c, key, conversation, OpenMessage(c, keys, conversation, sealed).value, messageId, nonce))
  {
    hide EpochBytes, EpochOf;
    var raw := c.decode(sealed).value;
    FrameParsed(raw);
    var h := ParseSealed(raw).value;
    ParseFrame(h);
    var key := KeyFor(keys, h.epoch).value;
    var text := OpenMessage(c, keys, conversation, sealed).value;
    assert h.ciphertext == c.seal(c.messageKey(key.key, h.messageId), h.nonce, text, SealedAad(raw[..SEALED_HEADER_LEN], conversation));
    assert c.decode(sealed) == c.decode(SealMessage(c, key, conversation, text, h.messageId, h.nonce));
  }

  /** `reveal_message_key`. */
  function RevealedKey(c: Crypto, keys: seq<ConversationKey>, sealed: string): Result<string, SealError> {
    match c.decode(sealed)
    case None => Err(BadEncoding)
    case Some(raw) =>
      match ParseSealed(raw)
      case Err(e) => Err(e)
      case Ok(h) =>
        match KeyFor(keys, h.epoch)
        case None => Err(NoKey)
        case Some(key) => Ok(c.encode(c.messageKey(key.key, h.messageId)))
  }

  /** `open_revealed_message`. */
  function OpenRevealed(c: Crypto, messageKey: string, conversation: Name, sealed: string): Result<Bytes, SealError> {
    match c.decode(messageKey)
    case None => Err(BadEncoding)
    case Some(key) =>
      if !c.isKey(key) then Err(BadKey)
      else
        match c.decode(sealed)
        case None => Err(BadEncoding)
        case Some(raw) =>
          match ParseSealed(raw)
          case Err(e) => Err(e)
          case Ok(h) => Opened(c.open(key, h.nonce, h.ciphertext, SealedAad(raw[..SEALED_HEADER_LEN], conversation)))
  }

  /** Whatever is read, an encoding or a frame that is not one is the error, whichever way it is opened. */
  lemma NotAFrame(c: Crypto, keys: seq<ConversationKey>, messageKey: string, conversation: Name, sealed: string)
    requires c.decode(sealed).None? || ParseSealed(c.decode(sealed).value).Err?
    ensures var e := if c.decode(sealed).None? then BadEncoding else ParseSealed(c.decode(sealed).value).error;
            && OpenMessage(c, keys, conversation, sealed) == Err(e) && RevealedKey(c, keys, sealed) == Err(e)
            && (c.decode(messageKey).Some? && c.isKey(c.decode(messageKey).value) ==>
                  OpenRevealed(c, messageKey, conversation, sealed) == Err(e))
  {
    hide ParseSealed, SealedAad;
  }

  /** The key revealed for one message opens another exactly when that one was sealed with the same epoch
      key and message id, and only in its own conversation. */
  lemma RevealedOpensIff(c: Crypto, a: ConversationKey, messageId: Bytes, nonce: Bytes, text: Bytes, keys: seq<ConversationKey>,
                         b: ConversationKey, messageId': Bytes, nonce': Bytes, text': Bytes, conversation: Name, conversation': Name)
    requires Ideal(c) && a.epoch < EPOCHS && b.epoch < EPOCHS && KeyFor(keys, a.epoch) == Some(a)
    requires |messageId| == |messageId'| == MESSAGE_ID_LEN && |nonce| == |nonce'| == NONCE_LEN
    ensures var revealed := RevealedKey(c, keys, SealMessage(c, a, conversation, text, messageId, nonce));
            && revealed.Ok?
            && var got := OpenRevealed(c, revealed.value, conversation', SealMessage(c, b, conversation, text', messageId', nonce'));
            && (got.Ok? <==> a.key == b.key && messageId == messageId' && conversation' == conversation)
            && (got.Ok? ==> got.value == text')
  {
    hide EpochBytes, EpochOf, ParseSealed, Frame, Ideal;
    ParsesAsSealed(c, a, conversation, text, messageId, nonce);
    ParsesAsSealed(c, b, conversation, text', messageId', nonce');
    var header := Header(b.epoch, messageId', nonce');
    var k, k' := c.messageKey(a.key, messageId), c.messageKey(b.key, messageId');
    KeysAreKeys(c, a.key, messageId, b.key, messageId');
    SealedAadInjective(header, conversation, header, conversation');
    OpensOnlyOwn(c, k', nonce', text', SealedAad(header, conversation), k, SealedAad(header, conversation'));
  }

  lemma KeysAreKeys(c: Crypto, k: Bytes, i: Bytes, k': Bytes, i': Bytes)
    requires Ideal(c)
    ensures c.isKey(c.messageKey(k, i)) && c.decode(c.encode(c.messageKey(k, i))) == Some(c.messageKey(k, i))
    ensures c.messageKey(k, i) == c.messageKey(k', i') <==> k == k' && i == i'
  {
  }

  /** What a sealed message decodes and parses to. */
  lemma ParsesAsSealed(c: Crypto, key: ConversationKey, conversation: Name, text: Bytes, messageId: Bytes, nonce: Bytes)
    requires Ideal(c) && key.epoch < EPOCHS && |messageId| == MESSAGE_ID_LEN && |nonce| == NONCE_LEN
    ensures var header := Header(key.epoch, messageId, nonce);
            var s := Sealed(key.epoch, messageId, nonce, c.seal(c.messageKey(key.key, messageId), nonce, text, SealedAad(header, conversation)));
            && c.decode(SealMessage(c, key, conversation, text, messageId, nonce)) == Some(Frame(s))
            && ParseSealed(Frame(s)) == Ok(s) && |Frame(s)| >= SEALED_HEADER_LEN && Frame(s)[..SEALED_HEADER_LEN] == header
  {
    hide EpochBytes, EpochOf, ParseSealed;
    var header := Header(key.epoch, messageId, nonce);
    ParseFrame(Sealed(key.epoch, messageId, nonce, c.seal(c.messageKey(key.key, messageId), nonce, text, SealedAad(header, conversation))));
  }

  // ---- Files ----------------------------------------------------------------------------------

  function SealedFile(c: Crypto, conversation: Name, plaintext: Bytes, key: Bytes, nonce: Bytes): Bytes {
    [FILE_VERSION] + nonce + c.seal(key, nonce, plaintext, FileAad(conversation))
  }

  /** `open_file`. */
  function OpenFile(c: Crypto, conversation: Name, key: string, sealed: Bytes): Result<Bytes, SealError> {
    match c.decode(key)
    case None => Err(BadEncoding)
    case Some(k) =>
      if !c.isKey(k) then Err(BadKey)
      else if |sealed| < FILE_HEADER_LEN + FILE_TAG_LEN then Err(TooShort)
      else if sealed[0] != FILE_VERSION then Err(BadVersion)
      else
        var rest := sealed[FILE_HEADER_LEN..];
        var cut := |sealed| - FILE_HEADER_LEN - FILE_TAG_LEN;
        Opened(c.open(k, sealed[1..FILE_HEADER_LEN], rest[..cut] + rest[cut..], FileAad(conversation)))
  }

  /** A sealed file opens, to its bytes, exactly with its own key and in its own conversation. */
  lemma OpenSealedFileIff(c: Crypto, conversation: Name, plaintext: Bytes, key: Bytes, nonce: Bytes, conversation': Name, key': Bytes)
    requires Ideal(c) && |nonce| == NONCE_LEN && c.isKey(key) && c.isKey(key')
    ensures var sealed := SealedFile(c, conversation, plaintext, key, nonce);
            var got := OpenFile(c, conversation', c.encode(key'), sealed);
            && (got.Ok? <==> key' == key && conversation' == conversation)
            && (got.Ok? ==> got.value == plaintext)
            && (got.Err? ==> got.error == CannotDecrypt)
            && |sealed| >= FILE_HEADER_LEN + FILE_TAG_LEN && sealed[1..FILE_HEADER_LEN] == nonce
  {
    var x := c.seal(key, nonce, plaintext, FileAad(conversation));
    var sealed := SealedFile(c, conversation, plaintext, key, nonce);
    assert sealed[1..FILE_HEADER_LEN] == nonce && sealed[FILE_HEADER_LEN..] == x;
    assert x[..|x| - FILE_TAG_LEN] + x[|x| - FILE_TAG_LEN..] == x;
    FileAadApart(conversation, conversation', 0, [], []);
    OpensOnlyOwn(c, key, nonce, plaintext, FileAad(conversation), key', FileAad(conversation'));
  }

  /** `seal_file`, built in one buffer: what it returns opens again, to the plaintext, with the returned key in
      the same conversation and in no other. */
  method SealFile(c: Crypto, conversation: Name, plaintext: Bytes, key: Bytes, nonce: Bytes) returns (encodedKey: string, out: Bytes)
    requires |nonce| == NONCE_LEN && Ideal(c) && c.isKey(key)
    ensures OpenFile(c, conversation, encodedKey, out) == Ok(plaintext)
    ensures forall other :: other != conversation ==> OpenFile(c, other, encodedKey, out).Err?
    ensures |out| >= FILE_HEADER_LEN + FILE_TAG_LEN && out[0] == FILE_VERSION && out[1..FILE_HEADER_LEN] == nonce
  {
    out := [FILE_VERSION];
    out := out + nonce;
    out := out + c.seal(key, nonce, plaintext, FileAad(conversation));
    encodedKey := c.encode(key);
    assert out == SealedFile(c, conversation, plaintext, key, nonce);
    forall other ensures OpenFile(c, other, encodedKey, out) == if other == conversation then Ok(plaintext) else Err(CannotDecrypt) {
      OpenSealedFileIff(c, conversation, plaintext, key, nonce, other, key);
    }
  }

  /** Under one key, conversation and nonce, only one sequence of bytes opens to a given text: a file altered
      anywhere after its nonce cannot read as before. */
  lemma FileBytesUnique(c: Crypto, conversation: Name, key: string, sealed: Bytes, sealed': Bytes)
    requires Ideal(c) && OpenFile(c, conversation, key, sealed).Ok?
    requires OpenFile(c, conversation, key, sealed') == OpenFile(c, conversation, key, sealed)
    requires sealed'[1..FILE_HEADER_LEN] == sealed[1..FILE_HEADER_LEN]
    ensures sealed' == sealed
  {
    var rest, rest' := sealed[FILE_HEADER_LEN..], sealed'[FILE_HEADER_LEN..];
    assert rest[..|rest| - FILE_TAG_LEN] + rest[|rest| - FILE_TAG_LEN..] == rest;
    assert rest'[..|rest'| - FILE_TAG_LEN] + rest'[|rest'| - FILE_TAG_LEN..] == rest';
    assert rest == rest';
    assert sealed == [sealed[0]] + sealed[1..FILE_HEADER_LEN] + rest && sealed' == [sealed'[0]] + sealed'[1..FILE_HEADER_LEN] + rest';
  }
}
