/**
 Key material of a chain: created with the full, unwrapped from the parent and
 rewrapped for every later member, and unlocked again by readers.
 */
module Keys {
  import opened Wrappers
  import opened Superblocks

  datatype Encryption = Passphrase(secret: Bytes) | NoEncrypt

  datatype KdfParams = KdfParams(mCostKib: nat, tCost: nat, pCost: nat)

  /** A superblock with its key fields. */
  datatype Header = Header(superblock: Superblock, kdfSalt: Bytes, params: KdfParams, wrapNonce: Bytes, wrapped: Bytes)

  datatype ImageKeys = ImageKeys(dataKey: Option<Bytes>, metaKey: Bytes, dedupKey: Bytes)

  datatype NewChainKeys = NewChainKeys(
    keys: ImageKeys, kdfSalt: Bytes, params: KdfParams, wrapNonce: Bytes, wrapped: Bytes, encrypted: bool)

  /** The primitives: key derivation, key wrapping, and the per-image and per-chain expansions. */
  datatype Crypto = Crypto(
    deriveKek: (Bytes, Bytes, KdfParams) -> Option<Bytes>,
    wrap: (Bytes, Bytes, Id, Bytes) -> Option<Bytes>,
    unwrap: (Bytes, Id, Bytes, Bytes) -> Option<Bytes>,
    fileKeys: (Bytes, Id) -> (Bytes, Bytes),
    dedupKey: (Bytes, Id) -> Bytes,
    publicKey: Bytes)

  /** The random bytes one member draws. */
  datatype Draws = Draws(kdfSalt: Bytes, chainKey: Bytes, wrapNonce: Bytes)

  const DEFAULT_PARAMS := KdfParams(262144, 3, 4)
  const NO_PARAMS := KdfParams(0, 0, 0)

  function Zeros(n: nat): Bytes {
    seq(n, i => 0)
  }

  /** `wrapped` holds `key`, and opens to it under `kek` and under no other key. */
  ghost predicate Holds(c: Crypto, kek: Bytes, key: Bytes, chainId: Id, nonce: Bytes, wrapped: Bytes) {
    && c.unwrap(kek, chainId, nonce, wrapped) == Some(key)
    && forall other :: other != kek ==> c.unwrap(other, chainId, nonce, wrapped).None?
  }

  /** Key wrapping is authenticated: what was wrapped opens only under its own key. */
  ghost predicate Authentic(c: Crypto) {
    forall kek, key, chainId, nonce :: c.wrap(kek, key, chainId, nonce).Some? ==>
      Holds(c, kek, key, chainId, nonce, c.wrap(kek, key, chainId, nonce).value)
  }

  function ImageKeysOf(c: Crypto, chainKey: Bytes, chainId: Id, imageUuid: Id, encrypted: bool): ImageKeys {
    var (dataKey, metaKey) := c.fileKeys(chainKey, imageUuid);
    ImageKeys(if encrypted then Some(dataKey) else None, metaKey, c.dedupKey(chainKey, chainId))
  }

  /** Keys for a full: a drawn chain key, or the public one. */
  function NewKeys(c: Crypto, encryption: Encryption, chainId: Id, imageUuid: Id, draws: Draws): Result<NewChainKeys> {
    match encryption
    case Passphrase(secret) =>
      (match c.deriveKek(secret, draws.kdfSalt, DEFAULT_PARAMS)
       case None => Failure(Aead)
       case Some(kek) =>
         match c.wrap(kek, draws.chainKey, chainId, draws.wrapNonce)
         case None => Failure(Aead)
         case Some(wrapped) =>
           Success(NewChainKeys(ImageKeysOf(c, draws.chainKey, chainId, imageUuid, true), draws.kdfSalt, DEFAULT_PARAMS,
                                draws.wrapNonce, wrapped, true)))
    case NoEncrypt =>
      Success(NewChainKeys(ImageKeysOf(c, c.publicKey, chainId, imageUuid, false), Zeros(16), NO_PARAMS, Zeros(12),
                           Zeros(48), false))
  }

  /** Keys for a later member: the parent's chain key, wrapped once more. */
  function MemberKeys(c: Crypto, encryption: Encryption, parent: Header, chainId: Id, imageUuid: Id,
                      draws: Draws): Result<NewChainKeys>
  {
    if parent.superblock.chainId != chainId then Failure(Unsupported)
    else if !parent.superblock.encrypted then
      if encryption.Passphrase? then Failure(Unsupported)
      else Success(NewChainKeys(ImageKeysOf(c, c.publicKey, chainId, imageUuid, false), parent.kdfSalt, parent.params,
                                Zeros(12), Zeros(48), false))
    else
      match encryption
      case NoEncrypt => Failure(Unsupported)
      case Passphrase(secret) =>
        match c.deriveKek(secret, parent.kdfSalt, parent.params)
        case None => Failure(Aead)
        case Some(kek) =>
          match c.unwrap(kek, chainId, parent.wrapNonce, parent.wrapped)
          case None => Failure(Aead)
          case Some(chainKey) =>
            match c.wrap(kek, chainKey, chainId, draws.wrapNonce)
            case None => Failure(Aead)
            case Some(wrapped) =>
              Success(NewChainKeys(ImageKeysOf(c, chainKey, chainId, imageUuid, true), parent.kdfSalt, parent.params,
                                   draws.wrapNonce, wrapped, true))
  }

  /** What a request makes of a header: its chain key, and whether the chain is encrypted. */
  function ChainKeyOf(c: Crypto, encryption: Encryption, h: Header): Result<(Bytes, bool)> {
    if !h.superblock.encrypted then Success((c.publicKey, false))
    else
      match encryption
      case NoEncrypt => Failure(Unsupported)
      case Passphrase(secret) =>
        match c.deriveKek(secret, h.kdfSalt, h.params)
        case None => Failure(Aead)
        case Some(kek) =>
          match c.unwrap(kek, h.superblock.chainId, h.wrapNonce, h.wrapped)
          case None => Failure(Aead)
          case Some(chainKey) => Success((chainKey, true))
  }

  /** The image keys of a header under a chain key that is already known. */
  function UnlockWithChainKey(c: Crypto, chainKey: Bytes, chainId: Id, h: Header, encrypted: bool): Result<ImageKeys> {
    if h.superblock.chainId != chainId then Failure(Unsupported)
    else Success(ImageKeysOf(c, chainKey, chainId, h.superblock.imageUuid, encrypted))
  }

  /** The image keys of a header, starting from the request alone. */
  function UnlockImage(c: Crypto, encryption: Encryption, h: Header): Result<ImageKeys> {
    match ChainKeyOf(c, encryption, h)
    case Failure(e) => Failure(e)
    case Success((chainKey, encrypted)) =>
      Success(ImageKeysOf(c, chainKey, h.superblock.chainId, h.superblock.imageUuid, encrypted))
  }

  /** When keys are refused: for a foreign chain, for the other regime, and when a primitive fails. */
  lemma RefusalsAreExact(c: Crypto, encryption: Encryption, parent: Header, chainId: Id, imageUuid: Id, draws: Draws,
                         chainKey: Bytes, encrypted: bool)
    ensures UnlockWithChainKey(c, chainKey, chainId, parent, encrypted).Failure? <==>
            parent.superblock.chainId != chainId
    ensures ChainKeyOf(c, encryption, parent).Success? <==>
            parent.superblock.encrypted ==> Unwraps(c, encryption, parent, parent.superblock.chainId)
    ensures MemberKeys(c, encryption, parent, chainId, imageUuid, draws).Success? <==>
            && parent.superblock.chainId == chainId
            && (encryption.Passphrase? <==> parent.superblock.encrypted)
            && (parent.superblock.encrypted ==>
                  && Unwraps(c, encryption, parent, chainId)
                  && var kek := c.deriveKek(encryption.secret, parent.kdfSalt, parent.params).value;
                     var key := c.unwrap(kek, chainId, parent.wrapNonce, parent.wrapped).value;
                     c.wrap(kek, key, chainId, draws.wrapNonce).Some?)
  {
  }

  /** The passphrase derives a key that opens the wrapped chain key of a header. */
  ghost predicate Unwraps(c: Crypto, encryption: Encryption, h: Header, chainId: Id) {
    && encryption.Passphrase?
    && var kek := c.deriveKek(encryption.secret, h.kdfSalt, h.params);
       kek.Some? && c.unwrap(kek.value, chainId, h.wrapNonce, h.wrapped).Some?
  }

  // ------------------------------------------------------------------- runs

  /** The header that records `keys`. */
  ghost predicate Records(h: Header, keys: NewChainKeys) {
    && h.superblock.encrypted == keys.encrypted
    && h.kdfSalt == keys.kdfSalt && h.params == keys.params
    && h.wrapNonce == keys.wrapNonce && h.wrapped == keys.wrapped
  }

  /** The keys member `k` was written with. */
  ghost function KeysAt(c: Crypto, chain: seq<Header>, requests: seq<Encryption>, draws: seq<Draws>,
                        k: nat): Result<NewChainKeys>
    requires k < |chain| == |requests| == |draws|
  {
    var sb := chain[k].superblock;
    if k == 0 then NewKeys(c, requests[0], sb.chainId, sb.imageUuid, draws[0])
    else MemberKeys(c, requests[k], chain[k - 1], sb.chainId, sb.imageUuid, draws[k])
  }

  /** A chain grown member by member, each request with its own passphrase or none. */
  ghost predicate KeyedChain(c: Crypto, chain: seq<Header>, requests: seq<Encryption>, draws: seq<Draws>) {
    && |chain| == |requests| == |draws| > 0
    && forall k :: 0 <= k < |chain| ==> KeyedAt(c, chain, requests, draws, k)
  }

  ghost predicate KeyedAt(c: Crypto, chain: seq<Header>, requests: seq<Encryption>, draws: seq<Draws>, k: nat)
    requires k < |chain| == |requests| == |draws|
  {
    KeysAt(c, chain, requests, draws, k).Success? && Records(chain[k], KeysAt(c, chain, requests, draws, k).value)
  }

  /** Exactly an encrypted image has a data key, when it is written and whenever it is unlocked. */
  lemma DataKeyIffEncrypted(c: Crypto, chain: seq<Header>, requests: seq<Encryption>, draws: seq<Draws>, k: nat,
                            encryption: Encryption)
    requires KeyedChain(c, chain, requests, draws) && k < |chain|
    ensures KeyedAt(c, chain, requests, draws, k)
    ensures KeysAt(c, chain, requests, draws, k).value.keys.dataKey.Some? <==> chain[k].superblock.encrypted
    ensures UnlockImage(c, encryption, chain[k]).Success? ==>
              (UnlockImage(c, encryption, chain[k]).value.dataKey.Some? <==> chain[k].superblock.encrypted)
  {
    assert KeyedAt(c, chain, requests, draws, k);
  }

  /**
   What is drawn is used: every encrypted member wraps under a nonce of its own
   draw, a full takes its salt and chain key from its draw, later members keep
   the salt, and a plain member draws nothing.
   */
  lemma DrawsAreUsed(c: Crypto, chain: seq<Header>, requests: seq<Encryption>, draws: seq<Draws>, k: nat)
    requires Authentic(c) && KeyedChain(c, chain, requests, draws) && k < |chain|
    ensures chain[k].superblock.encrypted ==>
              && chain[k].wrapNonce == draws[k].wrapNonce && chain[k].kdfSalt == draws[0].kdfSalt
              && ChainKeyOf(c, requests[0], chain[k]) == Success((draws[0].chainKey, true))
    ensures !chain[k].superblock.encrypted ==>
              && chain[k].wrapNonce == seq(12, i => 0) && chain[k].wrapped == seq(48, i => 0)
              && chain[k].kdfSalt == seq(16, i => 0)
  {
    assert KeyedAt(c, chain, requests, draws, 0) && KeyedAt(c, chain, requests, draws, k);
    RegimeIsShared(c, chain, requests, draws, 0);
    RegimeIsShared(c, chain, requests, draws, k);
    UnlocksToTheRoot(c, chain, requests, draws, requests[0], k, k);
  }

  /** Everything the members of one chain have in common. */
  ghost predicate SharesRegime(c: Crypto, h: Header, first: Header, kek: Bytes, chainKey: Bytes) {
    && h.superblock.chainId == first.superblock.chainId
    && h.superblock.encrypted == first.superblock.encrypted
    && h.kdfSalt == first.kdfSalt && h.params == first.params
    && if h.superblock.encrypted then Holds(c, kek, chainKey, h.superblock.chainId, h.wrapNonce, h.wrapped)
       else chainKey == c.publicKey
  }

  /** The key-encryption key and the chain key the full was created with. */
  ghost function RootKeys(c: Crypto, request: Encryption, draws: Draws): (Bytes, Bytes) {
    match request
    case NoEncrypt => ([], c.publicKey)
    case Passphrase(secret) =>
      match c.deriveKek(secret, draws.kdfSalt, DEFAULT_PARAMS)
      case None => ([], draws.chainKey)
      case Some(kek) => (kek, draws.chainKey)
  }

  /** The keys a member of the regime is written with. */
  ghost predicate WritesWith(c: Crypto, keys: NewChainKeys, h: Header, chainKey: Bytes) {
    keys.keys == ImageKeysOf(c, chainKey, h.superblock.chainId, h.superblock.imageUuid, h.superblock.encrypted)
  }

  lemma FullStartsRegime(c: Crypto, encryption: Encryption, h: Header, draws: Draws)
    requires Authentic(c)
    requires var keys := NewKeys(c, encryption, h.superblock.chainId, h.superblock.imageUuid, draws);
             keys.Success? && Records(h, keys.value)
    ensures var (kek, chainKey) := RootKeys(c, encryption, draws);
            && SharesRegime(c, h, h, kek, chainKey)
            && WritesWith(c, NewKeys(c, encryption, h.superblock.chainId, h.superblock.imageUuid, draws).value, h,
                          chainKey)
  {
    if encryption.Passphrase? {
      var kek := c.deriveKek(encryption.secret, draws.kdfSalt, DEFAULT_PARAMS).value;
      assert Holds(c, kek, draws.chainKey, h.superblock.chainId, draws.wrapNonce, h.wrapped);
    }
  }

  lemma MemberKeepsRegime(c: Crypto, encryption: Encryption, parent: Header, h: Header, draws: Draws, first: Header,
                          kek: Bytes, chainKey: Bytes)
    requires Authentic(c) && SharesRegime(c, parent, first, kek, chainKey)
    requires var keys := MemberKeys(c, encryption, parent, h.superblock.chainId, h.superblock.imageUuid, draws);
             keys.Success? && Records(h, keys.value)
    ensures SharesRegime(c, h, first, kek, chainKey)
    ensures var keys := MemberKeys(c, encryption, parent, h.superblock.chainId, h.superblock.imageUuid, draws).value;
            WritesWith(c, keys, h, chainKey)
  {
    if parent.superblock.encrypted {
      var used := c.deriveKek(encryption.secret, parent.kdfSalt, parent.params).value;
      var unwrapped := c.unwrap(used, h.superblock.chainId, parent.wrapNonce, parent.wrapped).value;
      assert used == kek && unwrapped == chainKey;
      assert Holds(c, kek, chainKey, h.superblock.chainId, h.wrapNonce, h.wrapped);
    }
  }

  /** Every member of a run shares the regime of its full, and is written with that chain key. */
  lemma {:induction false} RegimeIsShared(c: Crypto, chain: seq<Header>, requests: seq<Encryption>, draws: seq<Draws>,
                                          k: nat)
    requires Authentic(c) && KeyedChain(c, chain, requests, draws) && k < |chain|
    ensures var (kek, chainKey) := RootKeys(c, requests[0], draws[0]);
            && SharesRegime(c, chain[k], chain[0], kek, chainKey)
            && KeyedAt(c, chain, requests, draws, k)
            && WritesWith(c, KeysAt(c, chain, requests, draws, k).value, chain[k], chainKey)
  {
    assert KeyedAt(c, chain, requests, draws, k);
    var (kek, chainKey) := RootKeys(c, requests[0], draws[0]);
    if k == 0 {
      FullStartsRegime(c, requests[0], chain[0], draws[0]);
    } else {
      RegimeIsShared(c, chain, requests, draws, k - 1);
      MemberKeepsRegime(c, requests[k], chain[k - 1], chain[k], draws[k], chain[0], kek, chainKey);
    }
  }

  /**
   One key regime per chain: in every run either all members are encrypted or
   none is, and all are written with one dedup key, so hashes of different
   members compare.
   */
  lemma OneRegime(c: Crypto, chain: seq<Header>, requests: seq<Encryption>, draws: seq<Draws>, j: nat, k: nat)
    requires Authentic(c) && KeyedChain(c, chain, requests, draws) && j < |chain| && k < |chain|
    ensures chain[j].superblock.encrypted == chain[k].superblock.encrypted
    ensures KeyedAt(c, chain, requests, draws, j) && KeyedAt(c, chain, requests, draws, k)
    ensures KeysAt(c, chain, requests, draws, j).value.keys.dedupKey ==
            KeysAt(c, chain, requests, draws, k).value.keys.dedupKey
  {
    RegimeIsShared(c, chain, requests, draws, j);
    RegimeIsShared(c, chain, requests, draws, k);
  }

  /**
   Unlocking is uniform: a passphrase that unlocks one member of a chain
   unlocks every member, each to the chain key the full was created with.
   */
  lemma UnlocksToTheRoot(c: Crypto, chain: seq<Header>, requests: seq<Encryption>, draws: seq<Draws>,
                         encryption: Encryption, j: nat, k: nat)
    requires Authentic(c) && KeyedChain(c, chain, requests, draws) && j < |chain| && k < |chain|
    ensures ChainKeyOf(c, encryption, chain[j]).Success? ==>
              ChainKeyOf(c, encryption, chain[k]) == ChainKeyOf(c, encryption, chain[j])
              == Success((RootKeys(c, requests[0], draws[0]).1, chain[0].superblock.encrypted))
    ensures ChainKeyOf(c, requests[0], chain[k]).Success?
  {
    RegimeIsShared(c, chain, requests, draws, 0);
    RegimeIsShared(c, chain, requests, draws, j);
    RegimeIsShared(c, chain, requests, draws, k);
    assert KeyedAt(c, chain, requests, draws, 0);
  }

  /**
   Unlocking a chain with one derivation gives every member the keys that unlocking it alone would, and those
   it was written with.
   */
  lemma OneDerivationIsEnough(c: Crypto, chain: seq<Header>, requests: seq<Encryption>, draws: seq<Draws>,
                              encryption: Encryption, k: nat)
    requires Authentic(c) && KeyedChain(c, chain, requests, draws) && k < |chain|
    requires ChainKeyOf(c, encryption, chain[0]).Success?
    ensures var (chainKey, encrypted) := ChainKeyOf(c, encryption, chain[0]).value;
            && KeyedAt(c, chain, requests, draws, k)
            && UnlockWithChainKey(c, chainKey, chain[0].superblock.chainId, chain[k], encrypted)
            == UnlockImage(c, encryption, chain[k])
            == Success(KeysAt(c, chain, requests, draws, k).value.keys)
  {
    UnlocksToTheRoot(c, chain, requests, draws, encryption, 0, k);
    RegimeIsShared(c, chain, requests, draws, k);
  }

  /**
   A request is never carried out under the other regime: the chain's encryption and the request's agree for
   every member.
   */
  lemma RequestsMatchTheChain(c: Crypto, chain: seq<Header>, requests: seq<Encryption>, draws: seq<Draws>, k: nat)
    requires Authentic(c) && KeyedChain(c, chain, requests, draws) && k < |chain|
    ensures requests[k].Passphrase? <==> chain[0].superblock.encrypted
  {
    assert KeyedAt(c, chain, requests, draws, k);
    RegimeIsShared(c, chain, requests, draws, k);
  }
}
