/** The superblock fields the engine reads without any key. */
module Superblocks {

  datatype ImageKind = Block | Stream | File

  /** The role of a member in its chain, as requested and as recorded. */
  datatype MemberKind = Full | Incremental | Differential

  /** Identifiers are numbers here; zero stands for the all-zero identifier. */
  type Id = nat

  datatype Superblock = Superblock(
    deltaFlag: bool,
    encrypted: bool,
    imageKind: ImageKind,
    imageUuid: Id,
    chainId: Id,
    setId: Id,
    parentUuid: Id,
    seqInChain: nat,
    createdUnix: nat,
    sourceSize: nat,
    chunkSize: nat,
    consistency: nat)

  /** The structural role of a member: sequence, image kind and delta flag decide it. */
  function KindOf(sb: Superblock): MemberKind {
    if sb.seqInChain == 0 then MemberKind.Full
    else if sb.imageKind == Stream || sb.deltaFlag then Incremental
    else Differential
  }
}
