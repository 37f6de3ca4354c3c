/** Block approvals: endorsements of a parent hash, or skips over a height. */
module Approval {

  /** A 256-bit digest; only equality matters. `CryptoHash::default()` is 0. */
  type Hash = nat
  type Address = nat
  type Height = nat

  const DEFAULT_HASH: Hash := 0

  datatype ApprovalInner = Endorsement(hash: Hash) | Skip(height: Height)

  datatype ApprovalContent = ApprovalContent(inner: ApprovalInner, target: Height)

  /** An approval whose signature recovered to `validator`. */
  datatype ApprovalValidated = ApprovalValidated(content: ApprovalContent, validator: Address)

  function NewInner(parentHash: Hash, parentHeight: Height, target: Height): ApprovalInner {
    if target == parentHeight + 1 then Endorsement(parentHash) else Skip(parentHeight)
  }

  function NewContent(parentHash: Hash, parentHeight: Height, target: Height): ApprovalContent {
    ApprovalContent(NewInner(parentHash, parentHeight, target), target)
  }
}
