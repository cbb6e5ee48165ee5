/**
 * The cryptographic operations as ideal terms: a key opens exactly what was sealed with it, and
 * derived keys are equal only for equal inputs.
 */
module Crypto {
  import opened Wrappers

  datatype Uuid = Uuid(bits: nat)
  datatype KeyShare = KeyShare(bits: nat)
  datatype MasterKey = MasterKey(bits: nat)

  /** Derived from the identity attributes and a provider's salt. */
  datatype UserId = UserId(idData: string, providerSalt: nat)

  /** Derived from key shares, in order, and a salt. */
  datatype PolicyKey = PolicyKey(shares: seq<KeyShare>, salt: nat)

  /** A key share sealed for a user; the extra salt is the answer to a security question. */
  datatype SealedShare = SealedShare(share: KeyShare, id: UserId, xsalt: Option<string>)

  datatype SealedMaster = SealedMaster(master: MasterKey, key: PolicyKey)

  datatype SealedSecret = SealedSecret(secret: string, master: MasterKey)

  /** A sealed key share opens for the user and the answer it was sealed with only. */
  predicate Opens(e: SealedShare, id: UserId, xsalt: Option<string>) {
    e.id == id && e.xsalt == xsalt
  }

  function OpenShare(e: SealedShare, id: UserId, xsalt: Option<string>): KeyShare
    requires Opens(e, id, xsalt)
  {
    e.share
  }

  /** The core secret, or None if the policy key is not the one the master key was sealed with. */
  function RecoverSecret(emk: SealedMaster, key: PolicyKey, e: SealedSecret): Option<string> {
    if emk.key == key && e.master == emk.master then Some(e.secret) else None
  }
}
