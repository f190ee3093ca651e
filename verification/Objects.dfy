/** Raw objects, vault objects and the two ways in which a raw object can be done with. */
module Objects {

  datatype ObjectKey = ObjectKey(bucket: string, key: string)

  /** One version of a raw object; the etag identifies its content (README.md "Raw bucket
      immutability by convention"). */
  datatype Version = Version(obj: ObjectKey, etag: string)

  /** vault.BuildKeys: three disjoint families of vault objects. */
  datatype VaultKey = Raw(key: string) | Normalized(key: string) | Errors(key: string)

  function Count(attempts: map<Version, nat>, v: Version): nat {
    if v in attempts then attempts[v] else 0
  }

  /** A version is settled when it is in the ledger or has used up its attempts. */
  predicate Settled(processed: seq<Version>, attempts: map<Version, nat>, maxRetries: nat, v: Version) {
    v in processed || (v in attempts && attempts[v] >= maxRetries)
  }
}
