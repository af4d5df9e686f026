/** The hash functions that the repository takes from elsewhere, as uninterpreted
    functions.  Nothing is assumed about collisions.  None stands for a raised fault. */
module Substrate {
  import opened Bytes
  import opened Canonical

  datatype Crypto = Crypto(
    sha256: bytes -> Digest,                    // axilog_sha256
    commit: (bytes, bytes) -> Option<Digest>,   // axilog_commit(tag, payload)
    evidence: (bytes, bytes) -> Option<Digest>, // ax_commit_evidence(tag, payload)
    genesis: Digest,                            // ax_ledger_genesis
    link: (Digest, Digest) -> Option<Digest>)   // ax_ledger_append(head, commit)
}
