/** Storage-neutral artifact references and metadata shared by both artifact store adapters. */
module Artifacts {
  import opened Prelude

  datatype ArtifactState = Temporary | Ready

  datatype ArtifactRef = ArtifactRef(key: string, state: ArtifactState)

  datatype ArtifactStat = ArtifactStat(ref: ArtifactRef, sizeBytes: nat, checksum: Digest, contentType: Option<string>)

  /** The exception classes a store operation can raise. */
  datatype StoreError = KeyError | ContractError | RequestFailed

  function TemporaryRef(key: string): ArtifactRef { ArtifactRef(key, Temporary) }

  function ReadyRef(key: string): ArtifactRef { ArtifactRef(key, Ready) }

  /** Metadata that truthfully describes `payload`. */
  function Describe(ref: ArtifactRef, payload: Bytes, contentType: Option<string>): ArtifactStat {
    ArtifactStat(ref, |payload|, Sha256(payload), contentType)
  }

  /** Equality of everything but the reference: what promotion must preserve. */
  predicate SameArtifact(a: ArtifactStat, b: ArtifactStat) {
    a.sizeBytes == b.sizeBytes && a.checksum == b.checksum && a.contentType == b.contentType
  }
}
