/** `packages/contract/types.ts`: the records that the accept chain reads. */
module Contract {
  import opened Patches

  datatype CandidateStatus = RepairReady | RepairFailed | ValidationFailed

  datatype ValidationStatus = Pass | Fail | Skipped | NotRun

  datatype Validation = Validation(name: string, status: ValidationStatus)

  datatype Candidate = Candidate(
    id: string, findingId: string, status: CandidateStatus, hunks: seq<Hunk>, validations: seq<Validation>)

  datatype Decision = Accepted | Rejected | Pending

  /** Why a candidate was rejected: one of the offered codes, with a comment for `other`. */
  datatype RejectReason = RejectReason(code: string, comment: string)

  /** `sha256:<hex>` of a text; collisions are excluded by making it a free constructor. */
  datatype Digest = Sha256(text: string)

  function ContentHash(text: string): Digest {
    Sha256(text)
  }
}
