/**
 * The CloudKit values the persistence code handles: shares, their participants, and the errors
 * CloudKit calls report.  They are plain values here; CloudKit's own behaviour enters the model
 * only through the replies handed to the operations that call it.
 */
module CloudKit {
  import opened Wrappers
  import opened Schema

  /** CKShare.ParticipantPermission. */
  datatype Permission = UnknownPermission | NoPermission | ReadOnly | ReadWrite
  /** CKShare.ParticipantRole. */
  datatype Role = UnknownRole | Owner | PrivateUser | PublicUser
  /** CKShare.ParticipantAcceptanceStatus. */
  datatype AcceptanceStatus = Unknown | Pending | Accepted | Removed

  /** A share participant, identified by the user identity the lookup resolved. */
  datatype Participant = Participant(identity: string, role: Role, permission: Permission,
                                     acceptanceStatus: AcceptanceStatus)

  /**
   * A share.  `title` is the display title the app derives for it; `systemTitle` is the
   * CKShare.SystemFieldKey.title field the app writes when configuring a new share; `zone` is the
   * record zone of the share's record.
   */
  datatype Share = Share(title: string, zone: ZoneId, participants: seq<Participant>,
                         systemTitle: Option<string>)

  /** An error reported by CloudKit or by the Core Data mirroring calls. */
  datatype CloudError = CloudError(description: string)
}
