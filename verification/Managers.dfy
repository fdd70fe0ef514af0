/** The notification managers: what each sends, and how. */
module Managers {

  datatype Kind =
    | KindProjectCreated | KindProjectUpdated | KindBlogEntry | KindAnnouncement | KindApplication
    | KindComment | KindReply | KindReadyForReview | KindReview | KindProjectMessage
    | KindMemberRemoved | KindGroupMemberRemoved | KindMemberUpdated | KindMemberUpdatedSelf
    | KindMemberAdded | KindMemberAddedSelf | KindGroupMemberAdded | KindGroupMemberAddedSelf
    | KindAccessRequest | KindPendingAccessRequests | KindInvitationToday | KindInvitationWeek
    | KindNewInstruction

  datatype Manager =
    | ProjectCreated | ProjectEdited | BlogEntry | Announcement | Application
    | Comment | FollowerComment | CommentReply | ReadyForReview | Review | PrivateMessage
    | DeleteMembers | DeleteGroupMembers | UpdateMembers | UpdatedMember
    | AddMembers | AddMember | AddGroupMembers | AddGroupMember
    | NewAccessRequest | PendingAccessRequests | InvitationToday | InvitationWeek | NewInstruction
  {
    /** `notification_type` */
    function Kind(): Kind {
      match this
      case ProjectCreated => KindProjectCreated
      case ProjectEdited => KindProjectUpdated
      case BlogEntry => KindBlogEntry
      case Announcement => KindAnnouncement
      case Application => KindApplication
      case Comment => KindComment
      case FollowerComment => KindComment
      case CommentReply => KindReply
      case ReadyForReview => KindReadyForReview
      case Review => KindReview
      case PrivateMessage => KindProjectMessage
      case DeleteMembers => KindMemberRemoved
      case DeleteGroupMembers => KindGroupMemberRemoved
      case UpdateMembers => KindMemberUpdated
      case UpdatedMember => KindMemberUpdatedSelf
      case AddMembers => KindMemberAdded
      case AddMember => KindMemberAddedSelf
      case AddGroupMembers => KindGroupMemberAdded
      case AddGroupMember => KindGroupMemberAddedSelf
      case NewAccessRequest => KindAccessRequest
      case PendingAccessRequests => KindPendingAccessRequests
      case InvitationToday => KindInvitationToday
      case InvitationWeek => KindInvitationWeek
      case NewInstruction => KindNewInstruction
    }

    /** `send_immediately` */
    predicate Immediate() {
      match this
      case ProjectCreated => false
      case ProjectEdited => false
      case BlogEntry => false
      case Announcement => false
      case FollowerComment => false
      case DeleteMembers => false
      case DeleteGroupMembers => false
      case UpdateMembers => false
      case AddMembers => false
      case AddGroupMembers => false
      case _ => true
    }

    /** `merge` */
    predicate Merges() {
      match this
      case ProjectCreated => false
      case Application => false
      case InvitationToday => false
      case InvitationWeek => false
      case _ => true
    }
  }
}
