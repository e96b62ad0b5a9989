/** Entities of the daily penalty job: the rows it reads and the notification records it writes.
    Everything that is only logged (user names, e-mail addresses, push tokens) and the
    timestamps the job stamps on rows are not represented. */
module Records {

  datatype Option<T> = None | Some(value: T)

  type UserId = string
  type PenaltyId = string

  /** A status name other than the two this job reads or writes. */
  type OtherStatusName = s: string | s != "active" && s != "auto_deactivated"

  /** A tier name other than the two the escalation scan admits. */
  type OtherTierName = s: string | s != "exclusive" && s != "legacy"

  /** `users.account_status`; only the two states this job reads or writes are named. */
  datatype AccountStatus = Active | AutoDeactivated | OtherStatus(name: OtherStatusName)

  /** `users.membership_status`, used only to filter the escalation scan. */
  datatype Membership = Exclusive | Legacy | OtherTier(name: OtherTierName)

  /** The part of a `users` row this job sees. */
  datatype UserAccount = UserAccount(account: AccountStatus, membership: Membership)

  /** The filter of the escalation scan: `account_status = 'active'` and
      `membership_status in ('exclusive', 'legacy')`. */
  predicate InScope(u: UserAccount)
  {
    u.account == Active && (u.membership == Exclusive || u.membership == Legacy)
  }

  /** The `type` column of `notification_queue`. */
  datatype NotificationType =
    | PenaltyIncurred
    | DeactivationWarning
    | DeactivationWarningFinal
    | AccountDeactivated

  /** The `body` column. Its text is rendered with locale-dependent number formatting,
      so it is kept as the message kind and the numbers it states. */
  datatype Body =
    | PenaltyAppliedText(amount: int, balance: int)
    | DeactivatedText(balance: int)
    | FinalWarningText(balance: int)
    | WarningText(balance: int)

  /** The `data` column: the structured payload of each kind of notification. */
  datatype Payload =
    | PenaltyPayload(penaltyId: PenaltyId, amount: int, balance: int, dateIncurred: string, action: string)
    | EscalationPayload(balance: int, threshold: int, action: string)

  /** One row of `notification_queue` (without `created_at`). */
  datatype NotificationRecord = NotificationRecord(
    userId: UserId,
    kind: NotificationType,
    title: string,
    body: Body,
    data: Payload,
    status: string)

  const Pending: string := "pending"
  const OpenPaymentScreen: string := "open_payment_screen"

  /** The answer of the `get_user_penalty_balance` procedure: no data at all, or a row whose
      `total_balance` may itself be missing. */
  datatype BalanceLookup = NoBalance | BalanceRow(total: Option<int>)

  /** The answer of a list query: an error, or the rows (a null list without an error is
      handled by the job exactly like an empty one, so it is `Fetched([])`). */
  datatype Fetch<T> = FetchFailed | Fetched(rows: seq<T>)
}
