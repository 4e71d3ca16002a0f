/** The Banned schema (server/src/models/banned.users.model.js): the ledger of ban events. */
module BannedModel {
  import opened Optional
  import opened UserModel

  const DefaultReason: string := "community guidelines"

  /**
   * One ban event: the banned user, the reason, and the timestamps the schema
   * adds. No index makes `userId` unique, so a user may have many records.
   */
  datatype BanRecord = BanRecord(userId: UserId, reason: string, createdAt: int, updatedAt: int)

  /**
   * `new Banned({userId, reason})` at clock reading `now`. The default applies
   * only when the reason is absent; a given reason is kept as it is.
   */
  function NewBanRecord(userId: UserId, reason: Option<string>, now: int): (b: BanRecord)
    ensures b.userId == userId
    ensures b.reason == if reason.Some? then reason.value else DefaultReason
    ensures b.createdAt == now && b.updatedAt == now
  {
    BanRecord(userId, if reason.Some? then reason.value else DefaultReason, now, now)
  }

  /** The validators: `reason` is required, which rejects the empty string. */
  predicate ValidBanRecord(b: BanRecord) {
    |b.reason| > 0
  }

  /** A new record fails validation exactly when the request gave an empty reason. */
  lemma NewBanRecordValid(userId: UserId, reason: Option<string>, now: int)
    ensures ValidBanRecord(NewBanRecord(userId, reason, now)) <==> reason != Some("")
  {
  }
}
