/**
 * Shared vocabulary of the model: an optional value (JavaScript's `null`/`undefined`),
 * the HTTP verbs the request handlers distinguish, and the identifiers of stored documents.
 */
module Common {

  /** A value that may be absent, standing for a `null` or `undefined` field. */
  datatype Option<+T> = None | Some(value: T) {
    /** The value, or `d` when absent: a destructuring default such as `{ limit = 50 }`. */
    function GetOr(d: T): T {
      if Some? then value else d
    }
  }

  /** The request verbs the handlers tell apart; every other verb is `OtherMethod`. */
  datatype HttpMethod = GET | POST | OtherMethod

  /** Identifiers of stored documents: the hexadecimal string form of a MongoDB ObjectId,
      so an id's `toString()` is the id itself. */
  type UserId = string
  type PostId = string
  type ScheduleId = string

  /** The external (Firebase) user identifier sent in the `uid` request header. */
  type Uid = string
}
