/** Outcomes shared by every service: each exception a service throws becomes an error value. */
module Common {

  /** The exceptions the services throw, plus a failure rethrown by the mail transport. */
  datatype Error =
    | NotFound                   // NotFoundException (its message names the missing key)
    | Conflict(msg: string)      // ConflictException
    | BadRequest(msg: string)    // BadRequestException
    | Unauthorized(msg: string)  // UnauthorizedException
    | MailFailed                 // the transport's error, propagated unchanged

  datatype Result<+T> = Ok(value: T) | Err(error: Error)

  /** An optional field of an input (absent when `None`) or a nullable column. */
  datatype Option<+T> = None | Some(value: T) {
    /** The value if present, otherwise `default`, as a spread or `Object.assign` leaves it. */
    function GetOr(default: T): T {
      match this
      case Some(v) => v
      case None => default
    }
  }
}
