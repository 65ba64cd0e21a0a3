/** The security events the handlers append to the log. Logging never fails
    the request: `logSecurityEvent` swallows its own errors. */
module SecurityLog {
  import opened Wrappers

  datatype SecurityEvent =
      /** The object form of `logSecurityEvent`: who, which action, whether it
          succeeded, from where, and the `reason` (with the underlying
          `error`, when there is one) of a failure. */
    | AuthEvent(userId: Option<string>, action: string, succeeded: bool,
                ipAddress: string, userAgent: string, reason: string, error: string)
      /** The two-argument form used by the staged-login handlers: an event
          name, the client address and the one detail that identifies the
          case (a certificate id, a member id, a token prefix or a reason). */
    | NamedEvent(name: string, ip: string, detail: string)
      /** A `MASTER_PASSWORD_FAILED` row written directly to the security log. */
    | MasterPasswordFailed(memberId: string, ip: string, userAgent: string, attempts: int)

  predicate IsFailure(e: SecurityEvent) {
    match e
    case AuthEvent(_, _, succeeded, _, _, _, _) => !succeeded
    case NamedEvent(name, _, _) => name != "CERTIFICATE_VALIDATION_SUCCESS" && name != "AUTHENTICATION_SUCCESS"
    case MasterPasswordFailed(_, _, _, _) => true
  }
}
