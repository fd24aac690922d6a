/** The JSON Web Token operations the core calls, left abstract: signing is
    not modelled (the handlers receive the minted token strings), and
    `jwt.verify(token, secret)` for a fixed secret is a function parameter
    of type `Verifier`. */
module Jwt {
  import opened Wrappers

  /** The claims the core reads from a decoded token. */
  datatype Claims = Claims(id: string, role: string)

  /** `jwt.verify` for one secret: the decoded claims, or `None` when the
      signature or the expiry check fails. */
  type Verifier = string -> Option<Claims>
}
