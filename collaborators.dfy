/** The foreign libraries the handlers call, kept abstract: bcrypt, jsonwebtoken
    and the JavaScript `Date` parser. A server is built over one fixed `Env`, the
    way the source fixes its secret key once at start-up. */
module Collaborators {
  import opened Wrappers

  /** The payload the server signs into a token and reads back from one:
      `{ id, username }` of a user row. */
  datatype Claims = Claims(id: nat, username: string)

  datatype Env = Env(
    /** `!isNaN(new Date(s))`: whether the engine's `Date` parser accepts `s`. */
    dateOk: string -> bool,
    /** `bcrypt.hash(password, 10)` for a given random salt. */
    hash: (string, nat) -> string,
    /** `bcrypt.compare(password, storedHash)`. */
    compare: (string, string) -> bool,
    /** `jwt.sign(claims, secret, { expiresIn: "1h" })` at a given clock reading. */
    sign: (Claims, nat) -> string,
    /** `jwt.verify(token, secret)`: the decoded payload, or `None` where it throws.
        Only payloads of the shape this server signs are represented, and the
        answer for a token does not change over time. */
    verify: string -> Option<Claims>)
}
