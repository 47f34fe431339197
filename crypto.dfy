/** The two foreign libraries the backend relies on, bcrypt and jsonwebtoken,
    reduced to the functions the handlers call and the facts they rely on.
    Their internals (salting rounds, constant-time comparison, HMAC) are not
    part of this model: the functions are supplied from outside, and `Sound`
    states what is assumed of them. */
module Crypto {
  import opened Wrappers
  import opened UserModel

  /** The primitives the service is built with:
      - `hash(password, salt)`: `bcrypt.hash`, with its random salt as a parameter;
      - `verify(password, hash)`: `bcrypt.compare`;
      - `sign(id)`: `jwt.sign({ id }, JWT_SECRET)`;
      - `decode(token)`: `jwt.verify(token, JWT_SECRET).id`, or None when it throws. */
  datatype Primitives = Primitives(
    hash: (string, nat) -> string,
    verify: (string, string) -> bool,
    sign: Id -> string,
    decode: string -> Option<Id>)
  {
    /** The contract of the two libraries:
        a password verifies against its own hash, a hash is never the plain
        text, a signed token decodes back to the id it was signed for, and a
        compact JWT (base64url segments joined by dots) contains no space. */
    ghost predicate Sound()
    {
      && (forall p, salt :: verify(p, hash(p, salt)))
      && (forall p, salt :: hash(p, salt) != p)
      && (forall id: Id :: decode(sign(id)) == Some(id))
      && (forall id: Id :: ' ' !in sign(id))
    }
  }
}
