/** `authMiddleware` of backend/index.js: read the `Authorization` header,
    take its second space-separated field as the token, and decode it. */
module Auth {
  import opened Wrappers
  import opened UserModel
  import opened Crypto
  import opened ApiError

  /** The position of the first space in `s`, if any. */
  function SpaceIndex(s: string): (r: Option<nat>)
    ensures r.None? ==> ' ' !in s
    ensures r.Some? ==> r.value < |s| && s[r.value] == ' ' && ' ' !in s[..r.value]
  {
    if |s| == 0 then None
    else if s[0] == ' ' then Some(0)
    else match SpaceIndex(s[1..])
      case None => None
      case Some(i) =>
        Some(i + 1)
  }

  /** `s.split(" ")[1]`: the text between the first and the second space (or
      the end), and nothing (JavaScript's `undefined`) when `s` has no space. */
  function SecondField(s: string): (r: Option<string>)
    ensures r.None? <==> ' ' !in s
    ensures r.Some? ==> ' ' !in r.value
    ensures r.Some? ==> var i := SpaceIndex(s).value;
                        r.value <= s[i + 1..]
                        && (|r.value| == |s| - i - 1 || s[i + 1 + |r.value|] == ' ')
  {
    match SpaceIndex(s)
    case None => None
    case Some(i) =>
      var rest := s[i + 1..];
      match SpaceIndex(rest)
      case None => Some(rest)
      case Some(j) => Some(rest[..j])
  }

  /** A header "<scheme> <token>" yields exactly the token when neither part
      contains a space. */
  lemma SecondFieldOfBearer(scheme: string, token: string)
    requires ' ' !in scheme && ' ' !in token
    ensures SecondField(scheme + " " + token) == Some(token)
  {
  }

  /** The middleware: a missing or empty header is "No token"; a header
      without a second field, or whose token does not verify, is "Invalid
      token"; otherwise the id the token carries. */
  function Authenticate(c: Primitives, authorization: Option<string>): (r: Result<Id, Error>)
    ensures r == Err(NoToken) <==> authorization == None || authorization == Some("")
    ensures r.Err? ==> r.error == NoToken || r.error == InvalidToken
    ensures r.Ok? ==> SecondField(authorization.value).Some?
                      && c.decode(SecondField(authorization.value).value) == Some(r.value)
    ensures authorization.Some? && authorization.value != ""
            && SecondField(authorization.value).Some?
            && c.decode(SecondField(authorization.value).value).Some?
            ==> r == Ok(c.decode(SecondField(authorization.value).value).value)
  {
    match authorization
    case None => Err(NoToken)
    case Some(header) =>
      if header == "" then Err(NoToken)
      else match SecondField(header)
        case None => Err(InvalidToken)
        case Some(token) =>
          match c.decode(token)
          case None => Err(InvalidToken)
          case Some(id) => Ok(id)
  }

  /** The round trip of `jwt.sign` and the middleware: a header carrying a
      token signed for `id` authenticates as `id`. */
  lemma AuthenticateSigned(c: Primitives, scheme: string, id: Id)
    requires c.Sound()
    requires ' ' !in scheme
    ensures Authenticate(c, Some(scheme + " " + c.sign(id))) == Ok(id)
  {
  }
}
