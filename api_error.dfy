/** The failures the backend answers with, one per distinct error branch of
    backend/index.js (the HTTP status and message text are transport detail). */
module ApiError {

  datatype Error =
    | DuplicateIdentity   // 400 "Email or username already exists"
    | InvalidCredentials  // 401 "Invalid credentials"
    | AccountBlocked      // 403 "Your account is blocked. Contact admin."
    | NotFound            // 404 "User not found"
    | NoToken             // 401 "No token"
    | InvalidToken        // 401 "Invalid token"
}
