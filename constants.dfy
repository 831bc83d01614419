/** The HTTP status numbers and error-code strings the backend answers with. */
module Constants {

  const OK := 200
  const CREATED := 201
  const BAD_REQUEST := 400
  const UNAUTHORIZED := 401
  const NOT_FOUND := 404
  const CONFLICT := 409
  const INTERNAL_SERVER_ERROR := 500

  const VALIDATION_ERROR := "VALIDATION_ERROR"
  const UNAUTHORIZED_CODE := "UNAUTHORIZED"
  const INVALID_TOKEN := "INVALID_TOKEN"
  const TOKEN_EXPIRED := "TOKEN_EXPIRED"
  const INVALID_CREDENTIALS := "INVALID_CREDENTIALS"
  const EMAIL_EXISTS := "EMAIL_EXISTS"
  const USERNAME_EXISTS := "USERNAME_EXISTS"
  const TASK_NOT_FOUND := "TASK_NOT_FOUND"
  const USER_NOT_FOUND := "USER_NOT_FOUND"
  const INTERNAL_ERROR := "INTERNAL_ERROR"
}
