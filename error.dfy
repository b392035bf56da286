/**
 * The indexer's API error: an HTTP status code, an application error code
 * and the underlying error, which is modelled by its message.
 */
module ApiError {

  /** An application error code, a named string. */
  datatype ErrorCode = ErrorCode(value: string)

  const InternalServiceError := ErrorCode("INTERNAL_SERVICE_ERROR")
  const ValidationError := ErrorCode("VALIDATION_ERROR")
  const NotFound := ErrorCode("NOT_FOUND")
  const BadRequest := ErrorCode("BAD_REQUEST")
  const Forbidden := ErrorCode("FORBIDDEN")
  const UnprocessableEntity := ErrorCode("UNPROCESSABLE_ENTITY")
  const RequestTimeout := ErrorCode("REQUEST_TIMEOUT")
  const ClientRequestError := ErrorCode("CLIENT_REQUEST_ERROR")

  /** The HTTP status codes the constructors use. */
  const StatusInternalServerError: int := 500
  const StatusBadRequest: int := 400

  /** The status code that means "not provided". */
  const UninitializedStatusCode: int := 0

  /** The sentinel errors of the indexer, by message. */
  const ErrInvalidUnbondingTx := "invalid unbonding tx"
  const ErrInvalidStakingTx := "invalid staking tx"
  const ErrInvalidWithdrawalTx := "invalid withdrawal tx"
  const ErrInvalidSlashingTx := "invalid slashing tx"

  datatype Error = Error(err: string, statusCode: int, errorCode: ErrorCode)

  /** The code as a plain string; wrapping it again gives the code back. */
  function String(e: ErrorCode): (s: string)
    ensures ErrorCode(s) == e
  {
    e.value
  }

  /**
   * An error with the given parts, where a status code of 0 stands for 500
   * and an empty error code for INTERNAL_SERVICE_ERROR.
   */
  function NewError(statusCode: int, errorCode: ErrorCode, err: string): (r: Error)
    ensures r.statusCode != UninitializedStatusCode
    ensures statusCode == UninitializedStatusCode ==> r.statusCode == StatusInternalServerError
    ensures statusCode != UninitializedStatusCode ==> r.statusCode == statusCode
    ensures r.errorCode.value != ""
    ensures errorCode.value == "" ==> r.errorCode == InternalServiceError
    ensures errorCode.value != "" ==> r.errorCode == errorCode
    ensures r.err == err
  {
    var statusCode := if statusCode == UninitializedStatusCode then StatusInternalServerError else statusCode;
    var errorCode := if errorCode.value == "" then InternalServiceError else errorCode;
    Error(err, statusCode, errorCode)
  }

  /** An error whose underlying error is a fresh one carrying `msg`. */
  function NewErrorWithMsg(statusCode: int, errorCode: ErrorCode, msg: string): (r: Error)
    ensures r.err == msg
    ensures r.statusCode != UninitializedStatusCode && r.errorCode.value != ""
  {
    NewError(statusCode, errorCode, msg)
  }

  function NewInternalServiceError(err: string): (r: Error)
    ensures r.statusCode == 500 && r.errorCode.value == "INTERNAL_SERVICE_ERROR" && r.err == err
  {
    Error(err, StatusInternalServerError, InternalServiceError)
  }

  function NewValidationFailedError(err: string): (r: Error)
    ensures r.statusCode == 400 && r.errorCode.value == "VALIDATION_ERROR" && r.err == err
  {
    Error(err, StatusBadRequest, ValidationError)
  }

  /** Building an error from the parts of a built error gives it back: the defaults are applied once. */
  lemma NewErrorIsNormalising(statusCode: int, errorCode: ErrorCode, err: string)
    ensures var r := NewError(statusCode, errorCode, err); NewError(r.statusCode, r.errorCode, r.err) == r
  {
  }

  /** Two errors built from the same underlying error differ only where their given parts do. */
  lemma NewErrorInjectiveOnProvided(s1: int, c1: ErrorCode, s2: int, c2: ErrorCode, err: string)
    requires s1 != UninitializedStatusCode && s2 != UninitializedStatusCode
    requires c1.value != "" && c2.value != ""
    ensures NewError(s1, c1, err) == NewError(s2, c2, err) <==> s1 == s2 && c1 == c2
  {
  }

  /** An internal service error is what a plain error with nothing provided defaults to. */
  lemma InternalServiceErrorIsDefault(err: string)
    ensures NewInternalServiceError(err) == NewError(UninitializedStatusCode, ErrorCode(""), err)
    ensures NewInternalServiceError(err) == NewError(StatusInternalServerError, InternalServiceError, err)
  {
  }

  /** A validation error is the plain error with status 400 and VALIDATION_ERROR. */
  lemma ValidationFailedErrorAgrees(err: string)
    ensures NewValidationFailedError(err) == NewError(StatusBadRequest, ValidationError, err)
  {
  }

  /** The message constructor is the plain constructor applied to an error made from the message. */
  lemma NewErrorWithMsgAgrees(statusCode: int, errorCode: ErrorCode, msg: string)
    ensures NewErrorWithMsg(statusCode, errorCode, msg) == NewError(statusCode, errorCode, msg)
  {
  }
}
