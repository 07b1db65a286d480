/** The error middleware of `errorHandler.js`: operational errors, the
    `AppError` status word, the mappers from Mongoose, MongoDB, JWT and
    Multer errors to operational errors, the classification chain of
    `errorHandler`, and the production response. */
module ErrorHandler {
  import opened Common

  const BadRequest: int := 400
  const Unauthorized: int := 401
  const NotFound: int := 404
  const ServerError: int := 500

  /** An error's `code`: absent, a number (MongoDB's 11000 for a duplicate
      key), or a string (Multer's `LIMIT_FILE_SIZE`, Node's `ECONNRESET`). */
  datatype Code = NoCode | NumCode(n: int) | StrCode(s: string)

  /** The fields of a thrown error that the middleware reads. `keyPattern`
      holds the keys of MongoDB's key pattern in order, `keyValue` the
      duplicated values, and `errors` the messages of a validation error's
      failed paths in order. */
  datatype Err = Err(name: string, message: string, statusCode: Option<int>, isOperational: bool, code: Code,
                     path: string, value: string, keyPattern: Option<seq<string>>,
                     keyValue: Option<map<string, string>>, errors: seq<string>)

  /** `err.statusCode || 500`: a missing or zero status becomes 500. */
  function StatusOr500(s: Option<int>): (r: int)
    ensures r != 0
    ensures s.Some? && s.value != 0 ==> r == s.value
  {
    if s.None? || s.value == 0 then ServerError else s.value
  }

  // ---------------------------------------------------------------------
  // createOperationalError, AppError
  // ---------------------------------------------------------------------

  /** A fresh `Error` with the message, the status and `isOperational`. */
  function CreateOperationalError(message: string, statusCode: int): (e: Err)
    ensures e.message == message && e.statusCode == Some(statusCode) && e.isOperational
    ensures e.name == "Error" && e.code == NoCode
  {
    Err("Error", message, Some(statusCode), true, NoCode, "", "", None, None, [])
  }

  function DigitChar(d: nat): (c: char)
    requires d < 10
  {
    ('0' as int + d) as char
  }

  /** The decimal digits of a natural number, without leading zeros. */
  function Digits(n: nat): (s: string)
    ensures |s| >= 1 && '0' <= s[0] <= '9'
    ensures n > 0 ==> s[0] != '0'
  {
    if n < 10 then [DigitChar(n)] else Digits(n / 10) + [DigitChar(n % 10)]
  }

  /** A template literal's rendering of an integer. */
  function Decimal(n: int): (s: string)
    ensures |s| >= 1
  {
    if n < 0 then "-" + Digits(-n) else Digits(n)
  }

  function Pow10(k: nat): (p: nat)
    ensures p >= 1
  {
    if k == 0 then 1 else 10 * Pow10(k - 1)
  }

  /** An `AppError`: its status word is `"fail"` when the status code's
      decimal rendering starts with 4, and `"error"` otherwise. */
  datatype AppError = AppError(message: string, statusCode: int, status: string, isOperational: bool)

  function NewAppError(message: string, statusCode: int): (e: AppError)
    ensures e.message == message && e.statusCode == statusCode && e.isOperational
    ensures e.status == (if Decimal(statusCode)[0] == '4' then "fail" else "error")
  {
    AppError(message, statusCode, if Decimal(statusCode)[0] == '4' then "fail" else "error", true)
  }

  /** The numbers from 4·10^k up to 5·10^k. */
  predicate FourBand(n: nat, k: nat)
  {
    4 * Pow10(k) <= n < 5 * Pow10(k)
  }

  /** The rendering starts with 4 exactly when the number lies in some
      band from 4·10^k up to 5·10^k: 4, 40 to 49, 400 to 499 and so on. */
  lemma {:induction false} LeadingFour(n: nat)
    ensures Digits(n)[0] == '4' <==> exists k: nat :: FourBand(n, k)
    decreases n
  {
    if n < 10 {
      if Digits(n)[0] == '4' {
        assert FourBand(n, 0);
      }
      forall k: nat | FourBand(n, k)
        ensures Digits(n)[0] == '4'
      {
        SingleDigitBand(n, k);
        assert n == 4;
      }
    } else {
      LeadingFour(n / 10);
      assert Digits(n)[0] == Digits(n / 10)[0];
      if Digits(n)[0] == '4' {
        var k: nat :| FourBand(n / 10, k);
        assert FourBand(n, k + 1);
      }
      forall k: nat | FourBand(n, k)
        ensures Digits(n)[0] == '4'
      {
        if k == 0 {
          assert false;
        }
        assert FourBand(n / 10, k - 1);
      }
    }
  }

  /** Only the band of k = 0 holds a single digit. */
  lemma SingleDigitBand(n: nat, k: nat)
    requires n < 10
    ensures 4 * Pow10(k) <= n ==> k == 0
  {
    if k > 0 {
      assert Pow10(k) >= 10;
    }
  }

  /** Among HTTP status codes (100 to 599) exactly the 4xx ones fail. */
  lemma AppErrorFailsOnClientCodes(message: string, statusCode: int)
    requires 100 <= statusCode <= 599
    ensures NewAppError(message, statusCode).status == "fail" <==> 400 <= statusCode <= 499
  {
    LeadingFour(statusCode);
    assert Pow10(2) == 100;
    if 400 <= statusCode <= 499 {
      assert FourBand(statusCode, 2);
    }
    if Digits(statusCode)[0] == '4' {
      var k: nat :| FourBand(statusCode, k);
      if k != 2 {
        PowBands(k);
      }
    }
  }

  lemma PowBands(k: nat)
    requires k != 2
    ensures Pow10(k) <= 10 || Pow10(k) >= 1000
  {
    if k > 2 {
      PowAtLeast(k);
    }
  }

  lemma {:induction false} PowAtLeast(k: nat)
    requires k >= 3
    ensures Pow10(k) >= 1000
  {
    if k > 3 {
      PowAtLeast(k - 1);
    }
  }

  /** A negative status code renders with a leading minus: `"error"`. */
  lemma NegativeCodesAreErrors(message: string, statusCode: int)
    requires statusCode < 0
    ensures NewAppError(message, statusCode).status == "error"
  {
  }

  // ---------------------------------------------------------------------
  // The mappers
  // ---------------------------------------------------------------------

  function HandleCastErrorDB(err: Err): (e: Err)
    ensures e.isOperational && e.statusCode == Some(BadRequest)
    ensures e.message == "잘못된 " + err.path + ": " + err.value
  {
    CreateOperationalError("잘못된 " + err.path + ": " + err.value, BadRequest)
  }

  const DuplicateMessage := "중복된 데이터입니다."

  /** The duplicated field: the first key of the key pattern; an empty
      pattern has none, which a template renders as `undefined`. */
  function DuplicateField(keys: seq<string>): string
  {
    if keys == [] then "undefined" else keys[0]
  }

  /** `keyValue[field]`: `""` without a `keyValue`, `undefined` when the
      field has no entry. */
  function DuplicateValue(keyValue: Option<map<string, string>>, field: string): string
  {
    if keyValue.None? then "" else if field in keyValue.value then keyValue.value[field] else "undefined"
  }

  function HandleDuplicateFieldsDB(err: Err): (e: Err)
    ensures e.isOperational && e.statusCode == Some(BadRequest)
    ensures err.keyPattern.None? ==> e.message == DuplicateMessage
    ensures err.keyPattern.Some? ==>
      var field := DuplicateField(err.keyPattern.value);
      var value := DuplicateValue(err.keyValue, field);
      e.message == (if field == "email" then "이메일 '" + value + "'은(는) 이미 사용 중입니다."
                    else if field == "username" then "사용자명 '" + value + "'은(는) 이미 사용 중입니다."
                    else field + " '" + value + "'은(는) 이미 존재합니다.")
  {
    var message :=
      if err.keyPattern.None? then DuplicateMessage
      else
        var field := DuplicateField(err.keyPattern.value);
        var value := DuplicateValue(err.keyValue, field);
        match field
        case "email" => "이메일 '" + value + "'은(는) 이미 사용 중입니다."
        case "username" => "사용자명 '" + value + "'은(는) 이미 사용 중입니다."
        case _ => field + " '" + value + "'은(는) 이미 존재합니다.";
    CreateOperationalError(message, BadRequest)
  }

  const ValidationPrefix := "입력값 검증 실패: "

  function HandleValidationErrorDB(err: Err): (e: Err)
    ensures e.isOperational && e.statusCode == Some(BadRequest)
    ensures |e.message| >= |ValidationPrefix| && e.message[..|ValidationPrefix|] == ValidationPrefix
    ensures e.message[|ValidationPrefix|..] == Join(err.errors, ". ")
  {
    var m := ValidationPrefix + Join(err.errors, ". ");
    assert m[..|ValidationPrefix|] == ValidationPrefix;
    CreateOperationalError(m, BadRequest)
  }

  const InvalidTokenMessage := "유효하지 않은 토큰입니다. 다시 로그인해주세요."
  const ExpiredTokenMessage := "토큰이 만료되었습니다. 다시 로그인해주세요."
  const NetworkMessage := "데이터베이스 연결에 실패했습니다. 잠시 후 다시 시도해주세요."
  const UploadMessage := "파일 업로드 중 오류가 발생했습니다."

  function HandleJWTError(): (e: Err)
    ensures e.isOperational && e.statusCode == Some(Unauthorized) && e.message == InvalidTokenMessage
  {
    CreateOperationalError(InvalidTokenMessage, Unauthorized)
  }

  function HandleJWTExpiredError(): (e: Err)
    ensures e.isOperational && e.statusCode == Some(Unauthorized) && e.message == ExpiredTokenMessage
  {
    CreateOperationalError(ExpiredTokenMessage, Unauthorized)
  }

  function HandleMongoNetworkError(): (e: Err)
    ensures e.isOperational && e.statusCode == Some(ServerError) && e.message == NetworkMessage
  {
    CreateOperationalError(NetworkMessage, ServerError)
  }

  /** The upload limits the Multer messages mention: the maximum size in
      megabytes as rendered, and the allowed MIME types. */
  datatype UploadConfig = UploadConfig(maxFileSizeMb: string, allowedFileTypes: seq<string>)

  /** A message per known Multer code, a generic one otherwise; always 400. */
  function HandleMulterError(err: Err, config: UploadConfig): (e: Err)
    ensures e.isOperational && e.statusCode == Some(BadRequest)
    ensures e.message == UploadMessage
      <==> !(err.code.StrCode? && err.code.s in {"LIMIT_FILE_SIZE", "LIMIT_FILE_COUNT", "LIMIT_UNEXPECTED_FILE", "INVALID_FILE_TYPE"})
  {
    var message :=
      match err.code
      case StrCode("LIMIT_FILE_SIZE") => "파일 크기가 너무 큽니다. 최대 " + config.maxFileSizeMb + "MB까지 업로드 가능합니다."
      case StrCode("LIMIT_FILE_COUNT") => "업로드 파일 개수가 초과되었습니다."
      case StrCode("LIMIT_UNEXPECTED_FILE") => "예상하지 못한 파일 필드입니다."
      case StrCode("INVALID_FILE_TYPE") => "지원하지 않는 파일 형식입니다. 허용된 형식: " + Join(config.allowedFileTypes, ", ")
      case _ => UploadMessage;
    CreateOperationalError(message, BadRequest)
  }

  /** `notFound`: an operational 404 naming the requested URL. */
  function NotFoundError(originalUrl: string): (e: Err)
    ensures e.isOperational && e.statusCode == Some(NotFound)
    ensures e.message == "요청한 경로 " + originalUrl + "을 찾을 수 없습니다."
  {
    CreateOperationalError("요청한 경로 " + originalUrl + "을 찾을 수 없습니다.", NotFound)
  }

  // ---------------------------------------------------------------------
  // Responses
  // ---------------------------------------------------------------------

  /** What the middleware does: send a status and a message, or throw. */
  datatype Outcome = Threw | Sent(status: int, message: string)

  const GenericMessage := "서버 내부 오류가 발생했습니다."

  /** `sendErrorProd`: an operational error's own status (500 when it has
      none) and message; anything else a 500 with a fixed message that
      reveals nothing. */
  function SendErrorProd(error: Err): (r: Outcome)
    ensures r.Sent?
    ensures error.isOperational ==> r == Sent(StatusOr500(error.statusCode), error.message)
    ensures !error.isOperational ==> r == Sent(ServerError, GenericMessage)
  {
    if error.isOperational then Sent(StatusOr500(error.statusCode), error.message) else Sent(ServerError, GenericMessage)
  }

  /** `err.code?.includes("LIMIT_")`: no code gives `undefined`, a string
      is searched, and a number has no `includes`, so the call throws
      (`None`). */
  function CodeIncludesAsWritten(code: Code, part: string): (r: Option<bool>)
    ensures r.None? <==> code.NumCode?
  {
    match code
    case NoCode => Some(false)
    case StrCode(s) => Some(Contains(s, part))
    case NumCode(_) => None
  }

  predicate OccursAt(s: string, part: string, i: nat)
  {
    i + |part| <= |s| && s[i..i + |part|] == part
  }

  predicate Contains(s: string, part: string)
  {
    exists i: nat :: i <= |s| && OccursAt(s, part, i)
  }

  /** The copy `errorHandler` starts from: the error with its message and a
      status of 500 when it has none. */
  function Initial(err: Err): (e: Err)
    ensures e.statusCode == Some(StatusOr500(err.statusCode))
    ensures e.message == err.message && e.isOperational == err.isOperational && e.code == err.code
  {
    err.(statusCode := Some(StatusOr500(err.statusCode)))
  }

  /** Every check up to the Multer one, in source order; a later match
      replaces an earlier one. */
  function BeforeUpload(err: Err): Err
  {
    var e0 := Initial(err);
    var e1 := if err.name == "CastError" then HandleCastErrorDB(e0) else e0;
    var e2 := if err.code == NumCode(11000) then HandleDuplicateFieldsDB(e1) else e1;
    var e3 := if err.name == "ValidationError" then HandleValidationErrorDB(e2) else e2;
    var e4 := if err.name == "JsonWebTokenError" then HandleJWTError() else e3;
    if err.name == "TokenExpiredError" then HandleJWTExpiredError() else e4
  }

  /** The response for the classified error in either environment. */
  function Respond(error: Err, development: bool): (r: Outcome)
    ensures r.Sent?
  {
    if development then Sent(StatusOr500(error.statusCode), error.message) else SendErrorProd(error)
  }

  /** `errorHandler` as written. The Multer test calls `includes` on the
      code unless the name already matched, so an error with a numeric
      code, MongoDB's duplicate key 11000 among them, makes the handler
      throw instead of answering. */
  function ErrorHandlerAsWritten(err: Err, config: UploadConfig, development: bool): (r: Outcome)
    ensures r == Threw <==> err.name != "MulterError" && err.code.NumCode?
  {
    var e5 := BeforeUpload(err);
    if err.name == "MulterError" then
      var e6 := HandleMulterError(e5, config);
      Respond(if err.name == "MongoNetworkError" then HandleMongoNetworkError() else e6, development)
    else
      match CodeIncludesAsWritten(err.code, "LIMIT_")
      case None => Threw
      case Some(limit) =>
        var upload := limit || err.code == StrCode("INVALID_FILE_TYPE");
        var e6 := if upload then HandleMulterError(e5, config) else e5;
        Respond(if err.name == "MongoNetworkError" then HandleMongoNetworkError() else e6, development)
  }

  /** A duplicate-key error never reaches its own mapper's answer: the
      handler throws. */
  lemma AsWrittenDuplicateKeyThrows(err: Err, config: UploadConfig, development: bool)
    requires err.code == NumCode(11000) && err.name == "MongoServerError"
    ensures ErrorHandlerAsWritten(err, config, development) == Threw
  {
  }

  /** The Multer test on a string code only. */
  predicate IsUploadError(err: Err)
  {
    err.name == "MulterError"
    || (err.code.StrCode? && Contains(err.code.s, "LIMIT_"))
    || err.code == StrCode("INVALID_FILE_TYPE")
  }

  /** `errorHandler` with the Multer test applied to string codes only:
      the default is the error's own status or 500, the checks run in
      order with a later match replacing an earlier one, and the
      environment decides how the result is sent. */
  function ErrorHandler(err: Err, config: UploadConfig, development: bool): (r: Outcome)
    ensures r.Sent?
  {
    var e5 := BeforeUpload(err);
    var e6 := if IsUploadError(err) then HandleMulterError(e5, config) else e5;
    Respond(if err.name == "MongoNetworkError" then HandleMongoNetworkError() else e6, development)
  }

  /** Wherever the handler as written answers, the corrected one gives the
      same answer. */
  lemma CorrectedAgreesWhenNoThrow(err: Err, config: UploadConfig, development: bool)
    requires ErrorHandlerAsWritten(err, config, development) != Threw
    ensures ErrorHandler(err, config, development) == ErrorHandlerAsWritten(err, config, development)
  {
  }

  /** Names none of the checks matches. */
  predicate Unclassified(name: string)
  {
    name !in {"CastError", "ValidationError", "JsonWebTokenError", "TokenExpiredError", "MulterError", "MongoNetworkError"}
  }

  /** In production, each kind of error gets its status: a duplicate key
      400 with the duplicate message, a cast error 400, an invalid or
      expired token 401, a lost database connection 500 whatever else the
      error carries, and an unclassified error without a code its own
      status when operational or a bare 500 otherwise. */
  lemma Classification(err: Err, config: UploadConfig)
    ensures err.code == NumCode(11000) && Unclassified(err.name) ==>
      ErrorHandler(err, config, false) == Sent(BadRequest, HandleDuplicateFieldsDB(Initial(err)).message)
    ensures err.name == "CastError" && err.code.NoCode? ==>
      ErrorHandler(err, config, false) == Sent(BadRequest, HandleCastErrorDB(Initial(err)).message)
    ensures err.name == "JsonWebTokenError" && err.code.NoCode? ==>
      ErrorHandler(err, config, false) == Sent(Unauthorized, InvalidTokenMessage)
    ensures err.name == "TokenExpiredError" && err.code.NoCode? ==>
      ErrorHandler(err, config, false) == Sent(Unauthorized, ExpiredTokenMessage)
    ensures err.name == "MongoNetworkError" ==> ErrorHandler(err, config, false) == Sent(ServerError, NetworkMessage)
    ensures Unclassified(err.name) && err.code.NoCode? ==>
      ErrorHandler(err, config, false)
        == (if err.isOperational then Sent(StatusOr500(err.statusCode), err.message) else Sent(ServerError, GenericMessage))
  {
  }

  /** A later check replaces an earlier one: a token error that also
      carries the duplicate-key code is answered as a token error. */
  lemma LaterCheckWins(err: Err, config: UploadConfig)
    requires err.name == "JsonWebTokenError" && err.code == NumCode(11000)
    ensures ErrorHandler(err, config, false) == Sent(Unauthorized, InvalidTokenMessage)
  {
  }
}
