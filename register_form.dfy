/** The sign-up form of `RegisterForm.js`: the client-side checks run before
    anything is sent, the payload handed to `register`, and the messages the
    form shows. The `register` call itself is a parameter: its reply. */
module RegisterForm {
  import opened Common

  datatype FormData = FormData(username: string, email: string, password: string, confirmPassword: string)

  /** What is sent: the form without the confirmation. */
  datatype Payload = Payload(username: string, email: string, password: string)

  const AllFieldsMessage := "모든 필드를 입력해주세요."
  const UsernameLengthMessage := "사용자명은 3자 이상 20자 이하여야 합니다."
  const UsernameCharsMessage := "사용자명은 영문, 숫자, 언더스코어만 사용 가능합니다."
  const EmailMessage := "올바른 이메일 형식을 입력해주세요."
  const PasswordLengthMessage := "비밀번호는 6자 이상이어야 합니다."
  const MismatchMessage := "비밀번호가 일치하지 않습니다."
  const SuccessMessage := "회원가입 성공! 홈으로 이동합니다..."
  const FailureMessage := "회원가입 중 오류가 발생했습니다."

  const MinUsername := 3
  const MaxUsername := 20
  const MinPassword := 6

  /** A character of `[a-zA-Z0-9_]`. */
  predicate IsUsernameChar(c: char)
  {
    ('a' <= c <= 'z') || ('A' <= c <= 'Z') || ('0' <= c <= '9') || c == '_'
  }

  /** `/^[a-zA-Z0-9_]+$/.test(s)`: one or more such characters and nothing
      else. */
  predicate MatchesUsernamePattern(s: string)
  {
    |s| > 0 && forall i :: 0 <= i < |s| ==> IsUsernameChar(s[i])
  }

  predicate AllFilled(f: FormData)
  {
    f.username != [] && f.email != [] && f.password != [] && f.confirmPassword != []
  }

  /** Every check of the form, independently of their order. */
  predicate Acceptable(f: FormData)
  {
    AllFilled(f)
    && MinUsername <= |f.username| <= MaxUsername
    && MatchesUsernamePattern(f.username)
    && '@' in f.email
    && |f.password| >= MinPassword
    && f.password == f.confirmPassword
  }

  /** `validateForm`: `None` for `true`, otherwise the message of the first
      check that fails. */
  function ValidateForm(f: FormData): (error: Option<string>)
    ensures error.None? <==> Acceptable(f)
  {
    if !AllFilled(f) then Some(AllFieldsMessage)
    else if |f.username| < MinUsername || |f.username| > MaxUsername then Some(UsernameLengthMessage)
    else if !MatchesUsernamePattern(f.username) then Some(UsernameCharsMessage)
    else if '@' !in f.email then Some(EmailMessage)
    else if |f.password| < MinPassword then Some(PasswordLengthMessage)
    else if f.password != f.confirmPassword then Some(MismatchMessage)
    else None
  }

  /** The order of the checks: each message is shown exactly when its check
      is the first to fail. */
  lemma FirstFailureReported(f: FormData)
    ensures ValidateForm(f) == Some(AllFieldsMessage) <==> !AllFilled(f)
    ensures ValidateForm(f) == Some(UsernameLengthMessage) <==>
      AllFilled(f) && !(MinUsername <= |f.username| <= MaxUsername)
    ensures ValidateForm(f) == Some(UsernameCharsMessage) <==>
      AllFilled(f) && MinUsername <= |f.username| <= MaxUsername && !MatchesUsernamePattern(f.username)
    ensures ValidateForm(f) == Some(EmailMessage) <==>
      AllFilled(f) && MinUsername <= |f.username| <= MaxUsername && MatchesUsernamePattern(f.username)
      && '@' !in f.email
    ensures ValidateForm(f) == Some(PasswordLengthMessage) <==>
      AllFilled(f) && MinUsername <= |f.username| <= MaxUsername && MatchesUsernamePattern(f.username)
      && '@' in f.email && |f.password| < MinPassword
    ensures ValidateForm(f) == Some(MismatchMessage) <==>
      AllFilled(f) && MinUsername <= |f.username| <= MaxUsername && MatchesUsernamePattern(f.username)
      && '@' in f.email && |f.password| >= MinPassword && f.password != f.confirmPassword
  {
  }

  /** An empty confirmation is reported as a missing field, not as a
      mismatch, whatever the password. */
  lemma EmptyConfirmationIsMissing(f: FormData)
    requires f.confirmPassword == []
    ensures ValidateForm(f) == Some(AllFieldsMessage)
  {
  }

  /** `const { confirmPassword, ...submitData } = formData`. */
  function SubmitData(f: FormData): (p: Payload)
    ensures p.username == f.username && p.email == f.email && p.password == f.password
  {
    Payload(f.username, f.email, f.password)
  }

  /** What `register` answered: success, a failure with its message, or an
      exception. */
  datatype Reply = Success | Failure(message: string) | Threw

  /** The form after a submit: the payload sent to `register` (if any), the
      error and success messages shown, and whether it goes home. */
  datatype Outcome = Outcome(sent: Option<Payload>, error: string, success: string, navigates: bool)

  /** `handleSubmit`, with `register`'s reply as a parameter. */
  function HandleSubmit(f: FormData, reply: Reply): (o: Outcome)
    ensures o.sent.Some? <==> Acceptable(f)
    ensures o.sent.Some? ==> o.sent.value == SubmitData(f)
    ensures ValidateForm(f).Some? ==> o.error == ValidateForm(f).value && o.success == [] && !o.navigates
    ensures o.navigates <==> Acceptable(f) && reply.Success?
    ensures Acceptable(f) && reply.Success? ==> o.success == SuccessMessage && o.error == []
    ensures Acceptable(f) && reply.Failure? ==> o.error == reply.message && o.success == []
    ensures Acceptable(f) && reply.Threw? ==> o.error == FailureMessage && o.success == []
  {
    match ValidateForm(f)
    case Some(message) => Outcome(None, message, [], false)
    case None =>
      var sent := Some(SubmitData(f));
      match reply
      case Success => Outcome(sent, [], SuccessMessage, true)
      case Failure(message) => Outcome(sent, message, [], false)
      case Threw => Outcome(sent, FailureMessage, [], false)
  }

  /** The sent payload carries no confirmation, yet the confirmation it was
      checked against equals the password it carries. */
  lemma SentPasswordWasConfirmed(f: FormData, reply: Reply)
    requires HandleSubmit(f, reply).sent.Some?
    ensures f.confirmPassword == HandleSubmit(f, reply).sent.value.password
    ensures MatchesUsernamePattern(HandleSubmit(f, reply).sent.value.username)
  {
  }

  /** The name of an input. */
  datatype Input = Username | Email | Password | ConfirmPassword

  /** The whole form: its data and the two messages it shows. */
  datatype FormState = FormState(data: FormData, error: string, success: string)

  /** `handleChange`: the edited input takes its value, and both messages
      are cleared. */
  function HandleChange(s: FormState, name: Input, value: string): (t: FormState)
    ensures t.error == [] && t.success == []
    ensures t.data.username == (if name == Username then value else s.data.username)
    ensures t.data.email == (if name == Email then value else s.data.email)
    ensures t.data.password == (if name == Password then value else s.data.password)
    ensures t.data.confirmPassword == (if name == ConfirmPassword then value else s.data.confirmPassword)
  {
    var d := s.data;
    var data := match name
      case Username => d.(username := value)
      case Email => d.(email := value)
      case Password => d.(password := value)
      case ConfirmPassword => d.(confirmPassword := value);
    FormState(data, [], [])
  }

  /** The value an input shows. */
  function ValueOf(d: FormData, name: Input): string
  {
    match name
    case Username => d.username
    case Email => d.email
    case Password => d.password
    case ConfirmPassword => d.confirmPassword
  }

  /** Typing a value and then the previous value back restores the data;
      only the messages are lost. */
  lemma ChangeBackRestores(s: FormState, name: Input, value: string)
    ensures HandleChange(HandleChange(s, name, value), name, ValueOf(s.data, name)).data == s.data
    ensures ValueOf(HandleChange(s, name, value).data, name) == value
  {
  }
}
