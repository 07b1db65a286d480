/** The sign-in form of `LoginForm.js`: the two checks made before `login`
    is called, and the message the form shows. The `login` call itself is a
    parameter: its reply. */
module LoginForm {
  import opened Common

  datatype FormData = FormData(email: string, password: string)

  const AllFieldsMessage := "모든 필드를 입력해주세요."
  const EmailMessage := "올바른 이메일 형식을 입력해주세요."
  const FailureMessage := "로그인 중 오류가 발생했습니다."

  /** What `login` answered: success, a failure with its message, or an
      exception. */
  datatype Reply = Success | Failure(message: string) | Threw

  /** The form after a submit: the data `login` was called with (if it was),
      the error shown, and whether it goes home. */
  datatype Outcome = Outcome(sent: Option<FormData>, error: string, navigates: bool)

  /** The checks, in order: both inputs filled, then an `@` in the email. */
  function Validate(f: FormData): (error: Option<string>)
    ensures error.None? <==> f.email != [] && f.password != [] && '@' in f.email
    ensures error == Some(AllFieldsMessage) <==> f.email == [] || f.password == []
    ensures error == Some(EmailMessage) <==> f.email != [] && f.password != [] && '@' !in f.email
  {
    if f.email == [] || f.password == [] then Some(AllFieldsMessage)
    else if '@' !in f.email then Some(EmailMessage)
    else None
  }

  /** `handleSubmit`, with `login`'s reply as a parameter. */
  function HandleSubmit(f: FormData, reply: Reply): (o: Outcome)
    ensures o.sent.Some? <==> Validate(f).None?
    ensures o.sent.Some? ==> o.sent.value == f
    ensures Validate(f).Some? ==> o.error == Validate(f).value && !o.navigates
    ensures o.navigates <==> o.sent.Some? && reply.Success?
    ensures o.sent.Some? && reply.Failure? ==> o.error == reply.message
    ensures o.sent.Some? && reply.Threw? ==> o.error == FailureMessage
    ensures o.sent.Some? && reply.Success? ==> o.error == []
  {
    match Validate(f)
    case Some(message) => Outcome(None, message, false)
    case None =>
      match reply
      case Success => Outcome(Some(f), [], true)
      case Failure(message) => Outcome(Some(f), message, false)
      case Threw => Outcome(Some(f), FailureMessage, false)
  }

  /** An empty password with a malformed email is reported as a missing
      field: emptiness is checked first. */
  lemma EmptinessBeforeFormat(email: string, reply: Reply)
    requires '@' !in email
    ensures HandleSubmit(FormData(email, []), reply) == Outcome(None, AllFieldsMessage, false)
  {
  }

  /** The name of an input. */
  datatype Input = Email | Password

  /** The whole form: its data and the error it shows. */
  datatype FormState = FormState(data: FormData, error: string)

  /** `handleChange`: the edited input takes its value and the error is
      cleared. */
  function HandleChange(s: FormState, name: Input, value: string): (t: FormState)
    ensures t.error == []
    ensures t.data.email == (if name == Email then value else s.data.email)
    ensures t.data.password == (if name == Password then value else s.data.password)
  {
    match name
    case Email => FormState(s.data.(email := value), [])
    case Password => FormState(s.data.(password := value), [])
  }

  /** An error shown after a submit is gone after any edit, and an edit that
      makes both inputs non-empty and puts an `@` in the email lets the next
      submit reach `login`. */
  lemma EditClearsError(f: FormData, reply: Reply, name: Input, value: string)
    ensures HandleChange(FormState(f, HandleSubmit(f, reply).error), name, value).error == []
    ensures var d := HandleChange(FormState(f, HandleSubmit(f, reply).error), name, value).data;
      d.email != [] && d.password != [] && '@' in d.email ==> HandleSubmit(d, reply).sent == Some(d)
  {
  }
}
