/** The request validators of `validation.js`: the ObjectId parameter check,
    the pagination bounds, and the Joi body schemas for registration, login,
    posts, comments, profile edits and password changes. A validator either
    lets the request through or answers 400. */
module Validation {
  import opened Common
  import PostModel

  const BadRequest: int := 400
  const MaxPageSize: nat := 100
  const DefaultPage: nat := 1
  const DefaultLimit: nat := 10

  /** The error detail a Joi schema reports: one of the schema's own
      messages, or Joi's built-in message for an error code about a key (its
      wording is Joi's and is not modelled). */
  datatype Detail = Custom(text: string) | Default(code: string, key: string)

  /** What a validator does with a request: pass it on, or answer with a
      status, a message and, for the Joi schemas, the first error detail. */
  datatype Verdict = Next | Reject(status: int, message: string, detail: Option<Detail>)

  // ---------------------------------------------------------------------
  // validateObjectId: /^[0-9a-fA-F]{24}$/
  // ---------------------------------------------------------------------

  const BadIdMessage := "올바르지 않은 ID 형식입니다."

  predicate IsHexDigit(c: char)
  {
    '0' <= c <= '9' || 'a' <= c <= 'f' || 'A' <= c <= 'F'
  }

  predicate IsObjectId(s: string)
  {
    |s| == 24 && forall i :: 0 <= i < |s| ==> IsHexDigit(s[i])
  }

  function ValidateObjectId(id: string): (v: Verdict)
    ensures v.Next? <==> IsObjectId(id)
    ensures v.Reject? ==> v == Reject(BadRequest, BadIdMessage, None)
  {
    if IsObjectId(id) then Next else Reject(BadRequest, BadIdMessage, None)
  }

  /** The lower-case hexadecimal digit of a value below 16. */
  function HexChar(d: nat): (c: char)
    requires d < 16
    ensures IsHexDigit(c)
  {
    if d < 10 then ('0' as int + d) as char else ('a' as int + d - 10) as char
  }

  /** The value of a hexadecimal digit, either case. */
  function HexValue(c: char): (d: nat)
    requires IsHexDigit(c)
    ensures d < 16
  {
    if '0' <= c <= '9' then c as int - '0' as int
    else if 'a' <= c <= 'f' then c as int - 'a' as int + 10
    else c as int - 'A' as int + 10
  }

  predicate AreBytes(bs: seq<nat>)
  {
    forall i :: 0 <= i < |bs| ==> bs[i] < 256
  }

  /** How an ObjectId is written: two hexadecimal digits per byte. */
  function HexOfBytes(bs: seq<nat>): (s: string)
    requires AreBytes(bs)
    ensures |s| == 2 * |bs|
    ensures forall i :: 0 <= i < |s| ==> IsHexDigit(s[i])
  {
    if bs == [] then [] else [HexChar(bs[0] / 16), HexChar(bs[0] % 16)] + HexOfBytes(bs[1..])
  }

  /** The bytes a string of hexadecimal digit pairs spells. */
  function BytesOfHex(s: string): (bs: seq<nat>)
    requires |s| % 2 == 0 && forall i :: 0 <= i < |s| ==> IsHexDigit(s[i])
    ensures |bs| * 2 == |s| && AreBytes(bs)
  {
    if s == [] then [] else [16 * HexValue(s[0]) + HexValue(s[1])] + BytesOfHex(s[2..])
  }

  /** Every twelve-byte identifier, written out, passes the check, and the
      check's strings read back as the bytes they were written from. */
  lemma {:induction false} RenderedIdsPass(bs: seq<nat>)
    requires AreBytes(bs) && |bs| == 12
    ensures ValidateObjectId(HexOfBytes(bs)) == Next
    ensures BytesOfHex(HexOfBytes(bs)) == bs
  {
    HexRoundTrip(bs);
  }

  lemma {:induction false} HexRoundTrip(bs: seq<nat>)
    requires AreBytes(bs)
    ensures BytesOfHex(HexOfBytes(bs)) == bs
  {
    if bs != [] {
      var s := HexOfBytes(bs);
      assert s[2..] == HexOfBytes(bs[1..]);
      HexRoundTrip(bs[1..]);
      assert HexValue(HexChar(bs[0] / 16)) == bs[0] / 16;
      assert HexValue(HexChar(bs[0] % 16)) == bs[0] % 16;
    }
  }

  /** Every accepted identifier is the rendering of twelve bytes, in
      lower case. */
  lemma AcceptedIdsAreBytes(id: string)
    requires ValidateObjectId(id) == Next
    ensures |BytesOfHex(id)| == 12
    ensures HexOfBytes(BytesOfHex(id)) == ToLower(id)
  {
    HexOfHexLower(id);
  }

  lemma HexDigitLower(c: char)
    requires IsHexDigit(c)
    ensures HexChar(HexValue(c)) == LowerChar(c)
  {
  }

  lemma {:induction false} HexOfHexLower(s: string)
    requires |s| % 2 == 0 && forall i :: 0 <= i < |s| ==> IsHexDigit(s[i])
    ensures HexOfBytes(BytesOfHex(s)) == ToLower(s)
  {
    if s != [] {
      var b := 16 * HexValue(s[0]) + HexValue(s[1]);
      assert b / 16 == HexValue(s[0]) && b % 16 == HexValue(s[1]);
      HexDigitLower(s[0]);
      HexDigitLower(s[1]);
      HexOfHexLower(s[2..]);
      var bs := BytesOfHex(s);
      assert bs[0] == b && bs[1..] == BytesOfHex(s[2..]);
      var r := HexOfBytes(bs);
      var tail := HexOfBytes(bs[1..]);
      assert r == [HexChar(b / 16), HexChar(b % 16)] + tail;
      forall i | 2 <= i < |s| ensures r[i] == LowerChar(s[i]) {
        assert r[i] == tail[i - 2] && s[2..][i - 2] == s[i];
      }
    }
  }


  // ---------------------------------------------------------------------
  // validatePagination
  // ---------------------------------------------------------------------

  /** A query parameter as JavaScript's numeric coercion sees it: `isNaN`
      and the comparisons with 1 and 100 coerce the string the same way. */
  datatype Numeric = NaN | Num(value: real)

  const BadPageMessage := "페이지 번호는 1 이상의 숫자여야 합니다."
  const BadLimitMessage := "페이지 크기는 1~100 사이의 숫자여야 합니다."

  /** A parameter the query leaves out takes its default. */
  function OrDefault(p: Option<Numeric>, d: nat): (n: Numeric)
    ensures p.None? ==> n == Num(d as real)
    ensures p.Some? ==> n == p.value
  {
    if p.None? then Num(d as real) else p.value
  }

  /** `validatePagination`: the page is checked first, then the limit. */
  function ValidatePagination(page: Option<Numeric>, limit: Option<Numeric>): (v: Verdict)
    ensures v.Next? <==>
      (OrDefault(page, DefaultPage).Num? && OrDefault(page, DefaultPage).value >= 1.0
       && OrDefault(limit, DefaultLimit).Num? && 1.0 <= OrDefault(limit, DefaultLimit).value <= MaxPageSize as real)
    ensures v.Reject? ==> v.status == BadRequest && v.detail.None?
    ensures (page == Some(NaN) || (page.Some? && page.value.Num? && page.value.value < 1.0))
      ==> v == Reject(BadRequest, BadPageMessage, None)
    ensures OrDefault(page, DefaultPage).Num? && OrDefault(page, DefaultPage).value >= 1.0
            && !(OrDefault(limit, DefaultLimit).Num? && 1.0 <= OrDefault(limit, DefaultLimit).value <= MaxPageSize as real)
      ==> v == Reject(BadRequest, BadLimitMessage, None)
  {
    var p := OrDefault(page, DefaultPage);
    var l := OrDefault(limit, DefaultLimit);
    if p.NaN? || p.value < 1.0 then Reject(BadRequest, BadPageMessage, None)
    else if l.NaN? || l.value < 1.0 || l.value > MaxPageSize as real then Reject(BadRequest, BadLimitMessage, None)
    else Next
  }

  /** A query without paging parameters passes, and whole numbers pass
      exactly when they meet what the listings take for granted: a page of at
      least 1 and a page size from 1 to 100. */
  lemma PaginationFitsListings(page: nat, limit: nat)
    ensures ValidatePagination(None, None) == Next
    ensures ValidatePagination(Some(Num(page as real)), Some(Num(limit as real))) == Next
      <==> page >= 1 && 1 <= limit <= MaxPageSize
  {
  }

  // ---------------------------------------------------------------------
  // Joi body schemas
  // ---------------------------------------------------------------------

  /** A JSON request body: its keys in order, each with a string value.
      `JSON.parse` keeps the last value of a repeated key. */
  type Body = seq<(string, string)>

  function Get(body: Body, key: string): (r: Option<string>)
    ensures r.None? <==> forall i :: 0 <= i < |body| ==> body[i].0 != key
    ensures r.Some? ==> exists i :: 0 <= i < |body| && body[i] == (key, r.value)
  {
    if body == [] then None
    else if body[|body| - 1].0 == key then Some(body[|body| - 1].1)
    else Get(body[..|body| - 1], key)
  }

  /** The formats Joi decides with its own grammars, given as parameters. */
  datatype Formats = Formats(isEmail: string -> bool, isUri: string -> bool)

  /** The string rules the schemas use, in the order a field declares them. */
  datatype Rule = Alphanum | MinLength(n: nat) | MaxLength(n: nat) | Email | Uri | StrongPassword

  /** A key of an object schema: whether it is required, whether `""` is
      allowed outright, the sibling key it must equal (`valid(Joi.ref(…))`),
      its rules and its message overrides by error code. */
  datatype Field = Field(key: string, required: bool, allowEmpty: bool, sameAs: Option<string>,
                         rules: seq<Rule>, messages: seq<(string, string)>)

  predicate IsAsciiAlnum(c: char)
  {
    '0' <= c <= '9' || 'a' <= c <= 'z' || 'A' <= c <= 'Z'
  }

  predicate IsAlphanumeric(s: string)
  {
    forall i :: 0 <= i < |s| ==> IsAsciiAlnum(s[i])
  }

  predicate IsPasswordSpecial(c: char)
  {
    c in "!@#$%^&*"
  }

  /** The characters before the first line terminator: the only ones a
      lookahead `(?=.*[…])` anchored at the start can reach. */
  function FirstLine(s: string): (r: string)
    ensures |r| <= |s| && r == s[..|r|]
    ensures forall i :: 0 <= i < |r| ==> !PostModel.IsLineTerminator(r[i])
    ensures |r| < |s| ==> PostModel.IsLineTerminator(s[|r|])
  {
    if s == [] || PostModel.IsLineTerminator(s[0]) then [] else [s[0]] + FirstLine(s[1..])
  }

  /** `^(?=.*[a-z])(?=.*[A-Z])(?=.*[0-9])(?=.*[!@#$%^&*])`. */
  predicate IsStrongPassword(s: string)
  {
    var l := FirstLine(s);
    (exists i :: 0 <= i < |l| && 'a' <= l[i] <= 'z')
    && (exists i :: 0 <= i < |l| && 'A' <= l[i] <= 'Z')
    && (exists i :: 0 <= i < |l| && '0' <= l[i] <= '9')
    && (exists i :: 0 <= i < |l| && IsPasswordSpecial(l[i]))
  }

  /** Whatever follows the first line break is out of the lookaheads'
      reach: a password strong on its first line stays strong, and one
      that is not does not become strong, whatever is appended. */
  lemma {:induction false} StrongPasswordIgnoresLaterLines(first: string, rest: string)
    requires forall i :: 0 <= i < |first| ==> !PostModel.IsLineTerminator(first[i])
    ensures IsStrongPassword(first + "\n" + rest) <==> IsStrongPassword(first)
  {
    FirstLineStops(first, rest);
    assert first + "\n" + rest == first + ("\n" + rest);
    assert FirstLine(first) == first;
  }

  lemma {:induction false} FirstLineStops(first: string, rest: string)
    requires forall i :: 0 <= i < |first| ==> !PostModel.IsLineTerminator(first[i])
    ensures FirstLine(first + ("\n" + rest)) == first
  {
    if first != [] {
      assert (first + ("\n" + rest))[1..] == first[1..] + ("\n" + rest);
      FirstLineStops(first[1..], rest);
    }
  }

  predicate Passes(r: Rule, s: string, fmt: Formats)
  {
    match r
    case Alphanum => IsAlphanumeric(s)
    case MinLength(n) => |s| >= n
    case MaxLength(n) => |s| <= n
    case Email => fmt.isEmail(s)
    case Uri => fmt.isUri(s)
    case StrongPassword => IsStrongPassword(s)
  }

  /** The Joi error code of a rule. */
  function Code(r: Rule): string
  {
    match r
    case Alphanum => "string.alphanum"
    case MinLength(_) => "string.min"
    case MaxLength(_) => "string.max"
    case Email => "string.email"
    case Uri => "string.uri"
    case StrongPassword => "string.pattern.base"
  }

  /** The first rule, in declaration order, that the value breaks. */
  function FirstBroken(rules: seq<Rule>, s: string, fmt: Formats): (r: Option<Rule>)
    ensures r.None? <==> forall k :: 0 <= k < |rules| ==> Passes(rules[k], s, fmt)
    ensures r.Some? ==>
      exists k :: 0 <= k < |rules| && rules[k] == r.value && !Passes(r.value, s, fmt)
                  && forall j :: 0 <= j < k ==> Passes(rules[j], s, fmt)
  {
    if rules == [] then None
    else if !Passes(rules[0], s, fmt) then Some(rules[0])
    else
      var r := FirstBroken(rules[1..], s, fmt);
      assert forall k :: 1 <= k < |rules| ==> rules[k] == rules[1..][k - 1];
      r
  }

  /** The schema's own message for an error code, else Joi's built-in one. */
  function Message(f: Field, code: string): (d: Detail)
    ensures d.Default? ==> d == Default(code, f.key)
  {
    Lookup(f.messages, code, f.key)
  }

  function Lookup(messages: seq<(string, string)>, code: string, key: string): (d: Detail)
    ensures d.Default? ==> d == Default(code, key)
  {
    if messages == [] then Default(code, key)
    else if messages[0].0 == code then Custom(messages[0].1)
    else Lookup(messages[1..], code, key)
  }

  /** One key of the body against its field: a missing key fails only when
      required; a `valid(ref)` field must equal its sibling, which Joi tests
      before anything else; an empty string fails unless allowed, and an
      allowed one skips the rules; otherwise the first broken rule fails. */
  function CheckField(f: Field, body: Body, fmt: Formats): (e: Option<Detail>)
  {
    var v := Get(body, f.key);
    if v.None? then (if f.required then Some(Message(f, "any.required")) else None)
    else if f.sameAs.Some? then (if Get(body, f.sameAs.value) == v then None else Some(Message(f, "any.only")))
    else if v.value == [] then (if f.allowEmpty then None else Some(Message(f, "string.empty")))
    else
      match FirstBroken(f.rules, v.value, fmt)
      case None => None
      case Some(r) => Some(Message(f, Code(r)))
  }

  /** The fields in declaration order; the first failure is reported. */
  function FirstFieldError(fields: seq<Field>, body: Body, fmt: Formats): (e: Option<Detail>)
    ensures e.None? <==> forall k :: 0 <= k < |fields| ==> CheckField(fields[k], body, fmt).None?
  {
    if fields == [] then None
    else if CheckField(fields[0], body, fmt).Some? then CheckField(fields[0], body, fmt)
    else
      var e := FirstFieldError(fields[1..], body, fmt);
      assert forall k :: 1 <= k < |fields| ==> fields[k] == fields[1..][k - 1];
      e
  }

  predicate Declares(fields: seq<Field>, key: string)
  {
    exists k :: 0 <= k < |fields| && fields[k].key == key
  }

  /** The first key of the body that the schema does not declare. */
  function FirstUnknown(fields: seq<Field>, body: Body): (r: Option<string>)
    ensures r.None? <==> forall i :: 0 <= i < |body| ==> Declares(fields, body[i].0)
    ensures r.Some? ==> !Declares(fields, r.value)
  {
    if body == [] then None
    else if !Declares(fields, body[0].0) then Some(body[0].0)
    else
      var r := FirstUnknown(fields, body[1..]);
      assert forall i :: 1 <= i < |body| ==> body[i] == body[1..][i - 1];
      r
  }

  const FailedMessage := "입력값 검증 실패"

  /** `schema.validate(req.body)` with only the first error kept, answered
      with 400; an undeclared key fails after every declared one passes. */
  function ValidateBody(fields: seq<Field>, body: Body, fmt: Formats): (v: Verdict)
    ensures v.Next? <==> FirstFieldError(fields, body, fmt).None? && FirstUnknown(fields, body).None?
    ensures v.Reject? ==> v.status == BadRequest && v.message == FailedMessage && v.detail.Some?
    ensures FirstFieldError(fields, body, fmt).Some? ==> v.detail == FirstFieldError(fields, body, fmt)
    ensures FirstFieldError(fields, body, fmt).None? && FirstUnknown(fields, body).Some? ==>
      v.detail == Some(Default("object.unknown", FirstUnknown(fields, body).value))
  {
    match FirstFieldError(fields, body, fmt)
    case Some(d) => Reject(BadRequest, FailedMessage, Some(d))
    case None =>
      match FirstUnknown(fields, body)
      case Some(k) => Reject(BadRequest, FailedMessage, Some(Default("object.unknown", k)))
      case None => Next
  }

  const RegisterSchema: seq<Field> := [
    Field("username", true, false, None, UsernameRules,
          [("string.alphanum", "사용자명은 영문자와 숫자만 사용할 수 있습니다."),
           ("string.min", "사용자명은 최소 3자 이상이어야 합니다."),
           ("string.max", "사용자명은 최대 20자까지 사용할 수 있습니다."),
           ("any.required", "사용자명은 필수입니다.")]),
    Field("email", true, false, None, [Email],
          [("string.email", "올바른 이메일 형식을 입력해주세요."),
           ("any.required", "이메일은 필수입니다.")]),
    Field("password", true, false, None, PasswordRules,
          [("string.min", "비밀번호는 최소 6자 이상이어야 합니다."),
           ("string.max", "비밀번호는 최대 50자까지 사용할 수 있습니다."),
           ("string.pattern.base", "비밀번호는 대소문자, 숫자, 특수문자를 각각 최소 1개씩 포함해야 합니다."),
           ("any.required", "비밀번호는 필수입니다.")]),
    Field("confirmPassword", true, false, Some("password"), [],
          [("any.only", "비밀번호가 일치하지 않습니다."),
           ("any.required", "비밀번호 확인은 필수입니다.")])
  ]

  const LoginSchema: seq<Field> := [
    Field("email", true, false, None, [Email],
          [("string.email", "올바른 이메일 형식을 입력해주세요."),
           ("any.required", "이메일은 필수입니다.")]),
    Field("password", true, false, None, [MinLength(1)],
          [("any.required", "비밀번호는 필수입니다.")])
  ]

  const PostSchema: seq<Field> := [
    Field("content", true, false, None, [MinLength(1), MaxLength(PostModel.MaxContent)],
          [("string.min", "게시물 내용을 입력해주세요."),
           ("string.max", "게시물은 최대 1000자까지 작성할 수 있습니다."),
           ("any.required", "게시물 내용은 필수입니다.")])
  ]

  const CommentSchema: seq<Field> := [
    Field("content", true, false, None, [MinLength(1), MaxLength(500)],
          [("string.min", "댓글 내용을 입력해주세요."),
           ("string.max", "댓글은 최대 500자까지 작성할 수 있습니다."),
           ("any.required", "댓글 내용은 필수입니다.")])
  ]

  const ProfileSchema: seq<Field> := [
    Field("username", false, false, None, UsernameRules,
          [("string.alphanum", "사용자명은 영문자와 숫자만 사용할 수 있습니다."),
           ("string.min", "사용자명은 최소 3자 이상이어야 합니다."),
           ("string.max", "사용자명은 최대 20자까지 사용할 수 있습니다.")]),
    Field("intro", false, true, None, [MaxLength(200)],
          [("string.max", "소개는 최대 200자까지 작성할 수 있습니다.")]),
    Field("website", false, true, None, [Uri],
          [("string.uri", "올바른 웹사이트 URL을 입력해주세요.")])
  ]

  const PasswordChangeSchema: seq<Field> := [
    Field("currentPassword", true, false, None, [],
          [("any.required", "현재 비밀번호는 필수입니다.")]),
    Field("newPassword", true, false, None, PasswordRules,
          [("string.min", "새 비밀번호는 최소 6자 이상이어야 합니다."),
           ("string.max", "새 비밀번호는 최대 50자까지 사용할 수 있습니다."),
           ("string.pattern.base", "새 비밀번호는 대소문자, 숫자, 특수문자를 각각 최소 1개씩 포함해야 합니다."),
           ("any.required", "새 비밀번호는 필수입니다.")]),
    Field("confirmNewPassword", true, false, Some("newPassword"), [],
          [("any.only", "새 비밀번호가 일치하지 않습니다."),
           ("any.required", "새 비밀번호 확인은 필수입니다.")])
  ]

  // ---------------------------------------------------------------------
  // What each schema accepts
  // ---------------------------------------------------------------------

  /** A password the register and password-change schemas accept. */
  predicate AcceptablePassword(s: string)
  {
    6 <= |s| <= 50 && IsStrongPassword(s)
  }

  /** Every key of the body is one of `keys`. */
  predicate OnlyKeys(body: Body, keys: set<string>)
  {
    forall i :: 0 <= i < |body| ==> body[i].0 in keys
  }

  predicate AllPass(rules: seq<Rule>, s: string, fmt: Formats)
  {
    forall k :: 0 <= k < |rules| ==> Passes(rules[k], s, fmt)
  }

  /** A string field without `valid(ref)`. */
  predicate Plain(f: Field, key: string, required: bool, allowEmpty: bool, rules: seq<Rule>)
  {
    f.key == key && f.required == required && f.allowEmpty == allowEmpty && f.sameAs.None? && f.rules == rules
  }

  /** A required field that must equal its sibling `other`. */
  predicate SameAs(f: Field, key: string, other: string)
  {
    f.key == key && f.required && f.sameAs == Some(other)
  }

  /** When `keys` are exactly the declared keys, no key is unknown iff the
      body sends only those. */
  lemma DeclaredKeys(fields: seq<Field>, body: Body, keys: set<string>)
    requires forall k :: 0 <= k < |fields| ==> fields[k].key in keys
    requires forall key :: key in keys ==> Declares(fields, key)
    ensures FirstUnknown(fields, body).None? <==> OnlyKeys(body, keys)
  {
  }

  /** A plain field passes exactly when a missing key is optional, an
      empty value is allowed, and any other value keeps every rule. */
  lemma PlainField(f: Field, key: string, required: bool, allowEmpty: bool, rules: seq<Rule>, body: Body, fmt: Formats)
    requires Plain(f, key, required, allowEmpty, rules)
    ensures CheckField(f, body, fmt).None? <==>
      match Get(body, key)
      case None => !required
      case Some(v) => if v == [] then allowEmpty else AllPass(rules, v, fmt)
  {
  }

  const UsernameRules: seq<Rule> := [Alphanum, MinLength(3), MaxLength(20)]
  const PasswordRules: seq<Rule> := [MinLength(6), MaxLength(50), StrongPassword]

  lemma UsernameRulesMean(s: string, fmt: Formats)
    ensures AllPass(UsernameRules, s, fmt) <==> IsAlphanumeric(s) && 3 <= |s| <= 20
  {
    assert AllPass(UsernameRules, s, fmt) <==>
      Passes(UsernameRules[0], s, fmt) && Passes(UsernameRules[1], s, fmt) && Passes(UsernameRules[2], s, fmt);
  }

  lemma PasswordRulesMean(s: string, fmt: Formats)
    ensures AllPass(PasswordRules, s, fmt) <==> AcceptablePassword(s)
  {
    assert AllPass(PasswordRules, s, fmt) <==>
      Passes(PasswordRules[0], s, fmt) && Passes(PasswordRules[1], s, fmt) && Passes(PasswordRules[2], s, fmt);
  }

  lemma OneRuleMeans(r: Rule, s: string, fmt: Formats)
    ensures AllPass([r], s, fmt) <==> Passes(r, s, fmt)
  {
    assert [r][0] == r;
  }

  lemma TwoRulesMean(r: Rule, q: Rule, s: string, fmt: Formats)
    ensures AllPass([r, q], s, fmt) <==> Passes(r, s, fmt) && Passes(q, s, fmt)
  {
    assert [r, q][0] == r && [r, q][1] == q;
  }

  /** A schema of two to four fields passes exactly when each field does. */
  lemma FieldsPass(fs: seq<Field>, body: Body, fmt: Formats)
    requires 2 <= |fs| <= 4
    ensures FirstFieldError(fs, body, fmt).None? <==>
      CheckField(fs[0], body, fmt).None? && CheckField(fs[1], body, fmt).None?
      && (|fs| > 2 ==> CheckField(fs[2], body, fmt).None?)
      && (|fs| > 3 ==> CheckField(fs[3], body, fmt).None?)
  {
  }

  /** The first failing field of a schema is the one reported. */
  lemma FirstFailingField(fs: seq<Field>, body: Body, fmt: Formats, k: nat)
    requires k < |fs| && CheckField(fs[k], body, fmt).Some?
    requires forall j :: 0 <= j < k ==> CheckField(fs[j], body, fmt).None?
    ensures FirstFieldError(fs, body, fmt) == CheckField(fs[k], body, fmt)
  {
    if k > 0 {
      FirstFailingField(fs[1..], body, fmt, k - 1);
    }
  }

  /** The registration schema's shape. */
  predicate RegisterShape(fs: seq<Field>)
  {
    |fs| == 4
    && Plain(fs[0], "username", true, false, UsernameRules)
    && Plain(fs[1], "email", true, false, [Email])
    && Plain(fs[2], "password", true, false, PasswordRules)
    && SameAs(fs[3], "confirmPassword", "password")
  }

  /** What a registration must be to pass. */
  predicate RegistrationOk(body: Body, fmt: Formats)
  {
    var u := Get(body, "username"); var e := Get(body, "email"); var p := Get(body, "password");
    u.Some? && IsAlphanumeric(u.value) && 3 <= |u.value| <= 20
    && e.Some? && e.value != [] && fmt.isEmail(e.value)
    && p.Some? && AcceptablePassword(p.value)
    && Get(body, "confirmPassword") == p
    && OnlyKeys(body, {"username", "email", "password", "confirmPassword"})
  }

  lemma RegisterShapeAccepts(fs: seq<Field>, body: Body, fmt: Formats)
    requires RegisterShape(fs)
    ensures ValidateBody(fs, body, fmt).Next? <==> RegistrationOk(body, fmt)
  {
    assert Declares(fs, "username") && Declares(fs, "email") && Declares(fs, "password")
      && Declares(fs, "confirmPassword") by {
      assert fs[0].key == "username" && fs[1].key == "email";
      assert fs[2].key == "password" && fs[3].key == "confirmPassword";
    }
    DeclaredKeys(fs, body, {"username", "email", "password", "confirmPassword"});
    PlainField(fs[0], "username", true, false, UsernameRules, body, fmt);
    PlainField(fs[1], "email", true, false, [Email], body, fmt);
    PlainField(fs[2], "password", true, false, PasswordRules, body, fmt);
    var u := Get(body, "username");
    var e := Get(body, "email");
    var p := Get(body, "password");
    if u.Some? {
      UsernameRulesMean(u.value, fmt);
    }
    if e.Some? {
      OneRuleMeans(Email, e.value, fmt);
    }
    if p.Some? {
      PasswordRulesMean(p.value, fmt);
    }
    FieldsPass(fs, body, fmt);
  }

  /** A registration passes exactly when the username is 3 to 20 letters
      and digits, the email is non-empty and well-formed, the password is 6
      to 50 characters with a lower-case letter, an upper-case letter, a
      digit and one of `!@#$%^&*`, the confirmation equals it, and nothing
      else is sent. */
  lemma RegisterAcceptsExactly(body: Body, fmt: Formats)
    ensures ValidateBody(RegisterSchema, body, fmt).Next? <==> RegistrationOk(body, fmt)
  {
    RegisterShapeAccepts(RegisterSchema, body, fmt);
  }

  /** Only the first failure is reported: a registration without a username
      gets the username message whatever else is wrong with it, and one
      whose other fields pass but whose confirmation differs gets the
      mismatch message. */
  lemma RegisterReportsFirstFailure(body: Body, fmt: Formats)
    ensures Get(body, "username").None? ==>
      ValidateBody(RegisterSchema, body, fmt) == Reject(BadRequest, FailedMessage, Some(Custom("사용자명은 필수입니다.")))
    ensures (var u := Get(body, "username"); var e := Get(body, "email"); var p := Get(body, "password");
             u.Some? && IsAlphanumeric(u.value) && 3 <= |u.value| <= 20
             && e.Some? && e.value != [] && fmt.isEmail(e.value)
             && p.Some? && AcceptablePassword(p.value)
             && Get(body, "confirmPassword").Some? && Get(body, "confirmPassword") != p)
      ==> ValidateBody(RegisterSchema, body, fmt) == Reject(BadRequest, FailedMessage, Some(Custom("비밀번호가 일치하지 않습니다.")))
  {
    var fs := RegisterSchema;
    assert RegisterShape(fs);
    assert Message(fs[0], "any.required") == Custom("사용자명은 필수입니다.");
    assert Message(fs[3], "any.only") == Custom("비밀번호가 일치하지 않습니다.");
    MissingUsernameReported(fs, body, fmt);
    var u := Get(body, "username");
    var e := Get(body, "email");
    var p := Get(body, "password");
    if u.Some? && IsAlphanumeric(u.value) && 3 <= |u.value| <= 20
      && e.Some? && e.value != [] && fmt.isEmail(e.value)
      && p.Some? && AcceptablePassword(p.value)
      && Get(body, "confirmPassword").Some? && Get(body, "confirmPassword") != p
    {
      MismatchReported(fs, body, fmt, u.value, e.value, p.value);
      assert ValidateBody(fs, body, fmt) == Reject(BadRequest, FailedMessage, Some(Message(fs[3], "any.only")));
    }
  }

  /** A missing username fails the first field. */
  lemma MissingUsernameReported(fs: seq<Field>, body: Body, fmt: Formats)
    requires RegisterShape(fs)
    ensures Get(body, "username").None? ==>
      ValidateBody(fs, body, fmt) == Reject(BadRequest, FailedMessage, Some(Message(fs[0], "any.required")))
  {
    if Get(body, "username").None? {
      FirstFailingField(fs, body, fmt, 0);
    }
  }

  /** With the first three fields passing, a differing confirmation fails
      the last. */
  lemma MismatchReported(fs: seq<Field>, body: Body, fmt: Formats, u: string, e: string, p: string)
    requires RegisterShape(fs)
    requires Get(body, "username") == Some(u) && IsAlphanumeric(u) && 3 <= |u| <= 20
    requires Get(body, "email") == Some(e) && e != [] && fmt.isEmail(e)
    requires Get(body, "password") == Some(p) && AcceptablePassword(p)
    requires Get(body, "confirmPassword").Some? && Get(body, "confirmPassword") != Some(p)
    ensures FirstFieldError(fs, body, fmt) == Some(Message(fs[3], "any.only"))
  {
    UsernamePasses(fs[0], body, fmt, u);
    EmailPasses(fs[1], body, fmt, e);
    PasswordPasses(fs[2], body, fmt, p);
    SameAsFails(fs[3], "confirmPassword", "password", body, fmt);
    PassingFieldSkipped(fs, body, fmt);
    PassingFieldSkipped(fs[1..], body, fmt);
    PassingFieldSkipped(fs[2..], body, fmt);
    assert fs[3..] == [fs[3]];
  }

  /** A passing first field leaves the report to the rest. */
  lemma PassingFieldSkipped(fs: seq<Field>, body: Body, fmt: Formats)
    requires fs != [] && CheckField(fs[0], body, fmt).None?
    ensures FirstFieldError(fs, body, fmt) == FirstFieldError(fs[1..], body, fmt)
  {
  }

  /** A present value that differs from its sibling fails with `any.only`. */
  lemma SameAsFails(f: Field, key: string, other: string, body: Body, fmt: Formats)
    requires SameAs(f, key, other) && Get(body, key).Some? && Get(body, key) != Get(body, other)
    ensures CheckField(f, body, fmt) == Some(Message(f, "any.only"))
  {
  }

  /** A username that keeps the username rules passes its field. */
  lemma UsernamePasses(f: Field, body: Body, fmt: Formats, v: string)
    requires Plain(f, "username", true, false, UsernameRules) && Get(body, "username") == Some(v)
    requires IsAlphanumeric(v) && 3 <= |v| <= 20
    ensures CheckField(f, body, fmt).None?
  {
    PlainField(f, "username", true, false, UsernameRules, body, fmt);
    UsernameRulesMean(v, fmt);
  }

  /** A non-empty, well-formed email passes its field. */
  lemma EmailPasses(f: Field, body: Body, fmt: Formats, v: string)
    requires Plain(f, "email", true, false, [Email]) && Get(body, "email") == Some(v)
    requires v != [] && fmt.isEmail(v)
    ensures CheckField(f, body, fmt).None?
  {
    PlainField(f, "email", true, false, [Email], body, fmt);
    OneRuleMeans(Email, v, fmt);
  }

  /** An acceptable password passes its field. */
  lemma PasswordPasses(f: Field, body: Body, fmt: Formats, v: string)
    requires Plain(f, "password", true, false, PasswordRules) && Get(body, "password") == Some(v)
    requires AcceptablePassword(v)
    ensures CheckField(f, body, fmt).None?
  {
    PlainField(f, "password", true, false, PasswordRules, body, fmt);
    PasswordRulesMean(v, fmt);
  }

  /** A login passes exactly when a non-empty, well-formed email and a
      non-empty password are sent, and nothing else. */
  lemma LoginAcceptsExactly(body: Body, fmt: Formats)
    ensures ValidateBody(LoginSchema, body, fmt).Next? <==>
      (var e := Get(body, "email"); var p := Get(body, "password");
       e.Some? && e.value != [] && fmt.isEmail(e.value)
       && p.Some? && p.value != []
       && OnlyKeys(body, {"email", "password"}))
  {
    var fs := LoginSchema;
    assert Plain(fs[0], "email", true, false, [Email]) && Plain(fs[1], "password", true, false, [MinLength(1)]);
    LoginShapeAccepts(fs, body, fmt);
  }

  lemma LoginShapeAccepts(fs: seq<Field>, body: Body, fmt: Formats)
    requires |fs| == 2 && Plain(fs[0], "email", true, false, [Email]) && Plain(fs[1], "password", true, false, [MinLength(1)])
    ensures ValidateBody(fs, body, fmt).Next? <==>
      (var e := Get(body, "email"); var p := Get(body, "password");
       e.Some? && e.value != [] && fmt.isEmail(e.value)
       && p.Some? && p.value != []
       && OnlyKeys(body, {"email", "password"}))
  {
    assert Declares(fs, "email") && Declares(fs, "password") by {
      assert fs[0].key == "email" && fs[1].key == "password";
    }
    DeclaredKeys(fs, body, {"email", "password"});
    PlainField(fs[0], "email", true, false, [Email], body, fmt);
    PlainField(fs[1], "password", true, false, [MinLength(1)], body, fmt);
    var e := Get(body, "email");
    var p := Get(body, "password");
    if e.Some? {
      OneRuleMeans(Email, e.value, fmt);
    }
    if p.Some? {
      OneRuleMeans(MinLength(1), p.value, fmt);
    }
    FieldsPass(fs, body, fmt);
  }

  /** A body whose one key is `content`, of 1 to `max` characters. */
  predicate ContentWithin(body: Body, max: nat)
  {
    Get(body, "content").Some? && 1 <= |Get(body, "content").value| <= max && OnlyKeys(body, {"content"})
  }

  lemma ContentShapeAccepts(fs: seq<Field>, body: Body, fmt: Formats, max: nat)
    requires |fs| == 1 && Plain(fs[0], "content", true, false, [MinLength(1), MaxLength(max)])
    ensures ValidateBody(fs, body, fmt).Next? <==> ContentWithin(body, max)
  {
    assert Declares(fs, "content") by {
      assert fs[0].key == "content";
    }
    DeclaredKeys(fs, body, {"content"});
    PlainField(fs[0], "content", true, false, [MinLength(1), MaxLength(max)], body, fmt);
    var c := Get(body, "content");
    if c.Some? {
      TwoRulesMean(MinLength(1), MaxLength(max), c.value, fmt);
    }
    assert FirstFieldError(fs, body, fmt).None? <==> CheckField(fs[0], body, fmt).None?;
  }

  /** Post content passes exactly when it is 1 to 1000 characters long. */
  lemma PostAcceptsExactly(body: Body, fmt: Formats)
    ensures ValidateBody(PostSchema, body, fmt).Next? <==> ContentWithin(body, 1000)
  {
    ContentShapeAccepts(PostSchema, body, fmt, 1000);
  }

  /** Comment content passes exactly when it is 1 to 500 characters long. */
  lemma CommentAcceptsExactly(body: Body, fmt: Formats)
    ensures ValidateBody(CommentSchema, body, fmt).Next? <==> ContentWithin(body, 500)
  {
    ContentShapeAccepts(CommentSchema, body, fmt, 500);
  }

  /** Empty content is refused before the length rules run, so the caller
      sees Joi's own "not allowed to be empty" message and never the
      schema's message for `string.min`. */
  lemma EmptyContentGetsJoiMessage(body: Body, fmt: Formats)
    requires Get(body, "content") == Some("")
    ensures ValidateBody(PostSchema, body, fmt) == Reject(BadRequest, FailedMessage, Some(Default("string.empty", "content")))
    ensures ValidateBody(CommentSchema, body, fmt) == Reject(BadRequest, FailedMessage, Some(Default("string.empty", "content")))
  {
    NoEmptyMessage(PostSchema[0].messages, "content");
    NoEmptyMessage(CommentSchema[0].messages, "content");
  }

  lemma NoEmptyMessage(messages: seq<(string, string)>, key: string)
    requires forall i :: 0 <= i < |messages| ==> messages[i].0 in {"string.min", "string.max", "any.required"}
    ensures Lookup(messages, "string.empty", key) == Default("string.empty", key)
  {
    if messages != [] {
      NoEmptyMessage(messages[1..], key);
    }
  }

  /** What a profile edit must be to pass. */
  predicate ProfileEditOk(body: Body, fmt: Formats)
  {
    var u := Get(body, "username"); var i := Get(body, "intro"); var w := Get(body, "website");
    (u.Some? ==> IsAlphanumeric(u.value) && 3 <= |u.value| <= 20)
    && (i.Some? ==> |i.value| <= 200)
    && (w.Some? ==> w.value == [] || fmt.isUri(w.value))
    && OnlyKeys(body, {"username", "intro", "website"})
  }

  /** A profile edit passes exactly when a sent username is 3 to 20 letters
      and digits, a sent intro is empty or at most 200 characters, a sent
      website is empty or a URI, and nothing else is sent. */
  lemma ProfileAcceptsExactly(body: Body, fmt: Formats)
    ensures ValidateBody(ProfileSchema, body, fmt).Next? <==> ProfileEditOk(body, fmt)
  {
    var fs := ProfileSchema;
    assert Plain(fs[0], "username", false, false, UsernameRules) && Plain(fs[1], "intro", false, true, [MaxLength(200)])
      && Plain(fs[2], "website", false, true, [Uri]);
    ProfileShapeAccepts(fs, body, fmt);
  }

  lemma ProfileShapeAccepts(fs: seq<Field>, body: Body, fmt: Formats)
    requires |fs| == 3
    requires Plain(fs[0], "username", false, false, UsernameRules) && Plain(fs[1], "intro", false, true, [MaxLength(200)])
    requires Plain(fs[2], "website", false, true, [Uri])
    ensures ValidateBody(fs, body, fmt).Next? <==> ProfileEditOk(body, fmt)
  {
    assert Declares(fs, "username") && Declares(fs, "intro") && Declares(fs, "website") by {
      assert fs[0].key == "username" && fs[1].key == "intro" && fs[2].key == "website";
    }
    DeclaredKeys(fs, body, {"username", "intro", "website"});
    PlainField(fs[0], "username", false, false, UsernameRules, body, fmt);
    PlainField(fs[1], "intro", false, true, [MaxLength(200)], body, fmt);
    PlainField(fs[2], "website", false, true, [Uri], body, fmt);
    var u := Get(body, "username");
    var i := Get(body, "intro");
    var w := Get(body, "website");
    if u.Some? {
      UsernameRulesMean(u.value, fmt);
    }
    if i.Some? {
      OneRuleMeans(MaxLength(200), i.value, fmt);
    }
    if w.Some? {
      OneRuleMeans(Uri, w.value, fmt);
    }
    FieldsPass(fs, body, fmt);
  }

  /** What a password change must be to pass. */
  predicate PasswordChangeOk(body: Body)
  {
    var c := Get(body, "currentPassword"); var n := Get(body, "newPassword");
    c.Some? && c.value != []
    && n.Some? && AcceptablePassword(n.value)
    && Get(body, "confirmNewPassword") == n
    && OnlyKeys(body, {"currentPassword", "newPassword", "confirmNewPassword"})
  }

  /** A password change passes exactly when a non-empty current password
      is sent, the new one is 6 to 50 characters with each character class,
      its confirmation equals it, and nothing else is sent. */
  lemma PasswordChangeAcceptsExactly(body: Body, fmt: Formats)
    ensures ValidateBody(PasswordChangeSchema, body, fmt).Next? <==> PasswordChangeOk(body)
  {
    var fs := PasswordChangeSchema;
    assert Plain(fs[0], "currentPassword", true, false, []) && Plain(fs[1], "newPassword", true, false, PasswordRules)
      && SameAs(fs[2], "confirmNewPassword", "newPassword");
    PasswordChangeShapeAccepts(fs, body, fmt);
  }

  lemma PasswordChangeShapeAccepts(fs: seq<Field>, body: Body, fmt: Formats)
    requires |fs| == 3
    requires Plain(fs[0], "currentPassword", true, false, []) && Plain(fs[1], "newPassword", true, false, PasswordRules)
    requires SameAs(fs[2], "confirmNewPassword", "newPassword")
    ensures ValidateBody(fs, body, fmt).Next? <==> PasswordChangeOk(body)
  {
    assert Declares(fs, "currentPassword") && Declares(fs, "newPassword") && Declares(fs, "confirmNewPassword") by {
      assert fs[0].key == "currentPassword" && fs[1].key == "newPassword" && fs[2].key == "confirmNewPassword";
    }
    DeclaredKeys(fs, body, {"currentPassword", "newPassword", "confirmNewPassword"});
    PlainField(fs[0], "currentPassword", true, false, [], body, fmt);
    PlainField(fs[1], "newPassword", true, false, PasswordRules, body, fmt);
    var n := Get(body, "newPassword");
    if n.Some? {
      PasswordRulesMean(n.value, fmt);
    }
    FieldsPass(fs, body, fmt);
  }
}
