/** The auth request schemas (auth/schema.ts). Each field's transform builds
    a value object and throws its domain error at once; zod's own `z.email()`
    check on the register email is a parameter, since zod's address pattern
    is not modelled, and a failed check surfaces as a validation error only
    after the other fields' transforms. */
module AuthSchema {
  import opened Wrappers
  import opened Exceptions
  import opened JsText
  import opened Users
  import EmailValue
  import PhoneValue
  import NameValue
  import PasswordValue

  /** `parseLogin`: a string the phone pattern accepts is a phone, anything
      else must be an email. */
  function ParseLogin(login: string): (r: Result<Login>)
    ensures PhoneValue.IsStringValid(login) ==>
              r.Ok? && r.value.PhoneLogin? && r.value.phone.GetValue() == login
    ensures !PhoneValue.IsStringValid(login) ==>
              && (r.Ok? <==> EmailValue.MatchesEmailPattern(login))
              && (r.Ok? ==> r.value.EmailLogin? && r.value.email.GetValue() == login)
              && (r.Err? ==> r.error == UsersError(InvalidEmail))
  {
    PhoneValue.IsStringValidMatchesPattern(login);
    if PhoneValue.IsStringValid(login) then
      match PhoneValue.FromString(login)
      case Ok(p) => Ok(PhoneLogin(p))
      case Err(e) => Err(e)
    else
      match EmailValue.Create(login)
      case Ok(m) => Ok(EmailLogin(m))
      case Err(e) => Err(e)
  }

  /** The classification is unambiguous: a phone-shaped string has no '@',
      so it is never also email-shaped. */
  lemma LoginClassificationUnambiguous(s: string)
    requires PhoneValue.IsStringValid(s)
    ensures !EmailValue.MatchesEmailPattern(s)
  {
    PhoneValue.AcceptedPhoneShape(s);
  }

  /** Every login string is read back as exactly itself, in whichever form. */
  lemma ParsedLoginKeepsText(s: string)
    requires ParseLogin(s).Ok?
    ensures match ParseLogin(s).value
            case PhoneLogin(p) => p.GetValue() == s && PhoneValue.IsStringValid(s)
            case EmailLogin(e) => e.GetValue() == s && !PhoneValue.IsStringValid(s)
  {
  }

  datatype LoginInput = LoginInput(login: Login, password: Password)

  /** `LoginSchema`: the login, then the password. */
  function ParseLoginInput(login: string, password: string): (r: Result<LoginInput>)
    ensures r.Ok? <==> ParseLogin(login).Ok? && Utf16Length(password) >= PasswordValue.MIN_LENGTH
    ensures ParseLogin(login).Err? ==> r == Err(ParseLogin(login).error)
    ensures r.Ok? ==> r.value.login == ParseLogin(login).value && r.value.password.GetValue() == password
  {
    var l :- ParseLogin(login);
    var p :- PasswordValue.Create(password);
    Ok(LoginInput(l, p))
  }

  /** `UserCreateParams` as `RegisterSchema` produces it. */
  datatype RegisterInput = RegisterInput(
    email: Email, phone: Phone, password: Password,
    name: Name, surname: Name, patronymic: Option<Name>)
  {
    /** Every value object holds what its constructor accepts. */
    predicate Valid() {
      && email.Valid() && phone.Valid()
      && name.Valid() && surname.Valid()
      && (patronymic.Some? ==> patronymic.value.Valid())
    }
  }

  /** The register patronymic: absent or "" is undefined, anything else a
      validated name. */
  function ParsePatronymic(p: Option<string>): (r: Result<Option<Name>>)
    ensures p.None? || p.value == "" ==> r == Ok(None)
    ensures p.Some? && p.value != "" ==>
              && (r.Ok? <==> NameValue.AcceptedName(p.value))
              && (r.Ok? ==> r.value.Some? && NameValue.SameUpToCase(r.value.value.GetValue(), p.value))
              && (r.Ok? ==> r.value.value.Valid())
              && (r.Err? ==> r.error == UsersError(InvalidName))
  {
    if p.None? || p.value == "" then Ok(None)
    else
      match NameValue.FromString(p.value)
      case Ok(n) => Ok(Some(n))
      case Err(e) => Err(e)
  }

  /** `RegisterSchema`: fields in declaration order, a throwing transform
      ends the parse with its error; an email refused by `z.email()` skips
      its transform and fails the parse once every field has been handled. */
  function ParseRegister(zodEmail: string -> bool, email: string, phone: string, password: string,
                         name: string, surname: string, patronymic: Option<string>): (r: Result<RegisterInput>)
    ensures r.Ok? <==>
              && zodEmail(email) && EmailValue.MatchesEmailPattern(email)
              && PhoneValue.MatchesPhonePattern(phone)
              && Utf16Length(password) >= PasswordValue.MIN_LENGTH
              && NameValue.AcceptedName(name) && NameValue.AcceptedName(surname)
              && ParsePatronymic(patronymic).Ok?
    ensures zodEmail(email) && !EmailValue.MatchesEmailPattern(email) ==> r == Err(UsersError(InvalidEmail))
    ensures !zodEmail(email) ==> r.Err? && r.error in {ValidationFailed, UsersError(InvalidPhone),
              AuthError(InvalidPassword), UsersError(InvalidName)}
    ensures r.Ok? ==> var v := r.value;
              && v.email.GetValue() == email && v.phone.GetValue() == phone
              && v.password.GetValue() == password
              && v.name.Valid() && NameValue.SameUpToCase(v.name.GetValue(), name)
              && v.surname.Valid() && NameValue.SameUpToCase(v.surname.GetValue(), surname)
              && v.patronymic == ParsePatronymic(patronymic).value
              && v.Valid()
  {
    var m :- CheckedEmail(zodEmail(email), email);
    var ph :- PhoneValue.FromString(phone);
    var pw :- PasswordValue.FromString(password);
    var n :- NameValue.FromString(name);
    var sn :- NameValue.FromString(surname);
    var pt :- ParsePatronymic(patronymic);
    if m.None? then Err(ValidationFailed)
    else Ok(RegisterInput(m.value, ph, pw, n, sn, pt))
  }

  /** The email field: no value when `z.email()` refused it (the issue is
      reported later), else the value object or its error. */
  function CheckedEmail(zodAccepts: bool, email: string): (r: Result<Option<Email>>)
    ensures !zodAccepts ==> r == Ok(None)
    ensures zodAccepts ==> (r.Ok? <==> EmailValue.MatchesEmailPattern(email))
    ensures zodAccepts && r.Ok? ==> r.value.Some? && r.value.value.GetValue() == email
    ensures r.Err? ==> r.error == UsersError(InvalidEmail)
  {
    if !zodAccepts then Ok(None)
    else
      match EmailValue.FromString(email)
      case Ok(e) => Ok(Some(e))
      case Err(x) => Err(x)
  }

  /** `RefreshSchema`: the refresh token string is taken as it is. */
  function ParseRefresh(refreshToken: string): (r: RefreshToken)
    ensures r == refreshToken
  {
    refreshToken
  }
}
