/** The login and registration schemas (src/schemas/auth.ts). */
module AuthSchema {
  import opened Wrappers

  const PASSWORD_MIN := 8
  const NAME_MIN := 2

  /** Stand-in for zod's email pattern: one '@' with a non-empty local part
      before it and a dotted domain after it. */
  predicate ValidEmail(s: string) {
    exists i :: 0 < i < |s| && s[i] == '@' &&
      '@' !in s[..i] && '@' !in s[i + 1..] && '.' in s[i + 1..] &&
      s[|s| - 1] != '.' && s[i + 1] != '.'
  }

  datatype AuthField = Name | Email | Password | ConfirmPassword

  datatype LoginRequest = LoginRequest(email: string, password: string)

  function LoginErrors(req: LoginRequest): seq<AuthField> {
    (if ValidEmail(req.email) then [] else [Email]) +
    (if |req.password| >= 1 then [] else [Password])
  }

  /** `loginSchema.safeParse`. */
  function ParseLogin(req: LoginRequest): (r: Result<LoginRequest, seq<AuthField>>)
    ensures r.Success? <==> ValidEmail(req.email) && req.password != []
    ensures r.Success? ==> r.value == req
    ensures r.Failure? ==>
      && r.error != []
      && (Email in r.error <==> !ValidEmail(req.email))
      && (Password in r.error <==> req.password == [])
  {
    var errors := LoginErrors(req);
    if errors == [] then Success(req) else Failure(errors)
  }

  datatype RegisterRequest = RegisterRequest(name: string, email: string, password: string, confirmPassword: string)

  /** The field checks in schema order, then the refinement that reports a
      mismatch on confirmPassword. Every field check is one zod continues
      after, so the refinement runs even when a field check failed. */
  function RegisterErrors(req: RegisterRequest): seq<AuthField> {
    (if |req.name| >= NAME_MIN then [] else [Name]) +
    (if ValidEmail(req.email) then [] else [Email]) +
    (if |req.password| >= PASSWORD_MIN then [] else [Password]) +
    (if req.password == req.confirmPassword then [] else [ConfirmPassword])
  }

  /** `registerSchema.safeParse`. */
  function ParseRegister(req: RegisterRequest): (r: Result<RegisterRequest, seq<AuthField>>)
    ensures r.Success? <==>
      |req.name| >= 2 && ValidEmail(req.email) && |req.password| >= 8 && req.password == req.confirmPassword
    ensures r.Success? ==> r.value == req
    ensures r.Failure? ==>
      && r.error != []
      && (Name in r.error <==> |req.name| < 2)
      && (Email in r.error <==> !ValidEmail(req.email))
      && (Password in r.error <==> |req.password| < 8)
      && (ConfirmPassword in r.error <==> req.password != req.confirmPassword)
  {
    var errors := RegisterErrors(req);
    if errors == [] then Success(req) else Failure(errors)
  }

  /** A registration that passes also passes as a login with the same email
      and password. */
  lemma RegisteredCredentialsLogIn(req: RegisterRequest)
    requires ParseRegister(req).Success?
    ensures ParseLogin(LoginRequest(req.email, req.password)).Success?
  {
  }
}
