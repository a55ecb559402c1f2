/** The voter page frontend/src/VoterLogin.jsx: its login and registration
    forms, the input handlers and the two submit handlers. The server's
    reply (or the network failure) is a parameter of each submit handler;
    toasts, navigation and `localStorage` are reported as the handler's
    outcome. */
module VoterLogin {
  import opened Wrappers
  import opened Text
  import opened RegisterForm

  datatype LoginData = LoginData(userId: string, password: string)

  const EmptyLogin := LoginData("", "")

  /** The login `userId` input: a value of digits only (the empty value
      included) is cut to 12 characters, any other value is kept as typed. */
  function LoginUserIdChange(v: string): (r: string)
    ensures AllDigits(v) ==> r == Take(v, 12)
    ensures !AllDigits(v) ==> r == v
  {
    if AllDigits(v) then Take(v, 12) else v
  }

  /** A digit-only identifier ends up with at most 12 digits; one with any
      other character (an email address) is never changed, so an email can
      be typed in full. */
  lemma LoginUserIdShape(v: string)
    ensures var r := LoginUserIdChange(v);
      && (AllDigits(v) ==> AllDigits(r) && |r| <= 12 && r <= v)
      && (!AllDigits(v) ==> r == v)
      && LoginUserIdChange(r) == r
  {
  }

  /** The reply of `POST /login` as the page reads it: the status, whether
      `data.user` is present and its `match` flag, and `data.error`; or a
      failed request with its error message. */
  datatype LoginResponse =
    | LoginReply(status: int, user: Option<bool>, error: Option<string>)
    | LoginNetworkError(message: string)

  /** What a login submit leads to. */
  datatype LoginOutcome =
    | NoFaceCaptured
    | LoginAccepted
    | FaceMismatch
    | LoginToast(message: string)
    | LoginScriptError

  const NoFaceMessage := "Please capture your face to login."
  const MismatchToast := "Face does not match. Please try again."

  /** The decision of `handleSubmitLogin` once the request was sent: only
      200 with a true `match` logs in; a reply carrying a user whose
      `match` is false is a face mismatch; a 200 without a user fails
      reading `match`; anything else shows the server's error or a fixed
      message. */
  function LoginDecision(response: LoginResponse): (r: LoginOutcome)
    ensures r == LoginAccepted <==> response.LoginReply? && response.status == 200 && response.user == Some(true)
    ensures r == FaceMismatch <==> response.LoginReply? && response.user == Some(false)
  {
    match response
    case LoginNetworkError(m) => LoginToast(if m == "" then "Network error. Please try again." else m)
    case LoginReply(status, user, error) =>
      if status == 200 && user.None? then LoginScriptError
      else if status == 200 && user.value then LoginAccepted
      else if user.Some? && !user.value then FaceMismatch
      else LoginToast(if error.None? || error.value == "" then "Unexpected error during login." else error.value)
  }

  /** The outcome of the register request, once sent. */
  datatype RegisterResponse =
    | RegisterReply(status: int, error: Option<string>)
    | RegisterNetworkError

  datatype RegisterOutcome =
    | Refused(message: string)
    | SignedUp
    | RegisterToast(message: string)
    | RegisterRequestFailed

  class VoterLoginPage {
    var loginData: LoginData
    var loginError: string
    var loginCameraOn: bool
    var loginDescriptor: Option<seq<real>>
    var registerData: RegisterData
    var registerError: string
    var registerCameraOn: bool
    var faceDescriptor: Option<seq<real>>

    constructor ()
      ensures loginData == EmptyLogin && loginError == "" && !loginCameraOn && loginDescriptor == None
      ensures registerData == EmptyForm && registerError == "" && !registerCameraOn && faceDescriptor == None
    {
      loginData := EmptyLogin;
      loginError := "";
      loginCameraOn := false;
      loginDescriptor := None;
      registerData := EmptyForm;
      registerError := "";
      registerCameraOn := false;
      faceDescriptor := None;
    }

    /** `handleLoginChange` for the `userId` input. */
    method ChangeLoginUserId(v: string)
      modifies this`loginData
      ensures loginData == old(loginData).(userId := LoginUserIdChange(v))
      ensures unchanged(this`loginError, this`loginCameraOn, this`loginDescriptor)
      ensures unchanged(this`registerData, this`registerError, this`registerCameraOn, this`faceDescriptor)
    {
      loginData := loginData.(userId := LoginUserIdChange(v));
    }

    /** `handleLoginChange` for the `password` input: stored as typed. */
    method ChangeLoginPassword(v: string)
      modifies this`loginData
      ensures loginData == old(loginData).(password := v)
      ensures unchanged(this`loginError, this`loginCameraOn, this`loginDescriptor)
      ensures unchanged(this`registerData, this`registerError, this`registerCameraOn, this`faceDescriptor)
    {
      loginData := loginData.(password := v);
    }

    /** `handleRegisterChange` */
    method ChangeRegister(f: Field, v: string)
      modifies this`registerData
      ensures registerData == RegisterChange(old(registerData), f, v)
      ensures unchanged(this`loginData, this`loginError, this`loginCameraOn, this`loginDescriptor)
      ensures unchanged(this`registerError, this`registerCameraOn, this`faceDescriptor)
    {
      registerData := RegisterChange(registerData, f, v);
    }

    /** `handleSubmitLogin`. Without a captured descriptor nothing is sent
        and only the error is set; otherwise, whatever the reply, the
        descriptor, the login form and the camera flag are reset. */
    method SubmitLogin(response: LoginResponse) returns (outcome: LoginOutcome)
      modifies this`loginData, this`loginError, this`loginCameraOn, this`loginDescriptor
      ensures old(loginDescriptor).None? ==>
                && outcome == NoFaceCaptured && loginError == NoFaceMessage
                && loginData == old(loginData) && loginCameraOn == old(loginCameraOn)
      ensures old(loginDescriptor).Some? ==>
                && outcome == LoginDecision(response)
                && loginDescriptor == None && loginData == EmptyLogin && !loginCameraOn
                && loginError == old(loginError)
      ensures old(loginDescriptor).None? ==> loginDescriptor == None
      ensures unchanged(this`registerData, this`registerError, this`registerCameraOn, this`faceDescriptor)
    {
      if loginDescriptor.None? {
        loginError := NoFaceMessage;
        return NoFaceCaptured;
      }
      outcome := LoginDecision(response);
      loginDescriptor := None;
      loginData := EmptyLogin;
      loginCameraOn := false;
    }

    /** `handleSubmitRegister`. A failing check sets its message and sends
        nothing; otherwise the request is sent, a 201 clears the form and the
        descriptor and turns the camera off, and in every case the error
        message is cleared afterwards. */
    method SubmitRegister(response: RegisterResponse) returns (outcome: RegisterOutcome)
      modifies this`registerData, this`registerError, this`registerCameraOn, this`faceDescriptor
      ensures FirstRegisterError(old(registerData), old(faceDescriptor).Some?).Some? ==>
                && outcome == Refused(FirstRegisterError(old(registerData), old(faceDescriptor).Some?).value)
                && registerError == outcome.message
                && registerData == old(registerData) && faceDescriptor == old(faceDescriptor)
                && registerCameraOn == old(registerCameraOn)
      ensures FirstRegisterError(old(registerData), old(faceDescriptor).Some?).None? ==>
                && !outcome.Refused? && registerError == ""
                && (outcome == SignedUp <==> response.RegisterReply? && response.status == 201)
                && (outcome == SignedUp ==>
                      registerData == EmptyForm && faceDescriptor == None && !registerCameraOn)
                && (outcome != SignedUp ==>
                      && registerData == old(registerData) && faceDescriptor == old(faceDescriptor)
                      && registerCameraOn == old(registerCameraOn))
                && (response.RegisterReply? && response.status != 201 ==>
                      outcome == RegisterToast(if response.error.None? || response.error.value == "" then "Registration failed" else response.error.value))
                && (response.RegisterNetworkError? ==> outcome == RegisterRequestFailed)
      ensures unchanged(this`loginData, this`loginError, this`loginCameraOn, this`loginDescriptor)
    {
      var check := FirstRegisterError(registerData, faceDescriptor.Some?);
      if check.Some? {
        registerError := check.value;
        return Refused(check.value);
      }
      match response {
        case RegisterReply(status, error) =>
          if status == 201 {
            outcome := SignedUp;
            faceDescriptor := None;
            registerData := EmptyForm;
            registerCameraOn := false;
          } else {
            outcome := RegisterToast(if error.None? || error.value == "" then "Registration failed" else error.value);
          }
        case RegisterNetworkError =>
          outcome := RegisterRequestFailed;
      }
      registerError := "";
    }
  }
}
