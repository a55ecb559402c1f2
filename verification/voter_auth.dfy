/** The alternative voter page frontend/src/VoterAuth.jsx. Unlike the page
    in VoterLogin.jsx it sends the login form without a face, treats every
    2xx status as success and shows its results in the page's own success
    and error messages. The reply, or the failure of the request, is a
    parameter of each submit handler. */
module VoterAuth {
  import opened Wrappers
  import opened RegisterForm

  datatype LoginData = LoginData(userId: string, password: string)

  datatype LoginField = LoginUserId | LoginPassword

  /** A reply as the page reads it: the status and `data.error`; or a failed
      request (which includes a body that is not JSON). */
  datatype Response =
    | Reply(status: int, error: Option<string>)
    | NetworkError

  /** `response.ok` */
  predicate Ok(status: int) {
    200 <= status <= 299
  }

  const LoginSuccessMessage := "Login successful!"
  const RegisterSuccessMessage := "\U{2705} Registration successful! You may now log in."
  const LoginNetworkMessage := "Network error. Please try again."
  const RegisterNetworkMessage := "Network error. Please check if backend server is running."

  /** `data.error || fallback` */
  function ErrorOr(error: Option<string>, fallback: string): (m: string)
    ensures m == "" <==> fallback == "" && (error.None? || error.value == "")
    ensures error.Some? && error.value != "" ==> m == error.value
  {
    if error.Some? && error.value != "" then error.value else fallback
  }

  /** The (error, success) pair the login handler ends with. */
  function LoginMessages(response: Response): (r: (string, string))
    ensures r.0 == "" <==> r.1 != ""
    ensures r.1 == LoginSuccessMessage <==> response.Reply? && Ok(response.status)
  {
    match response
    case Reply(status, error) =>
      if Ok(status) then ("", LoginSuccessMessage) else (ErrorOr(error, "Login failed"), "")
    case NetworkError => (LoginNetworkMessage, "")
  }

  class VoterAuthPage {
    var loginData: LoginData
    var loginError: string
    var loginSuccess: string
    var registerData: RegisterData
    var registerError: string
    var registerSuccess: string
    var faceDescriptor: Option<seq<real>>
    /** Set when a successful registration has scheduled the switch to the
        login tab; the timer itself is not part of this model. */
    var loginTabScheduled: bool

    constructor ()
      ensures loginData == LoginData("", "") && loginError == "" && loginSuccess == ""
      ensures registerData == EmptyForm && registerError == "" && registerSuccess == ""
      ensures faceDescriptor == None && !loginTabScheduled
    {
      loginData := LoginData("", "");
      loginError := "";
      loginSuccess := "";
      registerData := EmptyForm;
      registerError := "";
      registerSuccess := "";
      faceDescriptor := None;
      loginTabScheduled := false;
    }

    /** `handleLoginChange`: both inputs are stored as typed. */
    method ChangeLogin(f: LoginField, v: string)
      modifies this`loginData
      ensures f == LoginUserId ==> loginData == old(loginData).(userId := v)
      ensures f == LoginPassword ==> loginData == old(loginData).(password := v)
      ensures unchanged(this`loginError, this`loginSuccess, this`loginTabScheduled)
      ensures unchanged(this`registerData, this`registerError, this`registerSuccess, this`faceDescriptor)
    {
      match f {
        case LoginUserId => loginData := loginData.(userId := v);
        case LoginPassword => loginData := loginData.(password := v);
      }
    }

    /** `handleRegisterChange`, identical to the other voter page's. */
    method ChangeRegister(f: Field, v: string)
      modifies this`registerData
      ensures registerData == RegisterChange(old(registerData), f, v)
      ensures unchanged(this`loginData, this`loginError, this`loginSuccess, this`loginTabScheduled)
      ensures unchanged(this`registerError, this`registerSuccess, this`faceDescriptor)
    {
      registerData := RegisterChange(registerData, f, v);
    }

    /** `handleSubmitLogin`: both messages are cleared, then exactly one of
        them is set; the form is kept whatever the reply. */
    method SubmitLogin(response: Response)
      modifies this`loginError, this`loginSuccess
      ensures (loginError, loginSuccess) == LoginMessages(response)
      ensures unchanged(this`loginData, this`loginTabScheduled)
      ensures unchanged(this`registerData, this`registerError, this`registerSuccess, this`faceDescriptor)
    {
      loginError := "";
      loginSuccess := "";
      match response {
        case Reply(status, error) =>
          if Ok(status) {
            loginSuccess := LoginSuccessMessage;
          } else {
            loginError := ErrorOr(error, "Login failed");
          }
        case NetworkError =>
          loginError := LoginNetworkMessage;
      }
    }

    /** `handleSubmitRegister`: both messages are cleared; a failing check
        sets its message and sends nothing; a 2xx reply sets the success
        message, clears the form and the descriptor and schedules the tab
        switch; any other outcome sets the error and keeps the form. */
    method SubmitRegister(response: Response)
      modifies this`registerData, this`registerError, this`registerSuccess, this`faceDescriptor, this`loginTabScheduled
      ensures FirstRegisterError(old(registerData), old(faceDescriptor).Some?).Some? ==>
                && registerError == FirstRegisterError(old(registerData), old(faceDescriptor).Some?).value
                && registerSuccess == ""
                && registerData == old(registerData) && faceDescriptor == old(faceDescriptor)
                && loginTabScheduled == old(loginTabScheduled)
      ensures FirstRegisterError(old(registerData), old(faceDescriptor).Some?).None? ==>
                var accepted := response.Reply? && Ok(response.status);
                && (accepted ==>
                      && registerSuccess == RegisterSuccessMessage && registerError == ""
                      && registerData == EmptyForm && faceDescriptor == None && loginTabScheduled)
                && (!accepted ==>
                      && registerSuccess == "" && registerError != ""
                      && registerData == old(registerData) && faceDescriptor == old(faceDescriptor)
                      && loginTabScheduled == old(loginTabScheduled))
                && (response.Reply? && !Ok(response.status) ==>
                      registerError == ErrorOr(response.error, "Registration failed"))
                && (response == NetworkError ==> registerError == RegisterNetworkMessage)
      ensures unchanged(this`loginData, this`loginError, this`loginSuccess)
    {
      registerError := "";
      registerSuccess := "";
      var check := FirstRegisterError(registerData, faceDescriptor.Some?);
      if check.Some? {
        registerError := check.value;
        return;
      }
      match response {
        case Reply(status, error) =>
          if Ok(status) {
            registerSuccess := RegisterSuccessMessage;
            registerData := EmptyForm;
            faceDescriptor := None;
            loginTabScheduled := true;
          } else {
            registerError := ErrorOr(error, "Registration failed");
          }
        case NetworkError =>
          registerError := RegisterNetworkMessage;
      }
    }
  }
}
