/** The administrator login form frontend/src/AdminLogin.jsx: a fixed pair
    of credentials decides between three outcomes, and the form's `error`
    and `loading` fields are set along each branch. */
module AdminLogin {

  const AdminEmail := "admin1@domain.com"
  const AdminPassword := "Admin123"

  const MissingMessage := "Please enter both User ID and Password"
  const DeniedMessage := "Invalid credentials. Access denied."

  /** The object handed to `onLoginSuccess`. */
  datatype AdminProfile = AdminProfile(id: string, userId: string, name: string, email: string, role: string)

  datatype Decision =
    | MissingFields
    | Granted(profile: AdminProfile)
    | Denied

  /** The credential decision of `handleSubmit`: an empty field first, then
      the one accepted pair, then refusal. */
  function Decide(userId: string, password: string): (d: Decision)
    ensures d.MissingFields? <==> userId == "" || password == ""
    ensures d.Granted? <==> userId == AdminEmail && password == AdminPassword
    ensures d.Granted? ==> d.profile.role == "admin" && d.profile.userId == userId
  {
    if userId == "" || password == "" then MissingFields
    else if userId == AdminEmail && password == AdminPassword then
      Granted(AdminProfile("admin_001", userId, "Administrator", AdminEmail, "admin"))
    else Denied
  }

  /** Exactly one pair is ever accepted: any other non-empty user id or
      password is denied. */
  lemma OnlyOnePairGranted(userId: string, password: string)
    requires userId != "" && password != ""
    ensures Decide(userId, password) == Denied <==> userId != AdminEmail || password != AdminPassword
  {
  }

  class AdminLoginForm {
    var userId: string
    var password: string
    var error: string
    var loading: bool

    constructor ()
      ensures userId == "" && password == "" && error == "" && !loading
    {
      userId := "";
      password := "";
      error := "";
      loading := false;
    }

    /** `handleSubmit`: the error is cleared and `loading` set, then each
        branch sets its message and clears `loading` again; the granted
        profile is returned for `onLoginSuccess`. */
    method Submit() returns (granted: Decision)
      modifies this
      ensures granted == Decide(userId, password)
      ensures !loading
      ensures granted.MissingFields? ==> error == MissingMessage
      ensures granted.Granted? ==> error == ""
      ensures granted.Denied? ==> error == DeniedMessage
      ensures userId == old(userId) && password == old(password)
    {
      error := "";
      loading := true;
      if userId == "" || password == "" {
        error := MissingMessage;
        loading := false;
        return MissingFields;
      }
      if userId == AdminEmail && password == AdminPassword {
        granted := Granted(AdminProfile("admin_001", userId, "Administrator", AdminEmail, "admin"));
        loading := false;
        return;
      } else {
        error := DeniedMessage;
        loading := false;
        return Denied;
      }
    }
  }
}
