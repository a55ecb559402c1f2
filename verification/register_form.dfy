/** The registration form shared by frontend/src/VoterLogin.jsx and
    frontend/src/VoterAuth.jsx: its six fields, the input sanitisers that
    keep only digits and cut the value to length, and the ordered checks run
    before the form is sent. */
module RegisterForm {
  import opened Wrappers
  import opened Text
  import UserSchema

  datatype RegisterData = RegisterData(
    aadhaar: string,
    name: string,
    phone: string,
    email: string,
    password: string,
    confirmPassword: string)

  /** The form's initial and reset state: every field empty. */
  const EmptyForm := RegisterData("", "", "", "", "", "")

  /** The `name` attributes of the form's inputs. */
  datatype Field = AadhaarField | NameField | PhoneField | EmailField | PasswordField | ConfirmField

  function Get(d: RegisterData, f: Field): string {
    match f
    case AadhaarField => d.aadhaar
    case NameField => d.name
    case PhoneField => d.phone
    case EmailField => d.email
    case PasswordField => d.password
    case ConfirmField => d.confirmPassword
  }

  /** `{ ...prev, [name]: value }` */
  function Set(d: RegisterData, f: Field, v: string): (r: RegisterData)
    ensures Get(r, f) == v
    ensures forall g :: g != f ==> Get(r, g) == Get(d, g)
  {
    match f
    case AadhaarField => d.(aadhaar := v)
    case NameField => d.(name := v)
    case PhoneField => d.(phone := v)
    case EmailField => d.(email := v)
    case PasswordField => d.(password := v)
    case ConfirmField => d.(confirmPassword := v)
  }

  /** `value.replace(/\D/g, "").slice(0, n)`: the first `n` digits of the
      value. */
  function SanitizeDigits(v: string, n: nat): (r: string)
    ensures AllDigits(r) && |r| <= n
    ensures r <= DigitsOnly(v)
    ensures |r| == if |DigitsOnly(v)| < n then |DigitsOnly(v)| else n
  {
    Take(DigitsOnly(v), n)
  }

  /** Sanitising an already sanitised value changes nothing, and a value of
      at most `n` digits is kept as typed. */
  lemma SanitizeIdempotent(v: string, n: nat)
    ensures SanitizeDigits(SanitizeDigits(v, n), n) == SanitizeDigits(v, n)
    ensures AllDigits(v) && |v| <= n ==> SanitizeDigits(v, n) == v
  {
  }

  /** The register `onChange` handler: the aadhaar keeps at most 12 digits,
      the phone at most 10, every other field is stored as typed. */
  function RegisterChange(d: RegisterData, f: Field, v: string): RegisterData {
    match f
    case AadhaarField => Set(d, f, SanitizeDigits(v, 12))
    case PhoneField => Set(d, f, SanitizeDigits(v, 10))
    case _ => Set(d, f, v)
  }

  /** Only the named field changes; the aadhaar and phone fields only ever
      hold digits, at most 12 and 10 of them, and typing the stored value
      again changes nothing. */
  lemma RegisterChangeEffect(d: RegisterData, f: Field, v: string)
    ensures var r := RegisterChange(d, f, v);
      && (forall g :: g != f ==> Get(r, g) == Get(d, g))
      && (f == AadhaarField ==> AllDigits(r.aadhaar) && |r.aadhaar| <= 12 && r.aadhaar <= DigitsOnly(v))
      && (f == PhoneField ==> AllDigits(r.phone) && |r.phone| <= 10 && r.phone <= DigitsOnly(v))
      && (f != AadhaarField && f != PhoneField ==> Get(r, f) == v)
      && RegisterChange(r, f, Get(r, f)) == r
  {
    var r := RegisterChange(d, f, v);
    SanitizeIdempotent(v, 12);
    SanitizeIdempotent(v, 10);
    match f
    case AadhaarField =>
      assert Set(r, f, Get(r, f)) == r;
    case PhoneField =>
      assert Set(r, f, Get(r, f)) == r;
    case _ =>
      assert Set(r, f, Get(r, f)) == r;
  }

  /** `/^\d{n}$/` */
  predicate DigitsOfLength(s: string, n: nat) {
    |s| == n && AllDigits(s)
  }

  /** `/[A-Z]/` */
  predicate HasUpper(s: string) {
    exists i :: 0 <= i < |s| && IsUpper(s[i])
  }

  /** The characters of `/[!@#$%^&*(),.?":{}|<>]/`. */
  const Symbols: string := "!@#$%^&*(),.?\":{}|<>"

  predicate HasSymbol(s: string) {
    exists i :: 0 <= i < |s| && s[i] in Symbols
  }

  const AadhaarMessage := "Aadhaar number must be exactly 12 digits."
  const PhoneMessage := "Phone number must be exactly 10 digits."
  const LengthMessage := "Password must be at least 8 characters long."
  const UpperMessage := "Password must contain at least 1 uppercase letter."
  const SymbolMessage := "Password must contain at least 1 symbol."
  const MismatchMessage := "Passwords do not match!"
  const FaceMessage := "Please capture your face before registering."

  /** The checks of the register submit handler, in order; the first that
      fails gives the message, and `None` means the form is sent. */
  function FirstRegisterError(d: RegisterData, faceCaptured: bool): Option<string> {
    if !DigitsOfLength(d.aadhaar, 12) then Some(AadhaarMessage)
    else if !DigitsOfLength(d.phone, 10) then Some(PhoneMessage)
    else if JsLength(d.password) < 8 then Some(LengthMessage)
    else if !HasUpper(d.password) then Some(UpperMessage)
    else if !HasSymbol(d.password) then Some(SymbolMessage)
    else if d.password != d.confirmPassword then Some(MismatchMessage)
    else if !faceCaptured then Some(FaceMessage)
    else None
  }

  /** The form is sent exactly when every check passes. */
  predicate FormAcceptable(d: RegisterData, faceCaptured: bool) {
    && DigitsOfLength(d.aadhaar, 12) && DigitsOfLength(d.phone, 10)
    && JsLength(d.password) >= 8 && HasUpper(d.password) && HasSymbol(d.password)
    && d.password == d.confirmPassword && faceCaptured
  }

  lemma RegisterChecks(d: RegisterData, faceCaptured: bool)
    ensures FirstRegisterError(d, faceCaptured).None? <==> FormAcceptable(d, faceCaptured)
    ensures FirstRegisterError(d, faceCaptured) == Some(AadhaarMessage) <==> !DigitsOfLength(d.aadhaar, 12)
    ensures FirstRegisterError(d, faceCaptured) == Some(PhoneMessage) <==>
              DigitsOfLength(d.aadhaar, 12) && !DigitsOfLength(d.phone, 10)
    ensures FirstRegisterError(d, faceCaptured) == Some(LengthMessage) <==>
              DigitsOfLength(d.aadhaar, 12) && DigitsOfLength(d.phone, 10) && JsLength(d.password) < 8
    ensures FirstRegisterError(d, faceCaptured) == Some(UpperMessage) <==>
              && DigitsOfLength(d.aadhaar, 12) && DigitsOfLength(d.phone, 10) && JsLength(d.password) >= 8
              && !HasUpper(d.password)
    ensures FirstRegisterError(d, faceCaptured) == Some(SymbolMessage) <==>
              && DigitsOfLength(d.aadhaar, 12) && DigitsOfLength(d.phone, 10) && JsLength(d.password) >= 8
              && HasUpper(d.password) && !HasSymbol(d.password)
    ensures FirstRegisterError(d, faceCaptured) == Some(MismatchMessage) <==>
              && DigitsOfLength(d.aadhaar, 12) && DigitsOfLength(d.phone, 10) && JsLength(d.password) >= 8
              && HasUpper(d.password) && HasSymbol(d.password) && d.password != d.confirmPassword
    ensures FirstRegisterError(d, faceCaptured) == Some(FaceMessage) <==>
              && DigitsOfLength(d.aadhaar, 12) && DigitsOfLength(d.phone, 10) && JsLength(d.password) >= 8
              && HasUpper(d.password) && HasSymbol(d.password) && d.password == d.confirmPassword
              && !faceCaptured
  {
  }

  /** The length check counts UTF-16 code units: three letters and
      symbols followed by three emoji are six characters but nine code
      units, so such a password passes the length check. */
  lemma LengthCountsCodeUnits()
    ensures var p := "Ab!\U{1F600}\U{1F600}\U{1F600}";
      |p| == 6 && JsLength(p) == 9
  {
    var e := '\U{1F600}';
    var p := "Ab!\U{1F600}\U{1F600}\U{1F600}";
    JsLengthBmp("Ab!");
    JsLengthSnoc("Ab!", e);
    JsLengthSnoc("Ab!" + [e], e);
    JsLengthSnoc("Ab!" + [e] + [e], e);
    assert p == "Ab!" + [e] + [e] + [e];
  }

  /** The empty form is always refused, on its aadhaar. */
  lemma EmptyFormRefused(faceCaptured: bool)
    ensures FirstRegisterError(EmptyForm, faceCaptured) == Some(AadhaarMessage)
  {
  }

  /** A sanitised aadhaar of 12 digits passes its check, so typing any value
      with at least 12 digits into the aadhaar input gets the form past the
      first check. */
  lemma TwelveDigitsPassAadhaarCheck(d: RegisterData, v: string)
    requires |DigitsOnly(v)| >= 12
    ensures DigitsOfLength(RegisterChange(d, AadhaarField, v).aadhaar, 12)
  {
  }

  /** The phone check accepts any ten digits, including numbers the schema's
      phone validator refuses (a first digit below 6), so such a form is sent
      and then rejected by the server. */
  lemma PhoneCheckLooserThanSchema()
    ensures DigitsOfLength("0123456789", 10) && !UserSchema.ValidPhone("0123456789")
  {
  }
}
