/** The registration form (`Register`): the two checks its `handleSubmit` runs
    before it posts the registration, and the error, loading and success state
    around them. */
module RegisterForm {
  import opened Wrappers
  import UserModel
  import UserController

  /** The form's state, every field a string and the optional ones `''` by default. */
  datatype RegisterFormData = RegisterFormData(
    username: string,
    email: string,
    password: string,
    confirmPassword: string,
    fullName: string,
    businessName: string,
    businessType: string,
    phone: string,
    address: string)

  /** The state the form opens with. */
  const InitialRegisterForm := RegisterFormData("", "", "", "", "", "", "", "", "")

  const PASSWORD_MISMATCH := "Password tidak cocok"
  const PASSWORD_TOO_SHORT := "Password minimal 6 karakter"
  const REGISTRATION_FAILED := "Registrasi gagal"

  /** How the request ends: created, or refused with the server's `error` text
      when the response carries one. */
  datatype Reply = Created | Refused(serverError: Option<string>)

  /** Both checks of `handleSubmit` pass: the confirmation matches and the
      password has at least six characters. */
  predicate PasswordChecksPass(d: RegisterFormData)
  {
    d.password == d.confirmPassword && |d.password| >= 6
  }

  /** The body posted to `register`: every field but the confirmation, the
      optional ones sent as the strings they hold. */
  function Payload(d: RegisterFormData): (r: UserController.Registration)
    ensures r.username == d.username && r.email == d.email && r.password == d.password
    ensures r.fullName == d.fullName
    ensures r.businessName == Some(d.businessName) && r.businessType == Some(d.businessType)
    ensures r.phone == Some(d.phone) && r.address == Some(d.address)
  {
    UserController.Registration(d.username, d.email, d.password, d.fullName, Some(d.businessName),
                                Some(d.businessType), Some(d.phone), Some(d.address))
  }

  /** The message shown when the server refuses: its `error` text, or the
      generic one when there is none or it is empty. */
  function RefusalMessage(serverError: Option<string>): (m: string)
    ensures serverError.Some? && serverError.value != "" ==> m == serverError.value
    ensures serverError.None? || serverError.value == "" ==> m == REGISTRATION_FAILED
  {
    if serverError.Some? && serverError.value != "" then serverError.value else REGISTRATION_FAILED
  }

  /** The form's own password rule is weaker than the `User` model's: six letters
      pass the form and are refused by the model. */
  lemma FormPasswordRuleWeakerThanModel(d: RegisterFormData)
    requires d.password == "abcdef" && d.confirmPassword == "abcdef"
    ensures PasswordChecksPass(d)
    ensures !UserModel.PasswordValid(d.password)
  {
  }

  /** A form sent with its phone left empty is refused by the model's validators,
      because the empty string reaches the phone pattern instead of `null`. */
  lemma EmptyPhoneRefusedOnRegister(d: RegisterFormData, isEmail: string -> bool)
    requires d.phone == ""
    ensures !UserController.RegistrationValid(Payload(d), isEmail)
  {
  }

  /** The page: the form, the error line, and the loading and success flags. */
  class RegisterPage {
    var formData: RegisterFormData
    var error: string
    var loading: bool
    var success: bool

    constructor ()
      ensures formData == InitialRegisterForm && error == "" && !loading && !success
    {
      formData := InitialRegisterForm;
      error := "";
      loading := false;
      success := false;
    }

    /** `handleSubmit`: the error is cleared; a mismatched confirmation is reported
        first, then a password under six characters, and neither sends anything;
        otherwise the payload is sent and `reply` decides between success and the
        server's message. Loading is off again on every path. */
    method HandleSubmit(reply: Reply) returns (request: Option<UserController.Registration>)
      modifies this
      ensures request.Some? <==> PasswordChecksPass(formData)
      ensures request.Some? ==> request.value == Payload(formData)
      ensures formData.password != formData.confirmPassword ==> error == PASSWORD_MISMATCH
      ensures formData.password == formData.confirmPassword && |formData.password| < 6 ==>
                error == PASSWORD_TOO_SHORT
      ensures request.Some? ==>
                error == (if reply.Created? then "" else RefusalMessage(reply.serverError))
      ensures success == (old(success) || (request.Some? && reply.Created?))
      ensures formData == old(formData) && !loading
    {
      error := "";
      loading := true;
      if formData.password != formData.confirmPassword {
        error := PASSWORD_MISMATCH;
        loading := false;
        request := None;
        return;
      }
      if |formData.password| < 6 {
        error := PASSWORD_TOO_SHORT;
        loading := false;
        request := None;
        return;
      }
      request := Some(Payload(formData));
      if reply.Created? {
        success := true;
      } else {
        error := RefusalMessage(reply.serverError);
      }
      loading := false;
    }
  }
}
