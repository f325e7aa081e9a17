/** The business-profile form (`ProfileUsaha`): its `validateForm`, which checks
    the business name and the phone number before the profile is sent. */
module BusinessProfileForm {
  import opened Wrappers
  import opened Text
  import opened FormErrors
  import UserModel

  /** The form's state: the four strings it edits. */
  datatype BusinessForm = BusinessForm(businessName: string, businessType: string, phone: string, address: string)

  /** The keys `validateForm` records messages under: `business_name` and `phone`. */
  datatype Field = BusinessNameField | PhoneField

  const BUSINESS_NAME_REQUIRED := "Nama usaha harus diisi"
  const PHONE_INVALID := "Format nomor telepon tidak valid"

  /** What the form accepts: a business name with something other than white
      space, and a phone number that is empty or matches the pattern the `User`
      model uses. The business type and the address are not checked. */
  predicate Acceptable(f: BusinessForm)
  {
    !Blank(f.businessName) && (f.phone == "" || UserModel.PhoneFormat(f.phone))
  }

  /** `validateForm`: a message for a blank business name and one for a non-empty
      phone number that does not match; valid exactly when neither was recorded. */
  method ValidateForm(f: BusinessForm) returns (errors: map<Field, string>, valid: bool)
    ensures BusinessNameField in errors <==> Blank(f.businessName)
    ensures PhoneField in errors <==> f.phone != "" && !UserModel.PhoneFormat(f.phone)
    ensures BusinessNameField in errors ==> errors[BusinessNameField] == BUSINESS_NAME_REQUIRED
    ensures PhoneField in errors ==> errors[PhoneField] == PHONE_INVALID
    ensures valid <==> errors == map[]
    ensures valid <==> Acceptable(f)
  {
    errors := map[];
    TrimEmptyIffBlank(f.businessName);
    if Trim(f.businessName) == "" {
      errors := errors[BusinessNameField := BUSINESS_NAME_REQUIRED];
    }
    if f.phone != "" && !UserModel.PhoneFormat(f.phone) {
      errors := errors[PhoneField := PHONE_INVALID];
    }
    valid := |errors| == 0;
    NoKeysIffEmpty(errors);
    assert errors == map[] <==> BusinessNameField !in errors && PhoneField !in errors;
  }

  /** A non-empty phone number passes the form exactly when it passes the `User`
      model's validator. */
  lemma PhoneRuleAgreesWithModel(f: BusinessForm)
    requires !Blank(f.businessName) && f.phone != ""
    ensures Acceptable(f) <==> UserModel.PhoneValid(Some(f.phone))
  {
  }

  /** The form lets an empty phone number through, but the form sends it as the
      empty string, which the `User` model's validator refuses whenever the stored
      phone is different and the field is therefore saved. */
  lemma EmptyPhonePassesFormOnly(f: BusinessForm)
    requires !Blank(f.businessName) && f.phone == ""
    ensures Acceptable(f)
    ensures !UserModel.PhoneValid(Some(f.phone))
  {
  }

  /** The national format the on-screen hint suggests, `08xxxxxxxxxx`, is refused:
      no number starting with `0` passes. */
  lemma HintedFormatRefused(f: BusinessForm)
    requires |f.phone| > 0 && f.phone[0] == '0'
    ensures !Acceptable(f)
  {
    UserModel.LeadingZeroRejected(f.phone);
  }

  /** The business type and the address never affect the outcome. */
  lemma TypeAndAddressUnchecked(f: BusinessForm, businessType: string, address: string)
    ensures Acceptable(f.(businessType := businessType, address := address)) <==> Acceptable(f)
  {
  }
}
