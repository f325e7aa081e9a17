/** The issue-report form (`ReportIssue`): its `validateForm`, its initial state,
    and the submit handler that posts a valid form and then resets it. */
module IssueReportForm {
  import opened Wrappers
  import opened Text
  import opened FormErrors

  /** The form's state. */
  datatype IssueForm = IssueForm(subject: string, category: string, description: string, priority: string)

  /** The state the form opens with, and returns to after a report is sent. */
  const InitialIssue := IssueForm("", "bug", "", "medium")

  /** The keys `validateForm` records messages under. */
  datatype Field = SubjectField | DescriptionField

  const SUBJECT_REQUIRED := "Subjek harus diisi"
  const DESCRIPTION_REQUIRED := "Deskripsi harus diisi"
  const DESCRIPTION_TOO_SHORT := "Deskripsi minimal 10 karakter"

  /** What the form accepts: a subject and a description with something other than
      white space, the description at least ten characters long counted before
      trimming. Category and priority are not checked. */
  predicate Acceptable(f: IssueForm)
  {
    !Blank(f.subject) && !Blank(f.description) && |f.description| >= 10
  }

  /** The subject's check: "required" for a blank subject. */
  method CheckSubject(subject: string) returns (r: Option<string>)
    ensures r.None? <==> !Blank(subject)
    ensures r.Some? ==> r.value == SUBJECT_REQUIRED
  {
    TrimEmptyIffBlank(subject);
    if Trim(subject) == "" {
      r := Some(SUBJECT_REQUIRED);
    } else {
      r := None;
    }
  }

  /** The description's `if`/`else if` chain: "required" for a blank description,
      else "too short" below ten characters; never both. */
  method CheckDescription(description: string) returns (r: Option<string>)
    ensures r.None? <==> !Blank(description) && |description| >= 10
    ensures r.Some? ==> r.value == if Blank(description) then DESCRIPTION_REQUIRED else DESCRIPTION_TOO_SHORT
  {
    TrimEmptyIffBlank(description);
    if Trim(description) == "" {
      r := Some(DESCRIPTION_REQUIRED);
    } else if |description| < 10 {
      r := Some(DESCRIPTION_TOO_SHORT);
    } else {
      r := None;
    }
  }

  /** `validateForm`: one message for a blank subject and at most one for the
      description; valid exactly when no message was recorded. */
  method ValidateForm(f: IssueForm) returns (errors: map<Field, string>, valid: bool)
    ensures SubjectField in errors <==> Blank(f.subject)
    ensures DescriptionField in errors <==> Blank(f.description) || |f.description| < 10
    ensures SubjectField in errors ==> errors[SubjectField] == SUBJECT_REQUIRED
    ensures DescriptionField in errors ==>
              errors[DescriptionField] == if Blank(f.description) then DESCRIPTION_REQUIRED else DESCRIPTION_TOO_SHORT
    ensures valid <==> errors == map[]
    ensures valid <==> Acceptable(f)
  {
    errors := map[];
    var subject := CheckSubject(f.subject);
    if subject.Some? {
      errors := errors[SubjectField := subject.value];
    }
    var description := CheckDescription(f.description);
    if description.Some? {
      errors := errors[DescriptionField := description.value];
    }
    valid := |errors| == 0;
    NoKeysIffEmpty(errors);
    assert errors == map[] <==> SubjectField !in errors && DescriptionField !in errors;
  }

  /** The form as it opens cannot be sent. */
  lemma InitialIssueRefused()
    ensures !Acceptable(InitialIssue)
  {
    assert |InitialIssue.description| == 0;
  }

  /** Category and priority never affect the outcome. */
  lemma CategoryAndPriorityUnchecked(f: IssueForm, category: string, priority: string)
    ensures Acceptable(f.(category := category, priority := priority)) <==> Acceptable(f)
  {
  }

  /** The page: the form, the recorded messages and the loading flag. */
  class IssueReportPage {
    var formData: IssueForm
    var errors: map<Field, string>
    var loading: bool

    constructor ()
      ensures formData == InitialIssue && errors == map[] && !loading
    {
      formData := InitialIssue;
      errors := map[];
      loading := false;
    }

    /** `handleSubmit`: an invalid form records its messages and sends nothing; a
        valid one is sent as it stands and, when the request succeeds
        (`delivered`), the form goes back to its initial state. */
    method HandleSubmit(delivered: bool) returns (sent: Option<IssueForm>)
      modifies this
      ensures sent.Some? <==> Acceptable(old(formData))
      ensures errors == map[] <==> Acceptable(old(formData))
      ensures SubjectField in errors <==> Blank(old(formData).subject)
      ensures DescriptionField in errors <==> Blank(old(formData).description) || |old(formData).description| < 10
      ensures SubjectField in errors ==> errors[SubjectField] == SUBJECT_REQUIRED
      ensures DescriptionField in errors ==>
                errors[DescriptionField] ==
                  if Blank(old(formData).description) then DESCRIPTION_REQUIRED else DESCRIPTION_TOO_SHORT
      ensures sent.Some? ==> sent.value == old(formData)
      ensures formData == if sent.Some? && delivered then InitialIssue else old(formData)
      ensures loading == (sent.None? && old(loading))
    {
      var valid;
      errors, valid := ValidateForm(formData);
      if !valid {
        sent := None;
        return;
      }
      loading := true;
      sent := Some(formData);
      if delivered {
        formData := InitialIssue;
      }
      loading := false;
    }
  }
}
