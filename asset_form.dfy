/** The asset form's `validateForm`: the checks the browser runs on the asset form
    before it posts the asset, each failing check recording one message under its
    field's key, a later message on the same key replacing an earlier one. */
module AssetForm {
  import opened Wrappers
  import opened Text
  import opened FormErrors

  /** A numeric text input. `Empty` is the empty string, which is falsy; `Entered(v)`
      is any other text, `v` being what `parseFloat` (or `parseInt`) makes of it:
      `None` when that is `NaN`. */
  datatype NumberInput<T> = Empty | Entered(parsed: Option<T>)

  /** The form's state. `residual` is `parseFloat` of the residual-value input, which
      is only ever parsed, never checked for truthiness. */
  datatype FormData = FormData(
    assetName: string,
    category: string,
    acquisitionDate: string,
    acquisitionCost: NumberInput<real>,
    usefulLife: NumberInput<int>,
    depreciationMethod: string,
    residual: Option<real>,
    status: string)

  /** The keys `validateForm` records messages under: `asset_name`, `category`,
      `acquisition_date`, `acquisition_cost`, `useful_life` and `residual_value`. */
  datatype Field = AssetNameField | CategoryField | AcquisitionDateField | AcquisitionCostField
                 | UsefulLifeField | ResidualValueField

  /** The state the form opens with: straight-line, a residual value of `'0'`, active. */
  const InitialForm := FormData("", "", "", Empty, Empty, "straight-line", Some(0.0), "active")

  const NAME_REQUIRED := "Nama aset harus diisi"
  const CATEGORY_REQUIRED := "Kategori harus dipilih"
  const DATE_REQUIRED := "Tanggal perolehan harus diisi"
  const COST_NOT_POSITIVE := "Nilai perolehan harus lebih dari 0"
  const LIFE_NOT_POSITIVE := "Masa manfaat harus lebih dari 0"
  const RESIDUAL_NEGATIVE := "Nilai residu tidak boleh negatif"
  const RESIDUAL_TOO_LARGE := "Nilai residu harus lebih kecil dari nilai perolehan"

  /** `parseFloat(acquisition_cost)`: `NaN` (here `None`) for the empty string too. */
  function CostValue(f: FormData): Option<real>
  {
    if f.acquisitionCost.Entered? then f.acquisitionCost.parsed else None
  }

  /** `parseFloat(residual_value) < 0`: false when the residual value is `NaN`. */
  predicate ResidualNegative(f: FormData)
  {
    f.residual.Some? && f.residual.value < 0.0
  }

  /** `parseFloat(residual_value) >= parseFloat(acquisition_cost)`: false when either
      side is `NaN`. */
  predicate ResidualTooLarge(f: FormData)
  {
    f.residual.Some? && CostValue(f).Some? && f.residual.value >= CostValue(f).value
  }

  /** `!acquisition_cost || parseFloat(acquisition_cost) <= 0` */
  predicate CostRejected(f: FormData)
  {
    f.acquisitionCost.Empty? || (f.acquisitionCost.parsed.Some? && f.acquisitionCost.parsed.value <= 0.0)
  }

  /** `!useful_life || parseInt(useful_life) <= 0` */
  predicate LifeRejected(f: FormData)
  {
    f.usefulLife.Empty? || (f.usefulLife.parsed.Some? && f.usefulLife.parsed.value <= 0)
  }

  /** What the form accepts, field by field: a name with something other than white
      space, a category and a date, a cost and a useful life that are given and not
      parsed to a number at or below zero, and a residual value that is not parsed to
      a negative number or to one at or above the cost. */
  predicate Acceptable(f: FormData)
  {
    && !Blank(f.assetName)
    && f.category != ""
    && f.acquisitionDate != ""
    && f.acquisitionCost.Entered? && (f.acquisitionCost.parsed.Some? ==> f.acquisitionCost.parsed.value > 0.0)
    && f.usefulLife.Entered? && (f.usefulLife.parsed.Some? ==> f.usefulLife.parsed.value > 0)
    && (f.residual.Some? ==> f.residual.value >= 0.0)
    && (f.residual.Some? && CostValue(f).Some? ==> f.residual.value < CostValue(f).value)
  }

  /** The three required-text checks, the first part of `validateForm`. */
  method CheckRequiredText(f: FormData) returns (errors: map<Field, string>)
    ensures AssetNameField in errors <==> Trim(f.assetName) == ""
    ensures CategoryField in errors <==> f.category == ""
    ensures AcquisitionDateField in errors <==> f.acquisitionDate == ""
    ensures forall k :: k in errors ==> k == AssetNameField || k == CategoryField || k == AcquisitionDateField
    ensures AssetNameField in errors ==> errors[AssetNameField] == NAME_REQUIRED
    ensures CategoryField in errors ==> errors[CategoryField] == CATEGORY_REQUIRED
    ensures AcquisitionDateField in errors ==> errors[AcquisitionDateField] == DATE_REQUIRED
  {
    errors := map[];
    if Trim(f.assetName) == "" {
      errors := errors[AssetNameField := NAME_REQUIRED];
    }
    if f.category == "" {
      errors := errors[CategoryField := CATEGORY_REQUIRED];
    }
    if f.acquisitionDate == "" {
      errors := errors[AcquisitionDateField := DATE_REQUIRED];
    }
  }

  /** The numeric checks, the second part of `validateForm`, adding their messages to
      those already recorded. */
  method CheckNumbers(f: FormData, recorded: map<Field, string>) returns (errors: map<Field, string>)
    requires forall k :: k in recorded ==> k == AssetNameField || k == CategoryField || k == AcquisitionDateField
    ensures AcquisitionCostField in errors <==> CostRejected(f)
    ensures UsefulLifeField in errors <==> LifeRejected(f)
    ensures ResidualValueField in errors <==> ResidualNegative(f) || ResidualTooLarge(f)
    ensures forall k :: k in recorded ==> k in errors && errors[k] == recorded[k]
    ensures forall k :: k in errors && k !in recorded ==>
              k == AcquisitionCostField || k == UsefulLifeField || k == ResidualValueField
    ensures AcquisitionCostField in errors ==> errors[AcquisitionCostField] == COST_NOT_POSITIVE
    ensures UsefulLifeField in errors ==> errors[UsefulLifeField] == LIFE_NOT_POSITIVE
    ensures ResidualValueField in errors ==>
              errors[ResidualValueField] == if ResidualTooLarge(f) then RESIDUAL_TOO_LARGE else RESIDUAL_NEGATIVE
  {
    errors := recorded;
    if CostRejected(f) {
      errors := errors[AcquisitionCostField := COST_NOT_POSITIVE];
    }
    if LifeRejected(f) {
      errors := errors[UsefulLifeField := LIFE_NOT_POSITIVE];
    }
    if ResidualNegative(f) {
      errors := errors[ResidualValueField := RESIDUAL_NEGATIVE];
    }
    if ResidualTooLarge(f) {
      errors := errors[ResidualValueField := RESIDUAL_TOO_LARGE];
    }
  }

  /** `validateForm`: one message per failing field, the "smaller than the cost"
      message replacing the "negative" one when both residual checks fail, and the
      form valid exactly when no message was recorded. */
  method ValidateForm(f: FormData) returns (errors: map<Field, string>, valid: bool)
    ensures AssetNameField in errors <==> Blank(f.assetName)
    ensures CategoryField in errors <==> f.category == ""
    ensures AcquisitionDateField in errors <==> f.acquisitionDate == ""
    ensures AcquisitionCostField in errors <==> CostRejected(f)
    ensures UsefulLifeField in errors <==> LifeRejected(f)
    ensures ResidualValueField in errors <==> ResidualNegative(f) || ResidualTooLarge(f)
    ensures AssetNameField in errors ==> errors[AssetNameField] == NAME_REQUIRED
    ensures CategoryField in errors ==> errors[CategoryField] == CATEGORY_REQUIRED
    ensures AcquisitionDateField in errors ==> errors[AcquisitionDateField] == DATE_REQUIRED
    ensures AcquisitionCostField in errors ==> errors[AcquisitionCostField] == COST_NOT_POSITIVE
    ensures UsefulLifeField in errors ==> errors[UsefulLifeField] == LIFE_NOT_POSITIVE
    ensures ResidualValueField in errors ==>
              errors[ResidualValueField] == if ResidualTooLarge(f) then RESIDUAL_TOO_LARGE else RESIDUAL_NEGATIVE
    ensures valid <==> errors == map[]
    ensures valid <==> Acceptable(f)
  {
    var text := CheckRequiredText(f);
    TrimEmptyIffBlank(f.assetName);
    errors := CheckNumbers(f, text);
    valid := |errors| == 0;
    NoKeysIffEmpty(errors);
    NoErrorsIffAcceptable(f, errors);
  }

  /** No field has a message exactly when the form is acceptable. */
  lemma NoErrorsIffAcceptable(f: FormData, errors: map<Field, string>)
    requires AssetNameField in errors <==> Blank(f.assetName)
    requires CategoryField in errors <==> f.category == ""
    requires AcquisitionDateField in errors <==> f.acquisitionDate == ""
    requires AcquisitionCostField in errors <==> CostRejected(f)
    requires UsefulLifeField in errors <==> LifeRejected(f)
    requires ResidualValueField in errors <==> ResidualNegative(f) || ResidualTooLarge(f)
    ensures errors == map[] <==> Acceptable(f)
  {
    if errors != map[] {
      var k :| k in errors;
      match k
      case AssetNameField =>
      case CategoryField =>
      case AcquisitionDateField =>
      case AcquisitionCostField =>
      case UsefulLifeField =>
      case ResidualValueField =>
    }
  }

  /** For inputs that all parse as numbers, the form accepts exactly what the
      depreciation engine relies on: a useful life of at least one year, a positive
      cost and a residual value in `[0, cost)` (with a name, a category and a date). */
  lemma AcceptedNumbers(f: FormData)
    requires f.acquisitionCost.Entered? && f.acquisitionCost.parsed.Some?
    requires f.usefulLife.Entered? && f.usefulLife.parsed.Some?
    requires f.residual.Some?
    ensures Acceptable(f) <==>
      && !Blank(f.assetName) && f.category != "" && f.acquisitionDate != ""
      && f.usefulLife.parsed.value >= 1
      && f.acquisitionCost.parsed.value > 0.0
      && 0.0 <= f.residual.value < f.acquisitionCost.parsed.value
  {
  }

  /** Text that does not parse as a number passes the cost check and both residual
      checks, because every comparison with `NaN` is false: an unparsable cost, and an
      empty or unparsable residual value, are accepted. */
  lemma UnparsableNumbersPass(name: string, category: string, date: string)
    requires !Blank(name) && category != "" && date != ""
    ensures Acceptable(FormData(name, category, date, Entered(None), Entered(Some(1)), "straight-line", Some(0.0), "active"))
    ensures Acceptable(FormData(name, category, date, Entered(Some(100.0)), Entered(Some(1)), "straight-line", None, "active"))
  {
  }

  /** The form as it opens is not yet acceptable: the name, category, date, cost and
      useful life are all missing, while its residual value of zero passes. */
  lemma InitialFormRejected()
    ensures !Acceptable(InitialForm)
    ensures !ResidualNegative(InitialForm) && !ResidualTooLarge(InitialForm)
    ensures InitialForm.depreciationMethod == "straight-line" && InitialForm.status == "active"
  {
  }
}
