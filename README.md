# Fixed-asset depreciation and account handling, modelled in Dafny

This project models the core of a small bookkeeping application for fixed assets (Indonesian
UI, PSAK 16 / IAS 16 depreciation) and proves properties of it.

- **The depreciation engine** (`Asset.calculateDepreciation` and
  `Asset.getDepreciationSchedule`). It has two methods: straight-line and double-declining
  balance. Money is an exact `real`. Time is whole milliseconds, and a month is exactly
  2,630,016,000 ms (30.44 days). `Math.round(x * 100) / 100` is `Round2`, which rounds half
  up. The two calculations are methods with loops (`Depreciation.CalculateDepreciation`,
  `Depreciation.DepreciationSchedule`). Each is proved equal to a specification function,
  and the module `DepreciationFacts` proves what the engine promises about those functions:
  caps, running sums, monotone expenses, the early stop and rounding drift.
- **The asset controller**:
  - creation, with its required fields and defaults;
  - the partial-update rule;
  - the enrichment of listed assets with their current depreciation;
  - the report, with its filter, its running totals and its per-category dictionary;
  - the dashboard's per-category statistics.

  The asset table is a class holding a map from id to row. The report and dashboard folds
  are methods with loops, proved against fold functions whose consistency is proved.
- **The `User` model**: its field validators (username, Gmail address, password, phone
  pattern), its business-type enumeration with its default, the password hook and the token
  generators.
- **The account handlers**: `register`, `login`, `verifyEmail`, `requestPasswordReset`,
  `resetPassword` and `updateProfile`. They are methods of a class that holds the `users`
  table as a map. Every method keeps one invariant: each stored row passes its validators,
  holds a verification token exactly while it is unverified, and shares no username, email or
  live token with another row.
- **The browser-side validators**:
  - the asset form (`AsetForm`);
  - the business profile (`ProfileUsaha`);
  - the account profile (`ProfileAkun`);
  - the issue report (`ReportIssue`), with its submit handler and reset;
  - the two password checks of the registration form (`Register`), with its error, loading
    and success flags.

Several of the proved facts describe how the pieces fit together:

- The asset form accepts, for numeric input, exactly what the engine relies on: a life of at
  least one year, a positive cost, and a residual in `[0, cost)`. Unparsable numbers slip
  through, because comparisons with `NaN` are false.
- An empty phone number passes the business-profile form. But the form sends it as `''`
  rather than `null`, and the `User` model's phone pattern refuses `''`. The same holds for
  the registration form, which always sends a phone field.
- The national format `08…`, which the business-profile hint suggests, is refused by both
  the form and the model.
- The account-profile form's username rule (three characters, measured before trimming) is
  far weaker than the model's (6–50 lower-case letters). The registration form's password
  rule (six characters) is weaker than the model's (eight characters, with a letter and a
  digit).

Two points where the program's behaviour differs from what one might expect of it are
modelled as the code behaves:

- The straight-line snapshot has no lower clamp. Before the acquisition date the
  accumulated depreciation is negative and the book value exceeds the cost
  (`DepreciationFacts.StraightLineBeforeAcquisition`).
- A depreciation method that is neither `'straight-line'` nor `'declining-balance'` is not
  rejected by the engine. The snapshot is then (0, cost, 0) and the schedule is empty
  (`DepreciationFacts.UnrecognisedMethod`). Only the schema validator refuses such a row
  when it is saved.

Files:

- `wrappers.dfy`, `money.dfy`, `text.dfy` and `form_errors.dfy` hold the shared
  definitions.
- `depreciation.dfy` and `depreciation_facts.dfy` hold the engine.
- `grouping.dfy` and `asset_controller.dfy` hold the asset controller.
- `user_model.dfy` and `user_controller.dfy` hold the accounts.
- `asset_form.dfy`, `profile_usaha.dfy`, `profile_akun.dfy`, `report_issue.dfy` and
  `register_form.dfy` hold the forms.

## Model

| member | source | states |
|---|---|---|
| Money.Min | backend/models/asetModel.js:133 | `Math.min`: the result is at most both arguments and is one of them |
| Money.Round2 | backend/models/asetModel.js:159-161 | the result is a whole number of cents, within half a cent of the input (half rounds up) |
| Money.Round2OfCents | backend/models/asetModel.js:159-161 | an amount already in whole cents is unchanged by rounding |
| Money.Round2Idempotent | backend/models/asetModel.js:159-161 | rounding a rounded amount changes nothing |
| Money.Round2Monotone | backend/models/asetModel.js:159-161 | rounding preserves order |
| Money.Round2Between | backend/models/asetModel.js:159-161 | an amount between two cent amounts rounds to a value between them |
| Depreciation.MethodNamed | backend/models/asetModel.js:52-58 | the method is straight-line exactly for `'straight-line'`, declining exactly for `'declining-balance'`, and unrecognised for every other string |
| Depreciation.MonthsElapsed | backend/models/asetModel.js:121 | the month count `m` is the floor of elapsed ms / 2,630,016,000: `m` months fit in the elapsed time and `m + 1` do not (negative before acquisition) |
| Depreciation.WholeYears | backend/models/asetModel.js:141 | the declining loop's iteration count is the floor of the fractional years `months / 12` |
| Depreciation.ApplyDecliningYears | backend/models/asetModel.js:139-152 | the loop's book value and accumulated depreciation equal the year-by-year specification: each year removes `min(bv * rate, bv - residual)`, stopping once `bv <= residual` |
| Depreciation.CalculateDepreciation | backend/models/asetModel.js:119-163 | the returned snapshot is the rounded specification snapshot for the asset's method at the given instant |
| Depreciation.StraightLineRows | backend/models/asetModel.js:172-187 | the loop emits as many rows as the straight-line specification, row `i` being that entry with every field rounded |
| Depreciation.DecliningBalanceRows | backend/models/asetModel.js:188-209 | the loop with its two `break`s emits as many rows as the declining specification, row `i` being that entry rounded |
| Depreciation.DepreciationSchedule | backend/models/asetModel.js:166-213 | the schedule is the rounded specification schedule for the asset's method (empty for an unrecognised one) |
| DepreciationFacts.ElapsedBeforeAcquisition | backend/models/asetModel.js:121-122 | an instant before acquisition gives at most -1 months, negative years and at most -1 whole years |
| DepreciationFacts.ElapsedMonotone | backend/models/asetModel.js:121-122 | months, years and whole years never decrease as the clock advances |
| DepreciationFacts.StraightLineSnapshot | backend/models/asetModel.js:130-135 | annual × life = cost − residual (independent of the date); accumulated = min(annual × years, cost − residual) ≤ cost − residual; book value = cost − accumulated |
| DepreciationFacts.StraightLineSnapshotBounds | backend/models/asetModel.js:130-135 | on or after acquisition: 0 ≤ accumulated ≤ cost − residual and residual ≤ book value ≤ cost |
| DepreciationFacts.StraightLineBeforeAcquisition | backend/models/asetModel.js:130-135 | with no lower clamp, before acquisition the accumulated depreciation is negative and the book value exceeds the cost |
| DepreciationFacts.StraightLineMonotone | backend/models/asetModel.js:130-135 | accumulated depreciation never decreases and book value never increases over time |
| DepreciationFacts.CappedChargeMonotone | backend/models/asetModel.js:133 | the capped charge `min(annual × years, depreciable)` never decreases in the years |
| DepreciationFacts.StraightLineFullLife | backend/models/asetModel.js:133-134 | once the useful life has elapsed, accumulated = cost − residual and book value = residual |
| DepreciationFacts.DecliningChargeBounds | backend/models/asetModel.js:142-144 | a year's charge lies in [0, bv − residual] and is positive while bv > residual |
| DepreciationFacts.DecliningChargeMonotone | backend/models/asetModel.js:142-144 | a higher book value never gives a smaller charge |
| DepreciationFacts.DecliningYearsBounds | backend/models/asetModel.js:141-152 | after any number of years: residual ≤ bv ≤ starting bv, and bv + accumulated is conserved |
| DepreciationFacts.DecliningYearsMonotone | backend/models/asetModel.js:141-152 | more years never raise the book value |
| DepreciationFacts.DecliningYearsSettled | backend/models/asetModel.js:149-151 | once the book value has reached the residual, further years change nothing (the `break`) |
| DepreciationFacts.DecliningSnapshotBounds | backend/models/asetModel.js:136-154 | residual ≤ book value ≤ cost, 0 ≤ accumulated ≤ cost − residual, and book value + accumulated = cost |
| DepreciationFacts.DecliningBeforeFirstYear | backend/models/asetModel.js:141-155 | below one elapsed year (or before acquisition) no year is applied: the snapshot is (0, cost, cost × 2 / life) |
| DepreciationFacts.DecliningMonotone | backend/models/asetModel.js:136-154 | book value never increases and accumulated depreciation never decreases over time |
| DepreciationFacts.DecliningShortLifeSnapshot | backend/models/asetModel.js:138-155 | with a life of at most two years, after one year the book value is the residual and all is depreciated, yet the annual figure is residual × rate, above the (zero) remaining depreciable amount whenever the residual is positive |
| DepreciationFacts.UnrecognisedMethod | backend/models/asetModel.js:124-213 | an unrecognised method yields accumulated 0, book value = rounded cost, annual 0, and an empty schedule |
| DepreciationFacts.RawSnapshotBounds | backend/models/asetModel.js:119-156 | for a schema-valid asset with 0 ≤ residual ≤ cost, on or after acquisition, residual ≤ book value ≤ cost and 0 ≤ accumulated ≤ cost − residual |
| DepreciationFacts.CurrentSnapshotBounds | backend/models/asetModel.js:158-162 | the same bounds hold after rounding, when cost and residual value are whole cents |
| DepreciationFacts.ChainedRows | backend/models/asetModel.js:175-206 | in a chained schedule the years are consecutive, ending = beginning − expense, accumulated + ending is constant, and the last accumulated is the sum of the expenses |
| DepreciationFacts.StraightLineEntriesChained | backend/models/asetModel.js:175-186 | the straight-line entries are chained from the starting book value |
| DepreciationFacts.StraightLineEntriesShape | backend/models/asetModel.js:175-186 | when the remaining depreciable amount is n annual charges, there are n entries, each expensing exactly the annual charge, the last ending at the residual |
| DepreciationFacts.StraightLineSchedule | backend/models/asetModel.js:172-187 | exactly `useful_life` entries numbered from 1, each expense equal to the annual charge, chained from the cost, the last ending at the residual with everything depreciated |
| DepreciationFacts.DecliningEntriesChained | backend/models/asetModel.js:191-206 | declining entries are chained, at most one per remaining year, the first expensing the year's capped charge |
| DepreciationFacts.DecliningEntriesBounds | backend/models/asetModel.js:191-209 | every expense is positive and residual ≤ ending < beginning; all but the last end above the residual; nothing is emitted once bv ≤ residual; a schedule cut short ends at or below the residual |
| DepreciationFacts.DecliningEntriesNonIncreasing | backend/models/asetModel.js:191-206 | expenses never increase from year to year |
| DepreciationFacts.DecliningSchedule | backend/models/asetModel.js:188-209 | at most `useful_life` entries, chained from the cost, positive non-increasing expenses, stopping right after the first ending at or below the residual, empty when cost ≤ residual |
| DepreciationFacts.DecliningSingleRow | backend/models/asetModel.js:193-208 | when the first charge covers the whole depreciable amount, the schedule is the single row that expenses it |
| DepreciationFacts.DecliningShortLifeSchedule | backend/models/asetModel.js:188-209 | with a life of at most two years the schedule has one entry expensing cost − residual |
| DepreciationFacts.DecliningEntriesNoResidual | backend/models/asetModel.js:191-209 | with no residual and a rate below 1 every remaining year gets an entry and every ending stays above zero |
| DepreciationFacts.DecliningNoResidualSchedule | backend/models/asetModel.js:188-209 | with no residual and a life of at least three years the schedule has full length and ends above zero |
| DepreciationFacts.RoundedExpensesDrift | backend/models/asetModel.js:183-203 | rounding each row's expense moves their sum by at most half a cent per row |
| DepreciationFacts.ScheduleSumWithinRounding | backend/models/asetModel.js:180-206 | because each field is rounded on its own, the last rounded accumulated figure can differ from the sum of the rounded expenses, but by at most one cent per row |
| DepreciationFacts.StraightLineExampleSnapshot | backend/models/asetModel.js:130-135 | worked example: cost 120,000,000 over five years, after 24 months: 48,000,000 accumulated, 72,000,000 book value, 24,000,000 a year |
| DepreciationFacts.StraightLineExampleSchedule | backend/models/asetModel.js:172-187 | worked example: five rows, the last ending at zero |
| DepreciationFacts.DecliningExample | backend/models/asetModel.js:136-209 | worked example at 40 % a year: rows (120M, 48M, 48M, 72M) and (72M, 28.8M, 76.8M, 43.2M); after 24 months 76,800,000 accumulated and 17,280,000 a year |
| Grouping.GroupedPrefixStep | backend/controllers/asetController.js:274-287 | one `forEach` step (create the category's entry if absent, then add the asset) turns the grouping of a prefix into the grouping of the next prefix |
| Grouping.GroupedEntries | backend/controllers/asetController.js:273-287 | a category is a key exactly when some asset has it, and its entry is the count and the three sums over that category's assets |
| Grouping.GroupedSumsToTotals | backend/controllers/asetController.js:246-287 | the per-category entries add up to the grand totals, and the counts add up to the number of assets |
| AssetController.NewAssetRow | backend/controllers/asetController.js:91-114 | no row exactly when a required field is falsy; otherwise the name, category, date, cost and useful life are stored as sent, the stored book value = cost, accumulated 0, method as sent or straight-line, residual as sent or 0 when unparsable, status as sent or `'active'` |
| AssetController.DefaultsPassSchema | backend/controllers/asetController.js:104-114 | with only the required fields (positive cost, life ≥ 1, a listed category) the created row passes the schema and is straight-line |
| AssetController.NewAssetUndepreciated | backend/controllers/asetController.js:102-113 | at its acquisition instant a new asset is undepreciated: accumulated 0 and book value = cost |
| AssetController.ApplyUpdate | backend/controllers/asetController.js:156-166 | the id and stored accumulated depreciation are kept; the stored book value becomes the new cost exactly when a truthy cost is supplied |
| AssetController.UpdateFieldRule | backend/controllers/asetController.js:156-166 | field by field: a non-empty name, category, method or status replaces the stored one; a sent date or residual value replaces it, even a zero residual; a non-zero cost replaces both cost and stored book value; a non-zero useful life replaces it; every field not sent keeps its stored value |
| AssetController.UpdateWithNothingKeepsRow | backend/controllers/asetController.js:156-166 | a body supplying nothing leaves the row unchanged |
| AssetController.UpdateIdempotent | backend/controllers/asetController.js:156-166 | applying the same body twice gives the same row as applying it once |
| AssetController.UpdateZeroCostVersusZeroResidual | backend/controllers/asetController.js:159-165 | a cost of 0 is ignored (falsy) while a residual of 0 is stored |
| AssetController.LaterUpdateOverrides | backend/controllers/asetController.js:156-166 | a later body that supplies every field an earlier one did wipes out the earlier update |
| AssetController.AssetTable.constructor | backend/models/asetModel.js:13-17 | an empty table whose auto-increment starts at 1 |
| AssetController.AssetTable.CreateAsset | backend/controllers/asetController.js:76-133 | a missing required field answers 400 and stores nothing; otherwise the new row is stored under the next id and answered with its current depreciation when it passes the schema, and nothing is stored when it does not |
| AssetController.AssetTable.UpdateAsset | backend/controllers/asetController.js:136-182 | an unknown id answers 404; otherwise the updated row replaces the old one and is answered with its current depreciation when it passes the schema, and nothing changes when it does not |
| AssetController.EnrichAssets | backend/controllers/asetController.js:33-41 | one record per asset, in order, carrying the asset and its `calculateDepreciation` result |
| AssetController.Selected | backend/controllers/asetController.js:232-244 | an asset is listed exactly when it is stored and passes the report's filter |
| AssetController.ReportFilterRules | backend/controllers/asetController.js:232-242 | only active assets are reported, and the date range applies only when both ends are given |
| AssetController.ReportConsistent | backend/controllers/asetController.js:246-295 | the per-category counts sum to `total_assets`; each rounded summary total is the rounded sum of the unrounded per-category totals; each category's entry is the totals over its own assets |
| AssetController.DetailAssets | backend/controllers/asetController.js:246-270 | the detailed records are the enriched assets, and the running totals are the sums over them |
| AssetController.GroupByCategory | backend/controllers/asetController.js:273-287 | the dictionary built in place is the grouping of the detailed records by category |
| AssetController.GenerateReport | backend/controllers/asetController.js:228-299 | the report is the report of exactly the assets the filter selects |
| AssetController.ActiveRows | backend/controllers/asetController.js:309 | an asset is fetched for the dashboard exactly when it is active |
| AssetController.StatsOfGrouped | backend/controllers/asetController.js:318-331 | the dashboard's category statistics are the report's grouping cut down to the count and the book value |
| AssetController.DashboardCategoryStats | backend/controllers/asetController.js:318-331 | a category has statistics exactly when some active asset has it; its count is the number of such assets and its value the sum of their current book values |
| AssetController.DashboardStats | backend/controllers/asetController.js:307-331 | the totals and category statistics computed in place are those of the active assets |
| AssetForm.CheckRequiredText | frontend/src/components/AsetForm.js:80-90 | a name message exactly when the trimmed name is empty, and a category and a date message exactly when those are empty, with their texts |
| AssetForm.CheckNumbers | frontend/src/components/AsetForm.js:92-106 | a cost and a useful-life message exactly when missing or parsed at or below zero; a residual message exactly when it is negative or at least the cost, the "too large" text overwriting the "negative" one |
| AssetForm.ValidateForm | frontend/src/components/AsetForm.js:77-110 | one message per failing field, with its text; valid exactly when no message was recorded, exactly when the form is acceptable |
| AssetForm.NoErrorsIffAcceptable | frontend/src/components/AsetForm.js:108-109 | an empty message map is equivalent to every field check passing |
| AssetForm.AcceptedNumbers | frontend/src/components/AsetForm.js:92-106 | for parsed numbers the form accepts exactly a life ≥ 1, a cost > 0 and 0 ≤ residual < cost (with name, category and date), which is what the engine relies on |
| AssetForm.UnparsableNumbersPass | frontend/src/components/AsetForm.js:92-106 | an unparsable cost, or an empty or unparsable residual, passes every numeric check |
| AssetForm.InitialFormRejected | frontend/src/components/AsetForm.js:13-22 | the initial form is straight-line and active with residual 0, which passes, but it is not acceptable as it opens |
| UserModel.ParseBusinessType | backend/models/userModel.js:72-75 | a parsed business type is the one named by the string |
| UserModel.BusinessTypeRoundTrip | backend/models/userModel.js:73 | parsing the name of a business type gives it back, and only its name parses to it |
| UserModel.BusinessTypeOnCreate | backend/models/userModel.js:72-75 | an omitted business type defaults to personal; a given one is accepted exactly when it is one of the three names |
| UserModel.LeadingZeroRejected | backend/models/userModel.js:80 | no phone number starting with `0` matches the pattern |
| UserModel.PhoneFormatShape | backend/models/userModel.js:80 | a matching phone number has 1 to 17 characters, all digits but a leading `+` |
| UserModel.UsernameIsNoEmail | backend/models/userModel.js:19-44 | no valid username is a Gmail address, so a login identifier cannot name one user by username and another by email |
| UserModel.GenerateVerificationToken | backend/models/userModel.js:127-129 | the row holds the new verification token and nothing else changes |
| UserModel.GenerateResetToken | backend/models/userModel.js:131-134 | the row holds the new reset token, expiring exactly 10 minutes (600,000 ms) after now, and nothing else changes |
| UserModel.ResetTokenWindow | backend/models/userModel.js:131-134 | the expiry is strictly later than a given instant exactly when that instant is under 10 minutes after issue |
| UserController.InsertKeepsInvariant | backend/models/userModel.js:19-44 | a sound row that clashes with no stored row keeps the table invariant (unique username and email, unique live tokens, every row valid) |
| UserController.ReplaceKeepsInvariant | backend/models/userModel.js:19-44 | replacing a row by a sound one that clashes with no other row keeps the table invariant |
| UserController.IdentifierUnique | backend/controllers/userController.js:88-95 | at most one row matches a login identifier by username or by email |
| UserController.NewAccount | backend/controllers/userController.js:36-49 | the new row is unverified, holds the verification token and no reset token; username, email, full name, business name, phone and address are those sent; the business type is the one sent, or `personal` when omitted; its password checks against the one registered |
| UserController.NewAccountPassword | backend/models/userModel.js:107-125 | `checkPassword` on a new row accepts exactly the password it was registered with |
| UserController.MarkVerified | backend/controllers/userController.js:260-262 | the row becomes verified with its verification token cleared, and nothing else changes |
| UserController.WithNewPassword | backend/controllers/userController.js:320-323 | the password checks against the new one, the reset token and its expiry are cleared, and nothing else changes |
| UserController.ResetTokenLifecycle | backend/controllers/userController.js:307-323 | a freshly issued token is accepted exactly during its 10 minutes, and never after the password has been reset |
| UserController.OrCurrent | backend/controllers/userController.js:213-215 | `value \|\| current`: the result is the value when it is non-empty, and otherwise the current one |
| UserController.Updated | backend/controllers/userController.js:212-220 | password, verification state and tokens are untouched; a non-empty username, email or full name replaces the current one and an empty one keeps it; a business name, business type, phone or address that is present replaces the current one (the business type by the member of that name) and an omitted one keeps it |
| UserController.ChangedFieldsSuffice | backend/controllers/userController.js:212-220 | for a sound row, validating only the changed fields accepts exactly when the whole updated row is sound |
| UserController.UpdatedApart | backend/controllers/userController.js:189-209 | once both uniqueness checks pass, the updated row clashes with no other row |
| UserController.UserStore.constructor | backend/models/userModel.js:13-17 | an empty table whose auto-increment starts at 1 |
| UserController.UserStore.Register | backend/controllers/userController.js:6-80 | refused exactly when a row holds the email or the username; otherwise a failing validator stores nothing; otherwise exactly one new unverified row holding the verification token is added under the next id |
| UserController.UserStore.Login | backend/controllers/userController.js:83-144 | invalid credentials exactly when no row matches both the identifier and the password (an unknown user and a wrong password look the same); a matching row logs in when verified, and is otherwise told so with its token |
| UserController.UserStore.VerifyEmail | backend/controllers/userController.js:248-272 | an unknown token changes nothing; otherwise its row becomes verified, and afterwards no row holds the token, so it cannot be used twice |
| UserController.UserStore.RequestPasswordReset | backend/controllers/userController.js:275-300 | an unknown email answers 404 and changes nothing; otherwise that row gets the fresh token with its expiry |
| UserController.UserStore.ResetPassword | backend/controllers/userController.js:303-333 | refused exactly when no row holds the token unexpired; a failing password validator changes nothing; otherwise the password is replaced and afterwards no row holds the token |
| UserController.UserStore.UpdateProfile | backend/controllers/userController.js:175-245 | a changed username, then a changed email, held by another row is refused; a failing validator changes nothing; otherwise the row becomes its updated form |
| BusinessProfileForm.ValidateForm | frontend/src/components/ProfileUsaha.js:68-81 | a message for a blank business name and one for a non-empty phone that fails the pattern; valid exactly when none, exactly when acceptable |
| BusinessProfileForm.PhoneRuleAgreesWithModel | frontend/src/components/ProfileUsaha.js:75-77 | a non-empty phone passes the form exactly when it passes the `User` model |
| BusinessProfileForm.EmptyPhonePassesFormOnly | frontend/src/components/ProfileUsaha.js:75 | an empty phone passes the form but, sent as `''`, fails the `User` model's pattern |
| BusinessProfileForm.HintedFormatRefused | frontend/src/components/ProfileUsaha.js:75-77 | a number starting with `0`, the format the hint at line 188 suggests, is refused |
| BusinessProfileForm.TypeAndAddressUnchecked | frontend/src/components/ProfileUsaha.js:68-81 | the business type and the address never affect acceptance |
| AccountProfileForm.CheckUsername | frontend/src/components/ProfileAkun.js:63-67 | "required" for a blank username, else "too short" under three untrimmed characters, else nothing |
| AccountProfileForm.CheckEmail | frontend/src/components/ProfileAkun.js:69-73 | "required" for a blank email, else "malformed" when the unanchored pattern is not found, else nothing |
| AccountProfileForm.CheckFullName | frontend/src/components/ProfileAkun.js:75-77 | "required" exactly for a blank full name |
| AccountProfileForm.ValidateForm | frontend/src/components/ProfileAkun.js:60-81 | at most one message per field, the "required" one first; valid exactly when no message, exactly when acceptable |
| AccountProfileForm.GmailAddressHasShape | frontend/src/components/ProfileAkun.js:71 | every Gmail address whose local part ends in a non-space character passes the pattern |
| AccountProfileForm.NoAtNoShape | frontend/src/components/ProfileAkun.js:71 | text without `@` never passes the pattern |
| AccountProfileForm.UsernameRuleWeakerThanModel | frontend/src/components/ProfileAkun.js:63-67 | `"Bob"` passes the form but not the model, and `" ab"` passes although it trims to two characters |
| IssueReportForm.CheckSubject | frontend/src/components/ReportIssue.js:52-54 | "required" exactly for a blank subject |
| IssueReportForm.CheckDescription | frontend/src/components/ReportIssue.js:56-60 | "required" for a blank description, else "too short" under ten untrimmed characters, never both |
| IssueReportForm.ValidateForm | frontend/src/components/ReportIssue.js:49-64 | the two messages with their texts; valid exactly when none, exactly when acceptable |
| IssueReportForm.InitialIssueRefused | frontend/src/components/ReportIssue.js:8-13 | the form as it opens cannot be sent |
| IssueReportForm.CategoryAndPriorityUnchecked | frontend/src/components/ReportIssue.js:49-64 | category and priority never affect acceptance |
| IssueReportForm.IssueReportPage.constructor | frontend/src/components/ReportIssue.js:8-16 | the page opens with the initial form, no messages and not loading |
| IssueReportForm.IssueReportPage.HandleSubmit | frontend/src/components/ReportIssue.js:66-94 | the errors recorded are the subject-required message exactly when the subject is blank, and the description-required or too-short message exactly when the description is blank or under ten characters; the form is sent exactly when acceptable, as it stands; after a delivered report the form is back to its initial state; otherwise it is unchanged |
| RegisterForm.Payload | frontend/src/components/Register.js:47-56 | the request carries every field but the confirmation, the optional ones as the strings they hold |
| RegisterForm.RefusalMessage | frontend/src/components/Register.js:64 | the server's `error` text when there is a non-empty one, else "Registrasi gagal" |
| RegisterForm.FormPasswordRuleWeakerThanModel | frontend/src/components/Register.js:40-44 | a six-letter password passes the form's checks and fails the model's validator |
| RegisterForm.EmptyPhoneRefusedOnRegister | frontend/src/components/Register.js:47-56 | a form sent with an empty phone is refused by the model's validators, because `''` reaches the phone pattern |
| RegisterForm.RegisterPage.constructor | frontend/src/components/Register.js:6-19 | the page opens with the empty form, no error, not loading and not succeeded |
| RegisterForm.RegisterPage.HandleSubmit | frontend/src/components/Register.js:28-68 | a request is sent exactly when the confirmation matches and the password has six characters; the mismatch is reported before the length; the reply decides success or the message; loading is off on every path |

## Left out

- The ORM and the databases. Rows are records. The asset table is a map held by a class.
  The user table is a map, with `findOne` as a search for the unique matching row. Sequelize
  behaviour the model relies on:
  - validators run before the hooks;
  - `save` validates only changed fields;
  - `''` is validated, while `null`/omitted is not;
  - `update` skips `undefined` values;
  - a failing validator is the 500 path and stores nothing.
- The business-type enumeration: the model takes the ORM to refuse a string outside
  `personal`, `business` and `enterprise`. With SQLite and without type validation the
  library may store it as given. A JSON `null` business type is not modelled.
- bcrypt: hashing is taken as exact. Salts and the 72-byte input limit are not modelled.
- The `isEmail` library validator is a parameter of the user table. JWT generation is not
  modelled.
- Random tokens, serial numbers and barcodes are inputs. `UserController.UserStore.Register`
  and `UserController.UserStore.RequestPasswordReset` require that the token they are given
  is held by no row. The source draws it at random and does not check it.
- The clock is a parameter in milliseconds. Date-string parsing, time zones and
  `generated_at` are not modelled.
- `parseFloat`/`parseInt` are not modelled beyond "a number or `NaN`" (an `Option`).
- IEEE-754 arithmetic and float drift: money is an exact real. `DECIMAL(15, 2)` storage
  rounding is not modelled.
- String length counts characters, not UTF-16 code units.
- `getAllAssets`' query filters, ordering and `LIKE` search are not modelled. The list is
  taken as fetched.
- `getAssetById`, `deleteAsset`, the schedule endpoint's wrapper, `recent_assets`, the market
  value, image upload, the issue-report CRUD, HTTP status plumbing and the servers are not
  part of this model.
- In the user handlers, the response bodies (the user object without its password) are not
  modelled.
- In the forms, React rendering, `alert`, `localStorage`, `onRegistrationSuccess` and the
  per-field error clearing in `handleChange` are not modelled.
- JSON `null` for a username, email or full name in `updateProfile` is treated like the
  empty string (both falsy).
- AssetController.AssetTable.CreateAsset, AssetController.AssetTable.UpdateAsset,
  AssetController.ApplyUpdate, AssetController.UpdateZeroCostVersusZeroResidual: request
  numbers are taken as already parsed. `None` means "not sent", and truthiness is taken of
  the parsed number, not of the string sent. So a cost sent as the string `"0"` is falsy
  here. In the source it is truthy: `createAsset` answers 201, and `updateAsset` sets the
  cost and the stored book value to 0. Likewise `useful_life: "0"` is a 400 here but a 500
  (schema minimum) in the source on create. A residual value sent as `""` on update keeps
  the stored one here; the source assigns `NaN`.
