# Hospital dashboard pages — a verified model

This project models the computation inside four pages of a React hospital
dashboard. Patients and Doctors hold their records in component state;
Wards and Billing declare theirs as constants. The model keeps those records
as Dafny values and proves what the pages compute from them.

- **Wards** (`wards.dfy`, pure). The six wards with their bed counters. The
  page-wide Total / Occupied / Available figures are left folds, like
  `reduce`. The occupancy percentage is a `Rate`: a whole percentage, or NaN
  or Infinity when a ward has no beds. Its red / yellow / green band
  thresholds are modelled. So are the ward-status and patient-condition
  badges, and the `wards.find` lookup that the recent-admissions table uses.
- **Patients** (`patients.dfy`, mixed). The patient list is a
  `PatientDirectory` class with a `seq` field. `AddPatient` prepends a record
  with a generated `PT-<1000+n+1>` id, and `Submit` runs the form schema
  first. The search filter and the form's field rules are pure functions.
- **Doctors** (`doctors.dfy`, mixed). The doctor list is a `DoctorDirectory`
  class. `AddDoctor` appends a record with a generated `DR-<1000+n+1>` id and
  no patients. The four statistics cards and the status badge are pure
  functions.
- **Billing** (`billing.dfy`, pure). The five invoices, `calculateTotal`,
  the badge, the payment note and the "Mark as Paid" rules, and the page
  state. "Mark as Paid" only closes the details dialog.

Shared pieces:

- `text.dfy`: ASCII `toLowerCase`, `includes`, and the decimal rendering of
  a number inside a template literal together with its inverse.
- `serials.dfy`: the generated ids, plus the invariant that a list's ids are
  exactly prefix-1001 .. prefix-(1000 + n), so they are pairwise distinct.
- `ui.dfy`: `Option` and the badge variants.

There is no bed-allocation logic in the code. The ward page keeps static
per-ward counters and a stored status literal for each ward, and its bed
grid is drawn at random. The model keeps exactly those counters and
literals.

## Model

| member | source | states |
|---|---|---|
| Wards.Sum | src/pages/Wards.tsx:47-49 | The `reduce` fold: 0 for no wards, else the sum over the earlier wards plus the last ward's field (partner: SumAppend). |
| Wards.TotalBeds | src/pages/Wards.tsx:47 | The Total Beds card: the sum of `totalBeds` over all wards. |
| Wards.OccupiedBeds | src/pages/Wards.tsx:48 | The Occupied Beds card: the sum of `occupiedBeds` over all wards. |
| Wards.AvailableBeds | src/pages/Wards.tsx:49 | The Available Beds card: total less occupied less the summed reserved and maintenance beds (partner: AvailableIsSumOfFree). |
| Wards.SumAppend | src/pages/Wards.tsx:47-49 | The `reduce` sum of a concatenation is the sum of the parts' sums. |
| Wards.AvailableIsSumOfFree | src/pages/Wards.tsx:49 | Available beds (total − occupied − Σ reserved+maintenance) equals the sum over wards of each ward's free beds. |
| Wards.FreeNonNegative | src/pages/Wards.tsx:32-37 | If every ward keeps occupied + reserved + maintenance ≤ total, the summed free beds are non-negative. |
| Wards.CountersNonNegative | src/pages/Wards.tsx:47-49 | The total, the occupied sum and the reserved+maintenance sum are never negative. |
| Wards.AvailableWithinTotal | src/pages/Wards.tsx:47-49 | Under the per-ward capacity rule, both Available and Occupied lie between 0 and Total. |
| Wards.InitialFigures | src/pages/Wards.tsx:32-37 | Every fixed ward keeps the capacity rule; the cards read 120 total, 86 occupied, 17 available; W-104 has no free bed. |
| Wards.OccupancyRate | src/pages/Wards.tsx:50 | With beds, the rate is the whole percentage nearest to occupied/total·100, halves rounded up; with no beds it is NaN or Infinity, never a percentage. |
| Wards.RateWithinHundred | src/pages/Wards.tsx:120 | A ward with beds and no more occupied than total shows a percentage in 0..100. |
| Wards.RoundedWithinHundred | src/pages/Wards.tsx:120 | Any value that rounds occupied/total·100 half up lies in 0..100 when occupied ≤ total. |
| Wards.BandOf | src/pages/Wards.tsx:100-105 | The colour of a rate: red above 90, else yellow above 75, else green; NaN is green and Infinity red (partner: BandThresholds, BandMonotone). |
| Wards.BandThresholds | src/pages/Wards.tsx:100-105 | Red exactly above 90, yellow exactly in 76..90, green at 75 or below; the bands exclude each other. |
| Wards.BandMonotone | src/pages/Wards.tsx:121-123 | A higher percentage never shows a milder colour. |
| Wards.PageRate | src/pages/Wards.tsx:50 | The page-wide rate: the summed occupied beds over the summed beds, rounded as OccupancyRate rounds (partner: InitialPageBand). |
| Wards.WardRate | src/pages/Wards.tsx:120 | The rate on one ward's card: its occupied beds over its beds (partner: RateWithinHundred, InitialBands). |
| Wards.InitialPageBand | src/pages/Wards.tsx:47-50 | The fixed wards give a page-wide 72% (86 of 120 beds), which is green. |
| Wards.InitialBands | src/pages/Wards.tsx:32-37 | Each fixed ward's card: W-101 80% yellow, W-102 60% green, W-103 67% green, W-104 (ICU) exactly 90% yellow, not red, W-105 72% green, W-106 65% green. |
| Wards.StatusBadge | src/pages/Wards.tsx:132-136 | Operational is default, Limited secondary, anything else outline (partner: StatusBadgeInjective). |
| Wards.StatusBadgeInjective | src/pages/Wards.tsx:132-136 | Operational, Limited and Maintenance get three different badges, none destructive. |
| Wards.Find | src/pages/Wards.tsx:176 | The lookup finds nothing exactly when no ward has the id; otherwise it returns a ward with that id that no earlier ward's id matches. |
| Wards.WardName | src/pages/Wards.tsx:176 | `find(...)?.name`: the name of the found ward, or nothing (partner: Find, RecentAdmissionsResolve). |
| Wards.InitialIdsDistinct | src/pages/Wards.tsx:32-37 | The fixed ward ids are pairwise distinct. |
| Wards.FindDistinct | src/pages/Wards.tsx:176 | With distinct ids, looking up a ward's id returns that ward. |
| Wards.RecentAdmissionsResolve | src/pages/Wards.tsx:41-44 | Each recent admission's ward id resolves to a ward name (General, Maternity, ICU, Cardiology). |
| Wards.ConditionBadge | src/pages/Wards.tsx:180-185 | Stable is outline, Fair secondary, Serious default, anything else destructive (partner: ConditionBadgeInjective). |
| Wards.ConditionBadgeInjective | src/pages/Wards.tsx:180-185 | Each condition has its own badge, and only Critical is destructive. |
| Text.Lower | src/pages/Patients.tsx:118-119 | `toLowerCase`: each ASCII capital replaced by its small letter, everything else kept (partner: LowerFacts). |
| Text.Contains | src/pages/Patients.tsx:118-119 | `includes`: the needle is a prefix of the string or of one of its suffixes (partner: ContainsIff). |
| Text.LowerFacts | src/pages/Patients.tsx:118-119 | Lowering keeps the length, leaves no upper-case letter, is idempotent and maps only "" to "". |
| Text.ContainsIff | src/pages/Patients.tsx:118-119 | `includes` holds exactly when the needle occurs at some offset of the haystack. |
| Text.ContainsEmpty | src/pages/Patients.tsx:116-121 | Every string includes the empty string. |
| Text.Utf16Length | src/pages/Patients.tsx:45-51 | JavaScript's `length`: at least the character count and at most twice it, zero only for "" (partner: Utf16LengthBmp, Utf16LengthAppend). |
| Text.Utf16LengthBmp | src/pages/Patients.tsx:45-51 | The JavaScript length equals the character count exactly when no character lies outside the Basic Multilingual Plane. |
| Text.Utf16LengthAppend | src/pages/Patients.tsx:45-51 | JavaScript lengths add over concatenation. |
| Text.NatToString | src/pages/Patients.tsx:85 | The rendered number is non-empty, all digits, without a leading zero, and one digit exactly below 10. |
| Text.ParseNatToString | src/pages/Patients.tsx:85 | Reading the rendered number back gives the number. |
| Text.NatToStringInjective | src/pages/Patients.tsx:85 | Two numbers render alike exactly when they are equal. |
| Serials.SerialId | src/pages/Patients.tsx:85 | The id template `prefix-${1000 + k}`, used for patients here and for doctors at Doctors.tsx:43 (partner: SerialIdInjective, NextIsFresh). |
| Serials.SerialIdInjective | src/pages/Patients.tsx:85 | Two generated ids with one prefix are equal exactly when their numbers are. |
| Serials.SerialRangeMembers | src/pages/Doctors.tsx:43 | The range prefix-1001..prefix-(1000+n) has n entries, and an id is in it exactly when it is the serial of some k in 1..n. |
| Serials.SerialRangeOnce | src/pages/Doctors.tsx:43 | No id occurs twice in that range. |
| Serials.NumberedDistinct | src/pages/Patients.tsx:59-65 | A numbered id list is pairwise distinct and holds exactly the serials 1..n. |
| Serials.NextIsFresh | src/pages/Patients.tsx:85 | The next generated id is not yet in a numbered list. |
| Serials.NumberedPrepend | src/pages/Patients.tsx:101 | Putting the next id in front keeps a list numbered. |
| Serials.NumberedAppend | src/pages/Doctors.tsx:54 | Putting the next id at the end keeps a list numbered. |
| Patients.Matches | src/pages/Patients.tsx:118-119 | A patient matches when its lowered name or its lowered id includes the lowered query. |
| Patients.FilteredPatients | src/pages/Patients.tsx:116-121 | The whole list for an empty query, the filtered list otherwise (partner: FilteredPatientsSpec). |
| Patients.Filter | src/pages/Patients.tsx:117-120 | The result is an order-preserving selection of the list; a patient is in it exactly when its lowered name or id includes the lowered query, and each matching patient occurs as often as in the list. |
| Patients.FilteredPatientsSpec | src/pages/Patients.tsx:116-121 | For every query, including the empty one, the shown list is an ordered selection holding exactly the matching patients, each as often as in the list. |
| Patients.EmptyQueryKeepsAll | src/pages/Patients.tsx:116-121 | An empty query shows the list unchanged. |
| Patients.QueryCaseInsensitive | src/pages/Patients.tsx:118-119 | A query and its lower-case form show the same list. |
| Patients.SearchById | src/pages/Patients.tsx:119 | Typing a patient's id, in any case, shows that patient. |
| Patients.Failing | src/pages/Patients.tsx:44-52 | A field is flagged exactly when it is in the checked list and its rule fails. |
| Patients.FieldOk | src/pages/Patients.tsx:45-51 | One schema rule per field, lengths in UTF-16 units as zod's `min` reads them: name ≥ 2, age 0..120, gender ≥ 1, phone ≥ 5, email absent/empty/well-formed, address anything, status ≥ 1. |
| Patients.Errors | src/pages/Patients.tsx:44-52 | The failing fields in schema order (partner: ValidIffRules). |
| Patients.Valid | src/pages/Patients.tsx:44-52 | The form passes when no field fails (partner: ValidIffRules). |
| Patients.ValidIffRules | src/pages/Patients.tsx:45-51 | The form passes exactly when the name has ≥ 2 UTF-16 units, the age is in 0..120, gender ≥ 1, phone ≥ 5 and status ≥ 1 units, and the email is absent, empty or well-formed. |
| Patients.SingleCharacterName | src/pages/Patients.tsx:45 | A one-character name passes the name rule exactly when that character is astral (one emoji is two units). |
| Patients.NewPatient | src/pages/Patients.tsx:83-98 | The record built for a list of n patients: id PT-(1001+n), form fields copied, missing email/address as "", date `today` (partner: NewPatientRecord). |
| Patients.NewPatientRecord | src/pages/Patients.tsx:85-98 | The new id is "PT-" then 1001+n and reads back as 1001+n; a missing email or address becomes ""; the other fields are copied and the date is today. |
| Patients.InitialPatientsAscending | src/pages/Patients.tsx:59-65 | The seed ids are PT-1001..PT-1007, in this order. |
| Patients.InitialPatientsNumbered | src/pages/Patients.tsx:59-65 | The seed list is numbered, so its ids are pairwise distinct. |
| Patients.StatusBadge | src/pages/Patients.tsx:183-189 | Active outline, Discharged secondary, Admitted default, Critical destructive, anything else outline (partner: StatusBadgeFacts). |
| Patients.StatusBadgeFacts | src/pages/Patients.tsx:183-189 | Critical alone is destructive, Admitted alone default, Discharged alone secondary; Active and Scheduled share outline. |
| Patients.PatientDirectory.constructor | src/pages/Patients.tsx:58-66 | The list starts as the seven seed records and is numbered. |
| Patients.PatientDirectory.AddPatient | src/pages/Patients.tsx:83-101 | The new record is put in front; the length grows by one, the tail is the old list, and numbering (hence distinct ids) is preserved. |
| Patients.PatientDirectory.Submit | src/pages/Patients.tsx:222 | A record is added exactly when the form passes the schema; otherwise the list is unchanged. |
| Doctors.Count | src/pages/Doctors.tsx:36-38 | `filter(d => d.status === s).length` (partner: CountIsMultiplicity, CountAppend). |
| Doctors.Stats | src/pages/Doctors.tsx:34-39 | The four cards: the list length and the Active, On Leave and On Call counts (partner: StatusCountsBound). |
| Doctors.CountIsMultiplicity | src/pages/Doctors.tsx:36-38 | A status card's count is the number of doctors whose status is exactly that status. |
| Doctors.CountAppend | src/pages/Doctors.tsx:36-38 | Status counts add over concatenation. |
| Doctors.StatusCountsBound | src/pages/Doctors.tsx:35-38 | Active + On Leave + On Call never exceeds Total Doctors, and equals it exactly when every doctor has one of those statuses. |
| Doctors.InitialStats | src/pages/Doctors.tsx:26-31 | The seed cards read 6 total, 4 active, 1 on leave, 1 on call. |
| Doctors.AddDoctorStats | src/pages/Doctors.tsx:54 | Appending a doctor raises the total by one and only its own status's count by one. |
| Doctors.StatusBadge | src/pages/Doctors.tsx:125-129 | Active default, On Leave secondary, anything else outline (partner: StatusBadgeFacts). |
| Doctors.StatusBadgeFacts | src/pages/Doctors.tsx:125-129 | Active alone is default, On Leave alone secondary, everything else outline, nothing destructive. |
| Doctors.NewDoctor | src/pages/Doctors.tsx:41-52 | The record built for a list of n doctors: id DR-(1001+n), dialog fields copied, 0 patients (partner: NewDoctorRecord). |
| Doctors.NewDoctorRecord | src/pages/Doctors.tsx:42-50 | The new id is "DR-" then 1001+n and reads back as 1001+n; the doctor has 0 patients; the dialog fields are copied. |
| Doctors.InitialDoctorsAscending | src/pages/Doctors.tsx:26-31 | The seed ids are DR-1001..DR-1006, in this order. |
| Doctors.InitialDoctorsNumbered | src/pages/Doctors.tsx:26-31 | The seed list is numbered, so its ids are pairwise distinct. |
| Doctors.DoctorDirectory.constructor | src/pages/Doctors.tsx:25-32 | The list starts as the six seed records and is numbered. |
| Doctors.DoctorDirectory.AddDoctor | src/pages/Doctors.tsx:41-55 | The new record goes at the end; the old list is kept as the prefix; numbering is preserved; the total and the new doctor's status count each grow by one, the other counts stay. |
| Billing.CalculateTotal | src/pages/Billing.tsx:133-135 | `reduce` of the line totals from 0 (partner: CalculateTotalAppend, TotalIsCharged). |
| Billing.CalculateTotalAppend | src/pages/Billing.tsx:133-135 | The invoice total of a concatenation is the sum of the parts' totals. |
| Billing.TotalIsCharged | src/pages/Billing.tsx:133-135 | When each line total is quantity × unit price, the invoice total is what the lines charge. |
| Billing.SampleInvoicesConsistent | src/pages/Billing.tsx:40-113 | In every sample invoice each line total is quantity × unit price and the amount equals the total of the lines; INV-1001 totals 1250. |
| Billing.InvoiceIdsDistinct | src/pages/Billing.tsx:40-113 | The invoice ids are pairwise distinct. |
| Billing.StatusBadge | src/pages/Billing.tsx:340-345 | Paid outline, Pending default, Overdue destructive, anything else secondary, as in the list at lines 267-271 (partner: StatusBadgeInjective). |
| Billing.StatusBadgeInjective | src/pages/Billing.tsx:267-271 | Paid, Pending, Overdue and Rejected get four different badges. |
| Billing.PaymentNote | src/pages/Billing.tsx:349-354 | No note for a paid invoice; the overdue message for an overdue one; otherwise "Payment is due by " and the due date (partner: NoteAndActionRules). |
| Billing.OffersMarkAsPaid | src/pages/Billing.tsx:360-361 | The Mark as Paid button is offered for every invoice that is not paid (partner: NoteAndActionRules). |
| Billing.NoteAndActionRules | src/pages/Billing.tsx:349-361 | The payment note and the Mark as Paid button both appear exactly for unpaid invoices; an overdue invoice gets the overdue message; the others get "Payment is due by " followed by the due date. |
| Billing.InitialView | src/pages/Billing.tsx:37-40 | The page starts with the constant invoice list and no invoice selected (partner: MarkAsPaidKeepsInvoices). |
| Billing.ShowDetails | src/pages/Billing.tsx:277 | "View" selects the invoice whose dialog opens. |
| Billing.MarkAsPaid | src/pages/Billing.tsx:125-131 | `handleMarkAsPaid`: clears the selection and nothing else (partner: MarkAsPaidKeepsInvoices). |
| Billing.MarkAsPaidKeepsInvoices | src/pages/Billing.tsx:125-131 | Marking an invoice as paid closes the dialog and changes no invoice, so a reopened unpaid invoice still offers Mark as Paid. |

## Left out

- Wards.OccupancyRate: `Math.round(occupied / total * 100)` is modelled as exact round-half-up on integers, not as IEEE double arithmetic. At an exact half the double product can fall just below it: 23 of 40 beds gives 57.49999999999999 on the page, shown as 57%, where the model gives 58%.
- Money is whole dollars. `toLocaleString` formatting is not modelled.
- The occupancy progress bar's colour class is modelled as a `Band`. The CSS strings are not.
- Doctor portraits: the seed doctors' fixed `image` URLs and the random URL given to an added doctor are not modelled. The `Doctor` record has no image field.
- Randomness: the ward-layout bed grid and the on-call schedule are not modelled.
- The clock: the new patient's date is the parameter `today`.
- Patients.FieldOk: the email format check of the validation library is the parameter `isEmail`. The schema's error messages are not modelled.
- Patients.FieldOk: the age is an integer. Coercion of the form's text input and fractional ages are not modelled.
- Text.Lower: case folding covers ASCII letters only, not Unicode.
- React state, react-hook-form, dialogs, toasts and notifications are reduced to the list values they hold. The "Payment Recorded" notification is not modelled.
- The add-doctor dialog component is not part of this model. Its output is the `DoctorInput` value.
- The doctor search box and the filter/export buttons have no handlers and are not modelled.
- Billing's summary cards and revenue chart hold hard-coded figures and are not modelled.
- Dashboard, Reports, Records, Index, Appointments, the route table and the layout components render constants and are not modelled.
- No bed-allocation engine is modelled, because the ward page has none. This covers per-bed state, admit, discharge, transfer, reservation and audit.
