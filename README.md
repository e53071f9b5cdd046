# Jiu-jitsu academy administration — a Dafny model of its core

The application keeps the records of a Brazilian jiu-jitsu academy in the
browser: students with their belt, stripes, attended classes and payment
history; a table of graduation thresholds per belt; and application settings
(theme, payment plans, PIX key). This project models the rules behind those
records and proves what they promise:

- the IBJJF belt catalog (13 Kid belts, then 8 Adult belts), the
  `name-type` settings key of a belt and the lookup of a belt by name and
  category (`Constants`, from `constants.ts`);
- the student repository: enrolment, edit by id, logging a class, the
  promotion rule (a stripe below four, otherwise the next belt of the same
  category, rejected at the top of each category) and recording a payment
  newest-first (`Students`, from `hooks/useStudents.tsx`);
- the two settings stores and their start-up loads, which fall back to
  defaults on anything malformed (`GraduationSettingsStore`,
  `AppSettingsStore`);
- the screens that compute something: the settings page's threshold and plan
  editors and its belt list, the enrolment form's validation, the student
  table's search, status badge and stripe progress, the detail dialog, the
  finance screen's revenue per month, pending students and total revenue, the
  dashboard's counters, the black-belt honour roll, how a belt is drawn, the
  backup export and import, and the payment dialog.

Modelling choices:

- Dates are integer timestamps. The calendar that turns one into a year and
  a zero-based month is a parameter (`Calendar`).
- Money is a `real`.
- `parseInt`/`parseFloat` results are `Option` values, where `None` stands
  for `NaN`. JavaScript's `%` is `StudentListPage.JsRem`: it truncates and is
  `NaN` for a zero or missing divisor.
- Loosely typed parsed JSON is the datatype `Types.Parsed`.
- Fresh ids (`generateId()`), the current time and the user's answer to a
  confirmation dialog are parameters.
- State holders become classes whose methods replace their fields:
  - `Students.StudentStore`
  - `GraduationSettingsStore.GraduationStore`
  - `AppSettingsStore.AppSettingsProvider`
  - `SyncCenter.SyncScreen`
  - `PaymentFormPage.PaymentDialog`
- Loops of the source are methods with loop invariants proved against the
  functions that specify them:
  - `generateDefaultSettings` becomes `FillDefaults`;
  - the nested `forEach` of the finance screen becomes `RevenueByMonth`;
  - the branch-by-branch rank computation of `promoteStudent` becomes
    `ComputeRank`.

Where the code and the written design of the application disagree, the
model follows the code:

- no code writes `promotionHistory`. Records the application creates have
  none, so it is `Option<seq<Promotion>>`;
- nothing reconciles local data with a server;
- the promotion rule has no special case for black-belt degrees.

Where the code does not do what it evidently means to, both are modelled and
the rest of the model uses the corrected form (see "## Findings").

## Model

| member | source | states |
|---|---|---|
| Constants.CatalogShape | constants.ts:3-27 | the catalog has 21 entries, Kid at positions 0-12 and Adult at 13-20, every Kid entry before every Adult entry |
| Constants.NextSameType | constants.ts:3-27 | the entry after position i has the same category exactly when i is not the last Kid or the last Adult entry |
| Constants.CatalogPairsUnique | constants.ts:3-27 | no two catalog entries share both name and category |
| Constants.CategoriesStartWhite | constants.ts:5-19 | each category starts with its Branca belt |
| Constants.BrancaOncePerType | constants.ts:3-27 | Branca appears only at the start of each category |
| Constants.NamesHaveNoDash | constants.ts:3-27 | no catalog name contains the key separator `-` |
| Constants.BeltKey | constants.ts:29 | the key starts with the belt's name, followed by `-` |
| Constants.KeySplits | constants.ts:29 | a key `name-type` with a dash-free name splits back into its name and type |
| Constants.BeltKeyInjective | constants.ts:29 | two catalog belts have the same key exactly when they are the same belt |
| Constants.CatalogKeysDistinct | constants.ts:3-29 | the 21 catalog entries have 21 different keys |
| Constants.FindBelt | constants.ts:31-33 | a result is a catalog entry with that name and category; no result exactly when no entry matches |
| Constants.FindBeltIffListed | constants.ts:31-33 | the lookup succeeds exactly for the name and category of some catalog entry |
| Constants.FindBeltFindsCatalogEntry | constants.ts:31-33 | every catalog entry is found by its own name and category, and `findIndex` gives its position |
| Constants.CatalogIndex | hooks/useStudents.tsx:126 | the position is -1 or a matching entry's, and -1 exactly when the lookup fails |
| Constants.DefaultPlansWellFormed | constants.ts:35-40 | four default plans with distinct non-empty ids and non-negative prices |
| Students.NewRecord | hooks/useStudents.tsx:95-102 | a new record has the fresh id, no payments, no classes and no stripes |
| Students.StudentStore.AddStudent | hooks/useStudents.tsx:95-104 | the list gains exactly the new record, at the end |
| Students.UpdateById | hooks/useStudents.tsx:106-108 | same length; students with another id unchanged; students with the id get the patch spread over them |
| Students.PatchOverwritesOnlySupplied | hooks/useStudents.tsx:107 | the spread keeps every field the patch lacks and takes every field it supplies; the empty patch changes nothing |
| Students.UpdateByIdIdempotent | hooks/useStudents.tsx:106-108 | the empty edit is the identity, and an edit that keeps the id gives the same list when repeated |
| Students.StudentStore.UpdateStudent | hooks/useStudents.tsx:106-108 | the list becomes the edited list |
| Students.LogClassById | hooks/useStudents.tsx:110-117 | each student with the id has exactly one more class and is otherwise unchanged; nobody else changes |
| Students.LogClassAddsOnePerMatch | hooks/useStudents.tsx:110-117 | the total of attended classes grows by the number of students with the id |
| Students.StudentStore.LogClassForStudent | hooks/useStudents.tsx:110-117 | the list becomes the list with the class logged |
| Students.FindStudent | hooks/useStudents.tsx:120-121 | a result is a listed student with the id; no result exactly when nobody has it |
| Students.PromoteOutcome | hooks/useStudents.tsx:119-144 | not found exactly when nobody has the id; rejected only from four stripes on; otherwise one more stripe, or a catalog belt of the same category with none |
| Students.PromoteById | hooks/useStudents.tsx:119-148 | same length; unchanged unless the promotion succeeds; students with another id are never touched |
| Students.NextCatalogBelt | hooks/useStudents.tsx:135 | the entry after the belt's catalog position, when there is one, is a catalog belt |
| Students.NextRank | hooks/useStudents.tsx:128-144 | a change of belt moves to a catalog belt of the same category with no stripes |
| Students.ComputeRank | hooks/useStudents.tsx:128-144 | the branch-by-branch computation gives the promotion rule's result |
| Students.CatalogPromotion | hooks/useStudents.tsx:132-143 | below four stripes one more stripe; from four on the next entry with none, rejected exactly at Kid Verde e Preta and Adult Vermelha |
| Students.PretaToCoral | hooks/useStudents.tsx:135-138 | Adult Preta with four stripes becomes Coral (Vermelha e Preta) with none |
| Students.TopKidRejected | hooks/useStudents.tsx:139-143 | Kid Verde e Preta from four stripes on is rejected |
| Students.TopAdultRejected | hooks/useStudents.tsx:139-143 | Adult Vermelha from four stripes on is rejected |
| Students.UnlistedKidBeltRestarts | hooks/useStudents.tsx:126-138 | a Kid belt missing from the catalog sits at -1, so from four stripes on it moves to Kid Branca |
| Students.UnlistedAdultBeltRejected | hooks/useStudents.tsx:126-143 | an Adult belt missing from the catalog is rejected from four stripes on |
| Students.PromotionRaisesRankByOne | hooks/useStudents.tsx:132-138 | an accepted promotion of a catalog belt raises its rank (position times five plus stripes) by exactly one |
| Students.PromoteChangesOnlyRank | hooks/useStudents.tsx:146 | promotion changes only belt and stripes, only of the students with the id; a list of catalog belts stays one |
| Students.PromoteUnknownId | hooks/useStudents.tsx:120-121 | promoting an id nobody has reports it and changes nothing |
| Students.StudentStore.PromoteStudent | hooks/useStudents.tsx:119-148 | reports not found, rejected or the new rank, and the list changes only on success |
| Students.AddPaymentById | hooks/useStudents.tsx:150-162 | each student with the id gets the payment first, ahead of the old history; nobody else changes |
| Students.StudentStore.AddPaymentForStudent | hooks/useStudents.tsx:150-162 | the list becomes the list with the payment prepended |
| Students.StudentStore.LoadStudents | components/SyncCenter.tsx:62 | corrected import only: the list becomes the imported list (the students context does not provide this loader) |
| GraduationSettingsStore.DefaultsFor | hooks/useGraduationSettings.tsx:16-26 | every entry is `{30, 150}` and every listed belt has one |
| GraduationSettingsStore.FillDefaults | hooks/useGraduationSettings.tsx:17-25 | the loop builds the default table of the belts it walks |
| GraduationSettingsStore.GenerateDefaultSettings | hooks/useGraduationSettings.tsx:16-26 | the result is the default table over the catalog |
| GraduationSettingsStore.DefaultsForKeysHaveDash | hooks/useGraduationSettings.tsx:18-24 | every key of a default table contains `-` |
| GraduationSettingsStore.DefaultsForSize | hooks/useGraduationSettings.tsx:18-24 | belts with distinct keys give one entry per belt |
| GraduationSettingsStore.DefaultSettingsShape | hooks/useGraduationSettings.tsx:16-26 | the default table has 21 entries, all `{30, 150}`, all keyed in the current format |
| GraduationSettingsStore.LoadGraduationSettings | hooks/useGraduationSettings.tsx:29-48 | a stored object whose keys all contain `-` is kept; anything else gives the defaults; every resulting key contains `-` |
| GraduationSettingsStore.LoadIsIdempotent | hooks/useGraduationSettings.tsx:29-52 | loading what a load produced and stored gives it back |
| GraduationSettingsStore.ConfigFor | components/Settings.tsx:178 | the stored entry, or `{30, 150}` when there is none |
| GraduationSettingsStore.DefaultsGiveDefaultConfig | hooks/useStudents.tsx:124 | under the default table every belt gets `{30, 150}` |
| GraduationSettingsStore.GraduationStore.UpdateSettings | hooks/useGraduationSettings.tsx:54-56 | the argument becomes the whole table |
| AppSettingsStore.RepairedPlansAreDefaults | hooks/useAppSettings.tsx:32 | repairing gives exactly the default plans, whatever id is drawn |
| AppSettingsStore.FirstBadEntry | hooks/useAppSettings.tsx:31 | no bad entry exactly when every element is a plan with an id |
| AppSettingsStore.LoadObject | hooks/useAppSettings.tsx:29-34 | the load fails exactly when the plan scan meets a null element before any plan without id |
| AppSettingsStore.LoadAppSettings | hooks/useAppSettings.tsx:23-42 | non-objects and throwing scans give the defaults; otherwise theme and PIX key are the stored ones or the defaults; every plan has an id |
| AppSettingsStore.StoredPlansKeptIffValid | hooks/useAppSettings.tsx:31-33 | the stored plans are kept exactly when they are an array of plans with ids, and are the default plans otherwise |
| AppSettingsStore.ReloadIsIdentity | hooks/useAppSettings.tsx:23-46 | loading stored settings a second time gives them back, whatever id is drawn |
| AppSettingsStore.PatchChangesOnlySupplied | hooks/useAppSettings.tsx:48-50 | an update keeps the fields it lacks, takes those it supplies, and is idempotent |
| AppSettingsStore.AppSettingsProvider.UpdateSettings | hooks/useAppSettings.tsx:48-50 | the settings become the merge of the update over the old ones |
| AppSettingsStore.AppSettingsProvider.SetPlans | hooks/useAppSettings.tsx:52-54 | the plans are replaced and theme and PIX key kept |
| AppSettingsStore.AppSettingsProvider.LoadSettings | components/SyncCenter.tsx:64 | corrected import only: the settings become the imported settings (the settings context does not provide this loader) |
| SettingsPage.GraduationChange | components/Settings.tsx:17-30 | no update exactly for NaN or a negative value; otherwise only the belt's entry changes, in the edited field only |
| SettingsPage.GraduationChangeKeepsFormat | components/Settings.tsx:17-30 | an edited table of current-format keys survives the next start-up load unchanged |
| SettingsPage.PlanChange | components/Settings.tsx:32-40 | same plans and ids; plans with the id get the new name, or the new price (0 for NaN); the others are unchanged |
| SettingsPage.AddPlan | components/Settings.tsx:42-45 | the old plans, then one `Novo Plano` at price 0 with the fresh id |
| SettingsPage.RemovePlan | components/Settings.tsx:47-49 | exactly the plans without the id remain, each as often as before |
| SettingsPage.RemovePlanAppend | components/Settings.tsx:47-49 | the remaining plans keep their order: removal distributes over concatenation, and keeps one plan exactly when its id differs |
| SettingsPage.RemoveUndoesAdd | components/Settings.tsx:42-49 | removing a just-added plan with an unused id restores the list |
| SettingsPage.PlanHandlersKeepIds | components/Settings.tsx:32-49 | every plan handler keeps every plan's id non-empty |
| SettingsPage.BeltsForSettings | components/Settings.tsx:51-53 | exactly the catalog entries whose name has neither Coral nor Vermelha, each as often as in the catalog |
| SettingsPage.ShownExactlyBelowCoral | components/Settings.tsx:51-53 | the first 18 catalog entries are listed, and the Coral and Vermelha entries are not |
| SettingsPage.SettingsListIsPrefix | components/Settings.tsx:51-53 | the graduation tab lists the first 18 catalog entries, in order |
| SettingsPage.SettingsRowsByType | components/Settings.tsx:51-56 | the Kid rows are the 13 Kid belts, and the Adult rows the 5 Adult belts from Branca to Preta |
| StudentFormPage.DerivedBeltType | components/StudentForm.tsx:22-25 | Kid exactly for a readable age under 16 |
| StudentFormPage.AvailableBelts | components/StudentForm.tsx:73 | every belt offered has the category derived from the age |
| StudentFormPage.AvailableBeltsByCategory | components/StudentForm.tsx:73 | kids are offered the 13 Kid belts, everyone else the 8 Adult belts, in catalog order |
| StudentFormPage.Submit | components/StudentForm.tsx:48-71 | invalid input exactly for an empty name or a non-positive or unreadable age; an invalid belt exactly when the lookup fails; otherwise an update when editing and an add when not, with a catalog belt of the age's category and the form's name, age, phone, address, start date and active flag; an update leaves id, stripes, classes, payments and history as they were |
| StudentFormPage.OfferedIffAccepted | components/StudentForm.tsx:56-61 | with valid name and age, the belt check accepts exactly the names the drop-down offers |
| StudentFormPage.FoundIffOffered | components/StudentForm.tsx:56-61 | the lookup finds a name in the age's category exactly when the drop-down offers it |
| StudentFormPage.AgeEdited | components/StudentForm.tsx:84-91 | an age edit stores the age, resets the selection to Branca, and changes nothing else |
| StudentFormPage.AgeEditKeepsSelectionValid | components/StudentForm.tsx:84-91 | after an age edit the selection passes the belt check |
| StudentFormPage.SubmitForm | components/StudentForm.tsx:48-71 | rejected input changes nothing; otherwise exactly one update or one add |
| StudentListPage.FilteredStudents | components/StudentList.tsx:50-52 | exactly the students whose lower-cased name contains the lower-cased term, each as often as listed |
| StudentListPage.FilteredStudentsAppend | components/StudentList.tsx:50-52 | the table keeps the list's order: the search distributes over concatenation, and keeps one student exactly when the name matches |
| StudentListPage.EmptyTermKeepsAll | components/StudentList.tsx:50-52 | an empty search lists everybody, in order |
| StudentListPage.SearchIgnoresCase | components/StudentList.tsx:50-52 | a term and its lower-cased form list the same students |
| StudentListPage.StatusStyle | components/StudentList.tsx:54-63 | the badge style determines the status it was drawn for |
| StudentListPage.StatusStylesDistinct | components/StudentList.tsx:54-63 | two statuses share a style exactly when they are equal |
| StudentListPage.LastPaymentStatus | components/StudentList.tsx:101 | the newest payment's status, and none exactly without payments |
| StudentListPage.StatusText | components/StudentList.tsx:125 | `Nenhum` without a payment, otherwise the status's label; never empty |
| StudentListPage.StatusTextDistinct | components/StudentList.tsx:125 | two badges read alike exactly when they show the same status, or both none |
| StudentListPage.BadgeShowsNewPayment | components/StudentList.tsx:101-124 | after recording a payment, the badge shows its status |
| StudentListPage.JsRem | components/StudentList.tsx:104-105 | NaN exactly for a NaN operand or zero divisor; otherwise the sign of the dividend, smaller in size than the divisor, and the modulus for non-negative operands |
| StudentListPage.StripeProgress | components/StudentList.tsx:104-105 | the count is a number exactly when both thresholds are present and non-zero, and then below a positive stripe threshold |
| StudentListPage.StudentProgress | components/StudentList.tsx:103-105 | the count under the belt's own entry, or under `{30, 150}` when the table has none |
| StudentListPage.DefaultProgressIsModThirty | components/StudentList.tsx:103-105 | under `{30, 150}` the count is the class count modulo 30 |
| StudentListPage.RefreshSelection | components/StudentList.tsx:21-32 | a selected student is reloaded by id from the list, or cleared with the dialog closed exactly when the id is gone |
| StudentListPage.RefreshIsStable | components/StudentList.tsx:21-32 | running the refresh again on the same list changes nothing |
| StudentDetailPage.ClassesForCurrentBelt | components/StudentDetail.tsx:23-26 | NaN exactly when the belt threshold is missing or 0; otherwise below a positive threshold |
| StudentDetailPage.DetailProgress | components/StudentDetail.tsx:23-28 | NaN exactly when either threshold is missing or 0 |
| StudentDetailPage.DetailAgreesWithList | components/StudentDetail.tsx:23-28 | holds by definition: the dialog computes the same expression as the table row, so both show the same count |
| StudentDetailPage.HandleLogClass | components/StudentDetail.tsx:31-33 | logs a class for this student's id |
| StudentDetailPage.HandlePromote | components/StudentDetail.tsx:35-37 | promotes this student's id |
| Financials.PaidTotalAppend | components/Financials.tsx:52-54 | the settled total of two histories in a row is the sum of their totals |
| Financials.UnpaidContributeNothing | components/Financials.tsx:53 | payments that are not settled add nothing |
| Financials.PendingIffNewestNotPaid | components/Financials.tsx:44-50 | a student is pending exactly when there is no newest settled payment |
| Financials.PendingStudents | components/Financials.tsx:44-50 | exactly the listed students that are pending, each as often as listed |
| Financials.PendingStudentsAppend | components/Financials.tsx:44-50 | the table keeps the list's order: the filter distributes over concatenation, and keeps one student exactly when pending |
| Financials.PendingCountStep | components/Financials.tsx:44-50 | the count shown grows by one with each pending student and by none otherwise |
| Financials.TotalRevenue | components/Financials.tsx:52-54 | no settled payment means no revenue |
| Financials.TotalRevenueStep | components/Financials.tsx:52-54 | one more student adds exactly that student's settled payments |
| Financials.MonthKey | components/Financials.tsx:17-20 | the key starts with the year, followed by a dash and at least two characters |
| Financials.MonthKeyShape | components/Financials.tsx:17-20 | the key is the year, a dash, and the month as exactly two digits |
| Financials.MonthKeySeparates | components/Financials.tsx:17-20 | two dates share a key exactly when they share year and month |
| Financials.AddToBucket | components/Financials.tsx:22-25 | the key holds an amount afterwards |
| Financials.AddToBucketAdds | components/Financials.tsx:22-25 | buckets stay well formed and their sum grows by the amount |
| Financials.RevenueByMonth | components/Financials.tsx:14-28 | the nested loops build the buckets of all payments, student by student |
| Financials.BucketIsMonthTotal | components/Financials.tsx:14-28 | each bucket holds the total of the settled payments of its month |
| Financials.BucketIffPaidInMonth | components/Financials.tsx:14-28 | a month has a bucket exactly when it has a settled payment |
| Financials.BucketsAddUpToTotal | components/Financials.tsx:14-28 | the buckets add up to the settled total of the payments seen |
| Financials.SumOverPermutation | components/Financials.tsx:32-33 | the sum over keys depends only on which keys are listed |
| Financials.MonthlyRows | components/Financials.tsx:32-41 | one row per month key, each with that key's amount |
| Financials.MonthlyRowsAscending | components/Financials.tsx:32-41 | chart rows come in ascending key order and never repeat a key |
| Financials.MonthlyRowsCoverBuckets | components/Financials.tsx:32-41 | there is a row for exactly the months that hold an amount |
| Financials.MonthlyRowsAddUpToTotal | components/Financials.tsx:11-54 | the chart rows add up to the total revenue |
| Dashboard.TotalStudents | components/Dashboard.tsx:36 | one per listed student; `CountedAndUncountedPartition` splits it into counted and uncounted |
| Dashboard.HasOpenPayment | components/Dashboard.tsx:39 | a student without payments has none open; an overdue or pending newest payment is open |
| Dashboard.OverdueCount | components/Dashboard.tsx:38-40 | the count never exceeds the number of students |
| Dashboard.CountedAndUncountedPartition | components/Dashboard.tsx:36-40 | counted and uncounted students make up the whole list |
| Dashboard.OverdueCountStep | components/Dashboard.tsx:38-40 | one more student raises the count by one exactly when that student has an overdue or pending payment |
| Dashboard.ClosedStudentsNotCounted | components/Dashboard.tsx:38-40 | with only settled or billed payments nobody is counted |
| Dashboard.FirstPaidAmount | components/Dashboard.tsx:43-47 | the amount of the first settled payment in the history, and 0 when there is none |
| Dashboard.MonthlyRevenue | components/Dashboard.tsx:42-49 | never negative when no amount is |
| Dashboard.FirstPaidWithinTotal | components/Dashboard.tsx:43-46 | the first settled payment is at most the settled total |
| Dashboard.MonthlyWithinTotal | components/Dashboard.tsx:42-49 | with no negative amounts, the month's revenue never exceeds the all-time revenue |
| Dashboard.NoPaidAddsNothing | components/Dashboard.tsx:43-48 | a student without a settled payment adds nothing |
| GraduationReport.BlackBelts | components/GraduationReport.tsx:10-12 | exactly the Adult Preta students, and no more of them than listed students |
| GraduationReport.BlackBeltsRoll | components/GraduationReport.tsx:10-12 | the roll holds exactly the Adult Preta students, each as often as listed, by start date |
| GraduationReport.OnlyAdultPretaListed | components/GraduationReport.tsx:10-11 | Kid belts and every other Adult rank never make the roll |
| GraduationReport.BlackBeltsBounded | components/GraduationReport.tsx:10-12 | the roll is no longer than the student list |
| BeltIndicator.Render | components/BeltIndicator.tsx:12-67 | the caption is the belt name; the marks are none or the stripes; only Kid belts are banded |
| BeltIndicator.MarksMatchStripes | components/BeltIndicator.tsx:62 | exactly the stripes are drawn unless hidden |
| BeltIndicator.RedTagIffBlack | components/BeltIndicator.tsx:18-19 | the tag and its marks are red exactly for black belts |
| BeltIndicator.TextColorContrast | components/BeltIndicator.tsx:48-55 | the text colour differs from the label colour exactly when that colour is light or black |
| BeltIndicator.BlackBarMeansBlackBelt | components/BeltIndicator.tsx:13 | every name with ` e Preta`, Kid bars included, gets the black-belt tag |
| BeltIndicator.CatalogBlackBarBelts | components/BeltIndicator.tsx:13 | the four Kid belts with a black bar are drawn as black belts |
| BeltIndicator.CatalogTopAdultBelts | components/BeltIndicator.tsx:13 | Adult Preta, the two Coral belts and Vermelha are drawn as black belts |
| BeltIndicator.CatalogOtherBeltsNotBlack | components/BeltIndicator.tsx:13 | every other catalog belt is not |
| BeltIndicator.CatalogBarBeltsBanded | components/BeltIndicator.tsx:21-39 | the eight two-colour Kid belts are banded in their own colour, with a white or black bar as named |
| BeltIndicator.CatalogOtherBeltsSolid | components/BeltIndicator.tsx:21-46 | every other catalog belt is a solid fill of its own colour |
| BeltIndicator.BandedOnlyForKidBars | components/BeltIndicator.tsx:21-46 | banded exactly for a Kid belt with a bar and a known base colour; the bar is white exactly for ` e Branca` |
| SyncCenter.ExportPayload | components/SyncCenter.tsx:20-24 | the payload holds exactly the three stores' contents |
| SyncCenter.ImportDecision | components/SyncCenter.tsx:44-71 | corrected: blank exactly for text `trim` empties (every ECMAScript white space and line terminator); replacement exactly for a valid, confirmed object payload, and then with its three sections |
| SyncCenter.UnicodeSpacesAreBlank | components/SyncCenter.tsx:45-47 | text of ideographic, em, line-separator and no-break spaces is blank |
| SyncCenter.ImportDecisionAsWritten | components/SyncCenter.tsx:10-12 | as written: no import replaces anything; a valid confirmed payload fails at the first loader call; every other outcome is the corrected one |
| SyncCenter.ExportImportRoundTrip | components/SyncCenter.tsx:18-67 | corrected: importing an exported payload, confirmed, restores exactly the exported data |
| SyncCenter.ExportImportFailsAsWritten | components/SyncCenter.tsx:57-70 | as written: importing an exported payload, confirmed, fails at the first loader instead of restoring it |
| SyncCenter.OnlyConfirmedImportsReplace | components/SyncCenter.tsx:57-67 | a declined import replaces nothing |
| SyncCenter.SyncScreen.GenerateExportCode | components/SyncCenter.tsx:18-31 | the export holds the current contents of the three stores |
| SyncCenter.SyncScreen.CopyToClipboard | components/SyncCenter.tsx:33-35 | nothing is written before an export exists; afterwards the export is |
| SyncCenter.SyncScreen.ImportAsWritten | components/SyncCenter.tsx:44-71 | as written: none of the three stores changes, whatever the input |
| SyncCenter.SyncScreen.Import | components/SyncCenter.tsx:44-71 | corrected: all three stores are replaced together with the payload's sections, or none is touched |
| PaymentFormPage.WithPlans | components/PaymentForm.tsx:31-37 | with plans the first plan's name and price are selected, nothing else changes |
| PaymentFormPage.ChoosePlan | components/PaymentForm.tsx:39-46 | the name is always taken; the amount changes only to the price of a plan of that name |
| PaymentFormPage.PaymentDialog.ChoosePlanByName | components/PaymentForm.tsx:39-46 | the dialog's fields become the plan choice applied to the old fields |
| PaymentFormPage.ChoosePlanTakesFirst | components/PaymentForm.tsx:41 | the amount is the price of the first plan of that name |
| PaymentFormPage.PlanPayment | components/PaymentForm.tsx:48-62 | no payment exactly without a student or with a NaN or negative amount; otherwise the form's amount, plan and status at the current time |
| PaymentFormPage.PaymentDialog.SubmitPlan | components/PaymentForm.tsx:48-62 | one payment added to the student, or nothing at all |
| PaymentFormPage.CardChargeAsWritten | components/PaymentForm.tsx:64-81 | as written: a charge exactly when all card fields are filled, settled, with the amount unchecked |
| PaymentFormPage.CardAcceptsUnreadableAmount | components/PaymentForm.tsx:75-79 | a filled-in card form with an unreadable amount records a settled NaN payment |
| PaymentFormPage.CardAcceptsNegativeAmount | components/PaymentForm.tsx:75-79 | a filled-in card form with a negative amount records a settled negative payment |
| PaymentFormPage.CardPayment | components/PaymentForm.tsx:64-81 | corrected: a payment exactly when all card fields are filled and the amount is a non-negative number; always settled |
| PaymentFormPage.CardPaymentAgreesWhenAmountValid | components/PaymentForm.tsx:64-81 | on readable non-negative amounts the corrected card submit records what the written one does |
| PaymentFormPage.PaymentDialog.SubmitCard | components/PaymentForm.tsx:64-87 | one settled payment added to the student, or nothing at all |

## Left out

- Persistence: `localStorage` reads and writes and `JSON.stringify`/`JSON.parse` are not modelled. A store load receives what parsing gave, as a `Parsed` value, and the effect that saves a store is represented only by the reload lemmas.
- The initial student list (`hooks/useStudents.tsx:74-89`) and its mock students are not modelled. `StudentStore` starts from a list given to its constructor.
- A stored value of the wrong JSON type inside an accepted object (a number where a string belongs, for instance) is not modelled. Stored fields are typed.
- `Date` handling is not modelled: ISO strings, `getFullYear`/`getMonth` (a parameter `Calendar`), chart labels (month names and short years) and `toISOString`.
- Random ids (`Math.random`) and the clock are parameters.
- `alert`, `window.confirm` (its answer is a parameter) and `window.location.reload` are not modelled.
- The clipboard promise and the copied-indicator timer are left out. So are the 2-second `setTimeout` and `isProcessing` flag of the card submit, whose callback is modelled as running at once.
- Floating point is not modelled: money is exact `real`, and progress percentages and `toFixed` formatting are left out.
- `NaN` amounts are not modelled as values. The written card submit's `CardCharge` carries an `Option<real>` instead.
- `toLowerCase` is modelled for ASCII and Latin-1 letters only.
- The thrown error of the import as written (`loadStudents is not a function`) is the outcome `LoaderMissing`; its message is not modelled.
- React rendering, CSS classes, sizes, the settings and payment tabs, and the form's prefill effect when editing are presentation and are left out.
- `services/*`, `useSyncStatus`, `SyncIndicator`, `App`, `Sidebar`, `ErrorBoundary` and `index` are not part of this model.
- `promoteStudent` reads `graduationConfig` (`hooks/useStudents.tsx:123-124`) and never uses it, so the model omits it. The model also does not capture that the handler reads the list as last rendered rather than the latest state.
- SettingsPage.SettingsListIsPrefix, SettingsPage.SettingsRowsByType: stated for a `catalog` parameter equal to the catalog, which is what the page passes.
- BeltIndicator.Render: states the shape of what is drawn. The per-belt colours are stated by the catalog lemmas beside it.
- Students.NextRank: its own contract covers a belt change only. The full rule is stated by `CatalogPromotion` and the unlisted-belt lemmas.
- Dashboard.OverdueCount: its own contract is the bound only. Its counting is stated by `OverdueCountStep` and `CountedAndUncountedPartition`.

## Findings

| source | as written | input that shows it | evidently intended | confidence | as-written member | corrected member |
|---|---|---|---|---|---|---|
| components/PaymentForm.tsx:64-81 | the card submit records `parseFloat(amount)` as a settled payment without the amount check the plan submit makes (lines 50-54) | all card fields filled in and an amount field that is empty (NaN) or `-150` | reject an unreadable or negative amount, as the plan submit does | not executed | PaymentFormPage.CardChargeAsWritten | PaymentFormPage.CardPayment |
| components/SyncCenter.tsx:10-12 | the import destructures `loadStudents` and `loadSettings`, which the student and settings contexts do not provide (hooks/useStudents.tsx:60-67 and :165, hooks/useAppSettings.tsx:8-12 and :57); the call on line 62 throws, the catch on line 68 reports it, and nothing is imported | the exported payload of any data, pasted back and confirmed | replace the students, the graduation table and the settings with the payload's sections | not executed | SyncCenter.ImportDecisionAsWritten | SyncCenter.ImportDecision |
