# Doctor feedback dashboard: condition lists and the ownership-scoped record store

This Dafny project models two parts of a small Django application in which
doctors keep patient treatment records.

1. The derived accessor `Patient.get_conditions_list`. It takes the stored
   `conditions_treated` text, splits it on every comma and strips whitespace
   from each piece. Empty text gives the empty list. (Module `Conditions`.)
2. The record effects of the request handlers over three tables:
   - `doctors`, each linked one-to-one to a user account;
   - `patients`, each owned by one doctor;
   - `patient_updates`, each owned by one patient.

   The handlers modelled are the dashboard, the patient detail page, adding a
   patient and adding an update. The model also covers the deletes that the
   schema cascades (a doctor takes its patients with it, and a patient its
   updates) and the declared orderings: patients newest-created first,
   updates newest first. (Modules `Models` and `Store`.)

Layout:

- `seqs.dfy` (`Seqs`) holds sequence helpers:
  - an order-preserving `Filter`, the shape of a queryset filter;
  - a first-match `Find`, the shape of a keyed `get`;
  - `Reverse`;
  - `Pairwise`, which states the order a table is kept in.
- `conditions.dfy` (`Conditions`) holds:
  - `Split` and `Join` on a separator;
  - `Strip`, over an explicit whitespace predicate;
  - `ConditionsList`, and the lemmas about them.
- `models.py`'s records are datatypes in `models.dfy` (`Models`). A table is
  a `seq` kept in creation order. A listing is read off a table as the
  reverse of a filter, so the newest row comes first.
- `store.dfy` (`Store`) holds:
  - the class `RecordStore`, with the three tables and two counters as
    fields. `nextId` hands out fresh record ids and `clock` stamps creation
    times;
  - the handlers that write: `AddPatient`, `AddUpdate`, the signup row insert
    `AddDoctor`, `DeleteDoctor` and `DeletePatient`. These are methods that
    `modify` the store;
  - the handlers that only read: `ProfileOf`, `Dashboard`, `OwnedPatient` and
    `PatientDetail`. These are functions over the table contents.

Every handler resolves the requesting account to its doctor profile first.
With no profile it returns `MissingProfile` and changes nothing. Every
patient lookup is scoped to that doctor, and a patient that exists under
another doctor is `NotFound`. An invalid form is `InvalidForm` and changes
nothing. The class invariant `Valid` (`TablesValid` on the fields) states:

- every table is in creation order with unique ids;
- doctors have unique accounts and unique mobile numbers;
- every id and stamp has already been handed out;
- every patient's doctor and every update's patient exists.

Every method keeps the invariant.

`doc/docform/urls.py:14-16` routes to `edit_patient_view`,
`delete_patient_view` and `delete_update_view`, but `doc/docform/views.py`
defines none of them. The model therefore has no edit operation, and it
models delete only as the cascade the schema declares
(`doc/docform/models.py:28`, `doc/docform/models.py:56`).

Signup (`doc/docform/forms.py:31-45`) runs no transaction: `user.save()`
commits before `Doctor.objects.create`. A clashing mobile number therefore
raises an uncaught integrity error after the account already exists, and
leaves an account with no doctor profile. That is the state the
`MissingProfile` guard handles. Signup is left out, apart from the
doctor-row insert (`AddDoctor`).

## Model

| member | source | states |
|---|---|---|
| Conditions.Split | doc/docform/models.py:46 | `split(',')` gives one more piece than there are separators, and no piece holds the separator |
| Conditions.JoinSplit | doc/docform/models.py:46 | joining the pieces of a split with the separator gives back the text |
| Conditions.SplitJoin | doc/docform/models.py:46 | splitting the join of a non-empty list of separator-free pieces gives back the pieces |
| Conditions.Strip | doc/docform/models.py:46 | `strip()` gives a contiguous part of the text whose ends are not whitespace, and everything cut off on either side is whitespace |
| Conditions.StripWithin | doc/docform/models.py:46 | stripping never brings in a character the text did not have |
| Conditions.StripTrimmed | doc/docform/models.py:46 | a text without surrounding whitespace strips to itself |
| Conditions.StripLeadingSpace | doc/docform/models.py:46 | leading whitespace before a trimmed text is removed and the text is kept |
| Conditions.ConditionsList | doc/docform/models.py:43-47 | empty list exactly when the text is empty; otherwise one entry per comma-separated segment (commas + 1), each the stripped segment, so empty segments are kept; no entry holds a comma or has surrounding whitespace |
| Conditions.ConditionsRoundTrip | doc/docform/models.py:46 | when no segment has surrounding whitespace, joining the entries with commas gives back the stored text |
| Conditions.ConditionsOfJoin | doc/docform/models.py:46 | reading back the comma-join of comma-free pieces gives each piece stripped, in order |
| Conditions.ConditionsFromJoin | doc/docform/models.py:46 | a list of comma-free, trimmed entries (other than one empty entry) is what its comma-join reads back as |
| Conditions.ExampleHelpText | doc/docform/models.py:46 | `"Diabetes, Hypertension,  Obesity"` gives `["Diabetes", "Hypertension", "Obesity"]` |
| Conditions.ExampleEmptyMiddle | doc/docform/models.py:46 | `"a,,b"` gives `["a", "", "b"]`: an empty segment is kept |
| Conditions.ExampleEmptyTrailing | doc/docform/models.py:46 | `"a,"` gives `["a", ""]`: a trailing comma gives a trailing empty entry |
| Models.PatientsOf | doc/docform/models.py:49-51 | a doctor's patient listing holds exactly the rows owned by that doctor, strictly newest-created first |
| Models.UpdatesOf | doc/docform/models.py:63-65 | a patient's update listing holds exactly that patient's updates, strictly newest first |
| Models.DistinctDoctors | doc/docform/models.py:8 | two different doctor rows belong to two different accounts (one profile per account) |
| Models.DistinctPatients | doc/docform/models.py:27 | two different patient rows have different ids |
| Models.PatientsOfSnoc | doc/docform/views.py:91-93 | a saved patient heads its owner's listing, and every other doctor's listing is unchanged |
| Models.UpdatesOfSnoc | doc/docform/views.py:139-141 | a saved update heads its patient's list, and every other patient's list is unchanged |
| Store.AppendDoctorValid | doc/docform/models.py:6-17 | a doctor row whose account and mobile number are both unused keeps the store invariant |
| Store.AppendPatientValid | doc/docform/models.py:26-38 | a patient row owned by an existing doctor keeps the store invariant |
| Store.AppendUpdateValid | doc/docform/models.py:54-58 | an update row attached to an existing patient keeps the store invariant |
| Store.ProfileOf | doc/docform/views.py:63-67 | the doctor linked to the account, or none exactly when no doctor row has that account |
| Store.Dashboard | doc/docform/views.py:60-76 | no profile gives `MissingProfile`; otherwise the page shows exactly the current doctor's patients, newest first, with `total_patients` equal to their number |
| Store.OwnedPatient | doc/docform/views.py:107-113 | no profile gives `MissingProfile`; `NotFound` exactly when no patient has that id and the current doctor as owner; otherwise that owned patient |
| Store.PatientDetail | doc/docform/views.py:104-122 | fails exactly as the ownership guard does; otherwise the owned patient, exactly its updates newest first, and its conditions list |
| Store.ForeignPatientNotFound | doc/docform/views.py:113 | a patient that exists under another doctor is not found, both by the guard and on the detail page |
| Store.DashboardAfterAdd | doc/docform/views.py:88-95 | after a patient is added for the current doctor, it heads that doctor's dashboard in front of the earlier listing |
| Store.DetailAfterAdd | doc/docform/views.py:134-143 | after an update is added to an owned patient, it heads that patient's update list in front of the earlier list |
| Store.DashboardAfterDeleteDoctor | doc/docform/models.py:28 | deleting a doctor, cascade included, leaves every other doctor's dashboard exactly as it was |
| Store.DetailAfterDeleteDoctor | doc/docform/models.py:28 | deleting a doctor, cascade included, leaves every detail page of every other doctor exactly as it was, updates included |
| Store.DetailAfterDeletePatient | doc/docform/models.py:56 | deleting a patient, cascade included, leaves every other patient's detail page exactly as it was |
| Store.RecordStore.InsertDoctor | doc/docform/models.py:6-17 | saving a doctor row appends it with the next id and stamp; nothing else changes; the invariant holds |
| Store.RecordStore.InsertPatient | doc/docform/views.py:93 | `patient.save()` appends the row with the next id and stamp; nothing else changes; the invariant holds |
| Store.RecordStore.InsertUpdate | doc/docform/views.py:141 | `update.save()` appends the row with the next id and stamp; nothing else changes; the invariant holds |
| Store.RecordStore.AddDoctor | doc/docform/models.py:8-10 | the row signup creates: refused as `Duplicate`, changing nothing, exactly when the account already has a profile or the mobile number is taken; otherwise one new doctor row with a fresh id, which becomes the account's profile |
| Store.RecordStore.AddPatient | doc/docform/views.py:79-101 | no profile gives `MissingProfile` and an invalid form gives `InvalidForm`, and neither changes anything; otherwise exactly one patient row is appended, with a fresh id, the current doctor as owner and the submitted fields; the other tables are unchanged and the new patient heads the dashboard |
| Store.RecordStore.AddUpdate | doc/docform/views.py:125-154 | fails as the ownership guard does (checked before the form); an invalid form gives `InvalidForm`; no refusal changes anything; otherwise exactly one update row is appended, with a fresh id, attached to the owned patient, keeping the payload unchanged; it heads that patient's update list |
| Store.RecordStore.DeleteDoctor | doc/docform/models.py:28 | removes the doctor, exactly its patients and exactly their updates; every other row stays, in order; the id and stamp counters keep their values; the invariant holds |
| Store.RecordStore.DeletePatient | doc/docform/models.py:56 | removes the patient and exactly its updates; every other row stays, in order; the id and stamp counters keep their values; the invariant holds |

## Left out

- Authentication, sessions and `@login_required` are Django's auth subsystem. A request is modelled by the account id it carries.
- Store.RecordStore.AddDoctor models only the doctor-row insert and its uniqueness constraints. Signup's password validation, user creation and session login are Django's, and the code runs no transaction.
- The GET branches of `add_patient_view` and `add_update_view` only render a form and change no record. For the update handler the guard's outcome on GET is exactly `OwnedPatient`.
- Templates, flash messages, redirects and HTTP status codes are presentation. `NotFound` stands for the 404 and `MissingProfile` for the redirect to login.
- Store.RecordStore.AddUpdate takes the update payload as an already-parsed `Json` value that is never inspected. It takes form validity as the boolean `valid`. Parsing is `json.loads`, a foreign library.
- Images and file storage are file I/O. The image fields are optional file references that are stored as given.
- UUIDs and the wall clock are replaced by the counters `nextId` and `clock`. Stamps are therefore distinct, and the model does not say how rows with equal real timestamps would be ordered.
- `updated_at` (`auto_now`) is set at creation and never changes in the model, because no edit operation exists in the handlers.
- `doc/docform/admin.py` and `doc/docform/urls.py` are configuration and routing. The edit and delete routes name views that `doc/docform/views.py` does not define, so deletion is only the cascade the schema declares.
- The user-accounts table is not modelled. Deleting an account cascades to its doctor (`doc/docform/models.py:8`), which is `DeleteDoctor`.
- Conditions.IsSpace lists the code points for which Python's `str.isspace` holds. Full Unicode fidelity beyond that list is not claimed.
- Django's form `CharField` strips submitted text by default. The model takes the stored `conditions_treated` text as given, so `ConditionsList` is stated for any text.
- `get_object_or_404` raising on several matches cannot arise, because patient ids are unique.
- Field lengths, email and number validation of the profile and patient forms are form validation and are left out.
