/** The three record kinds of the schema (doctors, patients, patient
    updates), the order each table is kept and listed in, and the
    row-selection predicates that the queries and cascades use. Record ids
    are abstract values handed out once each; creation times are readings of
    a counter that only moves forward. */
module Models {
  import opened Seqs

  type UserId = nat
  type DoctorId = nat
  type PatientId = nat
  type UpdateId = nat

  /** The profile fields a doctor signs up with. */
  datatype Profile = Profile(
    fullName: string,
    mobileNumber: string,
    emailAddress: Option<string>,
    specialty: string,
    yearsOfPractice: int,
    hospitalName: string,
    cityLocation: string)

  /** A row of `doctors`: linked one-to-one to a user account. */
  datatype Doctor = Doctor(id: DoctorId, user: UserId, profile: Profile, createdAt: nat, updatedAt: nat)

  /** The fields of the patient form; the images are stored file references. */
  datatype PatientForm = PatientForm(
    productName: string,
    diseaseName: string,
    conditionsTreated: string,
    biochemistryData: string,
    medicalInvestigation: string,
    improvementsObserved: string,
    beforeImage: Option<string>,
    afterImage: Option<string>)

  /** A row of `patients`: owned by exactly one doctor. */
  datatype Patient = Patient(id: PatientId, doctor: DoctorId, fields: PatientForm, createdAt: nat, updatedAt: nat)

  /** A parsed JSON value: the update payload, stored as given and never
      inspected by the application. */
  datatype Json =
    | JNull
    | JBool(b: bool)
    | JNumber(literal: string)
    | JString(s: string)
    | JArray(items: seq<Json>)
    | JObject(members: seq<(string, Json)>)

  /** A row of `patient_updates`: owned by exactly one patient; its
      `updatedAt` is set once, at creation. */
  datatype PatientUpdate = PatientUpdate(id: UpdateId, patient: PatientId, updateData: Json, updatedAt: nat)

  /** Table order: every earlier row has a different id (and, for doctors,
      a different account and mobile number) and was created strictly
      earlier. */
  predicate DoctorBefore(a: Doctor, b: Doctor) {
    a.id != b.id && a.user != b.user && a.profile.mobileNumber != b.profile.mobileNumber && a.createdAt < b.createdAt
  }

  predicate PatientBefore(a: Patient, b: Patient) {
    a.id != b.id && a.createdAt < b.createdAt
  }

  predicate UpdateBefore(a: PatientUpdate, b: PatientUpdate) {
    a.id != b.id && a.updatedAt < b.updatedAt
  }

  /** `ordering = ['-created_at']` on patients. */
  predicate PatientsNewestFirst(ps: seq<Patient>) {
    forall i, j :: 0 <= i < j < |ps| ==> ps[i].createdAt > ps[j].createdAt
  }

  /** `ordering = ['-updated_at']` on patient updates. */
  predicate UpdatesNewestFirst(us: seq<PatientUpdate>) {
    forall i, j :: 0 <= i < j < |us| ==> us[i].updatedAt > us[j].updatedAt
  }

  function DoctorIds(ds: seq<Doctor>): set<DoctorId> {
    set d | d in ds :: d.id
  }

  function PatientIds(ps: seq<Patient>): set<PatientId> {
    set p | p in ps :: p.id
  }

  function UpdateIds(us: seq<PatientUpdate>): set<UpdateId> {
    set u | u in us :: u.id
  }

  /** The ids of the patients owned by doctor `d`. */
  function PatientIdsOf(ps: seq<Patient>, d: DoctorId): set<PatientId> {
    set p | p in ps && p.doctor == d :: p.id
  }

  // Row selections, one per query or cascade.

  function HasUser(user: UserId): Doctor -> bool {
    (d: Doctor) => d.user == user
  }

  function TakenBy(user: UserId, mobile: string): Doctor -> bool {
    (d: Doctor) => d.user == user || d.profile.mobileNumber == mobile
  }

  function DoctorIsNot(id: DoctorId): Doctor -> bool {
    (d: Doctor) => d.id != id
  }

  function OwnedBy(doctor: DoctorId): Patient -> bool {
    (p: Patient) => p.doctor == doctor
  }

  function NotOwnedBy(doctor: DoctorId): Patient -> bool {
    (p: Patient) => p.doctor != doctor
  }

  function PatientIsNot(id: PatientId): Patient -> bool {
    (p: Patient) => p.id != id
  }

  function OwnedAs(id: PatientId, doctor: DoctorId): Patient -> bool {
    (p: Patient) => p.id == id && p.doctor == doctor
  }

  function OfPatient(id: PatientId): PatientUpdate -> bool {
    (u: PatientUpdate) => u.patient == id
  }

  function NotOfAny(ids: set<PatientId>): PatientUpdate -> bool {
    (u: PatientUpdate) => u.patient !in ids
  }

  /** A doctor's patients, newest first: `Patient.objects.filter(doctor=...)`
      under the model's ordering. Exactly the owned rows, each once. */
  function PatientsOf(ps: seq<Patient>, d: DoctorId): (r: seq<Patient>)
    requires Pairwise(ps, PatientBefore)
    ensures forall p :: p in r <==> p in ps && p.doctor == d
    ensures PatientsNewestFirst(r)
  {
    var owned := Filter(ps, OwnedBy(d));
    FilterPairwise(ps, OwnedBy(d), PatientBefore);
    ReversePairwise(owned, PatientBefore);
    Reverse(owned)
  }

  /** A patient's updates, newest first: `PatientUpdate.objects.filter(patient=...)`
      under the model's ordering. Exactly that patient's rows, each once. */
  function UpdatesOf(us: seq<PatientUpdate>, id: PatientId): (r: seq<PatientUpdate>)
    requires Pairwise(us, UpdateBefore)
    ensures forall u :: u in r <==> u in us && u.patient == id
    ensures UpdatesNewestFirst(r)
  {
    var mine := Filter(us, OfPatient(id));
    FilterPairwise(us, OfPatient(id), UpdateBefore);
    ReversePairwise(mine, UpdateBefore);
    Reverse(mine)
  }

  /** Two different doctors in a table kept in `DoctorBefore` order belong
      to different accounts: an account has at most one doctor profile. */
  lemma DistinctDoctors(ds: seq<Doctor>, a: Doctor, b: Doctor)
    requires Pairwise(ds, DoctorBefore)
    requires a in ds && b in ds && a != b
    ensures a.user != b.user
  {
    var i :| 0 <= i < |ds| && ds[i] == a;
    var j :| 0 <= j < |ds| && ds[j] == b;
    if i < j {
      assert DoctorBefore(ds[i], ds[j]);
    } else {
      assert DoctorBefore(ds[j], ds[i]);
    }
  }

  /** Two different patients in a table kept in `PatientBefore` order have
      different ids. */
  lemma DistinctPatients(ps: seq<Patient>, a: Patient, b: Patient)
    requires Pairwise(ps, PatientBefore)
    requires a in ps && b in ps && a != b
    ensures a.id != b.id
  {
    var i :| 0 <= i < |ps| && ps[i] == a;
    var j :| 0 <= j < |ps| && ps[j] == b;
    if i < j {
      assert PatientBefore(ps[i], ps[j]);
    } else {
      assert PatientBefore(ps[j], ps[i]);
    }
  }

  /** A patient appended to the table heads its doctor's listing and leaves
      every other doctor's listing as it was. */
  lemma PatientsOfSnoc(ps: seq<Patient>, p: Patient, d: DoctorId)
    requires Pairwise(ps + [p], PatientBefore)
    ensures Pairwise(ps, PatientBefore)
    ensures PatientsOf(ps + [p], d) == if p.doctor == d then [p] + PatientsOf(ps, d) else PatientsOf(ps, d)
  {
    assert Pairwise(ps, PatientBefore) by {
      forall i, j | 0 <= i < j < |ps| ensures PatientBefore(ps[i], ps[j]) {
        assert (ps + [p])[i] == ps[i] && (ps + [p])[j] == ps[j];
      }
    }
    FilterSnoc(ps, p, OwnedBy(d));
    if p.doctor == d {
      ReverseSnoc(Filter(ps, OwnedBy(d)), p);
    }
  }

  /** An update appended to the table heads its patient's update list and
      leaves every other patient's list as it was. */
  lemma UpdatesOfSnoc(us: seq<PatientUpdate>, u: PatientUpdate, id: PatientId)
    requires Pairwise(us + [u], UpdateBefore)
    ensures Pairwise(us, UpdateBefore)
    ensures UpdatesOf(us + [u], id) == if u.patient == id then [u] + UpdatesOf(us, id) else UpdatesOf(us, id)
  {
    assert Pairwise(us, UpdateBefore) by {
      forall i, j | 0 <= i < j < |us| ensures UpdateBefore(us[i], us[j]) {
        assert (us + [u])[i] == us[i] && (us + [u])[j] == us[j];
      }
    }
    FilterSnoc(us, u, OfPatient(id));
    if u.patient == id {
      ReverseSnoc(Filter(us, OfPatient(id)), u);
    }
  }
}
