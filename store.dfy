/** The record store behind the request handlers: three tables (doctors,
    patients owned by a doctor, updates owned by a patient), the
    ownership-scoped reads of the dashboard and patient-detail handlers, the
    writes of the add-patient and add-update handlers, and the deletes the
    schema cascades. Every handler first resolves the requesting account to
    its doctor profile and turns the request away, touching nothing, when
    there is none. */
module Store {
  import opened Seqs
  import opened Models
  import opened Conditions

  /** Why a request was turned away. */
  datatype Failure =
    | MissingProfile  // the account has no doctor profile: sent back to login
    | NotFound        // the patient is not one of the current doctor's (a 404)
    | InvalidForm     // the submitted form did not validate: nothing is saved
    | Duplicate       // the account already has a profile, or the mobile number is taken

  datatype Result<T> = Ok(value: T) | Err(failure: Failure)

  /** What the dashboard shows. */
  datatype DashboardPage = DashboardPage(doctor: Doctor, patients: seq<Patient>, totalPatients: nat)

  /** What the patient-detail page shows. */
  datatype DetailPage = DetailPage(doctor: Doctor, patient: Patient, updates: seq<PatientUpdate>, conditions: seq<string>)

  /** The store's invariant on the table contents: each table is kept in
      creation order with unique ids (doctors also with unique accounts and
      mobile numbers); every id and stamp was handed out already; every
      patient's doctor and every update's patient exists. */
  ghost predicate TablesValid(ds: seq<Doctor>, ps: seq<Patient>, us: seq<PatientUpdate>, nextId: nat, clock: nat) {
    && Pairwise(ds, DoctorBefore)
    && Pairwise(ps, PatientBefore)
    && Pairwise(us, UpdateBefore)
    && (forall d :: d in ds ==> d.id < nextId && d.createdAt < clock)
    && (forall p :: p in ps ==> p.id < nextId && p.createdAt < clock && p.doctor in DoctorIds(ds))
    && (forall u :: u in us ==> u.id < nextId && u.updatedAt < clock && u.patient in PatientIds(ps))
  }

  /** Appending a doctor with the next id and stamp, whose account and
      mobile number are not taken, keeps the invariant. */
  lemma AppendDoctorValid(ds: seq<Doctor>, ps: seq<Patient>, us: seq<PatientUpdate>, nextId: nat, clock: nat, d: Doctor)
    requires TablesValid(ds, ps, us, nextId, clock)
    requires d.id == nextId && d.createdAt == clock
    requires forall e :: e in ds ==> e.user != d.user && e.profile.mobileNumber != d.profile.mobileNumber
    ensures TablesValid(ds + [d], ps, us, nextId + 1, clock + 1)
  {
    PairwiseSnoc(ds, d, DoctorBefore);
    assert DoctorIds(ds + [d]) == DoctorIds(ds) + {d.id};
  }

  /** Appending a patient with the next id and stamp, owned by an existing
      doctor, keeps the invariant. */
  lemma AppendPatientValid(ds: seq<Doctor>, ps: seq<Patient>, us: seq<PatientUpdate>, nextId: nat, clock: nat, p: Patient)
    requires TablesValid(ds, ps, us, nextId, clock)
    requires p.id == nextId && p.createdAt == clock && p.doctor in DoctorIds(ds)
    ensures TablesValid(ds, ps + [p], us, nextId + 1, clock + 1)
  {
    PairwiseSnoc(ps, p, PatientBefore);
    assert PatientIds(ps + [p]) == PatientIds(ps) + {p.id};
  }

  /** Appending an update with the next id and stamp, attached to an
      existing patient, keeps the invariant. */
  lemma AppendUpdateValid(ds: seq<Doctor>, ps: seq<Patient>, us: seq<PatientUpdate>, nextId: nat, clock: nat, u: PatientUpdate)
    requires TablesValid(ds, ps, us, nextId, clock)
    requires u.id == nextId && u.updatedAt == clock && u.patient in PatientIds(ps)
    ensures TablesValid(ds, ps, us + [u], nextId + 1, clock + 1)
  {
    PairwiseSnoc(us, u, UpdateBefore);
  }

  /** `request.user.doctor_profile`: the doctor linked to the account. */
  function ProfileOf(ds: seq<Doctor>, user: UserId): (r: Option<Doctor>)
    ensures r.Some? ==> r.value in ds && r.value.user == user
    ensures r.None? <==> forall d :: d in ds ==> d.user != user
  {
    Find(ds, HasUser(user))
  }

  /** `dashboard_view`: exactly the current doctor's patients, newest
      first, with their number. */
  function Dashboard(ds: seq<Doctor>, ps: seq<Patient>, user: UserId): (r: Result<DashboardPage>)
    requires Pairwise(ps, PatientBefore)
    ensures r.Err? <==> forall d :: d in ds ==> d.user != user
    ensures r.Err? ==> r.failure == MissingProfile
    ensures r.Ok? ==> r.value.doctor in ds && r.value.doctor.user == user
    ensures r.Ok? ==> forall p :: p in r.value.patients <==> p in ps && p.doctor == r.value.doctor.id
    ensures r.Ok? ==> PatientsNewestFirst(r.value.patients)
    ensures r.Ok? ==> r.value.totalPatients == |r.value.patients|
  {
    match ProfileOf(ds, user)
    case None => Err(MissingProfile)
    case Some(d) =>
      var owned := PatientsOf(ps, d.id);
      Ok(DashboardPage(d, owned, |owned|))
  }

  /** The ownership guard of the patient handlers:
      `get_object_or_404(Patient, id=patient_id, doctor=doctor)` after the
      profile lookup. A patient that exists under another doctor is not
      found. */
  function OwnedPatient(ds: seq<Doctor>, ps: seq<Patient>, user: UserId, id: PatientId): (r: Result<(Doctor, Patient)>)
    ensures r == Err(MissingProfile) <==> forall d :: d in ds ==> d.user != user
    ensures r == Err(NotFound) <==>
      ProfileOf(ds, user).Some? && forall p :: p in ps ==> !(p.id == id && p.doctor == ProfileOf(ds, user).value.id)
    ensures r.Err? ==> r.failure == MissingProfile || r.failure == NotFound
    ensures r.Ok? ==> r.value.0 in ds && r.value.0.user == user
    ensures r.Ok? ==> r.value.1 in ps && r.value.1.id == id && r.value.1.doctor == r.value.0.id
  {
    match ProfileOf(ds, user)
    case None => Err(MissingProfile)
    case Some(d) =>
      match Find(ps, OwnedAs(id, d.id))
      case None => Err(NotFound)
      case Some(p) => Ok((d, p))
  }

  /** `patient_detail_view`: the owned patient, exactly its updates newest
      first, and its conditions list. */
  function PatientDetail(ds: seq<Doctor>, ps: seq<Patient>, us: seq<PatientUpdate>, user: UserId, id: PatientId): (r: Result<DetailPage>)
    requires Pairwise(us, UpdateBefore)
    ensures r.Err? <==> OwnedPatient(ds, ps, user, id).Err?
    ensures r.Err? ==> r.failure == OwnedPatient(ds, ps, user, id).failure
    ensures r.Ok? ==> (r.value.doctor, r.value.patient) == OwnedPatient(ds, ps, user, id).value
    ensures r.Ok? ==> forall u :: u in r.value.updates <==> u in us && u.patient == id
    ensures r.Ok? ==> UpdatesNewestFirst(r.value.updates)
    ensures r.Ok? ==> r.value.conditions == ConditionsList(r.value.patient.fields.conditionsTreated)
  {
    match OwnedPatient(ds, ps, user, id)
    case Err(f) => Err(f)
    case Ok((d, p)) => Ok(DetailPage(d, p, UpdatesOf(us, id), ConditionsList(p.fields.conditionsTreated)))
  }

  /** A patient under another doctor is not found, by the guard and on the
      detail page, even though it exists. */
  lemma ForeignPatientNotFound(ds: seq<Doctor>, ps: seq<Patient>, us: seq<PatientUpdate>, user: UserId, p: Patient)
    requires Pairwise(ps, PatientBefore) && Pairwise(us, UpdateBefore)
    requires ProfileOf(ds, user).Some? && p in ps && p.doctor != ProfileOf(ds, user).value.id
    ensures OwnedPatient(ds, ps, user, p.id) == Err(NotFound)
    ensures PatientDetail(ds, ps, us, user, p.id) == Err(NotFound)
  {
  }

  /** A patient added for the current doctor heads that doctor's dashboard,
      in front of what it listed before. */
  lemma DashboardAfterAdd(ds: seq<Doctor>, ps: seq<Patient>, user: UserId, p: Patient)
    requires Pairwise(ps + [p], PatientBefore)
    requires ProfileOf(ds, user).Some? && p.doctor == ProfileOf(ds, user).value.id
    ensures Pairwise(ps, PatientBefore)
    ensures Dashboard(ds, ps + [p], user).Ok?
    ensures Dashboard(ds, ps + [p], user).value.patients == [p] + Dashboard(ds, ps, user).value.patients
  {
    PatientsOfSnoc(ps, p, p.doctor);
  }

  /** An update added to an owned patient heads that patient's update list
      on the detail page, in front of what it listed before. */
  lemma DetailAfterAdd(ds: seq<Doctor>, ps: seq<Patient>, us: seq<PatientUpdate>, user: UserId, u: PatientUpdate)
    requires Pairwise(us + [u], UpdateBefore)
    requires OwnedPatient(ds, ps, user, u.patient).Ok?
    ensures Pairwise(us, UpdateBefore)
    ensures PatientDetail(ds, ps, us + [u], user, u.patient).Ok?
    ensures PatientDetail(ds, ps, us + [u], user, u.patient).value.updates == [u] + PatientDetail(ds, ps, us, user, u.patient).value.updates
  {
    UpdatesOfSnoc(us, u, u.patient);
  }

  /** Deleting a doctor leaves every other doctor's dashboard exactly as
      it was. */
  lemma DashboardAfterDeleteDoctor(ds: seq<Doctor>, ps: seq<Patient>, user: UserId, id: DoctorId)
    requires Pairwise(ds, DoctorBefore) && Pairwise(ps, PatientBefore)
    requires ProfileOf(ds, user).Some? && ProfileOf(ds, user).value.id != id
    ensures Pairwise(Filter(ps, NotOwnedBy(id)), PatientBefore)
    ensures Dashboard(Filter(ds, DoctorIsNot(id)), Filter(ps, NotOwnedBy(id)), user) == Dashboard(ds, ps, user)
  {
    var me := ProfileOf(ds, user).value;
    FilterPairwise(ps, NotOwnedBy(id), PatientBefore);
    forall e | e in ds && HasUser(user)(e) ensures DoctorIsNot(id)(e) {
      if e != me {
        DistinctDoctors(ds, e, me);
      }
    }
    FindFilter(ds, DoctorIsNot(id), HasUser(user));
    FilterFilter(ps, NotOwnedBy(id), OwnedBy(me.id));
  }

  /** Deleting a doctor leaves every patient detail page of every other
      doctor exactly as it was, updates included. */
  lemma DetailAfterDeleteDoctor(ds: seq<Doctor>, ps: seq<Patient>, us: seq<PatientUpdate>, user: UserId, pid: PatientId, id: DoctorId)
    requires Pairwise(ds, DoctorBefore) && Pairwise(ps, PatientBefore) && Pairwise(us, UpdateBefore)
    requires ProfileOf(ds, user).Some? && ProfileOf(ds, user).value.id != id
    ensures Pairwise(Filter(us, NotOfAny(PatientIdsOf(ps, id))), UpdateBefore)
    ensures PatientDetail(Filter(ds, DoctorIsNot(id)), Filter(ps, NotOwnedBy(id)), Filter(us, NotOfAny(PatientIdsOf(ps, id))), user, pid)
      == PatientDetail(ds, ps, us, user, pid)
  {
    var me := ProfileOf(ds, user).value;
    var gone := PatientIdsOf(ps, id);
    FilterPairwise(us, NotOfAny(gone), UpdateBefore);
    forall e | e in ds && HasUser(user)(e) ensures DoctorIsNot(id)(e) {
      if e != me {
        DistinctDoctors(ds, e, me);
      }
    }
    FindFilter(ds, DoctorIsNot(id), HasUser(user));
    FindFilter(ps, NotOwnedBy(id), OwnedAs(pid, me.id));
    var found := Find(ps, OwnedAs(pid, me.id));
    if found.Some? {
      forall q | q in ps && q.doctor == id ensures q.id != pid {
        if q != found.value {
          DistinctPatients(ps, q, found.value);
        }
      }
      assert pid !in gone;
      FilterFilter(us, NotOfAny(gone), OfPatient(pid));
    }
  }

  /** Deleting a patient leaves every other patient's detail page exactly
      as it was, for every account. */
  lemma DetailAfterDeletePatient(ds: seq<Doctor>, ps: seq<Patient>, us: seq<PatientUpdate>, user: UserId, other: PatientId, id: PatientId)
    requires Pairwise(us, UpdateBefore)
    requires other != id
    ensures Pairwise(Filter(us, NotOfAny({id})), UpdateBefore)
    ensures PatientDetail(ds, Filter(ps, PatientIsNot(id)), Filter(us, NotOfAny({id})), user, other) == PatientDetail(ds, ps, us, user, other)
  {
    FilterPairwise(us, NotOfAny({id}), UpdateBefore);
    if ProfileOf(ds, user).Some? {
      FindFilter(ps, PatientIsNot(id), OwnedAs(other, ProfileOf(ds, user).value.id));
    }
    FilterFilter(us, NotOfAny({id}), OfPatient(other));
  }

  class RecordStore {
    var doctors: seq<Doctor>
    var patients: seq<Patient>
    var updates: seq<PatientUpdate>
    // The source of fresh record ids and the clock that stamps creation times.
    var nextId: nat
    var clock: nat

    /** Each table is kept in creation order with unique ids (doctors also
        with unique accounts and mobile numbers); every id and stamp was
        handed out already; every patient's doctor and every update's patient
        exists. */
    ghost predicate Valid()
      reads this
    {
      TablesValid(doctors, patients, updates, nextId, clock)
    }

    constructor ()
      ensures Valid()
      ensures doctors == [] && patients == [] && updates == []
    {
      doctors, patients, updates := [], [], [];
      nextId, clock := 0, 0;
    }

    /** Saving a new doctor row: it takes the next id and the current
        stamp, and is appended to its table. */
    method InsertDoctor(d: Doctor)
      requires Valid()
      requires d.id == nextId && d.createdAt == clock
      requires forall e :: e in doctors ==> e.user != d.user && e.profile.mobileNumber != d.profile.mobileNumber
      modifies this
      ensures Valid()
      ensures doctors == old(doctors) + [d] && patients == old(patients) && updates == old(updates)
      ensures nextId == old(nextId) + 1 && clock == old(clock) + 1
    {
      AppendDoctorValid(doctors, patients, updates, nextId, clock, d);
      doctors, nextId, clock := doctors + [d], nextId + 1, clock + 1;
    }

    /** Saving a new patient row, owned by an existing doctor. */
    method InsertPatient(p: Patient)
      requires Valid()
      requires p.id == nextId && p.createdAt == clock && p.doctor in DoctorIds(doctors)
      modifies this
      ensures Valid()
      ensures doctors == old(doctors) && patients == old(patients) + [p] && updates == old(updates)
      ensures nextId == old(nextId) + 1 && clock == old(clock) + 1
    {
      AppendPatientValid(doctors, patients, updates, nextId, clock, p);
      patients, nextId, clock := patients + [p], nextId + 1, clock + 1;
    }

    /** Saving a new update row, attached to an existing patient. */
    method InsertUpdate(u: PatientUpdate)
      requires Valid()
      requires u.id == nextId && u.updatedAt == clock && u.patient in PatientIds(patients)
      modifies this
      ensures Valid()
      ensures doctors == old(doctors) && patients == old(patients) && updates == old(updates) + [u]
      ensures nextId == old(nextId) + 1 && clock == old(clock) + 1
    {
      AppendUpdateValid(doctors, patients, updates, nextId, clock, u);
      updates, nextId, clock := updates + [u], nextId + 1, clock + 1;
    }

    /** The doctor row that signup creates (`Doctor.objects.create`), under
        the schema's constraints: one profile per account and a unique mobile
        number. A clash changes nothing. */
    method AddDoctor(user: UserId, profile: Profile) returns (r: Result<DoctorId>)
      requires Valid()
      modifies this
      ensures Valid()
      ensures r.Ok? <==> old(forall d :: d in doctors ==> d.user != user && d.profile.mobileNumber != profile.mobileNumber)
      ensures r.Err? ==> r.failure == Duplicate && unchanged(this)
      ensures r.Ok? ==> r.value !in old(DoctorIds(doctors))
      ensures r.Ok? ==> doctors == old(doctors) + [Doctor(r.value, user, profile, old(clock), old(clock))]
      ensures r.Ok? ==> patients == old(patients) && updates == old(updates)
      ensures r.Ok? ==> ProfileOf(doctors, user) == Some(doctors[|doctors| - 1])
    {
      if Find(doctors, TakenBy(user, profile.mobileNumber)).Some? {
        return Err(Duplicate);
      }
      var d := Doctor(nextId, user, profile, clock, clock);
      FindSnoc(doctors, d, HasUser(user));
      InsertDoctor(d);
      r := Ok(d.id);
    }

    /** `add_patient_view` on a submitted form: the new patient's owner is
        the current doctor, it is the only row added, and it heads that
        doctor's dashboard. No profile, or an invalid form: nothing changes. */
    method AddPatient(user: UserId, form: PatientForm, valid: bool) returns (r: Result<PatientId>)
      requires Valid()
      modifies this
      ensures Valid()
      ensures old(ProfileOf(doctors, user)).None? ==> r == Err(MissingProfile)
      ensures old(ProfileOf(doctors, user)).Some? && !valid ==> r == Err(InvalidForm)
      ensures r.Err? ==> unchanged(this)
      ensures r.Ok? <==> old(ProfileOf(doctors, user)).Some? && valid
      ensures r.Ok? ==> r.value !in old(PatientIds(patients))
      ensures r.Ok? ==> patients == old(patients) + [Patient(r.value, old(ProfileOf(doctors, user)).value.id, form, old(clock), old(clock))]
      ensures r.Ok? ==> doctors == old(doctors) && updates == old(updates)
      ensures r.Ok? ==> Dashboard(doctors, patients, user).Ok?
      ensures r.Ok? ==>
        Dashboard(doctors, patients, user).value.patients ==
        [patients[|patients| - 1]] + old(Dashboard(doctors, patients, user)).value.patients
    {
      var profile := ProfileOf(doctors, user);
      if profile.None? {
        return Err(MissingProfile);
      }
      if !valid {
        return Err(InvalidForm);
      }
      var doctor := profile.value;
      var p := Patient(nextId, doctor.id, form, clock, clock);
      assert doctor.id in DoctorIds(doctors);
      DashboardAfterAdd(doctors, patients, user, p);
      InsertPatient(p);
      r := Ok(p.id);
    }

    /** `add_update_view` on a submitted form: only for a patient the current
        doctor owns (checked before the form); the new update is attached to
        that patient, keeps its payload, and heads the patient's update list.
        Any refusal changes nothing. */
    method AddUpdate(user: UserId, id: PatientId, data: Json, valid: bool) returns (r: Result<UpdateId>)
      requires Valid()
      modifies this
      ensures Valid()
      ensures old(OwnedPatient(doctors, patients, user, id)).Err? ==> r == Err(old(OwnedPatient(doctors, patients, user, id)).failure)
      ensures old(OwnedPatient(doctors, patients, user, id)).Ok? && !valid ==> r == Err(InvalidForm)
      ensures r.Err? ==> unchanged(this)
      ensures r.Ok? <==> old(OwnedPatient(doctors, patients, user, id)).Ok? && valid
      ensures r.Ok? ==> r.value !in old(UpdateIds(updates))
      ensures r.Ok? ==> updates == old(updates) + [PatientUpdate(r.value, id, data, old(clock))]
      ensures r.Ok? ==> doctors == old(doctors) && patients == old(patients)
      ensures r.Ok? ==> PatientDetail(doctors, patients, updates, user, id).Ok?
      ensures r.Ok? ==>
        PatientDetail(doctors, patients, updates, user, id).value.updates ==
        [updates[|updates| - 1]] + old(PatientDetail(doctors, patients, updates, user, id)).value.updates
    {
      var owned := OwnedPatient(doctors, patients, user, id);
      if owned.Err? {
        r := Err(owned.failure);
      } else if !valid {
        r := Err(InvalidForm);
      } else {
        var u := PatientUpdate(nextId, id, data, clock);
        assert id in PatientIds(patients) by {
          assert owned.value.1 in patients;
        }
        DetailAfterAdd(doctors, patients, updates, user, u);
        InsertUpdate(u);
        r := Ok(u.id);
      }
    }

    /** Deleting a doctor (also what deleting its account does): its
        patients go with it, and so do their updates; every other doctor,
        patient and update stays, in order. */
    method DeleteDoctor(id: DoctorId)
      requires Valid()
      modifies this
      ensures Valid()
      ensures doctors == Filter(old(doctors), DoctorIsNot(id))
      ensures patients == Filter(old(patients), NotOwnedBy(id))
      ensures updates == Filter(old(updates), NotOfAny(old(PatientIdsOf(patients, id))))
      ensures forall p :: p in patients <==> p in old(patients) && p.doctor != id
      ensures forall u :: u in updates <==> u in old(updates) && u.patient !in old(PatientIdsOf(patients, id))
      ensures nextId == old(nextId) && clock == old(clock)
    {
      var gone := PatientIdsOf(patients, id);
      FilterPairwise(doctors, DoctorIsNot(id), DoctorBefore);
      FilterPairwise(patients, NotOwnedBy(id), PatientBefore);
      FilterPairwise(updates, NotOfAny(gone), UpdateBefore);
      ghost var oldPatients := patients;
      doctors := Filter(doctors, DoctorIsNot(id));
      patients := Filter(patients, NotOwnedBy(id));
      updates := Filter(updates, NotOfAny(gone));
      forall p | p in patients ensures p.doctor in DoctorIds(doctors) {
        var d :| d in old(doctors) && d.id == p.doctor;
        assert d in doctors;
      }
      forall u | u in updates ensures u.patient in PatientIds(patients) {
        var p :| p in oldPatients && p.id == u.patient;
        assert p.doctor != id;
        assert p in patients;
      }
    }

    /** Deleting a patient: its updates go with it; everything else stays,
        in order. */
    method DeletePatient(id: PatientId)
      requires Valid()
      modifies this
      ensures Valid()
      ensures doctors == old(doctors)
      ensures patients == Filter(old(patients), PatientIsNot(id))
      ensures updates == Filter(old(updates), NotOfAny({id}))
      ensures forall p :: p in patients <==> p in old(patients) && p.id != id
      ensures forall u :: u in updates <==> u in old(updates) && u.patient != id
      ensures nextId == old(nextId) && clock == old(clock)
    {
      FilterPairwise(patients, PatientIsNot(id), PatientBefore);
      FilterPairwise(updates, NotOfAny({id}), UpdateBefore);
      ghost var oldPatients := patients;
      patients := Filter(patients, PatientIsNot(id));
      updates := Filter(updates, NotOfAny({id}));
      forall u | u in updates ensures u.patient in PatientIds(patients) {
        var p :| p in oldPatients && p.id == u.patient;
        assert p in patients;
      }
    }
  }
}
