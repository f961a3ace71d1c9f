/** The patient query handlers: by id, by CNP, and the full list, each
    projecting rows to PatientDto. */
module PatientQueries {
  import opened Common
  import opened Entities
  import opened PatientRepository

  datatype PatientDto = PatientDto(id: Guid, fullName: string, personalNumericCode: string)

  /** The projection every patient handler applies. */
  function PatientDtoOf(p: Patient): PatientDto {
    PatientDto(p.id, FullName(p.firstName, p.lastName), p.personalNumericCode)
  }

  /** GetPatientByIdQueryHandler: the row's projection, or an
      ArgumentException naming the id. */
  function GetPatientById(t: seq<Patient>, id: Guid): (r: Result<PatientDto>)
    ensures r.Err? <==> forall p :: p in t ==> p.id != id
    ensures r.Err? ==> r.error == InvalidArgument("Patient with id " + KeyText(id) + " was not found.")
    ensures r.Ok? ==> r.value.id == id && exists p :: p in t && p.id == id && r.value == PatientDtoOf(p)
  {
    var found := FindPatient(t, id);
    if found.None? then Err(InvalidArgument("Patient with id " + KeyText(id) + " was not found."))
    else Ok(PatientDtoOf(found.value))
  }

  /** GetPatientByCnpQueryHandler: the projection of the row holding the
      code, or an ArgumentException naming the code. */
  function GetPatientByCnp(t: seq<Patient>, cnp: string): (r: Result<PatientDto>)
    ensures r.Err? <==> forall p :: p in t ==> p.personalNumericCode != cnp
    ensures r.Err? ==> r.error == InvalidArgument("Patient with CNP " + cnp + " was not found.")
    ensures r.Ok? ==> r.value.personalNumericCode == cnp
                      && exists p :: p in t && p.personalNumericCode == cnp && r.value == PatientDtoOf(p)
  {
    var found := PatientByCnp(t, cnp);
    if found.None? then Err(InvalidArgument("Patient with CNP " + cnp + " was not found."))
    else Ok(PatientDtoOf(found.value))
  }

  /** GetAllPatientsQueryHandler: one projection per row, in table order. */
  function GetAllPatients(t: seq<Patient>): (r: seq<PatientDto>)
    ensures |r| == |t|
    ensures forall i :: 0 <= i < |t| ==> r[i].id == t[i].id && r[i].personalNumericCode == t[i].personalNumericCode
    ensures forall i :: 0 <= i < |t| ==> r[i].fullName == FullName(t[i].firstName, t[i].lastName)
  {
    Map(t, PatientDtoOf)
  }

  /** While keys are unique, the single-patient lookup and the full list
      agree: the lookup succeeds with d exactly when d is the listed entry
      carrying that id. */
  lemma GetByIdMatchesList(t: seq<Patient>, id: Guid, d: PatientDto)
    requires UniqueKeys(t, PatientKey)
    ensures GetPatientById(t, id) == Ok(d) <==> d in GetAllPatients(t) && d.id == id
  {
    var all := GetAllPatients(t);
    var found := FindPatient(t, id);
    if found.Some? {
      var k :| 0 <= k < |t| && t[k] == found.value;
      assert GetPatientById(t, id) == Ok(all[k]);
      assert all[k] in all && all[k].id == id;
      if d in all && d.id == id {
        var j :| 0 <= j < |all| && all[j] == d;
        assert PatientKey(t[j]) == PatientKey(t[k]);
      }
    } else if d in all {
      var j :| 0 <= j < |all| && all[j] == d;
      assert all[j].id == t[j].id;
    }
  }

  /** While keys and codes are unique, looking a stored patient up by code
      and by id gives the same projection. */
  lemma LookupsAgree(t: seq<Patient>, p: Patient)
    requires UniqueKeys(t, PatientKey) && CnpUnique(t) && p in t
    ensures GetPatientByCnp(t, p.personalNumericCode) == GetPatientById(t, p.id) == Ok(PatientDtoOf(p))
  {
    PatientByCnpExact(t, p);
    var i :| 0 <= i < |t| && t[i] == p;
    FindPatientExact(t, i);
  }

  /** AddAsync then GetAllAsync: the list gains exactly the new patient's
      entry, at the end, and every earlier entry is unchanged. */
  lemma AddedPatientListed(t: seq<Patient>, p: Patient)
    ensures GetAllPatients(t + [p]) == GetAllPatients(t) + [PatientDtoOf(p)]
    ensures PatientDtoOf(p) in GetAllPatients(t + [p])
  {
    MapConcat(t, [p], PatientDtoOf);
  }
}
