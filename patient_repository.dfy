/** The read side of the patient repository (GetAllAsync, GetByIdAsync,
    GetByCnpAsync, and the GetByUserIdAsync lookup the handlers call) as
    functions over the patient table, and the CNP-uniqueness invariant the
    patient handlers maintain. The writes are methods of ClinicStore.ClinicDb. */
module PatientRepository {
  import opened Common
  import opened Entities

  /** GetByIdAsync: the row with that key, or null. */
  function FindPatient(t: seq<Patient>, id: Guid): (r: Option<Patient>)
    ensures r.None? <==> forall i :: 0 <= i < |t| ==> t[i].id != id
    ensures r.Some? ==> r.value in t && r.value.id == id
  {
    First(t, (p: Patient) => p.id == id)
  }

  /** GetByCnpAsync: the first row holding that personal numeric code. */
  function PatientByCnp(t: seq<Patient>, cnp: string): (r: Option<Patient>)
    ensures r.None? <==> forall i :: 0 <= i < |t| ==> t[i].personalNumericCode != cnp
    ensures r.Some? ==> r.value in t && r.value.personalNumericCode == cnp
  {
    First(t, (p: Patient) => p.personalNumericCode == cnp)
  }

  /** GetByUserIdAsync: the patient profile linked to the caller's account.
      A caller without a user id has no profile. */
  function PatientByUser(t: seq<Patient>, userId: Option<string>): (r: Option<Patient>)
    ensures r.Some? ==> userId.Some? && r.value in t && r.value.userId == userId
    ensures r.None? <==> userId.None? || forall i :: 0 <= i < |t| ==> t[i].userId != userId
  {
    if userId.None? then None else First(t, (p: Patient) => p.userId == userId)
  }

  /** No two different patient rows share a personal numeric code. */
  predicate CnpUnique(t: seq<Patient>) {
    forall x, y :: x in t && y in t && x != y ==> x.personalNumericCode != y.personalNumericCode
  }

  /** Under uniqueness the code lookup is exact: it finds a row for that
      row's own code. */
  lemma PatientByCnpExact(t: seq<Patient>, p: Patient)
    requires CnpUnique(t) && p in t
    ensures PatientByCnp(t, p.personalNumericCode) == Some(p)
  {
  }

  /** Under key uniqueness the id lookup finds row i for row i's own key. */
  lemma FindPatientExact(t: seq<Patient>, i: nat)
    requires UniqueKeys(t, PatientKey) && i < |t|
    ensures FindPatient(t, t[i].id) == Some(t[i])
  {
    var r := FindPatient(t, t[i].id);
    var j :| 0 <= j < |t| && t[j] == r.value;
    assert PatientKey(t[j]) == PatientKey(t[i]);
  }

  /** Appending a patient whose code the lookup does not find keeps codes
      unique: the create path. */
  lemma AppendKeepsCnpUnique(t: seq<Patient>, p: Patient)
    requires CnpUnique(t) && PatientByCnp(t, p.personalNumericCode).None?
    ensures CnpUnique(t + [p])
  {
  }

  /** Overwriting row k with a code that the lookup either does not find or
      finds at row k itself keeps codes unique: the update path. Keys must be
      unique so that row k's old value occurs nowhere else. */
  lemma ReplaceKeepsCnpUnique(t: seq<Patient>, k: nat, p: Patient)
    requires CnpUnique(t) && UniqueKeys(t, PatientKey) && k < |t|
    requires var q := PatientByCnp(t, p.personalNumericCode); q.None? || q.value == t[k]
    ensures CnpUnique(t[k := p])
  {
    var u := t[k := p];
    forall x, y | x in u && y in u && x != y
      ensures x.personalNumericCode != y.personalNumericCode
    {
      var i :| 0 <= i < |u| && u[i] == x;
      var j :| 0 <= j < |u| && u[j] == y;
      if i != k && j != k {
        assert x == t[i] && y == t[j];
      } else if i != k {
        assert x == t[i] && PatientKey(t[i]) != PatientKey(t[k]);
      } else if j != k {
        assert y == t[j] && PatientKey(t[j]) != PatientKey(t[k]);
      }
    }
  }

  /** The table UpdateAsync leaves: FirstName, LastName and
      PersonalNumericCode of the row with p.id take p's values; its UserId and
      every other row are kept, in place. */
  function PatientsUpdated(t: seq<Patient>, p: Patient): (r: seq<Patient>)
    ensures |r| == |t|
    ensures forall i :: 0 <= i < |t| ==>
              r[i] == if t[i].id == p.id
                      then t[i].(firstName := p.firstName, lastName := p.lastName,
                                 personalNumericCode := p.personalNumericCode)
                      else t[i]
  {
    Map(t, (x: Patient) =>
      if x.id == p.id
      then x.(firstName := p.firstName, lastName := p.lastName, personalNumericCode := p.personalNumericCode)
      else x)
  }

  /** The overwrite UpdateAsync performs (names and code of the row with
      p.id replaced) keeps codes unique when the new code is free or already
      held by that same patient. */
  lemma OverwriteKeepsCnpUnique(t: seq<Patient>, p: Patient)
    requires CnpUnique(t) && UniqueKeys(t, PatientKey)
    requires FindPatient(t, p.id).Some?
    requires var q := PatientByCnp(t, p.personalNumericCode); q.None? || q.value.id == p.id
    ensures CnpUnique(PatientsUpdated(t, p))
  {
    var u := PatientsUpdated(t, p);
    var k :| 0 <= k < |t| && t[k] == FindPatient(t, p.id).value;
    var row := t[k].(firstName := p.firstName, lastName := p.lastName,
                     personalNumericCode := p.personalNumericCode);
    var q := PatientByCnp(t, p.personalNumericCode);
    if q.Some? {
      var j :| 0 <= j < |t| && t[j] == q.value;
      assert PatientKey(t[j]) == PatientKey(t[k]);
    }
    forall i | 0 <= i < |t|
      ensures u[i] == t[k := row][i]
    {
      if i != k {
        assert PatientKey(t[i]) != PatientKey(t[k]);
      }
    }
    assert u == t[k := row];
    ReplaceKeepsCnpUnique(t, k, row);
  }

  /** After an insert, exactly the old keys and the new row's key are found. */
  lemma FindPatientAppend(t: seq<Patient>, x: Patient, id: Guid)
    ensures FindPatient(t + [x], id).Some? <==> FindPatient(t, id).Some? || x.id == id
    ensures FindPatient(t, id).None? ==> forall y :: y in t ==> PatientKey(y) != id
  {
    var u := t + [x];
    if FindPatient(t, id).Some? {
      var i :| 0 <= i < |t| && t[i] == FindPatient(t, id).value;
      assert u[i] == t[i];
    }
    if x.id == id {
      assert u[|t|] == x;
    }
    if FindPatient(u, id).Some? {
      var i :| 0 <= i < |u| && u[i] == FindPatient(u, id).value;
      if i < |t| { assert u[i] == t[i]; }
    }
  }

  /** An update that keeps every row's key keeps the set of keys found. */
  lemma FindPatientSameKeys(t: seq<Patient>, u: seq<Patient>, id: Guid)
    requires |t| == |u| && forall i :: 0 <= i < |t| ==> u[i].id == t[i].id
    ensures FindPatient(u, id).Some? <==> FindPatient(t, id).Some?
  {
    if FindPatient(t, id).Some? {
      var i :| 0 <= i < |t| && t[i] == FindPatient(t, id).value;
      assert u[i].id == id;
    }
    if FindPatient(u, id).Some? {
      var i :| 0 <= i < |u| && u[i] == FindPatient(u, id).value;
      assert t[i].id == id;
    }
  }
}
