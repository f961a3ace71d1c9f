/** The read side of the doctor repository (GetAllAsync, GetByIdAsync,
    GetBySpecializationAsync, and the GetByUserIdAsync lookup the handlers
    call) as functions over the doctor table. The writes are methods of
    ClinicStore.ClinicDb. */
module DoctorRepository {
  import opened Common
  import opened Entities

  /** GetByIdAsync: the row with that key, or null. */
  function FindDoctor(t: seq<Doctor>, id: Guid): (r: Option<Doctor>)
    ensures r.None? <==> forall i :: 0 <= i < |t| ==> t[i].id != id
    ensures r.Some? ==> r.value in t && r.value.id == id
  {
    First(t, (d: Doctor) => d.id == id)
  }

  /** The query's predicate: exact (case-sensitive) string equality. */
  function SpecializationIs(s: string): Doctor -> bool {
    (d: Doctor) => d.specialization == s
  }

  /** GetBySpecializationAsync: the doctors whose specialization equals s,
      in table order. */
  function DoctorsBySpecialization(t: seq<Doctor>, s: string): (r: seq<Doctor>)
    ensures forall d :: d in r <==> d in t && d.specialization == s
    ensures forall d :: multiset(r)[d] == if d.specialization == s then multiset(t)[d] else 0
  {
    Filter(t, SpecializationIs(s))
  }

  /** GetByUserIdAsync: the doctor profile linked to the caller's account.
      A caller without a user id has no profile. */
  function DoctorByUser(t: seq<Doctor>, userId: Option<string>): (r: Option<Doctor>)
    ensures r.Some? ==> userId.Some? && r.value in t && r.value.userId == userId
    ensures r.None? <==> userId.None? || forall i :: 0 <= i < |t| ==> t[i].userId != userId
  {
    if userId.None? then None else First(t, (d: Doctor) => d.userId == userId)
  }

  /** Under key uniqueness the id lookup finds row i for row i's own key. */
  lemma FindDoctorExact(t: seq<Doctor>, i: nat)
    requires UniqueKeys(t, DoctorKey) && i < |t|
    ensures FindDoctor(t, t[i].id) == Some(t[i])
  {
    var r := FindDoctor(t, t[i].id);
    var j :| 0 <= j < |t| && t[j] == r.value;
    assert DoctorKey(t[j]) == DoctorKey(t[i]);
  }

  /** After an insert, exactly the old keys and the new row's key are found. */
  lemma FindDoctorAppend(t: seq<Doctor>, x: Doctor, id: Guid)
    ensures FindDoctor(t + [x], id).Some? <==> FindDoctor(t, id).Some? || x.id == id
    ensures FindDoctor(t, id).None? ==> forall y :: y in t ==> DoctorKey(y) != id
  {
    var u := t + [x];
    if FindDoctor(t, id).Some? {
      var i :| 0 <= i < |t| && t[i] == FindDoctor(t, id).value;
      assert u[i] == t[i];
    }
    if x.id == id {
      assert u[|t|] == x;
    }
    if FindDoctor(u, id).Some? {
      var i :| 0 <= i < |u| && u[i] == FindDoctor(u, id).value;
      if i < |t| { assert u[i] == t[i]; }
    }
  }

  /** The table UpdateAsync leaves: FirstName, LastName and Specialization of
      the row with d.id take d's values; every other column and row is kept. */
  function DoctorsUpdated(t: seq<Doctor>, d: Doctor): (r: seq<Doctor>)
    ensures |r| == |t|
    ensures forall i :: 0 <= i < |t| ==>
              r[i] == if t[i].id == d.id
                      then t[i].(firstName := d.firstName, lastName := d.lastName, specialization := d.specialization)
                      else t[i]
  {
    Map(t, (x: Doctor) =>
      if x.id == d.id
      then x.(firstName := d.firstName, lastName := d.lastName, specialization := d.specialization)
      else x)
  }

  /** An update that keeps every row's key keeps the set of keys found. */
  lemma FindDoctorSameKeys(t: seq<Doctor>, u: seq<Doctor>, id: Guid)
    requires |t| == |u| && forall i :: 0 <= i < |t| ==> u[i].id == t[i].id
    ensures FindDoctor(u, id).Some? <==> FindDoctor(t, id).Some?
  {
    if FindDoctor(t, id).Some? {
      var i :| 0 <= i < |t| && t[i] == FindDoctor(t, id).value;
      assert u[i].id == id;
    }
    if FindDoctor(u, id).Some? {
      var i :| 0 <= i < |u| && u[i] == FindDoctor(u, id).value;
      assert t[i].id == id;
    }
  }
}
