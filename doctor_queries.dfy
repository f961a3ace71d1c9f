/** The doctor query handlers: by id, the full list, and by specialization,
    each projecting rows to DoctorDto. */
module DoctorQueries {
  import opened Common
  import opened Entities
  import opened DoctorRepository

  datatype DoctorDto = DoctorDto(id: Guid, fullName: string, specialization: string)

  /** The projection every doctor handler applies. */
  function DoctorDtoOf(d: Doctor): DoctorDto {
    DoctorDto(d.id, FullName(d.firstName, d.lastName), d.specialization)
  }

  /** GetDoctorByIdQueryHandler: the row's projection, or an
      ArgumentException naming the id. */
  function GetDoctorById(t: seq<Doctor>, id: Guid): (r: Result<DoctorDto>)
    ensures r.Err? <==> forall d :: d in t ==> d.id != id
    ensures r.Err? ==> r.error == InvalidArgument("Doctor with id " + KeyText(id) + " does not exists")
    ensures r.Ok? ==> r.value.id == id && exists d :: d in t && d.id == id && r.value == DoctorDtoOf(d)
  {
    var found := FindDoctor(t, id);
    if found.None? then Err(InvalidArgument("Doctor with id " + KeyText(id) + " does not exists"))
    else Ok(DoctorDtoOf(found.value))
  }

  /** GetAllDoctorsQueryHandler: one projection per row, in table order. */
  function GetAllDoctors(t: seq<Doctor>): (r: seq<DoctorDto>)
    ensures |r| == |t|
    ensures forall i :: 0 <= i < |t| ==> r[i].id == t[i].id && r[i].specialization == t[i].specialization
    ensures forall i :: 0 <= i < |t| ==> r[i].fullName == FullName(t[i].firstName, t[i].lastName)
  {
    Map(t, DoctorDtoOf)
  }

  /** GetDoctorBySpecializationQueryHandler: the projections of the matching
      rows, in table order. */
  function GetDoctorsBySpecialization(t: seq<Doctor>, s: string): (r: seq<DoctorDto>)
    ensures forall x :: x in r ==> x.specialization == s
    ensures |r| == |DoctorsBySpecialization(t, s)| <= |t|
    ensures forall i :: 0 <= i < |r| ==>
              && r[i].id == DoctorsBySpecialization(t, s)[i].id
              && r[i].fullName == FullName(DoctorsBySpecialization(t, s)[i].firstName, DoctorsBySpecialization(t, s)[i].lastName)
              && r[i].specialization == s
    ensures forall d :: d in t && d.specialization == s ==> DoctorDtoOf(d) in r
  {
    ProjectedMatches(DoctorsBySpecialization(t, s), t, s);
    Map(DoctorsBySpecialization(t, s), DoctorDtoOf)
  }

  /** Projecting the rows that match s gives one entry per match, in order,
      and an entry for every matching row of t. */
  lemma ProjectedMatches(matching: seq<Doctor>, t: seq<Doctor>, s: string)
    requires |matching| <= |t|
    requires forall d :: d in matching <==> d in t && d.specialization == s
    ensures var r := Map(matching, DoctorDtoOf);
            && (forall x :: x in r ==> x.specialization == s)
            && (forall i :: 0 <= i < |r| ==> r[i].specialization == s)
            && (forall d :: d in t && d.specialization == s ==> DoctorDtoOf(d) in r)
  {
    var r := Map(matching, DoctorDtoOf);
    forall i | 0 <= i < |r|
      ensures r[i].specialization == s
    {
      assert matching[i] in matching;
    }
    forall d | d in t && d.specialization == s
      ensures DoctorDtoOf(d) in r
    {
      var i :| 0 <= i < |matching| && matching[i] == d;
      assert r[i] == DoctorDtoOf(d);
    }
  }

  /** The by-specialization list is the full list with the other
      specializations dropped: same entries, same order. */
  lemma BySpecializationIsFilteredList(t: seq<Doctor>, s: string)
    ensures GetDoctorsBySpecialization(t, s) == Filter(GetAllDoctors(t), (x: DoctorDto) => x.specialization == s)
  {
    MapFilterCommute(t, DoctorDtoOf, SpecializationIs(s), (x: DoctorDto) => x.specialization == s);
  }

  /** While keys are unique, the single-doctor lookup and the full list
      agree: the lookup succeeds with x exactly when x is the listed entry
      carrying that id. */
  lemma GetByIdMatchesList(t: seq<Doctor>, id: Guid, x: DoctorDto)
    requires UniqueKeys(t, DoctorKey)
    ensures GetDoctorById(t, id) == Ok(x) <==> x in GetAllDoctors(t) && x.id == id
  {
    var all := GetAllDoctors(t);
    var found := FindDoctor(t, id);
    if found.Some? {
      var k :| 0 <= k < |t| && t[k] == found.value;
      assert GetDoctorById(t, id) == Ok(all[k]);
      assert all[k] in all && all[k].id == id;
      if x in all && x.id == id {
        var j :| 0 <= j < |all| && all[j] == x;
        assert DoctorKey(t[j]) == DoctorKey(t[k]);
      }
    } else if x in all {
      var j :| 0 <= j < |all| && all[j] == x;
      assert all[j].id == t[j].id;
    }
  }
}
