/** The read side of the appointment repository (GetByIdAsync,
    GetByDoctorIdAsync, GetByPatientIdAsync, IsOverlappingAsync) as functions
    over the appointment table, and the double-booking invariant that the
    overlap query protects. The writes (AddAsync, UpdateAsync, DeleteAsync)
    are methods of ClinicStore.ClinicDb. */
module AppointmentRepository {
  import opened Common
  import opened Entities

  /** GetByIdAsync: the row with that key, or null. */
  function FindAppointment(t: seq<Appointment>, id: Guid): (r: Option<Appointment>)
    ensures r.None? <==> forall i :: 0 <= i < |t| ==> t[i].id != id
    ensures r.Some? ==> r.value in t && r.value.id == id
  {
    First(t, (a: Appointment) => a.id == id)
  }

  /** GetByDoctorIdAsync: the rows of that doctor, in table order. */
  function AppointmentsOfDoctor(t: seq<Appointment>, doctorId: Guid): (r: seq<Appointment>)
    ensures forall a :: a in r <==> a in t && a.doctorId == doctorId
  {
    Filter(t, (a: Appointment) => a.doctorId == doctorId)
  }

  /** GetByPatientIdAsync: the rows of that patient, in table order. */
  function AppointmentsOfPatient(t: seq<Appointment>, patientId: Guid): (r: seq<Appointment>)
    ensures forall a :: a in r <==> a in t && a.patientId == patientId
  {
    Filter(t, (a: Appointment) => a.patientId == patientId)
  }

  /** GetByDoctorIdAsync keeps each matching row as often as the table holds
      it and follows the table's order: filtering a concatenation is the
      concatenation of the filtered parts. */
  lemma {:induction false} AppointmentsOfDoctorExact(t: seq<Appointment>, u: seq<Appointment>, doctorId: Guid)
    ensures forall a :: multiset(AppointmentsOfDoctor(t, doctorId))[a]
                          == if a.doctorId == doctorId then multiset(t)[a] else 0
    ensures AppointmentsOfDoctor(t + u, doctorId) == AppointmentsOfDoctor(t, doctorId) + AppointmentsOfDoctor(u, doctorId)
  {
    FilterConcat(t, u, (a: Appointment) => a.doctorId == doctorId);
  }

  /** The same for GetByPatientIdAsync. */
  lemma {:induction false} AppointmentsOfPatientExact(t: seq<Appointment>, u: seq<Appointment>, patientId: Guid)
    ensures forall a :: multiset(AppointmentsOfPatient(t, patientId))[a]
                          == if a.patientId == patientId then multiset(t)[a] else 0
    ensures AppointmentsOfPatient(t + u, patientId) == AppointmentsOfPatient(t, patientId) + AppointmentsOfPatient(u, patientId)
  {
    FilterConcat(t, u, (a: Appointment) => a.patientId == patientId);
  }

  /** [s1, e1) and [s2, e2) overlap, as the store compares them: both
      comparisons are strict. */
  predicate IntervalsOverlap(s1: Ticks, e1: Ticks, s2: Ticks, e2: Ticks) {
    s1 < e2 && e1 > s2
  }

  predicate Active(a: Appointment) {
    a.status != Canceled
  }

  /** The Where chain of IsOverlappingAsync applied to one row: same doctor,
      not canceled, overlapping the requested slot, and not the excluded id. */
  predicate Blocks(a: Appointment, doctorId: Guid, start: Ticks, end: Ticks, exclude: Option<Guid>) {
    && a.doctorId == doctorId
    && a.status != Canceled
    && IntervalsOverlap(a.startDate, a.endDate, start, end)
    && (exclude.None? || a.id != exclude.value)
  }

  /** IsOverlappingAsync: AnyAsync over the filtered rows. */
  function IsOverlapping(t: seq<Appointment>, doctorId: Guid, start: Ticks, end: Ticks, exclude: Option<Guid>): (r: bool)
    ensures r <==> exists i :: 0 <= i < |t| && Blocks(t[i], doctorId, start, end, exclude)
  {
    if |t| == 0 then false
    else Blocks(t[0], doctorId, start, end, exclude) || IsOverlapping(t[1..], doctorId, start, end, exclude)
  }

  /** The overlap test does not depend on which interval is the stored one. */
  lemma IntervalsOverlapSymmetric(s1: Ticks, e1: Ticks, s2: Ticks, e2: Ticks)
    ensures IntervalsOverlap(s1, e1, s2, e2) <==> IntervalsOverlap(s2, e2, s1, e1)
  {
  }

  /** A slot that starts exactly when a stored one ends is free of it. */
  lemma BackToBackDoesNotBlock(a: Appointment, start: Ticks, end: Ticks, exclude: Option<Guid>)
    requires a.endDate == start
    ensures !Blocks(a, a.doctorId, start, end, exclude)
  {
  }

  /** The overlap query over a concatenation is the disjunction of the
      queries over the parts. */
  lemma {:induction false} IsOverlappingConcat(t: seq<Appointment>, u: seq<Appointment>,
                                               doctorId: Guid, start: Ticks, end: Ticks, exclude: Option<Guid>)
    ensures IsOverlapping(t + u, doctorId, start, end, exclude)
            == (IsOverlapping(t, doctorId, start, end, exclude) || IsOverlapping(u, doctorId, start, end, exclude))
  {
    if IsOverlapping(t + u, doctorId, start, end, exclude) {
      var i :| 0 <= i < |t + u| && Blocks((t + u)[i], doctorId, start, end, exclude);
      if i < |t| {
        assert t[i] == (t + u)[i];
      } else {
        assert u[i - |t|] == (t + u)[i];
      }
    }
    if IsOverlapping(t, doctorId, start, end, exclude) {
      var i :| 0 <= i < |t| && Blocks(t[i], doctorId, start, end, exclude);
      assert (t + u)[i] == t[i];
    }
    if IsOverlapping(u, doctorId, start, end, exclude) {
      var i :| 0 <= i < |u| && Blocks(u[i], doctorId, start, end, exclude);
      assert (t + u)[|t| + i] == u[i];
    }
  }

  /** A row that does not block (a canceled row, the excluded row, another
      doctor's row, a disjoint slot) can be taken out of the table without
      changing the answer. */
  lemma RemovingNonBlockingRow(t: seq<Appointment>, k: nat,
                               doctorId: Guid, start: Ticks, end: Ticks, exclude: Option<Guid>)
    requires k < |t| && !Blocks(t[k], doctorId, start, end, exclude)
    ensures IsOverlapping(t[..k] + t[k + 1..], doctorId, start, end, exclude)
            == IsOverlapping(t, doctorId, start, end, exclude)
  {
    assert t == t[..k] + [t[k]] + t[k + 1..];
    IsOverlappingConcat(t[..k] + [t[k]], t[k + 1..], doctorId, start, end, exclude);
    IsOverlappingConcat(t[..k], [t[k]], doctorId, start, end, exclude);
    IsOverlappingConcat(t[..k], t[k + 1..], doctorId, start, end, exclude);
  }

  /** A canceled appointment never makes the query true. */
  lemma CanceledNeverBlocks(t: seq<Appointment>, k: nat,
                            doctorId: Guid, start: Ticks, end: Ticks, exclude: Option<Guid>)
    requires k < |t| && t[k].status == Canceled
    ensures IsOverlapping(t[..k] + t[k + 1..], doctorId, start, end, exclude)
            == IsOverlapping(t, doctorId, start, end, exclude)
  {
    RemovingNonBlockingRow(t, k, doctorId, start, end, exclude);
  }

  /** The row whose id is excluded is never counted. */
  lemma ExcludedNeverBlocks(t: seq<Appointment>, k: nat, doctorId: Guid, start: Ticks, end: Ticks)
    requires k < |t|
    ensures IsOverlapping(t[..k] + t[k + 1..], doctorId, start, end, Some(t[k].id))
            == IsOverlapping(t, doctorId, start, end, Some(t[k].id))
  {
    RemovingNonBlockingRow(t, k, doctorId, start, end, Some(t[k].id));
  }

  /** The central invariant: no two distinct non-canceled appointments of one
      doctor overlap. */
  predicate NoDoubleBooking(t: seq<Appointment>) {
    forall x, y :: x in t && y in t && x != y && x.doctorId == y.doctorId && Active(x) && Active(y)
      ==> !IntervalsOverlap(x.startDate, x.endDate, y.startDate, y.endDate)
  }

  /** Appending a row whose slot the overlap query (no exclusion) reports free
      keeps the invariant: the create path. */
  lemma AppendKeepsNoDoubleBooking(t: seq<Appointment>, a: Appointment)
    requires NoDoubleBooking(t)
    requires !IsOverlapping(t, a.doctorId, a.startDate, a.endDate, None)
    ensures NoDoubleBooking(t + [a])
  {
    forall x, y | x in t + [a] && y in t + [a] && x != y && x.doctorId == y.doctorId && Active(x) && Active(y)
      ensures !IntervalsOverlap(x.startDate, x.endDate, y.startDate, y.endDate)
    {
      if x == a {
        var i :| 0 <= i < |t| && t[i] == y;
        assert !Blocks(t[i], a.doctorId, a.startDate, a.endDate, None);
      } else if y == a {
        var i :| 0 <= i < |t| && t[i] == x;
        assert !Blocks(t[i], a.doctorId, a.startDate, a.endDate, None);
      }
    }
  }

  /** Overwriting row k by a row with the same key, when the overlap query
      that excludes that key reports the new slot free, keeps the invariant:
      the update path once its validator has passed. Keys must be unique, so
      that the exclusion hides row k and nothing else. */
  lemma ReplaceKeepsNoDoubleBooking(t: seq<Appointment>, k: nat, a: Appointment)
    requires NoDoubleBooking(t) && UniqueKeys(t, AppointmentKey)
    requires k < |t| && t[k].id == a.id
    requires !IsOverlapping(t, a.doctorId, a.startDate, a.endDate, Some(a.id))
    ensures NoDoubleBooking(t[k := a])
  {
    var u := t[k := a];
    forall x, y | x in u && y in u && x != y && x.doctorId == y.doctorId && Active(x) && Active(y)
      ensures !IntervalsOverlap(x.startDate, x.endDate, y.startDate, y.endDate)
    {
      var i :| 0 <= i < |u| && u[i] == x;
      var j :| 0 <= j < |u| && u[j] == y;
      if i == k {
        assert j != k;
        assert AppointmentKey(t[j]) != AppointmentKey(t[k]);
        assert !Blocks(t[j], a.doctorId, a.startDate, a.endDate, Some(a.id));
      } else if j == k {
        assert AppointmentKey(t[i]) != AppointmentKey(t[k]);
        assert !Blocks(t[i], a.doctorId, a.startDate, a.endDate, Some(a.id));
      } else {
        assert x == t[i] && y == t[j];
      }
    }
  }

  /** The table UpdateAsync leaves: DoctorId, PatientId, StartDate, EndDate
      and Status of the row with a.id take a's values, so that row becomes a;
      every other row is kept, in place. */
  function AppointmentsUpdated(t: seq<Appointment>, a: Appointment): (r: seq<Appointment>)
    ensures |r| == |t|
    ensures forall i :: 0 <= i < |t| ==> r[i] == if t[i].id == a.id then a else t[i]
  {
    Map(t, (x: Appointment) =>
      if x.id == a.id
      then x.(doctorId := a.doctorId, patientId := a.patientId, startDate := a.startDate,
              endDate := a.endDate, status := a.status)
      else x)
  }

  /** The set-based overwrite UpdateAsync performs (every row with the key
      becomes the new row) keeps the invariant under the same condition as
      a positional replace, because keys are unique. */
  lemma OverwriteKeepsNoDoubleBooking(t: seq<Appointment>, a: Appointment)
    requires NoDoubleBooking(t) && UniqueKeys(t, AppointmentKey)
    requires FindAppointment(t, a.id).Some?
    requires !IsOverlapping(t, a.doctorId, a.startDate, a.endDate, Some(a.id))
    ensures NoDoubleBooking(AppointmentsUpdated(t, a))
  {
    var u := AppointmentsUpdated(t, a);
    var k :| 0 <= k < |t| && t[k] == FindAppointment(t, a.id).value;
    forall i | 0 <= i < |t|
      ensures u[i] == t[k := a][i]
    {
      if i != k {
        assert AppointmentKey(t[i]) != AppointmentKey(t[k]);
      }
    }
    assert u == t[k := a];
    ReplaceKeepsNoDoubleBooking(t, k, a);
  }

  /** Once an active appointment holds [s, e) for a doctor, the overlap query
      (without exclusion) reports every overlapping slot of that doctor as
      taken, whatever else the table holds. */
  lemma BookedSlotBlocks(t: seq<Appointment>, a: Appointment, start: Ticks, end: Ticks)
    requires Active(a) && IntervalsOverlap(a.startDate, a.endDate, start, end)
    ensures IsOverlapping(t + [a], a.doctorId, start, end, None)
  {
    assert (t + [a])[|t|] == a;
  }

  /** After an insert, exactly the old keys and the new row's key are found. */
  lemma FindAppointmentAppend(t: seq<Appointment>, x: Appointment, id: Guid)
    ensures FindAppointment(t + [x], id).Some? <==> FindAppointment(t, id).Some? || x.id == id
    ensures FindAppointment(t, id).None? ==> forall y :: y in t ==> AppointmentKey(y) != id
  {
    var u := t + [x];
    if FindAppointment(t, id).Some? {
      var i :| 0 <= i < |t| && t[i] == FindAppointment(t, id).value;
      assert u[i] == t[i];
    }
    if x.id == id {
      assert u[|t|] == x;
    }
    if FindAppointment(u, id).Some? {
      var i :| 0 <= i < |u| && u[i] == FindAppointment(u, id).value;
      if i < |t| { assert u[i] == t[i]; }
    }
  }
}
