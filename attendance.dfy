/** The attendance table of the staff database and the clock-in / clock-out
    transitions on it. */
module Attendance {
  import opened Outcomes

  /** The job metadata stored with a row: the JSON object `{"role": role}`. */
  datatype Job = Job(role: string)

  /** A row of the attendance table.  A time is the TIME column's value in
      seconds since midnight (the driver reads it back as a `timedelta`); a date
      is an abstract day number.  `timeOut` is `None` (NULL) until clock-out. */
  datatype AttendanceRow = AttendanceRow(
    id: nat,
    staffId: int,
    timeIn: int,
    timeOut: Option<int>,
    date: int,
    paid: bool,
    salary: real,
    job: Job)

  /** Row `x` belongs to `staffId` on day `today`. */
  predicate IsToday(x: AttendanceRow, staffId: int, today: int) {
    x.staffId == staffId && x.date == today
  }

  /** `get_today_attendance`: the row of that staff member dated today with the
      highest id (`ORDER BY id DESC LIMIT 1`), if any. */
  function LatestToday(rows: seq<AttendanceRow>, staffId: int, today: int): (r: Option<AttendanceRow>)
    ensures r.Some? ==> r.value in rows && IsToday(r.value, staffId, today)
    ensures r.Some? ==> forall x :: x in rows && IsToday(x, staffId, today) ==> x.id <= r.value.id
    ensures r.None? ==> forall x :: x in rows ==> !IsToday(x, staffId, today)
    decreases |rows|
  {
    if rows == [] then None
    else
      var last := rows[|rows| - 1];
      var prev := LatestToday(rows[..|rows| - 1], staffId, today);
      assert rows == rows[..|rows| - 1] + [last];
      if IsToday(last, staffId, today) && (prev.None? || prev.value.id <= last.id) then Some(last) else prev
  }

  /** The row `clock_in` inserts: opened now, dated today, unpaid, with the
      salary snapshot and the role as job metadata. */
  function OpenRow(id: nat, staffId: int, role: string, salary: real, today: int, now: int): (r: AttendanceRow)
    ensures r.id == id && r.staffId == staffId && r.date == today && r.timeIn == now
    ensures r.timeOut == None && !r.paid && r.salary == salary && r.job == Job(role)
  {
    AttendanceRow(id, staffId, now, None, today, false, salary, Job(role))
  }

  /** `UPDATE attendance SET time_out = now WHERE id = id`: every row with that id
      gets the time-out, whether or not it was already closed. */
  function CloseRows(rows: seq<AttendanceRow>, id: nat, now: int): (r: seq<AttendanceRow>)
    ensures |r| == |rows|
    ensures forall j :: 0 <= j < |rows| ==>
      r[j] == if rows[j].id == id then rows[j].(timeOut := Some(now)) else rows[j]
  {
    seq(|rows|, j requires 0 <= j < |rows| => if rows[j].id == id then rows[j].(timeOut := Some(now)) else rows[j])
  }

  /** Whether some row has the given id (the update's row count is positive). */
  predicate HasRow(rows: seq<AttendanceRow>, id: nat) {
    exists j :: 0 <= j < |rows| && rows[j].id == id
  }

  /** Every id is below the next auto-increment value. */
  predicate IdsBelow(rows: seq<AttendanceRow>, next: nat) {
    forall j :: 0 <= j < |rows| ==> rows[j].id < next
  }

  /** A row just clocked in carries the highest id, so it is what the next
      `get_today_attendance` for that staff member returns. */
  lemma ClockInIsLatest(rows: seq<AttendanceRow>, row: AttendanceRow)
    requires IdsBelow(rows, row.id)
    ensures LatestToday(rows + [row], row.staffId, row.date) == Some(row)
  {
    assert (rows + [row])[..|rows|] == rows;
    var prev := LatestToday(rows, row.staffId, row.date);
    if prev.Some? {
      var j :| 0 <= j < |rows| && rows[j] == prev.value;
    }
  }

  /** Clocking in, then clocking out that row: today's attendance for the staff
      member is that row, now closed at the clock-out time. */
  lemma ClockInThenOut(rows: seq<AttendanceRow>, row: AttendanceRow, now: int)
    requires IdsBelow(rows, row.id)
    ensures HasRow(rows + [row], row.id)
    ensures LatestToday(CloseRows(rows + [row], row.id, now), row.staffId, row.date)
      == Some(row.(timeOut := Some(now)))
  {
    assert (rows + [row])[|rows|].id == row.id;
    var closed := row.(timeOut := Some(now));
    assert CloseRows(rows + [row], row.id, now) == rows + [closed];
    ClockInIsLatest(rows, closed);
  }

  /** Clock-out does not check the row's state: a closed row is closed again and
      its earlier time-out is lost. */
  lemma ClockOutOverwrites(rows: seq<AttendanceRow>, j: nat, now: int)
    requires j < |rows| && rows[j].timeOut.Some?
    ensures CloseRows(rows, rows[j].id, now)[j].timeOut == Some(now)
  {
  }

  /** A time-out of 00:00:00, read back as a zero `timedelta`. */
  const Midnight: int := 0

  /** `not row.get("time_out")`: the register reads a row as open when its
      time-out is NULL, and also when it is a zero `timedelta`, which Python
      treats as false. */
  predicate ReadsOpen(x: AttendanceRow) {
    x.timeOut.None? || x.timeOut == Some(Midnight)
  }

  /** At most one row of the staff member reads as open today, and if one does,
      it is the latest of the day. */
  predicate OnlyLatestOpen(rows: seq<AttendanceRow>, staffId: int, today: int) {
    forall j :: 0 <= j < |rows| && IsToday(rows[j], staffId, today) && ReadsOpen(rows[j]) ==>
      LatestToday(rows, staffId, today) == Some(rows[j])
  }

  /** The register's clock button: if today's latest row reads as open it is
      closed, otherwise a new row is opened with id `next`. */
  function ClockToggle(rows: seq<AttendanceRow>, next: nat, staffId: int, role: string, salary: real, today: int, now: int): seq<AttendanceRow> {
    var latest := LatestToday(rows, staffId, today);
    if latest.Some? && ReadsOpen(latest.value) then CloseRows(rows, latest.value.id, now)
    else rows + [OpenRow(next, staffId, role, salary, today, now)]
  }

  /** A row closed at midnight still reads as open: the next press of the clock
      button closes it again instead of opening a new row. */
  lemma MidnightCloseReadsOpen(rows: seq<AttendanceRow>, next: nat, staffId: int, role: string, salary: real, today: int, now: int)
    requires LatestToday(rows, staffId, today).Some?
    requires LatestToday(rows, staffId, today).value.timeOut == Some(Midnight)
    ensures ClockToggle(rows, next, staffId, role, salary, today, now)
      == CloseRows(rows, LatestToday(rows, staffId, today).value.id, now)
    ensures |ClockToggle(rows, next, staffId, role, salary, today, now)| == |rows|
  {
  }

  /** Closing today's latest row keeps it the latest, now with the new time-out. */
  lemma LatestAfterClose(rows: seq<AttendanceRow>, staffId: int, today: int, now: int)
    requires forall a, b :: 0 <= a < b < |rows| ==> rows[a].id != rows[b].id
    requires LatestToday(rows, staffId, today).Some?
    ensures var l := LatestToday(rows, staffId, today).value;
      LatestToday(CloseRows(rows, l.id, now), staffId, today) == Some(l.(timeOut := Some(now)))
  {
    var l := LatestToday(rows, staffId, today).value;
    var c := CloseRows(rows, l.id, now);
    var m :| 0 <= m < |rows| && rows[m] == l;
    assert c[m] == l.(timeOut := Some(now));
    var r := LatestToday(c, staffId, today);
    assert r.Some?;
    var k :| 0 <= k < |c| && c[k] == r.value;
    assert IsToday(rows[k], staffId, today) && rows[k].id == c[k].id;
    assert c[k].id == l.id;
    assert k == m;
  }

  /** Pressing the clock button keeps the rule that the only row of the day that
      may read as open is the latest one, given unique ids below `next`. */
  lemma ClockTogglePreservesOneOpen(rows: seq<AttendanceRow>, next: nat, staffId: int, role: string, salary: real, today: int, now: int)
    requires IdsBelow(rows, next)
    requires forall a, b :: 0 <= a < b < |rows| ==> rows[a].id != rows[b].id
    requires OnlyLatestOpen(rows, staffId, today)
    ensures OnlyLatestOpen(ClockToggle(rows, next, staffId, role, salary, today, now), staffId, today)
  {
    var latest := LatestToday(rows, staffId, today);
    var r := ClockToggle(rows, next, staffId, role, salary, today, now);
    if latest.Some? && ReadsOpen(latest.value) {
      var l := latest.value;
      LatestAfterClose(rows, staffId, today, now);
      var m :| 0 <= m < |rows| && rows[m] == l;
      forall j | 0 <= j < |r| && IsToday(r[j], staffId, today) && ReadsOpen(r[j])
        ensures LatestToday(r, staffId, today) == Some(r[j])
      {
        if rows[j].id == l.id {
          assert j == m;
        }
      }
    } else {
      var row := OpenRow(next, staffId, role, salary, today, now);
      ClockInIsLatest(rows, row);
      forall j | 0 <= j < |rows| && IsToday(rows[j], staffId, today)
        ensures !ReadsOpen(r[j])
      {
        assert r[j] == rows[j];
        var x := rows[j];
        assert ReadsOpen(x) ==> LatestToday(rows, staffId, today) == Some(x);
      }
    }
  }
}
