/**
 * Patient information joined onto the cohort stays: the age at the stay,
 * the age today (or at death), and the inner join of the stays with the
 * patient table, which also receives its `age_today` column in place.
 */
module AddEvents {
  import opened Tables
  import opened Dates
  import opened Strings

  /**
   * `_compute_age_at_stay` for one stay: the difference of the years,
   * minus one when the stay's `"%m-%d"` sorts before the birth's.
   */
  function AgeAt(birth: Date, at: Date): int
  {
    at.year - birth.year - (if LexLess(MonthDay(at), MonthDay(birth)) then 1 else 0)
  }

  /**
   * The `n`-th birthday (year `birth.year + n`, the birth's month and
   * day) falls on or before `at`, comparing (year, month, day) in order.
   */
  predicate ReachedBirthday(birth: Date, at: Date, n: int)
  {
    || birth.year + n < at.year
    || (birth.year + n == at.year && birth.month < at.month)
    || (birth.year + n == at.year && birth.month == at.month && birth.day <= at.day)
  }

  /** The age is the number of birthdays reached: the `AgeAt`-th is, the next is not. */
  lemma AgeIsBirthdaysReached(birth: Date, at: Date)
    ensures ReachedBirthday(birth, at, AgeAt(birth, at))
    ensures !ReachedBirthday(birth, at, AgeAt(birth, at) + 1)
  {
    MonthDayOrder(at, birth);
  }

  /** On a birthday the age is exactly the difference of the years. */
  lemma AgeOnBirthday(birth: Date, at: Date)
    requires at.month == birth.month && at.day == birth.day
    ensures AgeAt(birth, at) == at.year - birth.year
  {
    MonthDayOrder(at, birth);
  }

  /** `next` is the calendar day after `at`: within a month, across a month end, or across a year end. */
  predicate DayBefore(at: Date, next: Date)
  {
    || (at.year == next.year && at.month == next.month && at.day + 1 == next.day)
    || (at.year == next.year && at.month + 1 == next.month && next.day == 1 && at.day == DaysInMonth(at.year, at.month))
    || (at.year + 1 == next.year && at.month == 12 && at.day == 31 && next.month == 1 && next.day == 1)
  }

  /** The day before a birthday the age is one less than on the birthday, the difference of the years. */
  lemma AgeDayBeforeBirthday(birth: Date, at: Date, next: Date)
    requires next.month == birth.month && next.day == birth.day
    requires DayBefore(at, next)
    ensures AgeAt(birth, next) == next.year - birth.year
    ensures AgeAt(birth, at) + 1 == AgeAt(birth, next)
  {
    MonthDayOrder(at, birth);
    MonthDayOrder(next, birth);
  }

  /** A stay on or after the birth gives a non-negative age. */
  lemma AgeNonNegative(birth: Date, at: Date)
    requires Le(birth, at)
    ensures AgeAt(birth, at) >= 0
  {
    MonthDayOrder(at, birth);
  }

  /** The age never decreases as the date advances. */
  lemma AgeMonotone(birth: Date, a: Date, b: Date)
    requires Le(a, b)
    ensures AgeAt(birth, a) <= AgeAt(birth, b)
  {
    MonthDayOrder(a, birth);
    MonthDayOrder(b, birth);
  }

  /**
   * `_compute_age_today` for one patient: the age at death when a death
   * date exists, otherwise the age at `today`; missing without a birth
   * date.
   */
  function AgeToday(birth: Option<Date>, death: Option<Date>, today: Date): (age: Option<int>)
    ensures age.Some? <==> birth.Some?
    ensures birth.Some? && death.Some? ==> age == Some(AgeAt(birth.value, death.value))
    ensures birth.Some? && death.None? ==> age == Some(AgeAt(birth.value, today))
  {
    if birth.None? then None
    else
      var deathAge := if death.Some? then Some(AgeAt(birth.value, death.value)) else None;
      var aliveAge := Some(AgeAt(birth.value, today));
      if deathAge.None? then aliveAge else deathAge
  }

  /** A patient, with its `age_today` column (missing until computed). */
  datatype PersonRow = PersonRow(personId: int, birth: Option<Date>, death: Option<Date>, ageToday: Option<int>)

  /** A cohort stay before the patient information is joined. */
  datatype VisitRow = VisitRow(visitCohortId: int, personId: int, stayStart: Date)

  /** A stay joined with its patient, and the age at the stay. */
  datatype PatientVisit = PatientVisit(visit: VisitRow, person: PersonRow, ageAtStay: Option<int>)

  /** Every patient with its `age_today` set. */
  function WithAgeToday(rows: seq<PersonRow>, today: Date): (r: seq<PersonRow>)
    ensures |r| == |rows|
    ensures forall i :: 0 <= i < |rows| ==>
      r[i] == rows[i].(ageToday := AgeToday(rows[i].birth, rows[i].death, today))
  {
    seq(|rows|, i requires 0 <= i < |rows| => rows[i].(ageToday := AgeToday(rows[i].birth, rows[i].death, today)))
  }

  function AgeAtStay(v: VisitRow, p: PersonRow): Option<int>
  {
    if p.birth.Some? then Some(AgeAt(p.birth.value, v.stayStart)) else None
  }

  /** The joined rows of one stay: one per patient row with its `person_id`, in patient order. */
  function JoinVisit(persons: seq<PersonRow>): VisitRow -> seq<PatientVisit>
  {
    (v: VisitRow) =>
      var ps := Filter(persons, (p: PersonRow) => p.personId == v.personId);
      seq(|ps|, i requires 0 <= i < |ps| => PatientVisit(v, ps[i], AgeAtStay(v, ps[i])))
  }

  /** `visit.merge(person, on="person_id", how="inner")`, with `age_at_stay`, in stay order. */
  function MergePatients(visits: seq<VisitRow>, persons: seq<PersonRow>): seq<PatientVisit>
  {
    FlatMap(visits, JoinVisit(persons))
  }

  /**
   * A joined row is exactly a stay and a patient of the same `person_id`,
   * with the stay's age computed from the patient's birth date.
   */
  lemma MergePatientsMember(visits: seq<VisitRow>, persons: seq<PersonRow>, m: PatientVisit)
    ensures m in MergePatients(visits, persons) <==>
      m.visit in visits && m.person in persons && m.person.personId == m.visit.personId
      && m.ageAtStay == AgeAtStay(m.visit, m.person)
  {
    FlatMapMember(visits, JoinVisit(persons), m);
    if m in MergePatients(visits, persons) {
      var v :| v in visits && m in JoinVisit(persons)(v);
      var ps := Filter(persons, (p: PersonRow) => p.personId == v.personId);
      var i :| 0 <= i < |ps| && JoinVisit(persons)(v)[i] == m;
      assert ps[i] in ps;
    }
    if m.visit in visits && m.person in persons && m.person.personId == m.visit.personId
       && m.ageAtStay == AgeAtStay(m.visit, m.person) {
      var ps := Filter(persons, (p: PersonRow) => p.personId == m.visit.personId);
      var i :| 0 <= i < |ps| && ps[i] == m.person;
      assert JoinVisit(persons)(m.visit)[i] == m;
    }
  }

  /** A stay survives the join exactly when its patient is in the patient table. */
  lemma StayKeptIffPatientKnown(visits: seq<VisitRow>, persons: seq<PersonRow>, v: VisitRow)
    requires v in visits
    ensures (exists m :: m in MergePatients(visits, persons) && m.visit == v)
        <==> (exists p :: p in persons && p.personId == v.personId)
  {
    if exists p :: p in persons && p.personId == v.personId {
      var p :| p in persons && p.personId == v.personId;
      MergePatientsMember(visits, persons, PatientVisit(v, p, AgeAtStay(v, p)));
    }
    if exists m :: m in MergePatients(visits, persons) && m.visit == v {
      var m :| m in MergePatients(visits, persons) && m.visit == v;
      MergePatientsMember(visits, persons, m);
    }
  }

  /** A patient born no later than the stay is of non-negative age at the stay. */
  lemma AgeAtStayNonNegative(visits: seq<VisitRow>, persons: seq<PersonRow>, m: PatientVisit)
    requires m in MergePatients(visits, persons)
    requires m.person.birth.Some? && Le(m.person.birth.value, m.visit.stayStart)
    ensures m.ageAtStay.Some? && m.ageAtStay.value >= 0
  {
    MergePatientsMember(visits, persons, m);
    AgeNonNegative(m.person.birth.value, m.visit.stayStart);
  }

  /** The caller's patient table, which `add_patient_info` updates in place. */
  class PersonFrame {
    var rows: seq<PersonRow>

    constructor(rows: seq<PersonRow>)
      ensures this.rows == rows
    {
      this.rows := rows;
    }

    /** The patients known to the table. */
    function PersonIds(): set<int>
      reads this
    {
      set p | p in rows :: p.personId
    }
  }

  /**
   * `add_patient_info`: write `age_today` into the caller's patient
   * table, then join the stays with it and add `age_at_stay`.
   */
  method AddPatientInfo(visits: seq<VisitRow>, person: PersonFrame, today: Date) returns (merged: seq<PatientVisit>)
    modifies person
    ensures person.rows == WithAgeToday(old(person.rows), today)
    ensures person.PersonIds() == old(person.PersonIds())
    ensures merged == MergePatients(visits, person.rows)
  {
    ghost var before := person.rows;
    person.rows := WithAgeToday(person.rows, today);
    forall id | id in person.PersonIds()
      ensures id in (set p | p in before :: p.personId)
    {
      var p :| p in person.rows && p.personId == id;
      var i :| 0 <= i < |person.rows| && person.rows[i] == p;
      assert before[i] in before;
    }
    forall id | id in (set p | p in before :: p.personId)
      ensures id in person.PersonIds()
    {
      var p :| p in before && p.personId == id;
      var i :| 0 <= i < |before| && before[i] == p;
      assert person.rows[i] in person.rows;
    }
    merged := MergePatients(visits, person.rows);
  }
}
