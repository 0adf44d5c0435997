/** The static course catalog: the department file (departments, their
    semesters and each semester's core courses) and the elective file (course
    sets tagged by a category name such as "OEC" or "H&M"). Both are read-only
    data handed to the model as parameters. */
module Catalog {
  import opened Wrappers

  datatype Course = Course(code: string, name: string, credit: nat)

  datatype Semester = Semester(number: nat, courses: seq<Course>)

  datatype Department = Department(dept: string, sems: seq<Semester>)

  /** An entry of the elective file: a category name and its courses. */
  datatype ElectiveSet = ElectiveSet(kind: string, courses: seq<Course>)

  /** `data.find(dept => dept.dept === name)`: the first department with that
      name, or `None` when there is none. */
  function FindDepartment(data: seq<Department>, name: string): (r: Option<Department>)
    ensures r.Some? <==> exists i :: 0 <= i < |data| && data[i].dept == name
    ensures r.Some? ==> exists i :: 0 <= i < |data| && data[i] == r.value &&
                          r.value.dept == name &&
                          forall j :: 0 <= j < i ==> data[j].dept != name
  {
    if data == [] then None
    else if data[0].dept == name then Some(data[0])
    else
      var r := FindDepartment(data[1..], name);
      assert forall i :: 0 < i < |data| ==> data[i] == data[1..][i - 1];
      r
  }

  /** `sems.find(sem => sem.semester === n)`: the first semester with that
      number, or `None`. */
  function FindSemester(sems: seq<Semester>, n: int): (r: Option<Semester>)
    ensures r.Some? <==> exists i :: 0 <= i < |sems| && sems[i].number == n
    ensures r.Some? ==> exists i :: 0 <= i < |sems| && sems[i] == r.value &&
                          r.value.number == n &&
                          forall j :: 0 <= j < i ==> sems[j].number != n
  {
    if sems == [] then None
    else if sems[0].number == n then Some(sems[0])
    else
      var r := FindSemester(sems[1..], n);
      assert forall i :: 0 < i < |sems| ==> sems[i] == sems[1..][i - 1];
      r
  }

  /** `additionalData.find(item => item.type === kind)?.courses || []`: the
      courses of the first elective set of that category, or none at all. */
  function ElectiveCourses(electives: seq<ElectiveSet>, kind: string): (r: seq<Course>)
    ensures (forall i :: 0 <= i < |electives| ==> electives[i].kind != kind) ==> r == []
    ensures forall i :: 0 <= i < |electives| && electives[i].kind == kind &&
                        (forall j :: 0 <= j < i ==> electives[j].kind != kind)
                        ==> r == electives[i].courses
  {
    if electives == [] then []
    else if electives[0].kind == kind then electives[0].courses
    else
      var r := ElectiveCourses(electives[1..], kind);
      assert forall i :: 0 < i < |electives| ==> electives[i] == electives[1..][i - 1];
      r
  }

  /** The codes of a course list. */
  function Codes(courses: seq<Course>): set<string> {
    set c | c in courses :: c.code
  }
}
