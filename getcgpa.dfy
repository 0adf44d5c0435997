/** The GPA screen (app/Getcgpa.tsx): resolving the course list for the
    chosen department and semester, collecting a letter grade per course,
    computing the credit-weighted GPA, and saving it under the roll number. */
module Getcgpa {
  import opened Wrappers
  import opened JsText
  import opened Catalog
  import opened Records
  import opened DeptInput

  /** The grade buttons, best first. */
  const Grades: seq<string> := ["S", "A", "B", "C", "D", "E", "F"]

  /** `getGradePoint`: S is 10 and each further letter down to E is one less;
      F and every other string are 0. */
  function GradePoint(grade: string): (p: nat)
    ensures p <= 10
    ensures grade !in Grades ==> p == 0
  {
    match grade
    case "S" => 10
    case "A" => 9
    case "B" => 8
    case "C" => 7
    case "D" => 6
    case "E" => 5
    case "F" => 0
    case _ => 0
  }

  /** The scale of the grade buttons: the letter at position `i` is worth
      `10 - i` points, except the last one, F, which is worth nothing. */
  lemma GradeScale(i: nat)
    requires i < |Grades|
    ensures GradePoint(Grades[i]) == if i < 6 then 10 - i else 0
  {
    assert Grades[i] == ["S", "A", "B", "C", "D", "E", "F"][i];
  }

  /** The grade selected for a course code; an absent entry reads as the
      empty (ungraded) selection, as `undefined` does in the source. */
  function GradeOf(selections: map<string, string>, code: string): string {
    if code in selections then selections[code] else ""
  }

  /** Credits and credit-weighted grade points accumulated so far. */
  datatype Totals = Totals(credits: nat, points: nat) {
    function Plus(other: Totals): Totals {
      Totals(credits + other.credits, points + other.points)
    }
  }

  /** What one course adds: nothing when it is ungraded, otherwise its credit
      and its credit times its grade point (an F adds credit and no points). */
  function CourseTotals(c: Course, selections: map<string, string>): (t: Totals)
    ensures GradeOf(selections, c.code) == "" ==> t == Totals(0, 0)
    ensures GradeOf(selections, c.code) != "" ==> t.credits == c.credit
    ensures t.points <= 10 * t.credits
  {
    var grade := GradeOf(selections, c.code);
    if grade != "" then Totals(c.credit, Weighted(GradePoint(grade), c.credit))
    else Totals(0, 0)
  }

  /** A grade point weighted by a credit count: `credit` copies of `point`
      added up, at most ten per credit when the point is at most ten. */
  function Weighted(point: nat, credit: nat): (w: nat)
    ensures point <= 10 ==> w <= 10 * credit
  {
    if credit == 0 then 0 else Weighted(point, credit - 1) + point
  }

  /** The weighted points are the grade point times the credit. */
  lemma {:induction false} WeightedIsProduct(point: nat, credit: nat)
    ensures Weighted(point, credit) == point * credit
  {
    if credit > 0 {
      WeightedIsProduct(point, credit - 1);
      assert point * (credit - 1) + point == point * credit;
    }
  }

  /** The two running sums of `calculateCGPA` over a course list, in list
      order. */
  function Tally(courses: seq<Course>, selections: map<string, string>): (t: Totals)
  {
    if courses == [] then Totals(0, 0)
    else Tally(courses[..|courses| - 1], selections).Plus(CourseTotals(courses[|courses| - 1], selections))
  }

  /** Every graded course keeps its points within ten per credit, so the
      tally does too. */
  lemma {:induction false} TallyBounded(courses: seq<Course>, selections: map<string, string>)
    ensures Tally(courses, selections).points <= 10 * Tally(courses, selections).credits
  {
    if courses != [] {
      TallyBounded(courses[..|courses| - 1], selections);
    }
  }

  /** The GPA of a course list: points over credits, or 0 when no credit is
      graded. */
  function Gpa(courses: seq<Course>, selections: map<string, string>): (g: real)
    ensures 0.0 <= g <= 10.0
    ensures Tally(courses, selections).credits == 0 ==> g == 0.0
    ensures Tally(courses, selections).credits > 0 ==>
              IsRatio(g, Tally(courses, selections).points, Tally(courses, selections).credits)
  {
    var t := Tally(courses, selections);
    TallyBounded(courses, selections);
    if t.credits > 0 then Quotient(t.points, t.credits) else 0.0
  }

  /** `q` is `p` points per `c` credits. */
  predicate IsRatio(q: real, p: nat, c: nat) {
    q * c as real == p as real
  }

  /** Points over credits, at most ten when the points are. */
  function Quotient(p: nat, c: nat): (q: real)
    requires c > 0 && p <= 10 * c
    ensures 0.0 <= q <= 10.0 && IsRatio(q, p, c)
  {
    var q := p as real / c as real;
    assert q * c as real == p as real;
    assert q <= 10.0 by {
      if q > 10.0 {
        assert q * c as real > 10.0 * c as real;
      }
    }
    q
  }

  /** `calculateCGPA`'s loop: a `forEach` over the courses that skips the
      ungraded ones and accumulates credits and weighted points. */
  method ComputeGpa(courses: seq<Course>, selections: map<string, string>) returns (cgpa: real)
    ensures cgpa == Gpa(courses, selections)
    ensures 0.0 <= cgpa <= 10.0
  {
    var totalCredits: nat := 0;
    var totalGradePoints: nat := 0;
    var i := 0;
    while i < |courses|
      invariant 0 <= i <= |courses|
      invariant Totals(totalCredits, totalGradePoints) == Tally(courses[..i], selections)
    {
      var course := courses[i];
      var grade := GradeOf(selections, course.code);
      if grade != "" {
        var gradePoint := GradePoint(grade);
        totalCredits := totalCredits + course.credit;
        WeightedIsProduct(gradePoint, course.credit);
        totalGradePoints := totalGradePoints + gradePoint * course.credit;
      }
      assert courses[..i + 1][..i] == courses[..i];
      i := i + 1;
    }
    assert courses[..i] == courses;
    cgpa := if totalCredits > 0 then totalGradePoints as real / totalCredits as real else 0.0;
  }

  /** Tallying a concatenation adds the two tallies. */
  lemma {:induction false} TallyAppend(a: seq<Course>, b: seq<Course>, selections: map<string, string>)
    ensures Tally(a + b, selections) == Tally(a, selections).Plus(Tally(b, selections))
    decreases |b|
  {
    if b == [] {
      assert a + b == a;
    } else {
      var n := |b| - 1;
      var ab := a + b;
      assert ab[..|ab| - 1] == a + b[..n];
      assert ab[|ab| - 1] == b[n];
      TallyAppend(a, b[..n], selections);
      assert Tally(ab, selections) == Tally(a + b[..n], selections).Plus(CourseTotals(b[n], selections));
      assert Tally(b, selections) == Tally(b[..n], selections).Plus(CourseTotals(b[n], selections));
    }
  }

  /** Taking one course out of a list takes its contribution out of the tally. */
  lemma TallyRemove(s: seq<Course>, j: nat, selections: map<string, string>)
    requires j < |s|
    ensures Tally(s, selections) == Tally(s[..j] + s[j + 1..], selections).Plus(CourseTotals(s[j], selections))
  {
    var pre, x, post := s[..j], s[j], s[j + 1..];
    assert s == (pre + [x]) + post;
    assert (pre + [x])[..|pre|] == pre;
    var a, c, b := Tally(pre, selections), CourseTotals(x, selections), Tally(post, selections);
    assert Tally(pre + [x], selections) == a.Plus(c);
    TallyAppend(pre + [x], post, selections);
    TallyAppend(pre, post, selections);
    assert Tally(s, selections) == a.Plus(c).Plus(b);
    assert Tally(pre + post, selections) == a.Plus(b);
  }

  /** The tally depends only on which courses are listed, not their order. */
  lemma {:induction false} TallyPermutation(a: seq<Course>, b: seq<Course>, selections: map<string, string>)
    requires multiset(a) == multiset(b)
    ensures Tally(a, selections) == Tally(b, selections)
    decreases |a|
  {
    if a == [] {
      assert |b| == |multiset(b)| == 0;
    } else {
      var n := |a| - 1;
      var x := a[n];
      assert x in multiset(b) by { assert x in a; }
      var j :| 0 <= j < |b| && b[j] == x;
      var rest := b[..j] + b[j + 1..];
      assert multiset(a[..n]) == multiset(rest) by {
        assert a == a[..n] + [x];
        assert multiset(a[..n]) == multiset(a) - multiset{x};
        assert b == b[..j] + [x] + b[j + 1..];
        assert multiset(rest) == multiset(b) - multiset{x};
      }
      TallyPermutation(a[..n], rest, selections);
      TallyRemove(b, j, selections);
    }
  }

  /** Permuting the course list leaves the GPA unchanged. */
  lemma GpaPermutation(a: seq<Course>, b: seq<Course>, selections: map<string, string>)
    requires multiset(a) == multiset(b)
    ensures Gpa(a, selections) == Gpa(b, selections)
  {
    TallyPermutation(a, b, selections);
  }

  /** The tally reads the selections only at the listed course codes. */
  lemma {:induction false} TallyCongruent(courses: seq<Course>, s1: map<string, string>, s2: map<string, string>)
    requires forall c :: c in courses ==> GradeOf(s1, c.code) == GradeOf(s2, c.code)
    ensures Tally(courses, s1) == Tally(courses, s2)
  {
    if courses != [] {
      TallyCongruent(courses[..|courses| - 1], s1, s2);
    }
  }

  /** A list in which no course is graded tallies to nothing. */
  lemma {:induction false} TallyUngraded(courses: seq<Course>, selections: map<string, string>)
    requires forall c :: c in courses ==> GradeOf(selections, c.code) == ""
    ensures Tally(courses, selections) == Totals(0, 0)
  {
    if courses != [] {
      TallyUngraded(courses[..|courses| - 1], selections);
    }
  }

  /** The worked example: S on 4 credits and F on 2 credits give 40/6. */
  lemma FailedCourseCountsCredits()
    ensures Gpa([Course("X", "", 4), Course("Y", "", 2)], map["X" := "S", "Y" := "F"]) == 40.0 / 6.0
  {
    var x, y := Course("X", "", 4), Course("Y", "", 2);
    var courses := [x, y];
    var sel := map["X" := "S", "Y" := "F"];
    assert GradeOf(sel, "X") == "S" && GradePoint("S") == 10;
    assert GradeOf(sel, "Y") == "F" && GradePoint("F") == 0;
    WeightedIsProduct(10, 4);
    WeightedIsProduct(0, 2);
    assert CourseTotals(x, sel) == Totals(4, 40);
    assert CourseTotals(y, sel) == Totals(2, 0);
    assert courses[..1] == [x] && [x][..0] == [];
    assert Tally([x], sel) == Totals(4, 40);
    assert Tally(courses, sel) == Totals(6, 40);
    assert Quotient(40, 6) == 40.0 / 6.0;
  }

  /** `getHmOecCourses`: the OEC courses if that flag is set, then the H&M
      courses if that flag is set. */
  function HmOecCourses(electives: seq<ElectiveSet>, oec: bool, hm: bool): (r: seq<Course>)
    ensures forall c :: c in r <==>
              (oec && c in ElectiveCourses(electives, "OEC")) || (hm && c in ElectiveCourses(electives, "H&M"))
    ensures |r| == (if oec then |ElectiveCourses(electives, "OEC")| else 0) +
                   (if hm then |ElectiveCourses(electives, "H&M")| else 0)
    ensures oec ==> r[..|ElectiveCourses(electives, "OEC")|] == ElectiveCourses(electives, "OEC")
    ensures hm ==> r[|r| - |ElectiveCourses(electives, "H&M")|..] == ElectiveCourses(electives, "H&M")
    ensures !oec && !hm ==> r == []
  {
    var oecCourses, hmCourses := ElectiveCourses(electives, "OEC"), ElectiveCourses(electives, "H&M");
    var additional: seq<Course> := [];
    var afterOec := if oec then additional + oecCourses else additional;
    var afterHm := if hm then afterOec + hmCourses else afterOec;
    assert afterOec == if oec then oecCourses else [];
    assert forall c :: c in afterHm <==> c in afterOec || (hm && c in hmCourses);
    afterHm
  }

  /** The guard of the course-loading effect: a non-empty department, a
      semester that is not `null`, and a non-empty roll number. */
  predicate ReadyToResolve(session: Session) {
    session.dept.Some? && session.dept.value != "" && session.semester.Some? && session.rollNo != ""
  }

  /** The course list the effect installs, or `None` when it installs
      nothing: the guard fails, the department is unknown, or no semester
      has the number `parseInt` reads (`NaN` matches none). A list is
      installed exactly when none of these happens. */
  function ResolvedCourses(data: seq<Department>, electives: seq<ElectiveSet>, session: Session): (r: Option<seq<Course>>)
    ensures r.Some? ==> ReadyToResolve(session)
    ensures ReadyToResolve(session) && (forall i :: 0 <= i < |data| ==> data[i].dept != session.dept.value) ==> r == None
    ensures ReadyToResolve(session) && FindDepartment(data, session.dept.value).Some? ==>
              var sems := FindDepartment(data, session.dept.value).value.sems;
              var n := ParseInt(session.semester.value);
              n.None? || (forall i :: 0 <= i < |sems| ==> sems[i].number != n.value) ==> r == None
    ensures ReadyToResolve(session) && FindDepartment(data, session.dept.value).Some? ==>
              var sems := FindDepartment(data, session.dept.value).value.sems;
              var n := ParseInt(session.semester.value);
              n.Some? && FindSemester(sems, n.value).Some? ==> r.Some?
  {
    if !ReadyToResolve(session) then None
    else match FindDepartment(data, session.dept.value)
      case None => None
      case Some(dept) =>
        match ParseInt(session.semester.value)
        case None => None
        case Some(n) =>
          match FindSemester(dept.sems, n)
          case None => None
          case Some(sem) =>
            var j :| 0 <= j < |dept.sems| && dept.sems[j].number == n;
            assert FindDepartment(data, session.dept.value).value.sems[j].number == ParseInt(session.semester.value).value;
            Some(sem.courses + HmOecCourses(electives, session.oec, session.hm))
  }

  /** What resolution produces: the core courses of the first department
      and semester that match, in catalog order, followed by the electives
      of the ticked categories; a course is listed iff it is a core course
      or an elective of a ticked category. */
  lemma ResolvedCourseList(data: seq<Department>, electives: seq<ElectiveSet>, session: Session)
    requires ResolvedCourses(data, electives, session).Some?
    ensures ReadyToResolve(session)
    ensures var dept := FindDepartment(data, session.dept.value);
            var n := ParseInt(session.semester.value);
            dept.Some? && n.Some? && FindSemester(dept.value.sems, n.value).Some? &&
            var core := FindSemester(dept.value.sems, n.value).value.courses;
            var list := ResolvedCourses(data, electives, session).value;
            && list[..|core|] == core
            && list[|core|..] == HmOecCourses(electives, session.oec, session.hm)
            && (forall c :: c in list <==>
                  c in core || (session.oec && c in ElectiveCourses(electives, "OEC")) ||
                  (session.hm && c in ElectiveCourses(electives, "H&M")))
  {
  }

  /** The effect's initial selections: every listed code maps to `''`. */
  function InitialSelections(courses: seq<Course>): (r: map<string, string>)
    ensures r.Keys == Codes(courses)
    ensures forall code :: code in r ==> r[code] == ""
  {
    if courses == [] then map[]
    else
      var r := InitialSelections(courses[..|courses| - 1]);
      assert courses == courses[..|courses| - 1] + [courses[|courses| - 1]];
      r[courses[|courses| - 1].code := ""]
  }

  /** Right after resolution no course is graded, so the GPA is 0. */
  lemma InitialGpaIsZero(courses: seq<Course>)
    ensures Gpa(courses, InitialSelections(courses)) == 0.0
  {
    var sel := InitialSelections(courses);
    forall c | c in courses ensures GradeOf(sel, c.code) == "" {
      assert c.code in Codes(courses);
    }
    TallyUngraded(courses, sel);
  }

  /** The courses as `calculateCGPA` saves them: same order and catalog
      fields, each with its selected grade. */
  function SavedCourses(courses: seq<Course>, selections: map<string, string>): (r: seq<SavedCourse>)
    ensures |r| == |courses|
    ensures forall i :: 0 <= i < |r| ==> r[i].code == courses[i].code && r[i].grade == GradeOf(selections, courses[i].code)
  {
    seq(|courses|, i requires 0 <= i < |courses| =>
      SavedCourse(courses[i].code, courses[i].name, courses[i].credit, GradeOf(selections, courses[i].code)))
  }

  /** Reading a saved course list back: the catalog part of each entry. */
  function LeafCourses(saved: seq<SavedCourse>): (r: seq<Course>)
    ensures |r| == |saved|
  {
    seq(|saved|, i requires 0 <= i < |saved| => Course(saved[i].code, saved[i].name, saved[i].credit))
  }

  /** Reading a saved course list back: its grades keyed by course code (a
      later entry for the same code overrides an earlier one). */
  function LeafSelections(saved: seq<SavedCourse>): map<string, string> {
    if saved == [] then map[]
    else LeafSelections(saved[..|saved| - 1])[saved[|saved| - 1].code := saved[|saved| - 1].grade]
  }

  lemma {:induction false} LeafSelectionsAgree(saved: seq<SavedCourse>, selections: map<string, string>)
    requires forall i :: 0 <= i < |saved| ==> saved[i].grade == GradeOf(selections, saved[i].code)
    ensures forall i :: 0 <= i < |saved| ==>
              GradeOf(LeafSelections(saved), saved[i].code) == GradeOf(selections, saved[i].code)
  {
    if saved != [] {
      var init := saved[..|saved| - 1];
      LeafSelectionsAgree(init, selections);
      forall i | 0 <= i < |saved|
        ensures GradeOf(LeafSelections(saved), saved[i].code) == GradeOf(selections, saved[i].code)
      {
        if i < |saved| - 1 {
          assert saved[i] == init[i];
        }
      }
    }
  }

  /** A saved semester is self-consistent: its courses are the resolved
      courses in order, and grading them with the saved grades gives the
      saved GPA again. */
  lemma SavedLeafRegrades(courses: seq<Course>, selections: map<string, string>)
    ensures var saved := SavedCourses(courses, selections);
            && LeafCourses(saved) == courses
            && (forall c :: c in courses ==> GradeOf(LeafSelections(saved), c.code) == GradeOf(selections, c.code))
            && Gpa(LeafCourses(saved), LeafSelections(saved)) == Gpa(courses, selections)
  {
    var saved := SavedCourses(courses, selections);
    assert LeafCourses(saved) == courses;
    LeafSelectionsAgree(saved, selections);
    forall c | c in courses
      ensures GradeOf(LeafSelections(saved), c.code) == GradeOf(selections, c.code)
    {
      var i :| 0 <= i < |courses| && courses[i] == c;
      assert saved[i].code == c.code;
    }
    TallyCongruent(courses, LeafSelections(saved), selections);
  }

  /** `saveData`'s update of a parsed record: make sure the top-level
      `semesters` object exists, then overwrite the leaf for `semester`. */
  function WithLeaf(rec: Record, semester: string, leaf: Leaf): (r: Record)
    ensures r.Keys == rec.Keys + {"semesters"}
    ensures forall k :: k in rec && k != "semesters" ==> r[k] == rec[k]
    ensures r["semesters"].Keys == (if "semesters" in rec then rec["semesters"].Keys else {}) + {semester}
    ensures r["semesters"][semester] == leaf
    ensures forall s :: "semesters" in rec && s in rec["semesters"] && s != semester ==>
              r["semesters"][s] == rec["semesters"][s]
  {
    var sems := if "semesters" in rec then rec["semesters"] else map[];
    rec["semesters" := sems[semester := leaf]]
  }

  /** Saving the same semester twice keeps only the second leaf. */
  lemma LastWriteWins(rec: Record, semester: string, first: Leaf, second: Leaf)
    ensures WithLeaf(WithLeaf(rec, semester, first), semester, second) == WithLeaf(rec, semester, second)
  {
    var a := WithLeaf(WithLeaf(rec, semester, first), semester, second);
    var b := WithLeaf(rec, semester, second);
    assert a["semesters"] == b["semesters"];
  }

  /** The stored object `saveData` starts from: the parsed record, or `{}`
      when the key is absent. */
  function ExistingRecord(items: map<string, Entry>, key: string): Record
    requires key in items ==> items[key].Parsed?
  {
    if key in items then items[key].record else map[]
  }

  /** The key the leaf is written under: `String(selectedSemester)`, so a
      `null` semester becomes "null". */
  function SemesterKey(semester: Option<string>): string {
    semester.GetOr("null")
  }

  /** `saveData`: read the roll number's record, add or overwrite the leaf
      under `semesters`, write it back. A record that does not parse, or a
      storage call that throws (`storageFails`), aborts the whole save and
      writes nothing. The department of the saved data is not used. */
  method SaveData(store: Store, rollNo: string, semester: string, leaf: Leaf, storageFails: bool)
    modifies store
    ensures var key := RollKey(rollNo);
            if storageFails || (key in old(store.items) && old(store.items)[key].Unparsable?) then
              store.items == old(store.items)
            else
              store.items == old(store.items)[key := Parsed(WithLeaf(ExistingRecord(old(store.items), key), semester, leaf))]
  {
    var key := RollKey(rollNo);
    if storageFails {
      return;
    }
    if key in store.items && store.items[key].Unparsable? {
      return;
    }
    var existingData: Record := if key in store.items then store.items[key].record else map[];
    ghost var before := existingData;
    if "semesters" !in existingData {
      existingData := existingData["semesters" := map[]];
    }
    existingData := existingData["semesters" := existingData["semesters"][semester := leaf]];
    assert existingData == WithLeaf(before, semester, leaf);
    store.items := store.items[key := Parsed(existingData)];
  }

  /** The screen's state: the resolved courses, the grade per course code,
      and the last computed GPA (`null` until the first calculation). */
  class GpaScreen {
    var courses: seq<Course>
    var selections: map<string, string>
    var cgpa: Option<real>

    /** Every listed course has a selection entry. */
    ghost predicate Valid()
      reads this
    {
      Codes(courses) <= selections.Keys
    }

    constructor ()
      ensures Valid()
      ensures courses == [] && selections == map[] && cgpa == None
    {
      courses := [];
      selections := map[];
      cgpa := None;
    }

    /** The course-loading effect: when the context resolves, install the
        course list and reset every selection to ungraded; otherwise leave
        the screen as it is. */
    method LoadCourses(data: seq<Department>, electives: seq<ElectiveSet>, session: Session)
      requires Valid()
      modifies this`courses, this`selections
      ensures Valid()
      ensures match ResolvedCourses(data, electives, session)
              case Some(list) => courses == list && selections == InitialSelections(list)
              case None => courses == old(courses) && selections == old(selections)
    {
      if ReadyToResolve(session) {
        var deptData := FindDepartment(data, session.dept.value);
        if deptData.Some? {
          var n := ParseInt(session.semester.value);
          var semesterData := if n.Some? then FindSemester(deptData.value.sems, n.value) else None;
          if semesterData.Some? {
            var mainCourses := semesterData.value.courses;
            var hmOecCourses := HmOecCourses(electives, session.oec, session.hm);
            var allCourses := mainCourses + hmOecCourses;
            assert ResolvedCourses(data, electives, session) == Some(allCourses);
            courses := allCourses;
            selections := InitialSelections(allCourses);
          }
        }
      }
    }

    /** `handleGradeChange`: set one course's grade, keep all others. */
    method HandleGradeChange(courseCode: string, grade: string)
      requires Valid()
      modifies this`selections
      ensures Valid()
      ensures selections == old(selections)[courseCode := grade]
    {
      selections := selections[courseCode := grade];
    }

    /** `calculateCGPA`: compute the GPA, show it, and save the graded courses
        and the GPA under the roll number and semester of the context. Every
        listed course has a selection entry, so each saved grade is that
        entry itself (`''` for a course left ungraded). */
    method CalculateCgpa(store: Store, session: Session, storageFails: bool)
      requires Valid()
      modifies this`cgpa, store
      ensures cgpa == Some(Gpa(courses, selections))
      ensures forall i :: 0 <= i < |courses| ==>
                courses[i].code in selections &&
                SavedCourses(courses, selections)[i].grade == selections[courses[i].code]
      ensures var key := RollKey(session.rollNo);
              var leaf := Leaf(SavedCourses(courses, selections), Gpa(courses, selections));
              if storageFails || (key in old(store.items) && old(store.items)[key].Unparsable?) then
                store.items == old(store.items)
              else
                store.items == old(store.items)[key := Parsed(WithLeaf(ExistingRecord(old(store.items), key),
                                                                        SemesterKey(session.semester), leaf))]
    {
      forall i | 0 <= i < |courses| ensures courses[i].code in selections {
        assert courses[i].code in Codes(courses);
      }
      var cgpaValue := ComputeGpa(courses, selections);
      cgpa := Some(cgpaValue);
      SaveData(store, session.rollNo, SemesterKey(session.semester),
               Leaf(SavedCourses(courses, selections), cgpaValue), storageFails);
    }
  }

  /** Choosing option `i` of a found department's semester picker, with a
      roll number entered, makes the GPA screen load a course list that
      starts with the core courses of a semester having that number. */
  lemma ChosenOptionResolves(data: seq<Department>, electives: seq<ElectiveSet>, session: Session, i: nat)
    requires session.rollNo != ""
    requires session.dept.Some? && session.dept.value != ""
    requires FindDepartment(data, session.dept.value).Some?
    requires i < |FindDepartment(data, session.dept.value).value.sems|
    requires session.semester == Some(SemesterOptions(FindDepartment(data, session.dept.value).value.sems)[i])
    ensures ResolvedCourses(data, electives, session).Some?
    ensures var sems := FindDepartment(data, session.dept.value).value.sems;
            exists j :: 0 <= j < |sems| && sems[j].number == sems[i].number &&
              sems[j].courses <= ResolvedCourses(data, electives, session).value
  {
    var sems := FindDepartment(data, session.dept.value).value.sems;
    OptionReadsBack(sems, i);
    var found := FindSemester(sems, sems[i].number);
    assert found.Some?;
    var extra := HmOecCourses(electives, session.oec, session.hm);
    assert ResolvedCourses(data, electives, session) == Some(found.value.courses + extra);
    var j :| 0 <= j < |sems| && sems[j] == found.value && found.value.number == sems[i].number;
    assert sems[j].courses <= found.value.courses + extra;
  }
}
