/** The selection form (components/Deptinput.tsx) together with the shared
    selection context it writes to (context/DeptContext.tsx, whose five
    fields are folded in here as `Session`). */
module DeptInput {
  import opened Wrappers
  import opened JsText
  import opened Catalog

  /** The shared context: roll number, department, semester (both `null`
      until first set, hence `Option`) and the two elective flags. */
  datatype Session = Session(rollNo: string, dept: Option<string>, semester: Option<string>, oec: bool, hm: bool)

  /** The context right after the form has mounted: the roll number is empty,
      so the reset effect has cleared everything. */
  const ClearedSession: Session := Session("", Some(""), Some(""), false, false)

  /** `departments.find(dept => dept.dept === value)?.SEMS`, or `[]`. */
  function SemestersFor(departments: seq<Department>, value: string): (r: seq<Semester>)
    ensures FindDepartment(departments, value).None? ==> r == []
  {
    match FindDepartment(departments, value)
    case Some(d) => d.sems
    case None => []
  }

  /** The values of the semester picker: each semester's number as a string. */
  function SemesterOptions(sems: seq<Semester>): (r: seq<string>)
    ensures |r| == |sems|
  {
    seq(|sems|, i requires 0 <= i < |sems| => NatToString(sems[i].number))
  }

  /** Every option names its own semester: `parseInt` and `Number` both read
      option `i` back as the number of semester `i`, so distinct numbers give
      distinct options. */
  lemma OptionReadsBack(sems: seq<Semester>, i: nat)
    requires i < |sems|
    ensures ParseInt(SemesterOptions(sems)[i]) == Some(sems[i].number)
    ensures NumberValue(SemesterOptions(sems)[i]) == Some(sems[i].number)
  {
    ParseIntNatToString(sems[i].number);
    NumberValueNatToString(sems[i].number);
  }

  /** `selectedSemester && Number(selectedSemester) > 2`; `NaN > 2` is false. */
  predicate IsHigherSemester(selected: string) {
    selected != "" && NumberValue(selected).Some? && NumberValue(selected).value > 2
  }

  /** The elective check boxes are offered for option `i` exactly when that
      semester's number exceeds 2. */
  lemma HigherSemesterOption(sems: seq<Semester>, i: nat)
    requires i < |sems|
    ensures IsHigherSemester(SemesterOptions(sems)[i]) <==> sems[i].number > 2
  {
    OptionReadsBack(sems, i);
  }

  /** The form's local state and the context it drives. */
  class DeptForm {
    const departments: seq<Department>
    var rollNo: string
    var selectedDept: string
    var semesters: seq<Semester>
    var selectedSemester: string
    var ctx: Session

    /** The context mirrors the local fields, and the selected semester is
        empty or one of the offered options. */
    ghost predicate Valid()
      reads this
    {
      && ctx.rollNo == rollNo
      && ctx.dept == Some(selectedDept)
      && ctx.semester == Some(selectedSemester)
      && (selectedSemester == "" || selectedSemester in SemesterOptions(semesters))
    }

    /** Mounting: the catalog is loaded, and the roll-number effect runs once
        with the empty roll number, which resets the context. */
    constructor (catalog: seq<Department>)
      ensures Valid()
      ensures departments == catalog
      ensures rollNo == "" && selectedDept == "" && selectedSemester == "" && semesters == []
      ensures ctx == ClearedSession
    {
      departments := catalog;
      rollNo := "";
      selectedDept := "";
      selectedSemester := "";
      semesters := [];
      ctx := ClearedSession;
    }

    /** Typing in the roll-number field. The effect keyed on the roll number
        runs only when the text actually changes; it copies the roll number
        into the context and, when the field was cleared, resets the
        department, the semester, the semester list and both elective flags. */
    method ChangeRollNo(text: string)
      requires Valid()
      modifies this
      ensures Valid()
      ensures text == old(rollNo) ==>
                rollNo == old(rollNo) && selectedDept == old(selectedDept) &&
                semesters == old(semesters) && selectedSemester == old(selectedSemester) &&
                ctx == old(ctx)
      ensures text != old(rollNo) && text == "" ==>
                rollNo == "" && selectedDept == "" && selectedSemester == "" &&
                semesters == [] && ctx == ClearedSession
      ensures text != old(rollNo) && text != "" ==>
                rollNo == text && selectedDept == old(selectedDept) &&
                semesters == old(semesters) && selectedSemester == old(selectedSemester) &&
                ctx == old(ctx).(rollNo := text)
    {
      if text != rollNo {
        rollNo := text;
        ctx := ctx.(rollNo := text);
        if text == "" {
          selectedDept := "";
          selectedSemester := "";
          semesters := [];
          ctx := ctx.(dept := Some(""), semester := Some(""));
          ctx := ctx.(hm := false);
          ctx := ctx.(oec := false);
        }
      }
    }

    /** Picking a department: it is stored locally and in the context, the
        semester list becomes that department's (or empty), and the semester
        is reset. The elective flags are left as they were. */
    method HandleDeptChange(value: string)
      requires Valid()
      modifies this
      ensures Valid()
      ensures selectedDept == value && ctx.dept == Some(value)
      ensures semesters == SemestersFor(departments, value)
      ensures selectedSemester == "" && ctx.semester == Some("")
      ensures rollNo == old(rollNo) && ctx.rollNo == old(ctx.rollNo)
      ensures ctx.oec == old(ctx.oec) && ctx.hm == old(ctx.hm)
    {
      selectedDept := value;
      ctx := ctx.(dept := Some(value));
      var found := FindDepartment(departments, value);
      if found.Some? {
        semesters := found.value.sems;
      } else {
        semesters := [];
      }
      selectedSemester := "";
      ctx := ctx.(semester := Some(""));
    }

    /** Picking one of the offered semesters: stored locally and in the
        context; nothing else changes. */
    method HandleSemesterChange(value: string)
      requires Valid()
      requires value in SemesterOptions(semesters)
      modifies this`selectedSemester, this`ctx
      ensures Valid()
      ensures selectedSemester == value && ctx == old(ctx).(semester := Some(value))
    {
      selectedSemester := value;
      ctx := ctx.(semester := Some(value));
    }

    /** Whether the OEC and H&M check boxes are shown. */
    predicate ShowsElectives()
      reads this
    {
      IsHigherSemester(selectedSemester)
    }

    /** Ticking the OEC box, which is only on screen for a higher semester. */
    method SetOec(checked: bool)
      requires Valid() && ShowsElectives()
      modifies this`ctx
      ensures Valid()
      ensures ctx == old(ctx).(oec := checked)
    {
      ctx := ctx.(oec := checked);
    }

    /** Ticking the H&M box, likewise. */
    method SetHm(checked: bool)
      requires Valid() && ShowsElectives()
      modifies this`ctx
      ensures Valid()
      ensures ctx == old(ctx).(hm := checked)
    {
      ctx := ctx.(hm := checked);
    }
  }
}
