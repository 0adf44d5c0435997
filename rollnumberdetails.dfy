/** The result view of one roll number (components/RollNumberDetails.tsx):
    loading the stored record, deleting a saved semester, averaging the
    saved GPAs per semester id and overall, and choosing which departments
    are displayed. */
module RollNumberDetails {
  import opened Wrappers
  import opened Records
  import opened Getcgpa

  /** The sum of a map's values, taken in no particular order. */
  ghost function MapSum(m: map<string, real>): real
    decreases |m|
  {
    if m == map[] then 0.0
    else
      var k :| k in m;
      m[k] + MapSum(m - {k})
  }

  /** The sum does not depend on which key is taken out first. */
  lemma {:induction false} MapSumRemove(m: map<string, real>, j: string)
    requires j in m
    ensures MapSum(m) == m[j] + MapSum(m - {j})
    decreases |m|
  {
    var k :| k in m && MapSum(m) == m[k] + MapSum(m - {k});
    if k != j {
      var mk, mj := m - {k}, m - {j};
      assert |mk| < |m| && |mj| < |m|;
      MapSumRemove(mk, j);
      MapSumRemove(mj, k);
      assert mk - {j} == mj - {k};
    }
  }

  /** Adding a new key adds its value to the sum. */
  lemma MapSumInsert(m: map<string, real>, k: string, v: real)
    requires k !in m
    ensures MapSum(m[k := v]) == MapSum(m) + v
  {
    MapSumRemove(m[k := v], k);
    assert m[k := v] - {k} == m;
  }

  /** The arithmetic mean of a non-empty map's values. */
  ghost function Mean(m: map<string, real>): real
    requires |m| > 0
  {
    MapSum(m) / |m| as real
  }

  /** `n` copies of `x` added up. */
  function Times(n: nat, x: real): real {
    if n == 0 then 0.0 else Times(n - 1, x) + x
  }

  lemma {:induction false} TimesIsProduct(n: nat, x: real)
    ensures Times(n, x) == n as real * x
  {
    if n > 0 {
      TimesIsProduct(n - 1, x);
      assert (n - 1) as real * x + x == n as real * x;
    }
  }

  /** Values that all lie in `[lo, hi]` sum to between `|m|` copies of `lo`
      and `|m|` copies of `hi`. */
  lemma {:induction false} MapSumBounds(m: map<string, real>, lo: real, hi: real)
    requires forall k :: k in m ==> lo <= m[k] <= hi
    ensures Times(|m|, lo) <= MapSum(m) <= Times(|m|, hi)
    decreases |m|
  {
    if m != map[] {
      var k :| k in m;
      var rest := m - {k};
      assert |rest| == |m| - 1;
      MapSumRemove(m, k);
      MapSumBounds(rest, lo, hi);
    }
  }

  lemma QuotientBounds(sum: real, n: real, lo: real, hi: real)
    requires n > 0.0 && n * lo <= sum <= n * hi
    ensures lo <= sum / n <= hi
  {
    assert sum / n - lo == (sum - n * lo) / n;
    assert hi - sum / n == (n * hi - sum) / n;
  }

  /** A mean lies between the smallest and the largest of its inputs. */
  lemma MeanBounds(m: map<string, real>, lo: real, hi: real)
    requires |m| > 0
    requires forall k :: k in m ==> lo <= m[k] <= hi
    ensures lo <= Mean(m) <= hi
  {
    MapSumBounds(m, lo, hi);
    TimesIsProduct(|m|, lo);
    TimesIsProduct(|m|, hi);
    QuotientBounds(MapSum(m), |m| as real, lo, hi);
  }

  /** `reduce((sum, x) => sum + x, 0)`: the left-to-right sum of a list. */
  function SeqSum(xs: seq<real>): real {
    if xs == [] then 0.0 else SeqSum(xs[..|xs| - 1]) + xs[|xs| - 1]
  }

  /** The GPAs saved under semester id `s`, keyed by the top-level key
      (department) they are saved under. */
  ghost function Column(data: Record, s: string): (m: map<string, real>)
    ensures m.Keys <= data.Keys
  {
    map d | d in data && s in data[d] :: data[d][s].cgpa
  }

  /** Every semester id used by some department of the record. */
  ghost function SemesterIds(data: Record): set<string> {
    set d, s | d in data && s in data[d] :: s
  }

  /** A semester id is used exactly when some GPA is saved under it. */
  lemma SemesterIdColumn(data: Record, s: string)
    ensures s in SemesterIds(data) <==> |Column(data, s)| > 0
  {
    if s in SemesterIds(data) {
      var d :| d in data && s in data[d];
      assert d in Column(data, s);
    }
    if |Column(data, s)| > 0 {
      var d :| d in Column(data, s);
      assert s in data[d];
    }
  }

  /** How replacing one department's semesters changes a column. */
  lemma ColumnUpdate(data: Record, d: string, x: map<string, Leaf>, t: string)
    ensures Column(data[d := x], t) ==
              if t in x then Column(data, t)[d := x[t].cgpa] else Column(data, t) - {d}
  {
  }

  /** How replacing one department's semesters changes the semester ids. */
  lemma SemesterIdsUpdate(data: Record, d: string, x: map<string, Leaf>)
    ensures SemesterIds(data[d := x]) == SemesterIds(data - {d}) + x.Keys
  {
    var r := data[d := x];
    forall t | t in SemesterIds(r) ensures t in SemesterIds(data - {d}) + x.Keys {
      var e :| e in r && t in r[e];
      if e != d {
        assert e in data - {d} && t in (data - {d})[e];
      }
    }
    forall t | t in SemesterIds(data - {d}) + x.Keys ensures t in SemesterIds(r) {
      if t in x.Keys {
        assert d in r && t in r[d];
      } else {
        var e :| e in data - {d} && t in (data - {d})[e];
        assert e in r && t in r[e];
      }
    }
  }

  /** Every semester's column, for the semester ids in use. */
  ghost function Columns(data: Record): map<string, map<string, real>> {
    map s | s in SemesterIds(data) :: Column(data, s)
  }

  /** The columns once the semesters of a department `d` not yet among them
      are added: each of its semesters gains `d`'s GPA. */
  ghost function AddDepartment(cols: map<string, map<string, real>>, d: string, department: map<string, Leaf>): map<string, map<string, real>> {
    map s | s in cols.Keys + department.Keys ::
      if s in department then (if s in cols then cols[s] else map[])[d := department[s].cgpa] else cols[s]
  }

  /** Adding one more semester of the department touches only its column. */
  lemma AddLeaf(cols: map<string, map<string, real>>, d: string, department: map<string, Leaf>, s: string, leaf: Leaf)
    requires s !in department
    requires forall t :: t in cols ==> d !in cols[t]
    ensures var added := AddDepartment(cols, d, department);
            && (s in added ==> d !in added[s])
            && AddDepartment(cols, d, department[s := leaf]) ==
                 added[s := (if s in added then added[s] else map[])[d := leaf.cgpa]]
  {
    var added := AddDepartment(cols, d, department);
    var lhs := AddDepartment(cols, d, department[s := leaf]);
    var rhs := added[s := (if s in added then added[s] else map[])[d := leaf.cgpa]];
    assert lhs.Keys == rhs.Keys;
    assert lhs == rhs;
  }

  /** A department not in the record appears in none of its columns. */
  lemma ColumnsWithout(data: Record, d: string)
    requires d !in data
    ensures forall t :: t in Columns(data) ==> d !in Columns(data)[t]
  {
  }

  /** One column of the record with department `d` added. */
  lemma ColumnAddDepartment(data: Record, d: string, department: map<string, Leaf>, t: string)
    requires d !in data
    requires t in SemesterIds(data) || t in department
    ensures var added := AddDepartment(Columns(data), d, department);
            t in added && Column(data[d := department], t) == added[t]
  {
    ColumnUpdate(data, d, department, t);
    assert Column(data, t) - {d} == Column(data, t);
    if t !in SemesterIds(data) {
      SemesterIdColumn(data, t);
    }
  }

  /** The semester ids of the record with department `d` added are those
      of the others and those of `d`. */
  lemma ColumnsAddKeys(data: Record, d: string, department: map<string, Leaf>)
    requires d !in data
    ensures Columns(data[d := department]).Keys == AddDepartment(Columns(data), d, department).Keys
  {
    SemesterIdsUpdate(data, d, department);
    assert data - {d} == data;
    ColumnsKeys(data);
    ColumnsKeys(data[d := department]);
  }

  /** Adding a department's semesters to the columns of the others gives the
      columns of the record with it. */
  lemma ColumnsAddDepartment(data: Record, d: string, department: map<string, Leaf>)
    requires d !in data
    ensures forall t :: t in Columns(data) ==> d !in Columns(data)[t]
    ensures Columns(data[d := department]) == AddDepartment(Columns(data), d, department)
  {
    ColumnsWithout(data, d);
    var lhs := Columns(data[d := department]);
    var rhs := AddDepartment(Columns(data), d, department);
    ColumnsAddKeys(data, d, department);
    forall t | t in lhs ensures lhs[t] == rhs[t] {
      ColumnAddDepartment(data, d, department, t);
    }
    assert lhs == rhs;
  }

  /** The lists collected so far against the columns they stand for: one
      list per column, as long as it and with the same sum. */
  ghost predicate Tallied(lists: map<string, seq<real>>, cols: map<string, map<string, real>>) {
    && lists.Keys == cols.Keys
    && forall s {:trigger lists[s]} :: s in lists ==> |lists[s]| == |cols[s]| > 0 && SeqSum(lists[s]) == MapSum(cols[s])
  }

  /** Pushing a GPA onto a list matches adding it to the column. */
  lemma TallyLeaf(lists: map<string, seq<real>>, cols: map<string, map<string, real>>, s: string, d: string, v: real)
    requires Tallied(lists, cols)
    requires s in cols ==> d !in cols[s]
    ensures var list := if s in lists then lists[s] else [];
            var col := if s in cols then cols[s] else map[];
            Tallied(lists[s := list + [v]], cols[s := col[d := v]])
  {
    var list := if s in lists then lists[s] else [];
    var col := if s in cols then cols[s] else map[];
    MapSumInsert(col, d, v);
    assert (list + [v])[..|list|] == list;
    if s !in lists {
      assert MapSum(col) == 0.0;
      assert SeqSum(list) == 0.0;
    }
  }

  /** One step of the inner loop: pushing semester `s`'s GPA keeps the lists
      tallied against the columns with `s` added. */
  lemma CollectStep(lists: map<string, seq<real>>, cols: map<string, map<string, real>>, d: string,
                    department: map<string, Leaf>, entries: set<string>, s: string)
    requires s in entries && entries <= department.Keys
    requires forall t :: t in cols ==> d !in cols[t]
    requires Tallied(lists, AddDepartment(cols, d, department - entries))
    ensures Tallied(lists[s := (if s in lists then lists[s] else []) + [department[s].cgpa]],
                    AddDepartment(cols, d, department - (entries - {s})))
  {
    var partial := department - entries;
    assert partial[s := department[s]] == department - (entries - {s});
    AddLeaf(cols, d, partial, s, department[s]);
    TallyLeaf(lists, AddDepartment(cols, d, partial), s, d, department[s].cgpa);
  }

  /** No semester of the department added leaves the columns as they were. */
  lemma AddNothing(cols: map<string, map<string, real>>, d: string, department: map<string, Leaf>)
    ensures AddDepartment(cols, d, department - department.Keys) == cols
  {
    assert department - department.Keys == map[];
  }

  /** Once no semester remains, the whole department has been added. */
  lemma CollectDone(lists: map<string, seq<real>>, cols: map<string, map<string, real>>, d: string, department: map<string, Leaf>)
    requires Tallied(lists, AddDepartment(cols, d, department - {}))
    ensures Tallied(lists, AddDepartment(cols, d, department))
  {
    assert department - {} == department;
  }

  /** The inner `forEach` of `aggregateCGPABySemester`: push each GPA of one
      department onto its semester's list, creating the list when it is
      missing. */
  method CollectDepartment(lists: map<string, seq<real>>, ghost cols: map<string, map<string, real>>, d: string, department: map<string, Leaf>)
    returns (result: map<string, seq<real>>)
    requires forall t :: t in cols ==> d !in cols[t]
    requires Tallied(lists, cols)
    ensures Tallied(result, AddDepartment(cols, d, department))
  {
    result := lists;
    var entries := department.Keys;
    AddNothing(cols, d, department);
    while entries != {}
      invariant entries <= department.Keys
      invariant Tallied(result, AddDepartment(cols, d, department - entries))
      decreases |entries|
    {
      var s :| s in entries;
      CollectStep(result, cols, d, department, entries, s);
      var cgpas := if s in result then result[s] else [];
      result := result[s := cgpas + [department[s].cgpa]];
      entries := entries - {s};
    }
    CollectDone(result, cols, d, department);
  }

  /** The outer `forEach`: collect the GPAs of every department. */
  method CollectCgpas(storedData: Record) returns (semesterCgpa: map<string, seq<real>>)
    ensures Tallied(semesterCgpa, Columns(storedData))
  {
    semesterCgpa := map[];
    var departments := storedData.Keys;
    assert Columns(storedData - departments) == map[];
    while departments != {}
      invariant departments <= storedData.Keys
      invariant Tallied(semesterCgpa, Columns(storedData - departments))
      decreases |departments|
    {
      var d :| d in departments;
      ghost var done := storedData - departments;
      TakeDepartment(storedData, departments, d);
      ColumnsAddDepartment(done, d, storedData[d]);
      semesterCgpa := CollectDepartment(semesterCgpa, Columns(done), d, storedData[d]);
      departments := departments - {d};
    }
    CollectAllDepartments(semesterCgpa, storedData);
  }

  /** Once no department remains, every department has been collected. */
  lemma CollectAllDepartments(lists: map<string, seq<real>>, data: Record)
    requires Tallied(lists, Columns(data - {}))
    ensures Tallied(lists, Columns(data))
  {
    assert data - {} == data;
  }

  /** Taking department `d` off the remaining ones. */
  lemma TakeDepartment(data: Record, departments: set<string>, d: string)
    requires d in departments && departments <= data.Keys
    ensures d !in data - departments
    ensures (data - departments)[d := data[d]] == data - (departments - {d})
  {
  }

  /** The second loop: each semester's average is its list's sum over its
      length. */
  method AverageLists(lists: map<string, seq<real>>) returns (averages: map<string, real>)
    requires forall s :: s in lists ==> |lists[s]| > 0
    ensures averages.Keys == lists.Keys
    ensures forall s :: s in averages ==> averages[s] == SeqSum(lists[s]) / |lists[s]| as real
  {
    averages := map[];
    var semesters := lists.Keys;
    while semesters != {}
      invariant semesters <= lists.Keys
      invariant averages.Keys == lists.Keys - semesters
      invariant forall s :: s in averages ==> averages[s] == SeqSum(lists[s]) / |lists[s]| as real
      decreases |semesters|
    {
      var s :| s in semesters;
      var cgpas := lists[s];
      var totalCgpa := SeqSum(cgpas);
      averages := averages[s := totalCgpa / |cgpas| as real];
      semesters := semesters - {s};
    }
  }

  /** A collected list averages to the mean of its column. */
  lemma TalliedMean(lists: map<string, seq<real>>, data: Record, s: string)
    requires Tallied(lists, Columns(data)) && s in lists
    ensures s in SemesterIds(data) && |Column(data, s)| > 0
    ensures SeqSum(lists[s]) / |lists[s]| as real == Mean(Column(data, s))
  {
    var cgpas := lists[s];
    assert Columns(data)[s] == Column(data, s);
  }

  /** There is one column per semester id in use. */
  lemma ColumnsKeys(data: Record)
    ensures Columns(data).Keys == SemesterIds(data)
  {
  }

  /** Collected lists are never empty. */
  lemma TalliedNonEmpty(lists: map<string, seq<real>>, cols: map<string, map<string, real>>)
    requires Tallied(lists, cols)
    ensures forall s :: s in lists ==> |lists[s]| > 0
  {
    forall s | s in lists ensures |lists[s]| > 0 {
      var cgpas := lists[s];
    }
  }

  /** Averaging the collected lists gives each semester id's mean. */
  lemma TalliedAverages(lists: map<string, seq<real>>, data: Record, averages: map<string, real>)
    requires Tallied(lists, Columns(data))
    requires forall s :: s in lists ==> |lists[s]| > 0
    requires averages.Keys == lists.Keys
    requires forall s :: s in averages ==> averages[s] == SeqSum(lists[s]) / |lists[s]| as real
    ensures averages.Keys == SemesterIds(data)
    ensures forall s :: s in averages ==>
              |Column(data, s)| > 0 && averages[s] == Mean(Column(data, s))
  {
    ColumnsKeys(data);
    forall s | s in averages
      ensures |Column(data, s)| > 0 && averages[s] == Mean(Column(data, s))
    {
      TalliedMean(lists, data, s);
    }
  }

  /** `aggregateCGPABySemester`: collect, for every semester id, the GPAs
      saved under it in any department, then average each list. Every leaf
      is collected, whether or not its course list is empty. */
  method AggregateCgpaBySemester(storedData: Record) returns (averageCgpa: map<string, real>)
    ensures averageCgpa.Keys == SemesterIds(storedData)
    ensures forall s :: s in averageCgpa ==>
              |Column(storedData, s)| > 0 && averageCgpa[s] == Mean(Column(storedData, s))
  {
    var semesterCgpa := CollectCgpas(storedData);
    TalliedNonEmpty(semesterCgpa, Columns(storedData));
    averageCgpa := AverageLists(semesterCgpa);
    TalliedAverages(semesterCgpa, storedData, averageCgpa);
  }

  /** `calculateOverallAverageCGPA`: the unweighted mean of the per-semester
      averages; with no semester it divides 0 by 0, which is `NaN` (`None`). */
  ghost function OverallAverage(averages: map<string, real>): (r: Option<real>)
    ensures r.Some? <==> |averages| > 0
  {
    if |averages| > 0 then Some(Mean(averages)) else None
  }

  /** The overall average lies between the smallest and the largest
      per-semester average. */
  lemma OverallWithinBounds(averages: map<string, real>, lo: real, hi: real)
    requires |averages| > 0
    requires forall s :: s in averages ==> lo <= averages[s] <= hi
    ensures OverallAverage(averages).Some? && lo <= OverallAverage(averages).value <= hi
  {
    MeanBounds(averages, lo, hi);
  }

  /** Every saved GPA lies in `[lo, hi]`, so every per-semester average does. */
  lemma ColumnMeanBounds(data: Record, s: string, lo: real, hi: real)
    requires |Column(data, s)| > 0
    requires forall d, t :: d in data && t in data[d] ==> lo <= data[d][t].cgpa <= hi
    ensures lo <= Mean(Column(data, s)) <= hi
  {
    MeanBounds(Column(data, s), lo, hi);
  }

  /** The mean of two values saved under two different keys is their
      midpoint. */
  lemma MeanOfTwo(a: string, b: string, x: real, y: real)
    requires a != b
    ensures |map[a := x, b := y]| == 2 && Mean(map[a := x, b := y]) == (x + y) / 2.0
  {
    var m := map[a := x, b := y];
    assert m.Keys == {a, b};
    MapSumRemove(m, a);
    var rest := m - {a};
    assert rest == map[b := y];
    MapSumRemove(rest, b);
    assert rest - {b} == map[];
  }

  /** The worked example: two departments saving 8.0 and 9.0 under the same
      semester id average to 8.5. */
  lemma AggregateExample()
    ensures var data: Record := map["CSE" := map["3" := Leaf([], 8.0)], "ECE" := map["3" := Leaf([], 9.0)]];
            && SemesterIds(data) == {"3"}
            && Column(data, "3") == map["CSE" := 8.0, "ECE" := 9.0]
            && Mean(Column(data, "3")) == 8.5
  {
    var data: Record := map["CSE" := map["3" := Leaf([], 8.0)], "ECE" := map["3" := Leaf([], 9.0)]];
    assert Column(data, "3") == map["CSE" := 8.0, "ECE" := 9.0];
    MeanOfTwo("CSE", "ECE", 8.0, 9.0);
    assert "3" in data["CSE"];
    assert SemesterIds(data) == {"3"};
  }

  /** A department is displayed when some semester of it has courses. */
  predicate HasValidSemester(semesters: map<string, Leaf>) {
    exists s :: s in semesters && |semesters[s].courses| > 0
  }

  /** `filteredDepartments`: the departments of the loaded record that have
      a semester with courses; none when no record is loaded. */
  function FilteredDepartments(data: Option<Record>): (r: set<string>)
    ensures data.None? ==> r == {}
    ensures data.Some? ==> r <= data.value.Keys
  {
    match data
    case None => {}
    case Some(rec) => set d | d in rec && HasValidSemester(rec[d])
  }

  /** Whenever a department is displayed, the aggregate has a semester, so
      the overall average is a number. */
  lemma DisplayedHasAggregate(data: Record)
    requires |FilteredDepartments(Some(data))| > 0
    ensures |SemesterIds(data)| > 0
  {
    var d :| d in FilteredDepartments(Some(data));
    var s :| s in data[d] && |data[d][s].courses| > 0;
    assert s in SemesterIds(data);
  }

  /** A leaf with no courses is hidden but still averaged: here the display
      keeps only CSE, while semester 3 averages 8.0 with ECE's 4.0. */
  lemma HiddenLeafStillAveraged()
    ensures var data: Record := map["CSE" := map["3" := Leaf([SavedCourse("CS301", "Networks", 4, "S")], 8.0)],
                                    "ECE" := map["3" := Leaf([], 4.0)]];
            && FilteredDepartments(Some(data)) == {"CSE"}
            && Column(data, "3") == map["CSE" := 8.0, "ECE" := 4.0]
            && Mean(Column(data, "3")) == 6.0
  {
    var data: Record := map["CSE" := map["3" := Leaf([SavedCourse("CS301", "Networks", 4, "S")], 8.0)],
                            "ECE" := map["3" := Leaf([], 4.0)]];
    assert HasValidSemester(data["CSE"]) by {
      assert |data["CSE"]["3"].courses| > 0;
    }
    assert !HasValidSemester(data["ECE"]) by {
      forall s | s in data["ECE"] ensures |data["ECE"][s].courses| == 0 {
        assert s == "3";
      }
    }
    assert FilteredDepartments(Some(data)) == {"CSE"};
    assert Column(data, "3") == map["CSE" := 8.0, "ECE" := 4.0];
    MeanOfTwo("CSE", "ECE", 8.0, 4.0);
  }

  /** Removing one semester from one department of the record, keeping the
      department even when it becomes empty. */
  function DeleteSemester(rec: Record, department: string, semester: string): (r: Record)
    requires department in rec
    ensures r.Keys == rec.Keys
    ensures r[department].Keys == rec[department].Keys - {semester}
    ensures forall s :: s in r[department] ==> r[department][s] == rec[department][s]
    ensures forall d :: d in rec && d != department ==> r[d] == rec[d]
  {
    rec[department := rec[department] - {semester}]
  }

  /** Deleting `(d, s)` takes `d`'s GPA out of semester `s`'s column and
      leaves every other column as it was. */
  lemma DeleteSemesterColumns(rec: Record, d: string, s: string)
    requires d in rec
    ensures Column(DeleteSemester(rec, d, s), s) == Column(rec, s) - {d}
    ensures forall t :: t != s ==> Column(DeleteSemester(rec, d, s), t) == Column(rec, t)
  {
    ColumnUpdate(rec, d, rec[d] - {s}, s);
    forall t | t != s ensures Column(DeleteSemester(rec, d, s), t) == Column(rec, t) {
      ColumnUpdate(rec, d, rec[d] - {s}, t);
      ColumnUpdate(rec, d, rec[d], t);
      assert rec[d := rec[d]] == rec;
    }
  }

  /** A department whose only semester is deleted stays in the record as an
      empty map but is no longer displayed. */
  lemma EmptiedDepartmentHidden(rec: Record, d: string, s: string)
    requires d in rec && rec[d].Keys == {s}
    ensures var r := DeleteSemester(rec, d, s);
            d in r && r[d] == map[] && d !in FilteredDepartments(Some(r))
  {
    var r := DeleteSemester(rec, d, s);
    assert r[d].Keys == {};
  }

  /** A semester saved from the GPA screen with at least one course shows up
      in the view under the top-level key "semesters", with its GPA in the
      column of its semester id. */
  lemma SavedSemesterDisplayed(rec: Record, semester: string, leaf: Leaf)
    requires |leaf.courses| > 0
    ensures var r := WithLeaf(rec, semester, leaf);
            && "semesters" in FilteredDepartments(Some(r))
            && semester in SemesterIds(r)
            && "semesters" in Column(r, semester) && Column(r, semester)["semesters"] == leaf.cgpa
  {
    var r: Record := WithLeaf(rec, semester, leaf);
    assert semester in r["semesters"] && |r["semesters"][semester].courses| > 0;
  }

  /** An alert shown after a deletion. */
  datatype Notice = Notice(title: string, message: string)

  const DeletedNotice: Notice := Notice("Success", "Semester deleted successfully")
  const DeleteFailedNotice: Notice := Notice("Error", "Failed to delete semester")

  /** The view's state for one roll number: the loaded record (`null` until
      loaded), the loading flag, and whether a stored record was found. */
  class ResultView {
    const rollNumber: string
    var data: Option<Record>
    var loading: bool
    var hasData: bool

    /** A record is flagged as found only once it is loaded. */
    ghost predicate Valid()
      reads this
    {
      hasData ==> data.Some?
    }

    /** Mounting: nothing loaded yet, the spinner is shown. */
    constructor (rollNumber: string)
      ensures Valid()
      ensures this.rollNumber == rollNumber && data == None && loading && !hasData
    {
      this.rollNumber := rollNumber;
      data := None;
      loading := true;
      hasData := false;
    }

    /** `fetchData`: read the roll number's key. A stored record is loaded and
      flagged as found; an absent key flags that nothing was found; a read
      that throws (`readFails`) or text that does not parse changes neither.
      Loading ends in every case. */
    method FetchData(store: Store, readFails: bool)
      requires Valid()
      modifies this`data, this`hasData, this`loading
      ensures Valid() && !loading
      ensures var key := RollKey(rollNumber);
              if readFails || (key in store.items && store.items[key].Unparsable?) then
                data == old(data) && hasData == old(hasData)
              else if key in store.items then
                data == Some(store.items[key].record) && hasData
              else
                data == old(data) && !hasData
    {
      var key := RollKey(rollNumber);
      if !readFails {
        if key in store.items {
          match store.items[key]
          case Parsed(parsedData) =>
            data := Some(parsedData);
            hasData := true;
          case Unparsable =>
        } else {
          hasData := false;
        }
      }
      loading := false;
    }

    /** `handleDeleteSemester`: when the loaded record has the department,
      remove the semester from it, show the result, then write the record
      back; a write that throws (`writeFails`) leaves storage as it was and
      reports an error, though the view already shows the deletion. When the
      department is absent (or nothing is loaded) nothing happens. */
    method HandleDeleteSemester(store: Store, department: string, semester: string, writeFails: bool)
      returns (notice: Option<Notice>)
      requires Valid()
      modifies this`data, store
      ensures Valid()
      ensures old(data).None? || department !in old(data).value ==>
                data == old(data) && store.items == old(store.items) && notice == None
      ensures old(data).Some? && department in old(data).value ==>
                var updated := DeleteSemester(old(data).value, department, semester);
                && data == Some(updated)
                && (writeFails ==> store.items == old(store.items) && notice == Some(DeleteFailedNotice))
                && (!writeFails ==> store.items == old(store.items)[RollKey(rollNumber) := Parsed(updated)] &&
                                    notice == Some(DeletedNotice))
    {
      notice := None;
      var updatedData: Record := if data.Some? then data.value else map[];
      if department in updatedData {
        updatedData := DeleteSemester(updatedData, department, semester);
        data := Some(updatedData);
        if writeFails {
          notice := Some(DeleteFailedNotice);
        } else {
          store.items := store.items[RollKey(rollNumber) := Parsed(updatedData)];
          notice := Some(DeletedNotice);
        }
      }
    }

    /** The "No department data available." screen: nothing found, or no
      department to display. */
    predicate ShowsNoData()
      reads this
    {
      !hasData || |FilteredDepartments(data)| == 0
    }

    /** The chart shown once loading is over and some department is
      displayed: the per-semester averages, of which there is at least one,
      so the overall average is a number. */
    method Summary() returns (averages: map<string, real>)
      requires Valid() && !loading && !ShowsNoData()
      ensures data.Some? && averages.Keys == SemesterIds(data.value) && |averages| > 0
      ensures forall s :: s in averages ==>
                |Column(data.value, s)| > 0 && averages[s] == Mean(Column(data.value, s))
      ensures OverallAverage(averages).Some?
    {
      DisplayedHasAggregate(data.value);
      averages := AggregateCgpaBySemester(data.value);
    }
  }
}
