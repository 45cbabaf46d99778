/** The plan store: the Plan, SelectedCourse and PlanReview tables with the plan
    lifecycle operations over them, and the statement builders those operations
    send to the database. */
module PlanStore {
  import opened Common

  type PlanId = nat
  type UserId = string
  type CourseCode = string

  /** Status 2 is "awaiting review". */
  const AwaitingReview := 2

  /** A row of the Plan table (its timestamps are not modelled). */
  datatype Plan = Plan(studentId: UserId, planName: string, status: int)

  /** A row of the SelectedCourse table; the course is named by its code. */
  datatype SelectedCourse = SelectedCourse(planId: PlanId, courseCode: CourseCode)

  /** A row of the PlanReview table. */
  datatype Review = Review(planId: PlanId, userId: UserId, status: int)

  /** A value bound to a `?` placeholder. */
  datatype SqlValue = SqlInt(i: int) | SqlText(s: string)

  /** What `getPlan` returns: the plan row with its selected courses. */
  datatype PlanView = PlanView(plan: Plan, courses: seq<CourseCode>)

  /** A plan that is not in the table has no row to read. */
  const NoSuchPlan := "TypeError: Cannot read property of undefined"

  /** The rejection of a course insert: a database error, or the statement built
      for an empty list, which ends in `VALUES;` and does not parse. */
  const InsertRejected := "Error: inserting the selected courses failed"

  // ---------------------------------------------------------------------------
  // The selected-course rows of one plan

  /** The course codes selected for `planId`, in row order. */
  function CoursesOf(rows: seq<SelectedCourse>, planId: PlanId): seq<CourseCode>
  {
    if rows == [] then []
    else (if rows[0].planId == planId then [rows[0].courseCode] else []) + CoursesOf(rows[1..], planId)
  }

  /** The rows that do not belong to `planId`: `DELETE ... WHERE planId=?`. */
  function RowsWithout(rows: seq<SelectedCourse>, planId: PlanId): seq<SelectedCourse>
  {
    if rows == [] then []
    else (if rows[0].planId == planId then [] else [rows[0]]) + RowsWithout(rows[1..], planId)
  }

  /** The reviews that do not belong to `planId`. */
  function ReviewsWithout(reviews: seq<Review>, planId: PlanId): seq<Review>
  {
    if reviews == [] then []
    else (if reviews[0].planId == planId then [] else [reviews[0]]) + ReviewsWithout(reviews[1..], planId)
  }

  /** One row per course, in list order. */
  function RowsFor(planId: PlanId, courses: seq<CourseCode>): (rows: seq<SelectedCourse>)
    ensures |rows| == |courses|
    ensures forall i :: 0 <= i < |courses| ==> rows[i] == SelectedCourse(planId, courses[i])
  {
    seq(|courses|, i requires 0 <= i < |courses| => SelectedCourse(planId, courses[i]))
  }

  lemma {:induction false} CoursesOfAppend(a: seq<SelectedCourse>, b: seq<SelectedCourse>, planId: PlanId)
    ensures CoursesOf(a + b, planId) == CoursesOf(a, planId) + CoursesOf(b, planId)
  {
    if a != [] {
      assert (a + b)[1..] == a[1..] + b;
      CoursesOfAppend(a[1..], b, planId);
    } else {
      assert a + b == b;
    }
  }

  /** The rows inserted for a course list give back exactly that list, and no
      course of any other plan. */
  lemma {:induction false} CoursesOfRowsFor(planId: PlanId, courses: seq<CourseCode>, other: PlanId)
    ensures CoursesOf(RowsFor(planId, courses), other) == if other == planId then courses else []
  {
    if courses != [] {
      var rows := RowsFor(planId, courses);
      assert rows[1..] == RowsFor(planId, courses[1..]);
      CoursesOfRowsFor(planId, courses[1..], other);
      if other == planId {
        assert courses == [courses[0]] + courses[1..];
      }
    }
  }

  /** Deleting a plan's rows leaves it none and leaves every other plan its own. */
  lemma {:induction false} CoursesOfRowsWithout(rows: seq<SelectedCourse>, planId: PlanId, other: PlanId)
    ensures CoursesOf(RowsWithout(rows, planId), other) == if other == planId then [] else CoursesOf(rows, other)
  {
    if rows != [] {
      CoursesOfRowsWithout(rows[1..], planId, other);
      var head := if rows[0].planId == planId then [] else [rows[0]];
      CoursesOfAppend(head, RowsWithout(rows[1..], planId), other);
      if rows[0].planId != planId {
        assert ([rows[0]] + RowsWithout(rows[1..], planId))[1..] == RowsWithout(rows[1..], planId);
      }
    }
  }

  /** The DELETE affects exactly the plan's rows. */
  lemma {:induction false} RowsWithoutSize(rows: seq<SelectedCourse>, planId: PlanId)
    ensures |RowsWithout(rows, planId)| + |CoursesOf(rows, planId)| == |rows|
  {
    if rows != [] {
      RowsWithoutSize(rows[1..], planId);
    }
  }

  lemma {:induction false} RowsWithoutMembers(rows: seq<SelectedCourse>, planId: PlanId)
    ensures forall row :: row in RowsWithout(rows, planId) <==> row in rows && row.planId != planId
  {
    if rows != [] {
      RowsWithoutMembers(rows[1..], planId);
      assert rows == [rows[0]] + rows[1..];
    }
  }

  lemma {:induction false} RowsWithoutUnreferenced(rows: seq<SelectedCourse>, planId: PlanId)
    requires forall row :: row in rows ==> row.planId != planId
    ensures RowsWithout(rows, planId) == rows
  {
    if rows != [] {
      assert rows[0] in rows;
      assert forall row :: row in rows[1..] ==> row in rows;
      RowsWithoutUnreferenced(rows[1..], planId);
      assert rows == [rows[0]] + rows[1..];
    }
  }

  lemma {:induction false} ReviewsWithoutMembers(reviews: seq<Review>, planId: PlanId)
    ensures forall r :: r in ReviewsWithout(reviews, planId) <==> r in reviews && r.planId != planId
  {
    if reviews != [] {
      ReviewsWithoutMembers(reviews[1..], planId);
      assert reviews == [reviews[0]] + reviews[1..];
    }
  }

  lemma {:induction false} ReviewsWithoutUnreferenced(reviews: seq<Review>, planId: PlanId)
    requires forall r :: r in reviews ==> r.planId != planId
    ensures ReviewsWithout(reviews, planId) == reviews
  {
    if reviews != [] {
      assert reviews[0] in reviews;
      assert forall r :: r in reviews[1..] ==> r in reviews;
      ReviewsWithoutUnreferenced(reviews[1..], planId);
      assert reviews == [reviews[0]] + reviews[1..];
    }
  }

  /** The plan row after `updatePlan`: a new name when one is given, and status 2
      whenever a course list is given. */
  function UpdatedPlan(p: Plan, planName: Option<string>, courses: Option<seq<CourseCode>>): Plan
  {
    var named := if planName.Some? then p.(planName := planName.value) else p;
    if courses.Some? then named.(status := AwaitingReview) else named
  }

  // ---------------------------------------------------------------------------
  // The statement builders

  const SelectedCourseHead := "INSERT INTO SelectedCourse (planId, courseId) VALUES "
  const SelectedCourseTuple := "(?, (SELECT courseId FROM Course WHERE courseCode=?)),"

  /** The statement of `insertSelectedCourses`: one tuple per course, the last
      comma replaced by a semicolon. */
  function InsertStatement(n: nat): string
  {
    ReplaceLastChar(SelectedCourseHead + Repeat(SelectedCourseTuple, n), ";")
  }

  /** `n` tuples give `n - 1` tuples with their comma, a last one without, and a
      semicolon; no tuple leaves the keyword `VALUES;` with nothing after it. */
  lemma InsertStatementShape(n: nat)
    ensures n > 0 ==>
      InsertStatement(n) == SelectedCourseHead + Repeat(SelectedCourseTuple, n - 1) + "(?, (SELECT courseId FROM Course WHERE courseCode=?))" + ";"
    ensures n == 0 ==> InsertStatement(n) == "INSERT INTO SelectedCourse (planId, courseId) VALUES;"
    ensures |InsertStatement(n)| == |SelectedCourseHead| + n * |SelectedCourseTuple|
  {
    RepeatLength(SelectedCourseTuple, n);
    var s := SelectedCourseHead + Repeat(SelectedCourseTuple, n);
    if n > 0 {
      assert s == SelectedCourseHead + Repeat(SelectedCourseTuple, n - 1)
                  + "(?, (SELECT courseId FROM Course WHERE courseCode=?))" + ",";
      assert s[..|s| - 1] == SelectedCourseHead + Repeat(SelectedCourseTuple, n - 1)
                  + "(?, (SELECT courseId FROM Course WHERE courseCode=?))";
    } else {
      assert s == SelectedCourseHead;
      assert s[|s| - 1] == ' ';
    }
  }

  /** The values bound to the tuples: the plan id and then the course code, for
      each course in turn. */
  function TupleParams(planId: PlanId, courses: seq<CourseCode>): seq<SqlValue>
  {
    if courses == [] then []
    else TupleParams(planId, courses[..|courses| - 1]) + [SqlInt(planId), SqlText(courses[|courses| - 1])]
  }

  /** Two values per course, alternating the plan id and the course's code. */
  lemma {:induction false} TupleParamsLayout(planId: PlanId, courses: seq<CourseCode>)
    ensures |TupleParams(planId, courses)| == 2 * |courses|
    ensures forall i :: 0 <= i < |courses| ==>
      TupleParams(planId, courses)[2 * i] == SqlInt(planId) && TupleParams(planId, courses)[2 * i + 1] == SqlText(courses[i])
  {
    if courses != [] {
      var front := courses[..|courses| - 1];
      TupleParamsLayout(planId, front);
      assert forall i :: 0 <= i < |front| ==> front[i] == courses[i];
    }
  }

  lemma TupleParamsStep(planId: PlanId, courses: seq<CourseCode>, k: nat)
    requires k < |courses|
    ensures TupleParams(planId, courses[..k + 1]) == TupleParams(planId, courses[..k]) + [SqlInt(planId)] + [SqlText(courses[k])]
  {
    assert courses[..k + 1][..k] == courses[..k];
  }

  /** The loop of `insertSelectedCourses`: a tuple and two parameters per course. */
  method InsertSelectedCoursesQuery(planId: PlanId, courses: seq<CourseCode>)
    returns (sql: string, sqlArray: seq<SqlValue>)
    ensures sql == InsertStatement(|courses|)
    ensures sqlArray == TupleParams(planId, courses)
  {
    sql := SelectedCourseHead;
    sqlArray := [];
    for k := 0 to |courses|
      invariant sql == SelectedCourseHead + Repeat(SelectedCourseTuple, k)
      invariant sqlArray == TupleParams(planId, courses[..k])
    {
      TupleParamsStep(planId, courses, k);
      ConcatAssociates(SelectedCourseHead, Repeat(SelectedCourseTuple, k), SelectedCourseTuple);
      sql := sql + SelectedCourseTuple;
      sqlArray := sqlArray + [SqlInt(planId)];
      sqlArray := sqlArray + [SqlText(courses[k])];
    }
    assert courses[..|courses|] == courses;
    sql := ReplaceLastChar(sql, ";");
  }

  /** How `getPlansStatus` orders its rows. */
  datatype SortColumn = Created | LastUpdated

  /** The choices the request makes: whether to filter by status, the sort
      column and the direction. */
  datatype ListQuery = ListQuery(filterByStatus: bool, sortBy: SortColumn, ascending: bool)

  const ListBase := "SELECT * FROM Plan INNER JOIN User ON Plan.studentId = User.userId "
  const StatusFilter := "WHERE status=? "
  const OrderByCreated := "ORDER BY created "
  const OrderByLastUpdated := "ORDER BY lastUpdated "

  /** The request parameters arrive as text: status "5" means any status, created
      "1" sorts by creation time, ascend "1" sorts ascending. */
  function RequestedQuery(status: string, created: string, ascend: string): ListQuery
  {
    ListQuery(status != "5", if created == "1" then Created else LastUpdated, ascend == "1")
  }

  function ListQueryText(q: ListQuery): string
  {
    ListBase
    + ((if q.filterByStatus then StatusFilter else "")
       + ((if q.sortBy == Created then OrderByCreated else OrderByLastUpdated)
          + (if q.ascending then "ASC;" else "DESC;")))
  }

  predicate StartsWith(s: string, prefix: string)
  {
    |prefix| <= |s| && s[..|prefix|] == prefix
  }

  /** Read the choices back from a statement text. */
  function ReadListQuery(sql: string): Option<ListQuery>
  {
    if StartsWith(sql, ListBase) then ReadFilter(sql[|ListBase|..]) else None
  }

  function ReadFilter(rest: string): Option<ListQuery>
  {
    if StartsWith(rest, StatusFilter) then ReadOrder(true, rest[|StatusFilter|..]) else ReadOrder(false, rest)
  }

  function ReadOrder(filter: bool, rest: string): Option<ListQuery>
  {
    if StartsWith(rest, OrderByCreated) then ReadDirection(filter, Created, rest[|OrderByCreated|..])
    else if StartsWith(rest, OrderByLastUpdated) then ReadDirection(filter, LastUpdated, rest[|OrderByLastUpdated|..])
    else None
  }

  function ReadDirection(filter: bool, sortBy: SortColumn, rest: string): Option<ListQuery>
  {
    if rest == "ASC;" then Some(ListQuery(filter, sortBy, true))
    else if rest == "DESC;" then Some(ListQuery(filter, sortBy, false))
    else None
  }

  lemma StartsWithAppend(prefix: string, rest: string)
    ensures StartsWith(prefix + rest, prefix)
    ensures (prefix + rest)[|prefix|..] == rest
  {
    assert (prefix + rest)[..|prefix|] == prefix;
  }

  lemma NotStartsWith(s: string, prefix: string, i: nat)
    requires i < |s| && i < |prefix| && s[i] != prefix[i]
    ensures !StartsWith(s, prefix)
  {
  }

  lemma ReadOrderText(filter: bool, sortBy: SortColumn, ascending: bool)
    ensures ReadOrder(filter, (if sortBy == Created then OrderByCreated else OrderByLastUpdated)
                              + (if ascending then "ASC;" else "DESC;"))
         == Some(ListQuery(filter, sortBy, ascending))
  {
    var direction := if ascending then "ASC;" else "DESC;";
    if sortBy == Created {
      StartsWithAppend(OrderByCreated, direction);
    } else {
      var rest := OrderByLastUpdated + direction;
      assert rest[9] == 'l';
      NotStartsWith(rest, OrderByCreated, 9);
      StartsWithAppend(OrderByLastUpdated, direction);
    }
  }

  lemma ReadFilterText(filter: bool, sortBy: SortColumn, ascending: bool)
    ensures ReadFilter((if filter then StatusFilter else "")
                       + ((if sortBy == Created then OrderByCreated else OrderByLastUpdated)
                          + (if ascending then "ASC;" else "DESC;")))
         == Some(ListQuery(filter, sortBy, ascending))
  {
    var afterFilter := (if sortBy == Created then OrderByCreated else OrderByLastUpdated)
                       + (if ascending then "ASC;" else "DESC;");
    ReadOrderText(filter, sortBy, ascending);
    if filter {
      StartsWithAppend(StatusFilter, afterFilter);
    } else {
      assert ("" + afterFilter) == afterFilter;
      assert afterFilter[0] == 'O';
      NotStartsWith(afterFilter, StatusFilter, 0);
    }
  }

  /** The statement text records every choice: reading it back gives the query. */
  lemma ReadListQueryText(q: ListQuery)
    ensures ReadListQuery(ListQueryText(q)) == Some(q)
  {
    var afterBase := (if q.filterByStatus then StatusFilter else "")
                     + ((if q.sortBy == Created then OrderByCreated else OrderByLastUpdated)
                        + (if q.ascending then "ASC;" else "DESC;"));
    StartsWithAppend(ListBase, afterBase);
    ReadFilterText(q.filterByStatus, q.sortBy, q.ascending);
  }

  /** Different requests give different statements. */
  lemma ListQueryTextInjective(q1: ListQuery, q2: ListQuery)
    requires ListQueryText(q1) == ListQueryText(q2)
    ensures q1 == q2
  {
    ReadListQueryText(q1);
    ReadListQueryText(q2);
  }

  lemma ConcatAssociates4(a: string, b: string, c: string, d: string)
    ensures a + b + c + d == a + (b + (c + d))
  {
  }

  /** The clause building of `getPlansStatus`. Read back, the text filters by
      status exactly when the status is not "5", sorts by creation time exactly
      when created is "1", and sorts ascending exactly when ascend is "1". */
  method GetPlansStatusQuery(status: string, created: string, ascend: string) returns (sql: string)
    ensures sql == ListQueryText(RequestedQuery(status, created, ascend))
    ensures ReadListQuery(sql).Some?
    ensures ReadListQuery(sql).value.filterByStatus <==> status != "5"
    ensures ReadListQuery(sql).value.sortBy == Created <==> created == "1"
    ensures ReadListQuery(sql).value.ascending <==> ascend == "1"
  {
    ghost var filter, order, direction := "", "", "";
    sql := ListBase;
    if status != "5" {
      sql, filter := sql + StatusFilter, StatusFilter;
    }
    if created == "1" {
      sql, order := sql + OrderByCreated, OrderByCreated;
    } else {
      sql, order := sql + OrderByLastUpdated, OrderByLastUpdated;
    }
    if ascend == "1" {
      sql, direction := sql + "ASC;", "ASC;";
    } else {
      sql, direction := sql + "DESC;", "DESC;";
    }
    assert sql == ListBase + filter + order + direction;
    ConcatAssociates4(ListBase, filter, order, direction);
    ReadListQueryText(RequestedQuery(status, created, ascend));
  }

  // ---------------------------------------------------------------------------
  // The tables

  class PlanTables {
    var plans: map<PlanId, Plan>
    var selectedCourses: seq<SelectedCourse>
    var reviews: seq<Review>
    /** The Plan table's auto-increment counter. */
    var nextId: PlanId

    /** Ids come from the counter, and every selected-course and review row
        refers to an existing plan. */
    ghost predicate Valid()
      reads this
    {
      && 0 < nextId
      && (forall id :: id in plans ==> 0 < id < nextId)
      && (forall row :: row in selectedCourses ==> row.planId in plans)
      && (forall r :: r in reviews ==> r.planId in plans)
    }

    constructor()
      ensures Valid()
      ensures plans == map[] && selectedCourses == [] && reviews == [] && nextId == 1
    {
      plans := map[];
      selectedCourses := [];
      reviews := [];
      nextId := 1;
    }

    /** `insertPlan`: a new plan awaiting review, under the next id. */
    method InsertPlan(userId: UserId, planName: string) returns (planId: PlanId)
      requires Valid()
      modifies this
      ensures Valid()
      ensures planId == old(nextId) && planId !in old(plans)
      ensures plans == old(plans)[planId := Plan(userId, planName, AwaitingReview)]
      ensures plans[planId].status == AwaitingReview
      ensures selectedCourses == old(selectedCourses) && reviews == old(reviews)
      ensures nextId == old(nextId) + 1
    {
      planId := nextId;
      plans := plans[planId := Plan(userId, planName, AwaitingReview)];
      nextId := nextId + 1;
    }

    /** `insertSelectedCourses`: one statement, so either every row is inserted or
        none is. It is rejected for an empty list, for a plan that does not exist,
        and whenever `insertFails` says the database refuses it. It resolves with
        `[planId, courses, ""]`. */
    method InsertSelectedCourses(planId: PlanId, courses: seq<CourseCode>, insertFails: bool)
      returns (r: Outcome<(PlanId, seq<CourseCode>, string)>)
      requires Valid()
      modifies this
      ensures Valid()
      ensures r.Fault? <==> insertFails || |courses| == 0 || planId !in plans
      ensures r.Done? ==> r.value == (planId, courses, "")
      ensures r.Done? ==> selectedCourses == old(selectedCourses) + RowsFor(planId, courses)
      ensures r.Fault? ==> selectedCourses == old(selectedCourses)
      ensures plans == old(plans) && reviews == old(reviews) && nextId == old(nextId)
    {
      var sql, sqlArray := InsertSelectedCoursesQuery(planId, courses);
      TupleParamsLayout(planId, courses);
      if |sqlArray| == 0 || insertFails || planId !in plans {
        return Fault(InsertRejected);
      }
      selectedCourses := selectedCourses + RowsFor(planId, courses);
      r := Done((planId, courses, ""));
    }

    /** `deletePlan`: removes the plan together with its selected courses and
        reviews, and reports how many plan rows went. */
    method DeletePlan(planId: PlanId) returns (affectedRows: nat)
      requires Valid()
      modifies this
      ensures Valid()
      ensures affectedRows == if planId in old(plans) then 1 else 0
      ensures plans == old(plans) - {planId}
      ensures selectedCourses == RowsWithout(old(selectedCourses), planId)
      ensures reviews == ReviewsWithout(old(reviews), planId)
      ensures nextId == old(nextId)
    {
      affectedRows := if planId in plans then 1 else 0;
      RowsWithoutMembers(selectedCourses, planId);
      ReviewsWithoutMembers(reviews, planId);
      plans := plans - {planId};
      selectedCourses := RowsWithout(selectedCourses, planId);
      reviews := ReviewsWithout(reviews, planId);
    }

    /** `savePlan`: insert the plan, then its courses; when the course insert is
        rejected the plan is deleted again and the rejection is passed on. */
    method SavePlan(userId: UserId, planName: string, courses: seq<CourseCode>, insertFails: bool)
      returns (r: Outcome<PlanId>)
      requires Valid()
      modifies this
      ensures Valid()
      ensures r.Done? <==> !insertFails && |courses| > 0
      ensures r.Done? ==> r.value == old(nextId) && r.value !in old(plans)
      ensures r.Done? ==> plans == old(plans)[r.value := Plan(userId, planName, AwaitingReview)]
      ensures r.Done? ==> selectedCourses == old(selectedCourses) + RowsFor(r.value, courses)
      ensures r.Done? ==> CoursesOf(selectedCourses, r.value) == courses
      ensures r.Fault? ==> plans == old(plans) && selectedCourses == old(selectedCourses)
      ensures r.Fault? ==> old(nextId) !in plans
      ensures reviews == old(reviews)
      ensures nextId == old(nextId) + 1
    {
      var planId := InsertPlan(userId, planName);
      var inserted := InsertSelectedCourses(planId, courses, insertFails);
      if inserted.Fault? {
        assert forall row :: row in selectedCourses ==> row.planId != planId;
        assert forall rv :: rv in reviews ==> rv.planId != planId;
        RowsWithoutUnreferenced(selectedCourses, planId);
        ReviewsWithoutUnreferenced(reviews, planId);
        var deleted := DeletePlan(planId);
        assert plans == old(plans);
        return Fault(inserted.reason);
      }
      assert CoursesOf(old(selectedCourses), planId) == [] by {
        NoCoursesUnreferenced(old(selectedCourses), planId);
      }
      CoursesOfAppend(old(selectedCourses), RowsFor(planId, courses), planId);
      CoursesOfRowsFor(planId, courses, planId);
      r := Done(planId);
    }

    /** The affected-row count `updatePlan` reports. */
    static function UpdatedRows(nameRows: nat, oldStatus: int, deleted: nat, courses: Option<seq<CourseCode>>): nat
    {
      nameRows + (if courses.Some? then (if oldStatus != AwaitingReview then 2 else 1) + deleted + |courses.value| else 0)
    }

    /** `updatePlan`: a new name when one is given; a new course list resets the
        status to 2 (recording a review when the status was something else),
        deletes the plan's selected courses and inserts the new ones. The insert is
        not awaited, so its rejection (an empty list, or `insertFails`) does not
        reach the caller: the plan is left with no selected courses and the count
        still includes the list's length. */
    method UpdatePlan(planId: PlanId, planName: Option<string>, courses: Option<seq<CourseCode>>, insertFails: bool)
      returns (r: Outcome<nat>)
      requires Valid()
      modifies this
      ensures Valid()
      ensures r.Fault? <==> courses.Some? && planId !in old(plans)
      ensures planId in old(plans) ==> plans == old(plans)[planId := UpdatedPlan(old(plans)[planId], planName, courses)]
      ensures planId in old(plans) ==>
        && plans[planId].studentId == old(plans)[planId].studentId
        && plans[planId].planName == (if planName.Some? then planName.value else old(plans)[planId].planName)
        && plans[planId].status == (if courses.Some? then AwaitingReview else old(plans)[planId].status)
      ensures planId !in old(plans) ==> plans == old(plans)
      ensures courses.None? ==> selectedCourses == old(selectedCourses) && reviews == old(reviews)
      ensures r.Done? && courses.Some? ==>
        selectedCourses == RowsWithout(old(selectedCourses), planId)
                           + (if insertFails || courses.value == [] then [] else RowsFor(planId, courses.value))
      ensures r.Done? && courses.Some? ==>
        reviews == old(reviews)
                   + (if old(plans)[planId].status != AwaitingReview
                      then [Review(planId, old(plans)[planId].studentId, AwaitingReview)] else [])
      ensures r.Fault? ==> selectedCourses == old(selectedCourses) && reviews == old(reviews)
      ensures r.Done? ==> r.value == UpdatedRows(
        if planName.Some? && planId in old(plans) then 1 else 0,
        if planId in old(plans) then old(plans)[planId].status else 0,
        |CoursesOf(old(selectedCourses), planId)|,
        courses)
      ensures nextId == old(nextId)
    {
      var updatedRows := 0;
      ghost var matched := planId in plans;
      ghost var oldStatus := if planId in plans then plans[planId].status else 0;
      if planName.Some? {
        // UPDATE Plan SET planName=? WHERE planId=?
        var nameRows := if planId in plans then 1 else 0;
        if planId in plans {
          plans := plans[planId := plans[planId].(planName := planName.value)];
        }
        updatedRows := updatedRows + nameRows;
      }
      if courses.Some? {
        // SELECT * FROM Plan WHERE planId=?: no row means nothing to read
        if planId !in plans {
          return Fault(NoSuchPlan);
        }
        var ownerId := plans[planId].studentId;
        var currentStatus := plans[planId].status;
        if currentStatus != AwaitingReview {
          reviews := reviews + [Review(planId, ownerId, AwaitingReview)];
          plans := plans[planId := plans[planId].(status := AwaitingReview)];
          updatedRows := updatedRows + 2;
        } else {
          plans := plans[planId := plans[planId].(status := AwaitingReview)];
          updatedRows := updatedRows + 1;
        }
        // DELETE FROM SelectedCourse WHERE planId=?
        RowsWithoutSize(selectedCourses, planId);
        var deleted := |selectedCourses| - |RowsWithout(selectedCourses, planId)|;
        RowsWithoutMembers(selectedCourses, planId);
        selectedCourses := RowsWithout(selectedCourses, planId);
        updatedRows := updatedRows + deleted;
        // the insert is not awaited: its rejection does not reach the caller
        var ignored := InsertSelectedCourses(planId, courses.value, insertFails);
        updatedRows := updatedRows + |courses.value|;
      }
      r := Done(updatedRows);
    }

    /** `getPlan`: the plan row with the codes of its selected courses. */
    method GetPlan(planId: PlanId) returns (r: Outcome<PlanView>)
      ensures r.Done? <==> planId in plans
      ensures r.Done? ==> r.value.plan == plans[planId]
      ensures r.Done? ==> r.value.courses == CoursesOf(selectedCourses, planId)
    {
      if planId !in plans {
        return Fault(NoSuchPlan);
      }
      r := Done(PlanView(plans[planId], CoursesOf(selectedCourses, planId)));
    }
  }

  lemma {:induction false} NoCoursesUnreferenced(rows: seq<SelectedCourse>, planId: PlanId)
    requires forall row :: row in rows ==> row.planId != planId
    ensures CoursesOf(rows, planId) == []
  {
    if rows != [] {
      assert rows[0] in rows;
      assert forall row :: row in rows[1..] ==> row in rows;
      NoCoursesUnreferenced(rows[1..], planId);
    }
  }

  /** After an update with a course list, the plan's selected courses are
      exactly that list when the unawaited insert went through and none when it
      was rejected; every other plan keeps its own. */
  lemma UpdateReplacesCourses(rows: seq<SelectedCourse>, planId: PlanId, courses: seq<CourseCode>, inserted: bool,
                              other: PlanId)
    ensures CoursesOf(RowsWithout(rows, planId) + (if inserted then RowsFor(planId, courses) else []), other)
         == if other == planId then (if inserted then courses else []) else CoursesOf(rows, other)
  {
    var added := if inserted then RowsFor(planId, courses) else [];
    CoursesOfAppend(RowsWithout(rows, planId), added, other);
    CoursesOfRowsWithout(rows, planId, other);
    CoursesOfRowsFor(planId, if inserted then courses else [], other);
    assert added == RowsFor(planId, if inserted then courses else []);
  }

  /** A plan deleted by id loses all its selected courses; other plans keep theirs. */
  lemma DeleteRemovesCourses(rows: seq<SelectedCourse>, planId: PlanId, other: PlanId)
    ensures CoursesOf(RowsWithout(rows, planId), planId) == []
    ensures other != planId ==> CoursesOf(RowsWithout(rows, planId), other) == CoursesOf(rows, other)
  {
    CoursesOfRowsWithout(rows, planId, planId);
    CoursesOfRowsWithout(rows, planId, other);
  }
}
