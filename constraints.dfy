/** The plan constraint engine: the ordered business-rule checks a submitted
    plan must pass, each giving an empty string or the message of the rule it
    breaks. The User and Course tables the checks query are given as maps. */
module Constraints {
  import opened Common

  type UserId = string
  type CourseCode = string

  /** The columns of a Course row that the checks read. */
  datatype Course = Course(credits: nat, restriction: nat)

  /** The User table: the role of each user id (role 0 is a student). */
  type Users = map<UserId, nat>

  /** The Course table, keyed by its unique course code. */
  type Catalog = map<CourseCode, Course>

  const NameMin := 5
  const NameMax := 50
  const CreditsMin := 32

  const InvalidUser := "Invalid ONID. Unable to submit plan."
  const NotAStudent := "Only students can submit plans."
  const InvalidName := "The plan name must be between 5 and 50 characters long."
  const NoCourses := "No courses selected."
  const DuplicateCourse := "A course was selected more than once."
  const InvalidCourse := "At least one selected course is invalid."
  const RequiredCourse := "A required course was selected."
  const RestrictedCourse := "A graduate or professional/technical course was selected."
  const TooFewCredits := "Less than 32 credits selected."

  // ---------------------------------------------------------------------------
  // The `IN (?,?,...)` lists

  /** `n` placeholders separated by commas. */
  function Placeholders(n: nat): string
    requires n > 0
  {
    Repeat("?,", n - 1) + "?"
  }

  lemma PlaceholdersShape(n: nat)
    requires n > 0
    ensures |Placeholders(n)| == 2 * n - 1
    ensures Count(Placeholders(n), '?') == n
    ensures Count(Placeholders(n), ',') == n - 1
  {
    RepeatLength("?,", n - 1);
    RepeatCount("?,", n - 1, '?');
    RepeatCount("?,", n - 1, ',');
    assert Count("?,", '?') == 1 && Count("?,", ',') == 1 by {
      assert "?,"[..1] == "?";
      assert "?"[..0] == "";
    }
    assert Count("?", '?') == 1 && Count("?", ',') == 0 by {
      assert "?"[..0] == "";
    }
    CountAppend(Repeat("?,", n - 1), "?", '?');
    CountAppend(Repeat("?,", n - 1), "?", ',');
  }

  /** The loop the three catalog checks share: append `?,` and push the code for
      every course, then replace the last character by `tail`. */
  method ExpandInList(head: string, courses: seq<CourseCode>, tail: string)
    returns (sql: string, sqlArray: seq<CourseCode>)
    ensures sqlArray == courses
    ensures |courses| > 0 ==> sql == head + Placeholders(|courses|) + tail
    ensures |courses| > 0 ==> Count(sql, '?') == Count(head, '?') + |courses| + Count(tail, '?')
    ensures |courses| == 0 ==> sql == ReplaceLastChar(head, tail)
  {
    sql := head;
    sqlArray := [];
    for i := 0 to |courses|
      invariant sql == head + Repeat("?,", i)
      invariant sqlArray == courses[..i]
    {
      ConcatAssociates(head, Repeat("?,", i), "?,");
      assert courses[..i + 1] == courses[..i] + [courses[i]];
      sql := sql + "?,";
      sqlArray := sqlArray + [courses[i]];
    }
    assert courses[..|courses|] == courses;
    InListText(head, |courses|, tail);
    sql := ReplaceLastChar(sql, tail);
  }

  /** Replacing the last comma of `n` copies of `?,`: `n` placeholders, followed
      by the tail; with no copy the last character of the head is replaced. */
  lemma InListText(head: string, n: nat, tail: string)
    ensures n > 0 ==> ReplaceLastChar(head + Repeat("?,", n), tail) == head + Placeholders(n) + tail
    ensures n > 0 ==> Count(head + Placeholders(n) + tail, '?') == Count(head, '?') + n + Count(tail, '?')
    ensures n == 0 ==> ReplaceLastChar(head + Repeat("?,", n), tail) == ReplaceLastChar(head, tail)
  {
    if n > 0 {
      var s := head + Repeat("?,", n);
      var front := head + Placeholders(n);
      assert s == front + [','] by {
        ConcatAssociates(head, Repeat("?,", n - 1), "?,");
        ConcatAssociates(head, Repeat("?,", n - 1), "?");
        assert "?," == "?" + [','];
        ConcatAssociates(head + Repeat("?,", n - 1), "?", [',']);
      }
      assert s[..|s| - 1] == front;
      InListCount(head, n, tail);
    } else {
      assert head + Repeat("?,", n) == head;
    }
  }

  lemma InListCount(head: string, n: nat, tail: string)
    requires n > 0
    ensures Count(head + Placeholders(n) + tail, '?') == Count(head, '?') + n + Count(tail, '?')
  {
    PlaceholdersShape(n);
    CountAppend(head, Placeholders(n), '?');
    CountAppend(head + Placeholders(n), tail, '?');
  }

  // ---------------------------------------------------------------------------
  // The checks, as the database would answer them

  function UserConstraint(users: Users, userId: UserId): string
  {
    if |userId| == 0 then InvalidUser
    else if userId !in users then InvalidUser
    else ""
  }

  function StudentConstraint(users: Users, userId: UserId): string
  {
    if userId in users && users[userId] == 0 then "" else NotAStudent
  }

  /** The name is measured as JavaScript's `length` measures it, in UTF-16 units. */
  function PlanNameConstraint(planName: string): string
  {
    if Utf16Length(planName) < NameMin || Utf16Length(planName) > NameMax then InvalidName else ""
  }

  function ZeroCourseConstraint(courses: seq<CourseCode>): string
  {
    if |courses| == 0 then NoCourses else ""
  }

  function DuplicateMessage(courses: seq<CourseCode>): string
  {
    if NoDuplicates(courses) then "" else DuplicateCourse
  }

  /** `SELECT COUNT(*) ... WHERE courseCode IN (...)`: the number of catalog rows
      whose code is in the list (a code listed twice matches one row). */
  function MatchingCount(catalog: Catalog, courses: seq<CourseCode>): nat
  {
    |set c | c in courses && c in catalog|
  }

  function CourseMessage(catalog: Catalog, courses: seq<CourseCode>): string
  {
    if MatchingCount(catalog, courses) != |courses| then InvalidCourse else ""
  }

  predicate InCatalog(catalog: Catalog, c: CourseCode)
  {
    c in catalog
  }

  /** The first row of `SELECT restriction ... AND restriction > 0 ORDER BY
      restriction`: the least positive restriction among the listed catalog courses. */
  function LeastRestriction(catalog: Catalog, courses: seq<CourseCode>): (m: Option<nat>)
    ensures m.None? <==>
      forall i :: 0 <= i < |courses| && InCatalog(catalog, courses[i]) ==> catalog[courses[i]].restriction == 0
    ensures m.Some? ==> m.value > 0
    ensures m.Some? ==>
      exists i :: 0 <= i < |courses| && InCatalog(catalog, courses[i]) && catalog[courses[i]].restriction == m.value
    ensures m.Some? ==>
      forall i :: 0 <= i < |courses| && InCatalog(catalog, courses[i]) && catalog[courses[i]].restriction > 0 ==>
        m.value <= catalog[courses[i]].restriction
  {
    if courses == [] then None
    else
      var rest := LeastRestriction(catalog, courses[1..]);
      assert forall i :: 1 <= i < |courses| ==> courses[i] == courses[1..][i - 1];
      var c := courses[0];
      if c !in catalog || catalog[c].restriction == 0 then rest
      else if rest.None? || catalog[c].restriction <= rest.value then Some(catalog[c].restriction)
      else rest
  }

  function RestrictionMessage(catalog: Catalog, courses: seq<CourseCode>): string
  {
    match LeastRestriction(catalog, courses)
    case None => ""
    case Some(r) => if r == 1 then RequiredCourse else RestrictedCourse
  }

  /** `SELECT SUM(credits) ... WHERE courseCode IN (...)`: the credits of the
      matching catalog rows, each row counted once. */
  function CreditSum(catalog: Catalog, courses: seq<CourseCode>): nat
  {
    if courses == [] then 0
    else
      var c := courses[|courses| - 1];
      var front := courses[..|courses| - 1];
      CreditSum(catalog, front) + (if c in catalog && c !in front then catalog[c].credits else 0)
  }

  function CreditMessage(catalog: Catalog, courses: seq<CourseCode>): string
  {
    if CreditSum(catalog, courses) < CreditsMin then TooFewCredits else ""
  }

  /** The credits of every selected catalog course, one term per list entry. */
  function TotalCredits(catalog: Catalog, courses: seq<CourseCode>): nat
  {
    if courses == [] then 0
    else TotalCredits(catalog, courses[..|courses| - 1])
         + (if courses[|courses| - 1] in catalog then catalog[courses[|courses| - 1]].credits else 0)
  }

  // ---------------------------------------------------------------------------
  // The checks as utils/validation.js runs them

  /** `duplicateCourseConstraint`: one pass with a dictionary of the codes seen so far. */
  method DuplicateCourseConstraint(courses: seq<CourseCode>) returns (r: string)
    ensures r == "" <==> NoDuplicates(courses)
    ensures r == DuplicateMessage(courses)
  {
    var seenCourses: map<CourseCode, bool> := map[];
    for i := 0 to |courses|
      invariant forall c :: c in seenCourses <==> c in courses[..i]
      invariant NoDuplicates(courses[..i])
    {
      var courseCode := courses[i];
      if courseCode in seenCourses {
        var j :| 0 <= j < i && courses[..i][j] == courseCode;
        assert courses[j] == courses[i];
        return DuplicateCourse;
      }
      seenCourses := seenCourses[courseCode := true];
      assert courses[..i + 1] == courses[..i] + [courseCode];
    }
    assert courses[..|courses|] == courses;
    return "";
  }

  /** The database's answer to a statement whose `IN` list is empty: the text then
      reads `IN )` and does not parse. */
  const MalformedStatement := "ER_PARSE_ERROR"

  /** `courseConstraint`. */
  method CourseConstraint(catalog: Catalog, courses: seq<CourseCode>) returns (r: Outcome<string>)
    ensures r.Fault? <==> |courses| == 0
    ensures r.Done? ==> r.value == CourseMessage(catalog, courses)
  {
    var sql, sqlArray := ExpandInList("SELECT COUNT(*) AS valid FROM Course WHERE courseCode IN (", courses, ");");
    if |sqlArray| == 0 {
      return Fault(MalformedStatement);
    }
    var valid := MatchingCount(catalog, sqlArray);
    r := Done(if valid != |courses| then InvalidCourse else "");
  }

  /** `restrictionConstraint`: the rows come back ordered by restriction, and only
      the first one is looked at. */
  method RestrictionConstraint(catalog: Catalog, courses: seq<CourseCode>) returns (r: Outcome<string>)
    ensures r.Fault? <==> |courses| == 0
    ensures r.Done? ==> r.value == RestrictionMessage(catalog, courses)
  {
    var sql, sqlArray := ExpandInList("SELECT restriction FROM Course WHERE courseCode IN (", courses,
                                      ") AND restriction > 0 ORDER BY restriction;");
    if |sqlArray| == 0 {
      return Fault(MalformedStatement);
    }
    var first := LeastRestriction(catalog, sqlArray);
    if first.Some? {
      r := Done(if first.value == 1 then RequiredCourse else RestrictedCourse);
    } else {
      r := Done("");
    }
  }

  /** `creditConstraint`. */
  method CreditConstraint(catalog: Catalog, courses: seq<CourseCode>) returns (r: Outcome<string>)
    ensures r.Fault? <==> |courses| == 0
    ensures r.Done? ==> r.value == CreditMessage(catalog, courses)
  {
    var sql, sqlArray := ExpandInList("SELECT SUM(credits) AS sumCredits FROM Course WHERE courseCode IN (",
                                      courses, ");");
    if |sqlArray| == 0 {
      return Fault(MalformedStatement);
    }
    var sumCredits := CreditSum(catalog, sqlArray);
    r := Done(if sumCredits < CreditsMin then TooFewCredits else "");
  }

  // ---------------------------------------------------------------------------
  // The engine

  /** The message of every check, in the order the engine runs them. */
  function CheckMessages(users: Users, catalog: Catalog, userId: UserId, planName: string,
                         courses: seq<CourseCode>): seq<string>
  {
    [UserConstraint(users, userId), StudentConstraint(users, userId), PlanNameConstraint(planName),
     ZeroCourseConstraint(courses), DuplicateMessage(courses), CourseMessage(catalog, courses),
     RestrictionMessage(catalog, courses), CreditMessage(catalog, courses)]
  }

  /** The first non-empty message, or "" when there is none. */
  function FirstViolation(ms: seq<string>): (r: string)
    ensures r == "" <==> forall i :: 0 <= i < |ms| ==> ms[i] == ""
    ensures r != "" ==> exists k :: 0 <= k < |ms| && ms[k] == r && forall j :: 0 <= j < k ==> ms[j] == ""
    ensures forall k :: 0 <= k < |ms| && ms[k] != "" && (forall j :: 0 <= j < k ==> ms[j] == "") ==> r == ms[k]
  {
    if ms == [] then ""
    else if ms[0] != "" then ms[0]
    else
      var r := FirstViolation(ms[1..]);
      assert forall i :: 1 <= i < |ms| ==> ms[i] == ms[1..][i - 1];
      r
  }

  /** `enforceConstraints`: run the checks in order and stop at the first one that
      fails. The catalog checks cannot be rejected here, since an empty course list
      stops the run before them, so the result never faults. */
  method EnforceConstraints(users: Users, catalog: Catalog, userId: UserId, planName: string,
                            courses: seq<CourseCode>) returns (violation: string)
    ensures violation == FirstViolation(CheckMessages(users, catalog, userId, planName, courses))
  {
    ghost var ms := CheckMessages(users, catalog, userId, planName, courses);
    violation := UserConstraint(users, userId);
    assert ms[0] == violation;
    if violation != "" { return; }
    violation := StudentConstraint(users, userId);
    assert ms[1] == violation;
    if violation != "" { return; }
    violation := PlanNameConstraint(planName);
    assert ms[2] == violation;
    if violation != "" { return; }
    violation := ZeroCourseConstraint(courses);
    assert ms[3] == violation;
    if violation != "" { return; }
    violation := DuplicateCourseConstraint(courses);
    assert ms[4] == violation;
    if violation != "" { return; }
    var courseCheck := CourseConstraint(catalog, courses);
    violation := courseCheck.value;
    assert ms[5] == violation;
    if violation != "" { return; }
    var restrictionCheck := RestrictionConstraint(catalog, courses);
    violation := restrictionCheck.value;
    assert ms[6] == violation;
    if violation != "" { return; }
    var creditCheck := CreditConstraint(catalog, courses);
    violation := creditCheck.value;
    assert ms[7] == violation;
    assert forall j :: 0 <= j < 7 ==> ms[j] == "";
  }

  // ---------------------------------------------------------------------------
  // What the checks mean

  lemma {:induction false} DistinctSetSize(s: seq<CourseCode>)
    ensures |set c | c in s| <= |s|
    ensures |set c | c in s| == |s| <==> NoDuplicates(s)
  {
    if s != [] {
      var front := s[..|s| - 1];
      var last := s[|s| - 1];
      DistinctSetSize(front);
      NoDuplicatesSnoc(s);
      assert (set c | c in s) == (set c | c in front) + {last} by {
        assert s == front + [last];
      }
    }
  }

  /** The course check passes exactly when no code repeats and every code is in
      the catalog. */
  lemma CourseCheckIff(catalog: Catalog, courses: seq<CourseCode>)
    ensures CourseMessage(catalog, courses) == "" <==>
      NoDuplicates(courses) && forall i :: 0 <= i < |courses| ==> courses[i] in catalog
  {
    var listed := set c | c in courses;
    var matching := set c | c in courses && c in catalog;
    DistinctSetSize(courses);
    assert matching <= listed;
    if forall i :: 0 <= i < |courses| ==> courses[i] in catalog {
      forall c | c in listed ensures c in matching {
        var i :| 0 <= i < |courses| && courses[i] == c;
      }
      assert matching == listed;
    } else {
      var i :| 0 <= i < |courses| && courses[i] !in catalog;
      StrictSubsetSmaller(matching, listed, courses[i]);
    }
  }

  lemma StrictSubsetSmaller<T>(a: set<T>, b: set<T>, x: T)
    requires a <= b && x in b && x !in a
    ensures |a| < |b|
  {
    assert b == a + (b - a);
    assert x in b - a;
  }

  /** A required course (restriction 1) wins over a graduate one; graduate or
      professional courses are reported only when no required course is selected;
      the check passes exactly when every selected course is unrestricted. */
  lemma RestrictionCheck(catalog: Catalog, courses: seq<CourseCode>)
    ensures RestrictionMessage(catalog, courses) == RequiredCourse <==>
      exists i :: 0 <= i < |courses| && InCatalog(catalog, courses[i]) && catalog[courses[i]].restriction == 1
    ensures RestrictionMessage(catalog, courses) == RestrictedCourse <==>
      (forall i :: 0 <= i < |courses| && InCatalog(catalog, courses[i]) ==> catalog[courses[i]].restriction != 1)
      && (exists i :: 0 <= i < |courses| && InCatalog(catalog, courses[i]) && catalog[courses[i]].restriction > 1)
    ensures RestrictionMessage(catalog, courses) == "" <==>
      forall i :: 0 <= i < |courses| && InCatalog(catalog, courses[i]) ==> catalog[courses[i]].restriction == 0
  {
    var m := LeastRestriction(catalog, courses);
    if m.Some? && m.value != 1 {
      forall i | 0 <= i < |courses| && InCatalog(catalog, courses[i])
        ensures catalog[courses[i]].restriction != 1
      {
      }
    }
  }

  lemma {:induction false} CreditSumDistinct(catalog: Catalog, courses: seq<CourseCode>)
    requires NoDuplicates(courses)
    ensures CreditSum(catalog, courses) == TotalCredits(catalog, courses)
  {
    if courses != [] {
      NoDuplicatesSnoc(courses);
      CreditSumDistinct(catalog, courses[..|courses| - 1]);
    }
  }

  /** With no repeated code the credit check passes exactly when the selected
      courses carry at least 32 credits: 32 passes and 31 fails. */
  lemma CreditCheckIff(catalog: Catalog, courses: seq<CourseCode>)
    requires NoDuplicates(courses)
    ensures CreditMessage(catalog, courses) == "" <==> TotalCredits(catalog, courses) >= 32
    ensures TotalCredits(catalog, courses) == 32 ==> CreditMessage(catalog, courses) == ""
    ensures TotalCredits(catalog, courses) == 31 ==> CreditMessage(catalog, courses) == TooFewCredits
  {
    CreditSumDistinct(catalog, courses);
  }

  /** With no repeated code, the three catalog checks pass exactly when every
      course is in the catalog and unrestricted and the credits reach 32. */
  lemma CatalogChecksPass(catalog: Catalog, courses: seq<CourseCode>)
    requires NoDuplicates(courses)
    ensures CourseMessage(catalog, courses) == "" && RestrictionMessage(catalog, courses) == ""
            && CreditMessage(catalog, courses) == "" <==>
      && (forall i :: 0 <= i < |courses| ==> courses[i] in catalog)
      && (forall i :: 0 <= i < |courses| ==> catalog[courses[i]].restriction == 0)
      && TotalCredits(catalog, courses) >= CreditsMin
  {
    CourseCheckIff(catalog, courses);
    RestrictionCheck(catalog, courses);
    CreditCheckIff(catalog, courses);
  }

  /** A plan is accepted exactly when the user exists and is a student, the name
      is 5 to 50 UTF-16 units long, at least one course is selected, no course is
      selected twice, every course is in the catalog and unrestricted, and the
      courses carry at least 32 credits. */
  lemma EnforceAcceptsIff(users: Users, catalog: Catalog, userId: UserId, planName: string,
                          courses: seq<CourseCode>)
    ensures FirstViolation(CheckMessages(users, catalog, userId, planName, courses)) == "" <==>
      && |userId| > 0 && userId in users && users[userId] == 0
      && NameMin <= Utf16Length(planName) <= NameMax
      && |courses| > 0
      && NoDuplicates(courses)
      && (forall i :: 0 <= i < |courses| ==> courses[i] in catalog)
      && (forall i :: 0 <= i < |courses| ==> catalog[courses[i]].restriction == 0)
      && TotalCredits(catalog, courses) >= CreditsMin
  {
    var ms := CheckMessages(users, catalog, userId, planName, courses);
    AllEmptyEight(ms);
    if NoDuplicates(courses) {
      CatalogChecksPass(catalog, courses);
    }
  }

  lemma AllEmptyEight(ms: seq<string>)
    requires |ms| == 8
    ensures (forall i :: 0 <= i < |ms| ==> ms[i] == "") <==>
      ms[0] == "" && ms[1] == "" && ms[2] == "" && ms[3] == "" && ms[4] == "" && ms[5] == "" && ms[6] == "" && ms[7] == ""
  {
  }

  /** The message returned names the first rule broken: when check `k` is the first
      to fail, its message is returned and no later check's message can be. */
  lemma EnforceReportsFirstFailure(users: Users, catalog: Catalog, userId: UserId, planName: string,
                                   courses: seq<CourseCode>, k: nat)
    requires k < 8
    requires CheckMessages(users, catalog, userId, planName, courses)[k] != ""
    requires forall j :: 0 <= j < k ==> CheckMessages(users, catalog, userId, planName, courses)[j] == ""
    ensures FirstViolation(CheckMessages(users, catalog, userId, planName, courses))
         == CheckMessages(users, catalog, userId, planName, courses)[k]
  {
  }

  /** A list with a repeated course is reported as such once the identity and
      name checks pass, whatever the catalog holds. */
  lemma DuplicateReported(users: Users, catalog: Catalog, userId: UserId, planName: string,
                          courses: seq<CourseCode>)
    requires |userId| > 0 && userId in users && users[userId] == 0
    requires NameMin <= Utf16Length(planName) <= NameMax
    requires |courses| > 0 && !NoDuplicates(courses)
    ensures FirstViolation(CheckMessages(users, catalog, userId, planName, courses)) == DuplicateCourse
  {
    var ms := CheckMessages(users, catalog, userId, planName, courses);
    assert forall j :: 0 <= j < 4 ==> ms[j] == "";
    assert ms[4] == DuplicateCourse;
  }

  /** Two unrestricted courses of 4 and 3 credits fall short of the minimum. */
  lemma TwoCoursesTooFewCredits(users: Users, userId: UserId)
    requires |userId| > 0 && userId in users && users[userId] == 0
    ensures
      var catalog := map["CS101" := Course(4, 0), "CS102" := Course(3, 0)];
      FirstViolation(CheckMessages(users, catalog, userId, "My Plan", ["CS101", "CS102"])) == TooFewCredits
  {
    var catalog := map["CS101" := Course(4, 0), "CS102" := Course(3, 0)];
    var courses := ["CS101", "CS102"];
    var ms := CheckMessages(users, catalog, userId, "My Plan", courses);
    Utf16LengthBounds("My Plan");
    assert NoDuplicates(courses);
    CourseCheckIff(catalog, courses);
    RestrictionCheck(catalog, courses);
    CreditSumDistinct(catalog, courses);
    assert TotalCredits(catalog, courses) == 7 by {
      assert courses[..1] == ["CS101"];
      assert courses[..1][..0] == [];
    }
    assert forall j :: 0 <= j < 7 ==> ms[j] == "";
    assert ms[7] == TooFewCredits;
    assert FirstViolation(ms) == TooFewCredits;
  }

  /** Plan names are measured in UTF-16 units: three characters above U+FFFF make
      a name long enough, and twenty-six make one too long. */
  lemma AstralCharactersCountTwice()
    ensures PlanNameConstraint("\U{1F600}\U{1F600}\U{1F600}") == ""
    ensures PlanNameConstraint(seq(26, _ => '\U{1F600}')) == InvalidName
  {
    Utf16LengthBounds("\U{1F600}\U{1F600}\U{1F600}");
    Utf16LengthBounds(seq(26, _ => '\U{1F600}'));
  }
}
