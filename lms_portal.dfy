/**
 * The student portal: a dependent sequence of fetches (student row, all
 * classes, then that student's certificates and attendance), the split of
 * classes into recorded and live, and the labels the cards display.
 */
module LMSPortal {
  import opened Wrappers
  import opened Backend
  import opened JsStrings
  import SearchParams

  datatype Student = Student(id: string, studentId: string, userId: string)

  datatype Course = Course(id: string, title: string, description: Option<string>, thumbnailUrl: Option<string>)

  datatype ClassItem = ClassItem(
    id: string,
    title: string,
    description: Option<string>,
    videoUrl: Option<string>,
    classType: string,
    scheduledAt: Option<string>,
    durationMinutes: Option<int>,
    courseId: string,
    course: Option<Course>)

  datatype Certificate = Certificate(
    id: string,
    certificateId: string,
    studentName: string,
    courseTitle: string,
    issuedAt: string)

  /** The class columns joined onto an attendance row. */
  datatype ClassRef = ClassRef(title: string, classType: string)

  datatype Attendance = Attendance(
    id: string,
    classId: string,
    status: string,
    attendedAt: string,
    classRef: Option<ClassRef>)

  datatype BadgeVariant = Default | Secondary | Destructive

  const Recorded := "recorded"
  const Live := "live"

  /** `data || []`: a null result becomes the empty list, a list is kept as it is. */
  function OrEmpty<T>(data: Option<seq<T>>): (r: seq<T>)
    ensures data.Some? ==> r == data.value
    ensures data.None? ==> r == []
  {
    data.GetOr([])
  }

  /** `classes.filter(c => c.class_type === t)`: exactly the classes of type `t`. */
  function ClassesOfType(cs: seq<ClassItem>, t: string): (r: seq<ClassItem>)
    ensures |r| <= |cs|
    ensures forall k :: 0 <= k < |r| ==> r[k].classType == t
    ensures forall c :: c in r <==> c in cs && c.classType == t
  {
    if cs == [] then []
    else if cs[0].classType == t then [cs[0]] + ClassesOfType(cs[1..], t)
    else ClassesOfType(cs[1..], t)
  }

  /** The filter keeps every copy of a class of type `t`: as many as the input has. */
  lemma {:induction false} ClassesOfTypeKeepsEveryCopy(cs: seq<ClassItem>, t: string)
    ensures forall c :: multiset(ClassesOfType(cs, t))[c] == if c.classType == t then multiset(cs)[c] else 0
  {
    if cs != [] {
      ClassesOfTypeKeepsEveryCopy(cs[1..], t);
      assert cs == [cs[0]] + cs[1..];
    }
  }

  function RecordedClasses(cs: seq<ClassItem>): seq<ClassItem> {
    ClassesOfType(cs, Recorded)
  }

  function LiveClasses(cs: seq<ClassItem>): seq<ClassItem> {
    ClassesOfType(cs, Live)
  }

  /** `r` is `s` with some elements left out, the rest in their order. */
  predicate IsSubsequence<T(==)>(r: seq<T>, s: seq<T>)
    decreases |s|
  {
    if r == [] then true
    else if s == [] then false
    else (r[0] == s[0] && IsSubsequence(r[1..], s[1..])) || IsSubsequence(r, s[1..])
  }

  /** The filter keeps the original order. */
  lemma {:induction false} ClassesOfTypeInOrder(cs: seq<ClassItem>, t: string)
    ensures IsSubsequence(ClassesOfType(cs, t), cs)
  {
    if cs != [] {
      ClassesOfTypeInOrder(cs[1..], t);
      var rest := ClassesOfType(cs[1..], t);
      if cs[0].classType == t {
        assert ([cs[0]] + rest)[1..] == rest;
      }
    }
  }

  /** Recorded and live classes are order-preserving, disjoint selections of the classes. */
  lemma SplitInOrderAndDisjoint(cs: seq<ClassItem>)
    ensures IsSubsequence(RecordedClasses(cs), cs) && IsSubsequence(LiveClasses(cs), cs)
    ensures forall c :: c in RecordedClasses(cs) ==> c !in LiveClasses(cs)
  {
    ClassesOfTypeInOrder(cs, Recorded);
    ClassesOfTypeInOrder(cs, Live);
  }

  /** A class of any other type is shown in neither tab. */
  lemma OtherTypesDropped(cs: seq<ClassItem>, c: ClassItem)
    requires c in cs && c.classType != Recorded && c.classType != Live
    ensures c !in RecordedClasses(cs) && c !in LiveClasses(cs)
  {
  }

  /** The two tabs hold every class exactly when every class is recorded or live. */
  lemma {:induction false} SplitIsExhaustiveIff(cs: seq<ClassItem>)
    ensures |RecordedClasses(cs)| + |LiveClasses(cs)| <= |cs|
    ensures |RecordedClasses(cs)| + |LiveClasses(cs)| == |cs| <==>
      forall k :: 0 <= k < |cs| ==> cs[k].classType == Recorded || cs[k].classType == Live
  {
    if cs != [] {
      SplitIsExhaustiveIff(cs[1..]);
      assert forall k :: 1 <= k < |cs| ==> cs[k] == cs[1..][k - 1];
    }
  }

  /** The attendance badge: present is default, late is secondary, anything else destructive. */
  function Badge(status: string): (v: BadgeVariant)
    ensures v == Default <==> status == "present"
    ensures v == Secondary <==> status == "late"
    ensures v == Destructive <==> status != "present" && status != "late"
  {
    if status == "present" then Default
    else if status == "late" then Secondary
    else Destructive
  }

  /** `s.charAt(0).toUpperCase() + s.slice(1)`: the first letter upper-cased, the rest kept. */
  function Capitalize(s: string): (r: string)
    ensures |r| == |s|
    ensures forall k :: 1 <= k < |s| ==> r[k] == s[k]
    ensures s != [] ==> !IsAsciiLower(r[0]) && LowerChar(r[0]) == LowerChar(s[0])
  {
    if s == [] then [] else ToUpperCase(s[..1]) + s[1..]
  }

  /** Capitalising twice is capitalising once. */
  lemma CapitalizeIdempotent(s: string)
    ensures Capitalize(Capitalize(s)) == Capitalize(s)
  {
    if s != [] {
      var r := Capitalize(s);
      UpperCaseDecidedByFold(r[..1], s[..1]);
      assert r[1..] == s[1..];
    }
  }

  lemma StatusLabels()
    ensures Capitalize("present") == "Present"
    ensures Capitalize("late") == "Late"
    ensures Capitalize("absent") == "Absent"
  {
  }

  /** `value || fallback` on a nullable string: null and "" both fall back. */
  function OrFallback(value: Option<string>, fallback: string): (r: string)
    requires fallback != []
    ensures r != []
    ensures value.Some? && value.value != [] ==> r == value.value
    ensures value.None? || value.value == [] ==> r == fallback
  {
    if value.Some? && value.value != [] then value.value else fallback
  }

  /** `classItem.lms_courses?.title || "General"`. */
  function CourseLabel(c: ClassItem): (r: string)
    ensures r != []
    ensures c.course.Some? && c.course.value.title != [] ==> r == c.course.value.title
    ensures c.course.None? || c.course.value.title == [] ==> r == "General"
  {
    OrFallback(if c.course.Some? then Some(c.course.value.title) else None, "General")
  }

  /** `classItem.description || "No description available"`. */
  function DescriptionLabel(c: ClassItem): (r: string)
    ensures r != []
    ensures c.description.Some? && c.description.value != [] ==> r == c.description.value
    ensures c.description.None? || c.description.value == [] ==> r == "No description available"
  {
    OrFallback(c.description, "No description available")
  }

  /** `record.classes?.title || "Unknown Class"`. */
  function AttendanceTitle(a: Attendance): (r: string)
    ensures r != []
    ensures a.classRef.Some? && a.classRef.value.title != [] ==> r == a.classRef.value.title
    ensures a.classRef.None? || a.classRef.value.title == [] ==> r == "Unknown Class"
  {
    OrFallback(if a.classRef.Some? then Some(a.classRef.value.title) else None, "Unknown Class")
  }

  const VerifyPath := "/verify-certificate"

  /** The link on each certificate card; the id is put in as it is, not URL-encoded. */
  function VerifyLink(certificateId: string): (link: string)
    ensures |link| == |VerifyPath| + 4 + |certificateId|
    ensures link[..|VerifyPath|] == VerifyPath && link[|VerifyPath|..|VerifyPath| + 4] == "?id="
    ensures link[|VerifyPath| + 4..] == certificateId
  {
    VerifyPath + "?id=" + certificateId
  }

  /**
   * What a browser's URL parser leaves alone at the end of a link: no tab, line feed
   * or carriage return anywhere (those are removed), and no space or control
   * character at the end (trailing ones are stripped).
   */
  predicate KeptByUrlParser(certificateId: string) {
    && (forall k :: 0 <= k < |certificateId| ==> certificateId[k] !in {'\t', '\n', '\r'})
    && (certificateId != [] ==> certificateId[|certificateId| - 1] > ' ')
  }

  /**
   * A certificate id without `&`, `#`, `+` or `%`, and one the URL parser leaves
   * alone, is read back from its link's `id` parameter.
   */
  lemma LinkRoundTrip(certificateId: string)
    requires forall k :: 0 <= k < |certificateId| ==> SearchParams.IsPlainValueChar(certificateId[k])
    requires KeptByUrlParser(certificateId)
    ensures SearchParams.Get(SearchParams.QueryOf(VerifyLink(certificateId)), "id") == Some(certificateId)
  {
    var query := "id=" + certificateId;
    assert '#' !in query by {
      forall k | 0 <= k < |query| ensures query[k] != '#' {
        if k >= 3 { assert query[k] == certificateId[k - 3]; }
      }
    }
    assert VerifyLink(certificateId) == VerifyPath + "?" + query;
    SearchParams.QueryOfPathAndQuery(VerifyPath, query);
    assert "id" + "=" + certificateId == query;
    SearchParams.GetSinglePair("id", certificateId);
  }

  /** The portal's state: one field per `useState` of the source. */
  class PortalPage {
    var student: Option<Student>
    var classes: seq<ClassItem>
    var certificates: seq<Certificate>
    var attendance: seq<Attendance>
    var isLoading: bool

    constructor ()
      ensures student.None? && classes == [] && certificates == [] && attendance == []
      ensures isLoading
    {
      student := None;
      classes := [];
      certificates := [];
      attendance := [];
      isLoading := true;
    }

    /**
     * `fetchStudentData` for the signed-in user `userId`. Each argument answers one
     * query; a call that throws ends the sequence, leaving the later fields as they
     * were. `studentKey` is the student id the certificate and attendance queries
     * used, or None when they were not made.
     */
    method FetchStudentData(userId: string,
                            students: string -> Call<Student>,
                            allClasses: Call<seq<ClassItem>>,
                            certificatesOf: string -> Call<seq<Certificate>>,
                            attendanceOf: string -> Call<seq<Attendance>>)
      returns (studentKey: Option<string>)
      modifies this
      ensures !isLoading
      ensures var sc := students(userId);
        if sc.Rejected? then
          && student == old(student) && classes == old(classes)
          && certificates == old(certificates) && attendance == old(attendance)
          && studentKey.None?
        else
          && student == sc.reply.data
          && if allClasses.Rejected? then
               && classes == old(classes)
               && certificates == old(certificates) && attendance == old(attendance)
               && studentKey.None?
             else
               && classes == OrEmpty(allClasses.reply.data)
               && if student.None? then
                    && certificates == old(certificates) && attendance == old(attendance)
                    && studentKey.None?
                  else
                    && studentKey == Some(student.value.id)
                    && var kc := certificatesOf(student.value.id);
                    if kc.Rejected? then
                      certificates == old(certificates) && attendance == old(attendance)
                    else
                      && certificates == OrEmpty(kc.reply.data)
                      && var ac := attendanceOf(student.value.id);
                      attendance == if ac.Rejected? then old(attendance) else OrEmpty(ac.reply.data)
      ensures studentKey.Some? <==> students(userId).Resolved? && students(userId).reply.data.Some? && allClasses.Resolved?
      ensures studentKey.None? ==> certificates == old(certificates) && attendance == old(attendance)
    {
      isLoading := true;
      studentKey := None;

      var sc := students(userId);
      if sc.Rejected? {
        isLoading := false;
        return;
      }
      student := sc.reply.data;

      if allClasses.Rejected? {
        isLoading := false;
        return;
      }
      classes := OrEmpty(allClasses.reply.data);

      if student.Some? {
        var studentId := student.value.id;
        studentKey := Some(studentId);
        var kc := certificatesOf(studentId);
        if kc.Rejected? {
          isLoading := false;
          return;
        }
        certificates := OrEmpty(kc.reply.data);

        var ac := attendanceOf(studentId);
        if ac.Rejected? {
          isLoading := false;
          return;
        }
        attendance := OrEmpty(ac.reply.data);
      }
      isLoading := false;
    }
  }
}
