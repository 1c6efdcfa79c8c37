/** The HTTP service's fixed course catalogue: fourteen courses, a
    standard and a premium one for each of seven levels, and the lookup by
    id. */
module Courses {
  import opened Common

  datatype Kind = Standard | Premium

  datatype Course = Course(id: int, name: string, kind: Kind, level: string, emoji: string)

  /** `COURSES`. */
  const Catalogue: seq<Course> := [
    Course(1, "A0 Standard", Standard, "A0", "\U{1F4D7}"),
    Course(2, "A0 Premium", Premium, "A0", "\U{2B50}"),
    Course(3, "A1 Standard", Standard, "A1", "\U{1F4D8}"),
    Course(4, "A1 Premium", Premium, "A1", "\U{2B50}"),
    Course(5, "A2 Standard", Standard, "A2", "\U{1F4D9}"),
    Course(6, "A2 Premium", Premium, "A2", "\U{2B50}"),
    Course(7, "B1 Standard", Standard, "B1", "\U{1F4D5}"),
    Course(8, "B1 Premium", Premium, "B1", "\U{2B50}"),
    Course(9, "B2 Standard", Standard, "B2", "\U{1F4D4}"),
    Course(10, "B2 Premium", Premium, "B2", "\U{2B50}"),
    Course(11, "CEFR PRO Standard", Standard, "PRO", "\U{1F393}"),
    Course(12, "CEFR PRO Premium", Premium, "PRO", "\U{2B50}"),
    Course(13, "Grammatika Standard", Standard, "GRAM", "\U{1F4DA}"),
    Course(14, "Grammatika Premium", Premium, "GRAM", "\U{2B50}")
  ]

  /** The catalogue is numbered 1 to 14 in order; the course at an odd id
      is the standard one of its level and the next is the premium one of
      the same level, marked with a star. */
  lemma CatalogueShape()
    ensures |Catalogue| == 14
    ensures forall i :: 0 <= i < |Catalogue| ==> Catalogue[i].id == i + 1
    ensures forall i :: 0 <= i < 7 ==>
      && Catalogue[2 * i].kind == Standard && Catalogue[2 * i + 1].kind == Premium
      && Catalogue[2 * i].level == Catalogue[2 * i + 1].level
      && Catalogue[2 * i + 1].emoji == "\U{2B50}"
  {
  }

  /** Different courses belong to different levels unless they are the
      two tiers of one level. */
  lemma LevelsDistinct()
    ensures forall i, j :: 0 <= i < 7 && 0 <= j < 7 && i != j ==> Catalogue[2 * i].level != Catalogue[2 * j].level
  {
  }

  /** `next((c for c in COURSES if c["id"] == course_id), None)`. */
  function FirstWithId(cs: seq<Course>, id: int): (r: Option<Course>)
    ensures r.Some? ==> r.value in cs && r.value.id == id
    ensures r.None? <==> forall c :: c in cs ==> c.id != id
  {
    if cs == [] then None
    else if cs[0].id == id then Some(cs[0])
    else FirstWithId(cs[1..], id)
  }

  /** A response body of the course routes. */
  datatype Body =
    | Courses(courses: seq<Course>)
    | Found(course: Course)
    | NotFound(error: string)
    | NotFoundPair(error: string, code: int)

  datatype Response = Response(status: int, body: Body)

  /** `get_courses`: the whole catalogue, unchanged and in order. */
  function GetCourses(): (r: Response)
    ensures r.status == 200 && r.body.Courses? && r.body.courses == Catalogue
  {
    Response(200, Courses(Catalogue))
  }

  /** Every listed course is the one the single-course route answers for
      its id, and nothing else is listed. */
  lemma ListedCoursesFound()
    ensures forall c :: c in GetCourses().body.courses ==> GetCourse(c.id) == Response(200, Found(c))
    ensures forall id :: GetCourse(id).status == 200 ==> GetCourse(id).body.course in GetCourses().body.courses
  {
    CatalogueShape();
    forall c | c in Catalogue ensures GetCourse(c.id) == Response(200, Found(c)) {
      var i :| 0 <= i < |Catalogue| && Catalogue[i] == c;
      assert c.id == i + 1;
    }
  }

  /** `get_course` as written: the handler returns the pair
      `({"error": …}, 404)`, which the framework sends with status 200 as a
      two-element JSON array. */
  function GetCourseAsWritten(id: int): (r: Response)
    ensures FirstWithId(Catalogue, id).Some? ==> r == Response(200, Found(FirstWithId(Catalogue, id).value))
    ensures FirstWithId(Catalogue, id).None? ==> r == Response(200, NotFoundPair("Course not found", 404))
  {
    match FirstWithId(Catalogue, id)
    case Some(c) => Response(200, Found(c))
    case None => Response(200, NotFoundPair("Course not found", 404))
  }

  /** An unknown id is answered with success. */
  lemma UnknownCourseIsSuccess()
    ensures GetCourseAsWritten(15).status == 200 && GetCourseAsWritten(15).body.NotFoundPair?
  {
    CatalogueShape();
  }

  /** `get_course` with the intended status: 404 for an unknown id. */
  function GetCourse(id: int): (r: Response)
    ensures r.status == 200 <==> 1 <= id <= 14
    ensures r.status == 200 ==> r.body.Found? && r.body.course.id == id && r.body.course == Catalogue[id - 1]
    ensures r.status != 200 ==> r == Response(404, NotFound("Course not found"))
  {
    CatalogueShape();
    assert 1 <= id <= 14 ==> Catalogue[id - 1] in Catalogue && Catalogue[id - 1].id == id;
    match FirstWithId(Catalogue, id)
    case Some(c) =>
      assert c == Catalogue[id - 1];
      Response(200, Found(c))
    case None =>
      Response(404, NotFound("Course not found"))
  }
}
