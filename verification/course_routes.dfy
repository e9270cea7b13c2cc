/**
 * The title data the courses routing module declares, as concrete active
 * chains, and the titles the two passes compute for them. The first chain
 * element stands for the parent route the course routes hang under; it has
 * no title data of its own.
 */
module CourseRoutes {

  import opened Optional
  import opened JsValues
  import opened RouteChain
  import TitleService
  import AppComponent

  const CoursesParent := Segment(map[])

  function TitleObject(text: string): Value
  {
    Obj(map["label" := Str(text)])
  }

  function DescriptionBinding(resolver: string): Value
  {
    Obj(map["resolver" := Str(resolver), "itemKey" := Str("description")])
  }

  /** `''` under the courses module: `{title: {label: 'Home Component'}}`. */
  const Home := Segment(map["title" := TitleObject("Home Component")])

  /** `':courseUrl'`, with the `course` resolver's result in place. */
  function Course(description: string): Segment
  {
    Segment(map[
      "title" := Obj(map["label" := Str("Course"), "resolvers" := Arr([DescriptionBinding("course")])]),
      "course" := Obj(map["description" := Str(description)])])
  }

  /** `''` under a course: a title without resolver bindings (the `lessons` result is not bound). */
  const LessonsList := Segment(map[
    "title" := TitleObject("Lessons List Component"),
    "lessons" := Arr([])])

  /** `'lessons/:lessonSeqNo'`, with the `lesson` resolver's result in place. */
  function LessonDetail(description: string): Segment
  {
    Segment(map[
      "title" := Obj(map["label" := Str("Lesson Detail Component"), "resolvers" := Arr([DescriptionBinding("lesson")])]),
      "lesson" := Obj(map["description" := Str(description)])])
  }

  /** The `{label, resolved}` entry a `description` binding produces for a resolved object. */
  function DescriptionEntry(description: string): Value
  {
    Obj(map["label" := Str(description), "resolved" := Obj(map["description" := Str(description)])])
  }

  lemma CourseEntries(description: string)
    ensures TitleService.SegmentReady(Course(description))
    ensures TitleService.SegmentEntries(Course(description))
         == [DescriptionEntry(description), TitleData(Course(description))]
  {
    var course := Course(description);
    var b := DescriptionBinding("course");
    assert TitleData(course).Obj? && Titled(course);
    assert TitleService.ResolversValue(course) == Arr([b]);
    assert TitleService.Usable(b);
    assert TitleService.Bucket(course.data, b) == Obj(map["description" := Str(description)]);
    assert TitleService.BindingReady(course.data, b);
    assert TitleService.Bindings(course) == [b];
    assert [b][1..] == [];
    assert TitleService.ResolvedEntry(course.data, b) == DescriptionEntry(description);
    assert TitleService.ResolverEntries(course.data, [b]) == [DescriptionEntry(description)];
  }

  lemma LessonDetailEntries(description: string)
    ensures TitleService.SegmentReady(LessonDetail(description))
    ensures TitleService.SegmentEntries(LessonDetail(description))
         == [DescriptionEntry(description), TitleData(LessonDetail(description))]
  {
    var lesson := LessonDetail(description);
    var b := DescriptionBinding("lesson");
    assert TitleData(lesson).Obj? && Titled(lesson);
    assert TitleService.ResolversValue(lesson) == Arr([b]);
    assert TitleService.Usable(b);
    assert TitleService.Bucket(lesson.data, b) == Obj(map["description" := Str(description)]);
    assert TitleService.BindingReady(lesson.data, b);
    assert TitleService.Bindings(lesson) == [b];
    assert [b][1..] == [];
    assert TitleService.ResolvedEntry(lesson.data, b) == DescriptionEntry(description);
    assert TitleService.ResolverEntries(lesson.data, [b]) == [DescriptionEntry(description)];
  }

  lemma LessonsListEntries()
    ensures TitleService.SegmentReady(LessonsList)
    ensures TitleService.SegmentEntries(LessonsList) == [TitleObject("Lessons List Component")]
  {
    assert TitleData(LessonsList) == TitleObject("Lessons List Component");
    assert TitleService.Bindings(LessonsList) == [];
  }

  /** Collecting over two visited segments, the upper one first. */
  lemma CollectTwo(upper: Segment, lower: Segment)
    requires TitleService.SegmentReady(upper) && TitleService.SegmentReady(lower)
    ensures TitleService.SegmentsReady([upper, lower])
    ensures TitleService.Collect([upper, lower])
         == TitleService.SegmentEntries(upper) + TitleService.SegmentEntries(lower)
  {
    assert [upper, lower][..1] == [upper];
    assert [upper][..0] == [];
    assert TitleService.Collect([upper]) == TitleService.SegmentEntries(upper);
  }

  /** The pass over `parent -> upper -> lower` with a titled `lower`: both segments' entries, upper first. */
  lemma ResolveTwo(parent: Segment, upper: Segment, lower: Segment, prev: seq<Value>)
    requires TitleService.SegmentReady(upper) && TitleService.SegmentReady(lower) && Titled(lower)
    ensures TitleService.ChainReady([parent, upper, lower])
    ensures TitleService.ResolvePass([parent, upper, lower], prev)
         == TitleService.SegmentEntries(upper) + TitleService.SegmentEntries(lower)
  {
    CollectTwo(upper, lower);
    assert Visited([parent, upper, lower]) == [upper, lower];
    assert Deepest([parent, upper, lower]) == lower;
  }

  /** Each resolver entry precedes its segment's own label, course before lesson. */
  lemma LessonDetailTitle(s: TitleService.Session, courseText: string, lessonText: string)
    requires TitleService.SessionOk(s)
    ensures TitleService.ChainReady([CoursesParent, Course(courseText), LessonDetail(lessonText)])
    ensures TitleService.Navigate(s, [CoursesParent, Course(courseText), LessonDetail(lessonText)]).published
         == Some(courseText + ": " + "Course" + ": " + lessonText + ": " + "Lesson Detail Component")
  {
    var chain := [CoursesParent, Course(courseText), LessonDetail(lessonText)];
    var titles := LessonDetailEntriesAre(courseText, lessonText, s.result);
    PublishFour(titles, courseText, "Course", lessonText, "Lesson Detail Component");
    assert TitleService.Navigate(s, chain).published == Some(TitleService.JoinLabels(titles));
  }

  /** The entries the pass collects for the lesson detail chain, and their labels. */
  lemma LessonDetailEntriesAre(courseText: string, lessonText: string, prev: seq<Value>) returns (titles: seq<Value>)
    ensures TitleService.ChainReady([CoursesParent, Course(courseText), LessonDetail(lessonText)])
    ensures TitleService.ResolvePass([CoursesParent, Course(courseText), LessonDetail(lessonText)], prev) == titles
    ensures |titles| == 4 && AllDefined(titles)
    ensures TitleService.Labels(titles) == [Str(courseText), Str("Course"), Str(lessonText), Str("Lesson Detail Component")]
  {
    var course := Course(courseText);
    var lesson := LessonDetail(lessonText);
    CourseEntries(courseText);
    LessonDetailEntries(lessonText);
    ResolveTwo(CoursesParent, course, lesson, prev);
    titles := [DescriptionEntry(courseText), TitleData(course), DescriptionEntry(lessonText), TitleData(lesson)];
  }

  /** Joining the labels of four entries whose labels are the given strings. */
  lemma PublishFour(titles: seq<Value>, a: string, b: string, c: string, d: string)
    requires |titles| == 4 && AllDefined(titles)
    requires TitleService.Labels(titles) == [Str(a), Str(b), Str(c), Str(d)]
    ensures TitleService.JoinLabels(titles) == a + ": " + b + ": " + c + ": " + d
  {
    var ss := Renders([Str(a), Str(b), Str(c), Str(d)]);
    assert ss == [a, b, c, d];
    assert ss[1..] == [b, c, d];
    assert ss[1..][1..] == [c, d];
    assert ss[1..][1..][1..] == [d];
    assert JoinStrings([c, d], ": ") == c + ": " + d;
    assert JoinStrings([b, c, d], ": ") == b + ": " + (c + ": " + d);
    assert JoinStrings(ss, ": ") == a + ": " + (b + ": " + (c + ": " + d));
  }

  /** Joining the labels of three entries whose labels are the given strings. */
  lemma PublishThree(titles: seq<Value>, a: string, b: string, c: string)
    requires |titles| == 3 && AllDefined(titles)
    requires TitleService.Labels(titles) == [Str(a), Str(b), Str(c)]
    ensures TitleService.JoinLabels(titles) == a + ": " + b + ": " + c
  {
    var ss := Renders([Str(a), Str(b), Str(c)]);
    assert ss == [a, b, c];
    assert ss[1..] == [b, c];
    assert ss[1..][1..] == [c];
    assert JoinStrings([b, c], ": ") == b + ": " + c;
    assert JoinStrings(ss, ": ") == a + ": " + (b + ": " + c);
  }

  /** A titled leaf without bindings: the course's resolver entry, its label, then the leaf's label. */
  lemma LessonsListTitle(s: TitleService.Session, courseText: string)
    requires TitleService.SessionOk(s)
    ensures TitleService.ChainReady([CoursesParent, Course(courseText), LessonsList])
    ensures TitleService.Navigate(s, [CoursesParent, Course(courseText), LessonsList]).published
         == Some(courseText + ": " + "Course" + ": " + "Lessons List Component")
  {
    var chain := [CoursesParent, Course(courseText), LessonsList];
    var titles := LessonsListEntriesAre(courseText, s.result);
    PublishThree(titles, courseText, "Course", "Lessons List Component");
    assert TitleService.Navigate(s, chain).published == Some(TitleService.JoinLabels(titles));
  }

  /** The entries the pass collects for the lessons list chain, and their labels. */
  lemma LessonsListEntriesAre(courseText: string, prev: seq<Value>) returns (titles: seq<Value>)
    ensures TitleService.ChainReady([CoursesParent, Course(courseText), LessonsList])
    ensures TitleService.ResolvePass([CoursesParent, Course(courseText), LessonsList], prev) == titles
    ensures |titles| == 3 && AllDefined(titles)
    ensures TitleService.Labels(titles) == [Str(courseText), Str("Course"), Str("Lessons List Component")]
  {
    var course := Course(courseText);
    CourseEntries(courseText);
    LessonsListEntries();
    ResolveTwo(CoursesParent, course, LessonsList, prev);
    titles := [DescriptionEntry(courseText), TitleData(course), TitleObject("Lessons List Component")];
    assert [DescriptionEntry(courseText), TitleData(course)] + [TitleObject("Lessons List Component")] == titles;
    LessonsListLabels(courseText, titles);
  }

  /** The labels of the lessons list entries, element by element. */
  lemma LessonsListLabels(courseText: string, titles: seq<Value>)
    requires titles == [DescriptionEntry(courseText), TitleData(Course(courseText)), TitleObject("Lessons List Component")]
    ensures AllDefined(titles)
    ensures TitleService.Labels(titles) == [Str(courseText), Str("Course"), Str("Lessons List Component")]
  {
    var ls := TitleService.Labels(titles);
    assert ls[0] == TitleService.Label(DescriptionEntry(courseText)) == Str(courseText);
    assert ls[1] == TitleService.Label(TitleData(Course(courseText))) == Str("Course");
    assert ls[2] == TitleService.Label(TitleObject("Lessons List Component")) == Str("Lessons List Component");
  }

  /** The home route alone below the parent publishes its label. */
  lemma HomeTitle(s: TitleService.Session)
    requires TitleService.SessionOk(s)
    ensures TitleService.ChainReady([CoursesParent, Home])
    ensures TitleService.Navigate(s, [CoursesParent, Home]).published == Some("Home Component")
  {
    assert Visited([CoursesParent, Home]) == [Home];
    assert TitleData(Home) == TitleObject("Home Component");
    assert Titled(Home);
    assert Deepest([CoursesParent, Home]) == Home;
    assert TitleService.Bindings(Home) == [];
    assert TitleService.ResolverEntries(Home.data, []) == [];
    assert TitleService.SegmentEntries(Home) == [TitleData(Home)];
    assert TitleService.Collect([Home]) == [TitleData(Home)];
    assert TitleService.ResolvePass([CoursesParent, Home], s.result) == [TitleData(Home)];
  }

  /**
   * The first revision joins the title values themselves; with these
   * object-shaped titles each renders as `"[object Object]"`.
   */
  lemma FirstRevisionRendersTitleObjects(prev: seq<Value>, courseText: string)
    ensures AppComponent.AppNavigate(prev, [CoursesParent, Course(courseText), LessonsList]).published
         == "[object Object]" + ": " + "[object Object]"
  {
    var course := Course(courseText);
    var titles := [TitleData(course), TitleData(LessonsList)];
    FirstRevisionCollectsTitleObjects(prev, courseText);
    var ss := Renders(titles);
    assert ss == ["[object Object]", "[object Object]"];
    assert ss[1..] == ["[object Object]"];
    assert JoinStrings(ss, ": ") == ss[0] + ": " + JoinStrings(ss[1..], ": ");
    assert Join(titles, ": ") == "[object Object]" + ": " + "[object Object]";
  }

  lemma FirstRevisionCollectsTitleObjects(prev: seq<Value>, courseText: string)
    ensures AppComponent.AppResolve([CoursesParent, Course(courseText), LessonsList], prev)
         == [TitleData(Course(courseText)), TitleData(LessonsList)]
    ensures TitleData(Course(courseText)).Obj? && TitleData(LessonsList).Obj?
  {
    var course := Course(courseText);
    var chain := [CoursesParent, course, LessonsList];
    assert Visited(chain) == [course, LessonsList];
    assert [course, LessonsList][..1] == [course];
    assert [course][..0] == [];
    assert Deepest(chain) == LessonsList && Titled(LessonsList) && Titled(course);
    assert AppComponent.AppCollect([course]) == [TitleData(course)];
  }
}
