/** The concrete cases the Course model's tests pin down, stated about the model. */
module CourseExamples {
  import opened Wrappers
  import opened Text
  import opened Courses

  /** Without a name, filtering by name keeps every course, whatever the search would return. */
  lemma FilterByNameNil(all: seq<Course>, search: string -> seq<Course>)
    ensures FilterByName(all, None, search) == all
    ensures all != [] ==> FilterByName(all, None, search) != []
  {
  }

  /** With a name, the result is what the search returns, unchanged. */
  lemma FilterByNameSearches(all: seq<Course>, name: string, search: string -> seq<Course>)
    ensures FilterByName(all, Some(name), search) == search(name)
  {
  }

  lemma FilterBySemesterNil<S>(all: seq<Course>, inSemester: S -> seq<Course>)
    ensures FilterBySemester(all, None, inSemester) == all
  {
  }

  lemma FilterByProfessorNil<P>(all: seq<Course>, taughtBy: P -> seq<Course>)
    ensures FilterByProfessor(all, None, taughtBy) == all
  {
  }

  /** One row saying `post` requires `pre`: `post` is the one postrequisite of `pre`. */
  lemma PostrequisitesExample(pre: Course, post: Course)
    requires pre.id != post.id
    ensures Postrequisites(pre, [PrerequisiteRow(post.id, [pre.id])], map[pre.id := pre, post.id := post]) == Some([post])
  {
    var table := [PrerequisiteRow(post.id, [pre.id])];
    var catalogue := map[pre.id := pre, post.id := post];
    assert table[1..] == [];
    assert pre.id in table[0].prerequisiteIds;
    assert PostrequisiteIds(table, pre.id) == [post.id];
    var r := FindCourses(catalogue, [post.id]);
    assert r.Some? && r.value == [post];
  }

  /** Two prerequisite groups of `post` that both list `pre` still give `post` once. */
  lemma PostrequisitesOncePerCourse(pre: Course, post: Course, x: CourseId, y: CourseId)
    requires pre.id != post.id
    ensures Postrequisites(pre, [PrerequisiteRow(post.id, [pre.id, x]), PrerequisiteRow(post.id, [pre.id, y])],
      map[pre.id := pre, post.id := post]) == Some([post])
  {
    var table := [PrerequisiteRow(post.id, [pre.id, x]), PrerequisiteRow(post.id, [pre.id, y])];
    var catalogue := map[pre.id := pre, post.id := post];
    assert table[1..][1..] == [];
    assert PostrequisiteIds(table, pre.id) == [post.id, post.id];
    assert [post.id, post.id][..1] == [post.id];
    assert Uniq([post.id]) == [post.id];
    assert Uniq([post.id, post.id]) == [post.id];
    var r := FindCourses(catalogue, [post.id]);
    assert r.Some? && r.value == [post];
  }

  /** The same row gives `post` the single prerequisite group [pre], nested and not flattened. */
  lemma PrerequisitesExample(pre: Course, post: Course)
    requires pre.id != post.id
    ensures Prerequisites(post, [PrerequisiteRow(post.id, [pre.id])], map[pre.id := pre, post.id := post]) == Some([[pre]])
  {
    var table := [PrerequisiteRow(post.id, [pre.id])];
    var catalogue := map[pre.id := pre, post.id := post];
    assert table[1..] == [];
    assert PrerequisiteGroups(table, post.id) == [[pre.id]];
    assert Uniq([pre.id]) == [pre.id];
    var r := FindCourses(catalogue, [pre.id]);
    assert r.Some? && r.value == [pre];
    var g := FindGroups(catalogue, [[pre.id]]);
    assert g.Some? && g.value == [[pre]];
  }

  lemma UniqOfRepeated(x: CourseId)
    ensures Uniq([x, x]) == [x]
  {
    assert [x, x][..1] == [x];
    assert Uniq([x]) == [x];
  }

  /** A group that names `pre` twice still gives `pre` once. */
  lemma PrerequisitesOncePerGroup(pre: Course, post: Course)
    requires pre.id != post.id
    ensures Prerequisites(post, [PrerequisiteRow(post.id, [pre.id, pre.id])], map[pre.id := pre, post.id := post]) == Some([[pre]])
  {
    var table := [PrerequisiteRow(post.id, [pre.id, pre.id])];
    var catalogue := map[pre.id := pre, post.id := post];
    assert table[1..] == [];
    assert PrerequisiteGroups(table, post.id) == [[pre.id, pre.id]];
    UniqOfRepeated(pre.id);
    var r := FindCourses(catalogue, [pre.id]);
    assert r.Some? && r.value == [pre];
    var g := FindGroups(catalogue, [[pre.id, pre.id]]);
    assert g.Some? && g.value == [[pre]];
  }

  lemma RealProfessorsAllPlaceholders()
    ensures RealProfessors([Professor("Staff"), Professor("TBA")]) == []
  {
  }

  lemma RealProfessorsSomeReal()
    ensures |RealProfessors([Professor("Staff"), Professor("Real Name")])| == 1
    ensures forall p :: p in RealProfessors([Professor("Staff"), Professor("Real Name")]) ==>
      p.name != "Staff" && p.name != "TBA"
  {
    var ps := [Professor("Staff"), Professor("Real Name")];
    assert ps[1..] == [Professor("Real Name")];
    assert RealProfessors(ps) == [Professor("Real Name")];
  }

  lemma RealProfessorsNoneFiltered()
    ensures RealProfessors([Professor("Real"), Professor("Name")]) == [Professor("Real"), Professor("Name")]
  {
    RealProfessorsAllReal([Professor("Real"), Professor("Name")]);
  }

  lemma SchedulableExamples(c: Course)
    ensures Schedulable(c.(instances := [CourseInstance(true)]))
    ensures !Schedulable(c.(instances := [CourseInstance(false)]))
    ensures !Schedulable(c.(instances := []))
  {
  }

  /** The course the search tests use: EECS 132, "Intro to Java". */
  function Eecs132(): Course {
    Course(1, "EECS", 132, "Intro to Java", [], [])
  }

  lemma Eecs132Words()
    ensures CourseWords(Eecs132()) == Eecs132WordList()
  {
    WordsOfWord("EECS");
    TitleWords();
    NumberText();
    CourseWordsOf(Eecs132(), ["EECS"], ["Intro", "to", "Java"]);
  }

  function Eecs132WordList(): seq<string> {
    ["EECS", "132", "Intro", "to", "Java"]
  }

  lemma CourseWordsOf(c: Course, departmentWords: seq<string>, titleWords: seq<string>)
    requires Words(c.department) == departmentWords && Words(c.title) == titleWords
    ensures CourseWords(c) == departmentWords + [IntToString(c.courseNumber)] + titleWords
  {
  }

  lemma NumberText()
    ensures IntToString(132) == "132"
  {
  }

  lemma TitleWords()
    ensures Words("Intro to Java") == ["Intro", "to", "Java"]
  {
    WordsOfJoinWords(["Intro", "to", "Java"]);
    assert JoinWords(["Intro", "to", "Java"]) == "Intro to Java";
  }

  /** The two-word queries of the score tests, taken apart into their words. */
  lemma QueryTexts()
    ensures IsWord("no") && IsWord("match") && "no match" == "no" + " " + "match"
    ensures IsWord("EECS") && IsWord("Java") && "EECS Java" == "EECS" + " " + "Java"
    ensures IsWord("132") && IsWord("to") && "132 to" == "132" + " " + "to"
  {
  }

  /** The query words of the tests that are not words of EECS 132. */
  lemma NotCourseWords()
    ensures "no" !in Eecs132WordList() && "match" !in Eecs132WordList() && "jav" !in Eecs132WordList()
  {
  }

  /** A query of two words scores one for each of them that is a word of the course. */
  lemma ScoreOfPair(c: Course, query: string, a: string, b: string)
    requires IsWord(a) && IsWord(b) && query == a + " " + b
    ensures Score(c, query) == (if a in CourseWords(c) then 1 else 0) + (if b in CourseWords(c) then 1 else 0)
  {
    WordsOfPair(query, a, b);
    assert [a, b][1..] == [b];
    assert [b][1..] == [];
  }

  /** Query words that match no course word score 0. */
  lemma ScoreNoMatch()
    ensures Score(Eecs132(), "no match") == 0
  {
    QueryTexts();
    NotCourseWords();
    Eecs132Words();
    ScoreOfPair(Eecs132(), "no match", "no", "match");
  }

  /** A prefix of a course word ("jav" of "Java") is no match. */
  lemma ScoreNoPartialMatch()
    ensures Score(Eecs132(), "jav") == 0
  {
    NotCourseWords();
    Eecs132Words();
    WordsOfWord("jav");
    assert MatchCount(["jav"], Eecs132WordList()) == 0;
  }

  /** The department code and a title word each count once. */
  lemma ScoreDepartmentAndTitle()
    ensures Score(Eecs132(), "EECS Java") == 2
  {
    QueryTexts();
    Eecs132Words();
    ScoreOfPair(Eecs132(), "EECS Java", "EECS", "Java");
  }

  /** The course number and a short title word count as well. */
  lemma ScoreNumberAndShortWord()
    ensures Score(Eecs132(), "132 to") == 2
  {
    QueryTexts();
    Eecs132Words();
    ScoreOfPair(Eecs132(), "132 to", "132", "to");
  }

  lemma DisplayExamples()
    ensures DisplayName(Eecs132()) == "EECS 132"
    ensures UrlParam(Eecs132()) == "EECS132"
    ensures LongText("hello", "world") == "hello: world"
  {
    NumberText();
    UrlParamOfCode(Eecs132());
  }
}
