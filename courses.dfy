/**
 * The Course model's query and display helpers: the nil-tolerant filters, the prerequisite table
 * lookups, the "real professor" view, schedulability, the search score and the display strings.
 */
module Courses {
  import opened Wrappers
  import opened Text

  type CourseId = nat

  datatype Professor = Professor(name: string)

  /** One offering of a course; only whether it can still be put on a schedule matters here. */
  datatype CourseInstance = CourseInstance(schedulable: bool)

  datatype Course = Course(
    id: CourseId,
    department: string,
    courseNumber: int,
    title: string,
    instances: seq<CourseInstance>,
    professors: seq<Professor>)

  // ---- filters ----

  /**
   * Courses whose name matches `name`. The full-text search is an outside index, so it is a
   * parameter; without a name there is nothing to filter on and every course is kept.
   */
  function FilterByName(all: seq<Course>, name: Option<string>, search: string -> seq<Course>): (r: seq<Course>)
    ensures name.None? ==> r == all
    ensures name.Some? ==> r == search(name.value)
  {
    match name
    case None => all
    case Some(n) => search(n)
  }

  /** Courses offered in `semester`; the selection for a given semester is a parameter. */
  function FilterBySemester<S>(all: seq<Course>, semester: Option<S>, inSemester: S -> seq<Course>): (r: seq<Course>)
    ensures semester.None? ==> r == all
    ensures semester.Some? ==> r == inSemester(semester.value)
  {
    match semester
    case None => all
    case Some(s) => inSemester(s)
  }

  /** Courses taught by `professor`; the selection for a given professor is a parameter. */
  function FilterByProfessor<P>(all: seq<Course>, professor: Option<P>, taughtBy: P -> seq<Course>): (r: seq<Course>)
    ensures professor.None? ==> r == all
    ensures professor.Some? ==> r == taughtBy(professor.value)
  {
    match professor
    case None => all
    case Some(p) => taughtBy(p)
  }

  // ---- prerequisite table ----

  /** A row of the prerequisite table: course `courseId` requires every course of `prerequisiteIds`. */
  datatype PrerequisiteRow = PrerequisiteRow(courseId: CourseId, prerequisiteIds: seq<CourseId>)

  /** The courses with the given ids, in the order given; None when an id names no course. */
  function FindCourses(catalogue: map<CourseId, Course>, ids: seq<CourseId>): (r: Option<seq<Course>>)
    ensures r.Some? <==> forall i :: 0 <= i < |ids| ==> ids[i] in catalogue
    ensures r.Some? ==> |r.value| == |ids| && forall i :: 0 <= i < |ids| ==> r.value[i] == catalogue[ids[i]]
    ensures r.Some? && KeyedById(catalogue) && (forall i, j :: 0 <= i < j < |ids| ==> ids[i] != ids[j]) ==>
      forall i, j :: 0 <= i < j < |r.value| ==> r.value[i] != r.value[j]
  {
    if ids == [] then Some([])
    else if ids[0] !in catalogue then None
    else
      match FindCourses(catalogue, ids[1..])
      case None => None
      case Some(rest) => Some([catalogue[ids[0]]] + rest)
  }

  /** The course ids of the rows that list `id` among their prerequisites, in table order. */
  function PostrequisiteIds(table: seq<PrerequisiteRow>, id: CourseId): (ids: seq<CourseId>)
    ensures |ids| <= |table|
    ensures forall x :: x in ids <==>
      exists k :: 0 <= k < |table| && table[k].courseId == x && id in table[k].prerequisiteIds
  {
    if table == [] then []
    else
      var rest := PostrequisiteIds(table[1..], id);
      assert forall k :: 1 <= k < |table| ==> table[k] == table[1..][k - 1];
      if id in table[0].prerequisiteIds then [table[0].courseId] + rest else rest
  }

  /** The prerequisite lists of the rows for course `id`, one group per row, in table order. */
  function PrerequisiteGroups(table: seq<PrerequisiteRow>, id: CourseId): (groups: seq<seq<CourseId>>)
    ensures |groups| <= |table|
    ensures forall g :: g in groups <==>
      exists k :: 0 <= k < |table| && table[k].courseId == id && table[k].prerequisiteIds == g
  {
    if table == [] then []
    else
      var rest := PrerequisiteGroups(table[1..], id);
      assert forall k :: 1 <= k < |table| ==> table[k] == table[1..][k - 1];
      if table[0].courseId == id then [table[0].prerequisiteIds] + rest else rest
  }

  /** `ids` without repetitions, each id kept at its first occurrence (Ruby's `uniq`). */
  function Uniq(ids: seq<CourseId>): (r: seq<CourseId>)
    ensures |r| <= |ids|
    ensures forall x :: x in r <==> x in ids
    ensures forall i, j :: 0 <= i < j < |r| ==> r[i] != r[j]
  {
    if ids == [] then []
    else
      var init := Uniq(ids[..|ids| - 1]);
      var last := ids[|ids| - 1];
      assert ids == ids[..|ids| - 1] + [last];
      if last in init then init else init + [last]
  }

  /** A list without repetitions is its own `Uniq`. */
  lemma {:induction false} UniqOfUnique(ids: seq<CourseId>)
    requires forall i, j :: 0 <= i < j < |ids| ==> ids[i] != ids[j]
    ensures Uniq(ids) == ids
    decreases |ids|
  {
    if ids != [] {
      var init := ids[..|ids| - 1];
      UniqOfUnique(init);
      assert ids[|ids| - 1] !in init;
      assert ids == init + [ids[|ids| - 1]];
    }
  }

  /** The groups of a longer table are those of its parts, in order: one group per row of `id`. */
  lemma {:induction false} PrerequisiteGroupsAppend(a: seq<PrerequisiteRow>, b: seq<PrerequisiteRow>, id: CourseId)
    ensures PrerequisiteGroups(a + b, id) == PrerequisiteGroups(a, id) + PrerequisiteGroups(b, id)
    decreases |a|
  {
    if a == [] {
      assert a + b == b;
    } else {
      assert (a + b)[1..] == a[1..] + b;
      PrerequisiteGroupsAppend(a[1..], b, id);
    }
  }

  /** Every key of the catalogue names the course stored under it, as a primary key does. */
  predicate KeyedById(catalogue: map<CourseId, Course>) {
    forall k :: k in catalogue ==> catalogue[k].id == k
  }

  /**
   * The courses that have `c` as a prerequisite, each once, or None when a row names an unknown
   * course. Several groups of one course may list `c`, so the ids are made unique first.
   */
  function Postrequisites(c: Course, table: seq<PrerequisiteRow>, catalogue: map<CourseId, Course>): (r: Option<seq<Course>>)
    ensures r.Some? <==> forall x :: x in PostrequisiteIds(table, c.id) ==> x in catalogue
    ensures r.Some? ==> forall d :: d in r.value <==>
      exists x :: x in PostrequisiteIds(table, c.id) && catalogue[x] == d
    ensures r.Some? && KeyedById(catalogue) ==> forall i, j :: 0 <= i < j < |r.value| ==> r.value[i] != r.value[j]
  {
    var ids := Uniq(PostrequisiteIds(table, c.id));
    var r := FindCourses(catalogue, ids);
    assert (forall x :: x in ids ==> x in catalogue) <==> (forall i :: 0 <= i < |ids| ==> ids[i] in catalogue);
    assert r.Some? ==> forall d :: d in r.value ==> exists i :: 0 <= i < |ids| && r.value[i] == d;
    assert forall x :: x in ids ==> exists i :: 0 <= i < |ids| && ids[i] == x;
    r
  }

  /**
   * Resolves every group of ids into courses, keeping the grouping; None if any id is unknown.
   * Each id is looked up once per group, so with a catalogue keyed by id each course appears once.
   */
  function FindGroups(catalogue: map<CourseId, Course>, groups: seq<seq<CourseId>>): (r: Option<seq<seq<Course>>>)
    ensures r.Some? <==> forall i :: 0 <= i < |groups| ==> FindCourses(catalogue, Uniq(groups[i])).Some?
    ensures r.Some? ==> |r.value| == |groups|
    ensures r.Some? ==> forall i :: 0 <= i < |groups| ==> Some(r.value[i]) == FindCourses(catalogue, Uniq(groups[i]))
    ensures r.Some? && KeyedById(catalogue) ==> forall i, a, b :: 0 <= i < |r.value| && 0 <= a < b < |r.value[i]| ==>
      r.value[i][a] != r.value[i][b]
  {
    if groups == [] then Some([])
    else
      match FindCourses(catalogue, Uniq(groups[0]))
      case None => None
      case Some(first) =>
        match FindGroups(catalogue, groups[1..])
        case None => None
        case Some(rest) => Some([first] + rest)
  }

  /**
   * The prerequisites of `c`: for every row of `c` the courses it lists, grouped per row and not
   * flattened (a course may have several alternative prerequisite groups).
   */
  function Prerequisites(c: Course, table: seq<PrerequisiteRow>, catalogue: map<CourseId, Course>): (r: Option<seq<seq<Course>>>)
    ensures r.Some? ==> forall g :: g in PrerequisiteGroups(table, c.id) ==> FindCourses(catalogue, Uniq(g)).Some?
    ensures r.None? ==> exists g :: g in PrerequisiteGroups(table, c.id) && FindCourses(catalogue, Uniq(g)).None?
    ensures r.Some? ==> |r.value| == |PrerequisiteGroups(table, c.id)|
    ensures r.Some? ==> forall i :: 0 <= i < |r.value| ==>
      Some(r.value[i]) == FindCourses(catalogue, Uniq(PrerequisiteGroups(table, c.id)[i]))
    ensures r.Some? && KeyedById(catalogue) ==> forall i, a, b :: 0 <= i < |r.value| && 0 <= a < b < |r.value[i]| ==>
      r.value[i][a] != r.value[i][b]
  {
    var groups := PrerequisiteGroups(table, c.id);
    assert (forall g :: g in groups ==> FindCourses(catalogue, Uniq(g)).Some?) <==>
      (forall i :: 0 <= i < |groups| ==> FindCourses(catalogue, Uniq(groups[i])).Some?);
    FindGroups(catalogue, groups)
  }

  /** Both lookups read the same table: `p` is in a prerequisite group of `c` exactly when `c` is among the postrequisite ids of `p`. */
  lemma PrerequisiteDuality(table: seq<PrerequisiteRow>, p: CourseId, c: CourseId)
    ensures (exists g :: g in PrerequisiteGroups(table, c) && p in g) <==> c in PostrequisiteIds(table, p)
  {
    if c in PostrequisiteIds(table, p) {
      var k :| 0 <= k < |table| && table[k].courseId == c && p in table[k].prerequisiteIds;
      assert table[k].prerequisiteIds in PrerequisiteGroups(table, c);
    }
  }

  // ---- professors and instances ----

  /** The placeholder names that mean no real professor is assigned. */
  predicate IsPlaceholder(p: Professor) {
    p.name == "Staff" || p.name == "TBA"
  }

  /** The professors whose name is neither "Staff" nor "TBA", in their original order. */
  function RealProfessors(ps: seq<Professor>): (r: seq<Professor>)
    ensures |r| <= |ps|
    ensures forall i :: 0 <= i < |r| ==> !IsPlaceholder(r[i])
    ensures forall p :: multiset(r)[p] == if IsPlaceholder(p) then 0 else multiset(ps)[p]
  {
    if ps == [] then []
    else
      assert ps == [ps[0]] + ps[1..];
      var rest := RealProfessors(ps[1..]);
      if IsPlaceholder(ps[0]) then rest else [ps[0]] + rest
  }

  /** Filtering distributes over concatenation, so the original order is kept. */
  lemma {:induction false} RealProfessorsAppend(a: seq<Professor>, b: seq<Professor>)
    ensures RealProfessors(a + b) == RealProfessors(a) + RealProfessors(b)
    decreases |a|
  {
    if a == [] {
      assert a + b == b;
    } else {
      assert (a + b)[1..] == a[1..] + b;
      RealProfessorsAppend(a[1..], b);
    }
  }

  /** A list without placeholders is returned unchanged. */
  lemma {:induction false} RealProfessorsAllReal(ps: seq<Professor>)
    requires forall i :: 0 <= i < |ps| ==> !IsPlaceholder(ps[i])
    ensures RealProfessors(ps) == ps
    decreases |ps|
  {
    if ps != [] {
      RealProfessorsAllReal(ps[1..]);
    }
  }

  /** The real professors of a course. */
  function CourseRealProfessors(c: Course): (r: seq<Professor>)
    ensures forall p :: p in r <==> p in c.professors && !IsPlaceholder(p)
  {
    var r := RealProfessors(c.professors);
    assert forall p :: p in r <==> multiset(r)[p] > 0;
    r
  }

  /** Whether some instance in `instances` is schedulable. */
  function AnySchedulable(instances: seq<CourseInstance>): (r: bool)
    ensures r <==> exists i :: 0 <= i < |instances| && instances[i].schedulable
  {
    if instances == [] then false
    else
      var rest := AnySchedulable(instances[1..]);
      assert forall i :: 1 <= i < |instances| ==> instances[i] == instances[1..][i - 1];
      instances[0].schedulable || rest
  }

  /** A course is schedulable when at least one of its instances is. */
  function Schedulable(c: Course): (r: bool)
    ensures r <==> exists i :: 0 <= i < |c.instances| && c.instances[i].schedulable
  {
    AnySchedulable(c.instances)
  }

  // ---- search score ----

  /**
   * The words a query is matched against: the department's words, the course number as decimal
   * text, and the title's words.
   */
  function CourseWords(c: Course): seq<string> {
    Words(c.department) + [IntToString(c.courseNumber)] + Words(c.title)
  }

  /** How many of the query words (counted with repetition) occur among `words`. */
  function MatchCount(query: seq<string>, words: seq<string>): (n: nat)
    ensures n <= |query|
    ensures n == 0 <==> forall i :: 0 <= i < |query| ==> query[i] !in words
    ensures n == |query| <==> forall i :: 0 <= i < |query| ==> query[i] in words
  {
    if query == [] then 0
    else
      var rest := MatchCount(query[1..], words);
      assert forall i :: 1 <= i < |query| ==> query[i] == query[1..][i - 1];
      (if query[0] in words then 1 else 0) + rest
  }

  lemma {:induction false} MatchCountAppend(a: seq<string>, b: seq<string>, words: seq<string>)
    ensures MatchCount(a + b, words) == MatchCount(a, words) + MatchCount(b, words)
    decreases |a|
  {
    if a == [] {
      assert a + b == b;
    } else {
      assert (a + b)[1..] == a[1..] + b;
      MatchCountAppend(a[1..], b, words);
    }
  }

  /**
   * The search score of `c` for `query`: the number of query words equal to some word of the
   * course (whole words only, case-sensitive).
   */
  function Score(c: Course, query: string): (n: nat)
    ensures n <= |Words(query)|
    ensures n == 0 <==> forall w :: w in Words(query) ==> w !in CourseWords(c)
  {
    var q := Words(query);
    var n := MatchCount(q, CourseWords(c));
    assert (forall w :: w in q ==> w !in CourseWords(c)) <==> (forall i :: 0 <= i < |q| ==> q[i] !in CourseWords(c));
    n
  }

  // ---- display strings ----

  /** The display name: department, a space, and the course number in decimal. */
  function DisplayName(c: Course): string {
    c.department + " " + IntToString(c.courseNumber)
  }

  /** Reads a display name back: the text after the last space must be a decimal integer. */
  function ParseDisplayName(s: string): Option<(string, int)> {
    match LastSpace(s)
    case None => None
    case Some(k) =>
      match ParseInt(s[k + 1..])
      case None => None
      case Some(n) => Some((s[..k], n))
  }

  lemma NoSpaceInIntText(n: int)
    ensures ' ' !in IntToString(n) && ':' !in IntToString(n)
  {
  }

  /** The display name determines the department and the number, whatever the department holds. */
  lemma DisplayNameRoundTrip(c: Course)
    ensures ParseDisplayName(DisplayName(c)) == Some((c.department, c.courseNumber))
  {
    var d, t := c.department, IntToString(c.courseNumber);
    NoSpaceInIntText(c.courseNumber);
    LastSpaceOfSplit(d, t);
    var s := DisplayName(c);
    assert s[|d| + 1..] == t;
    assert s[..|d|] == d;
    IntToStringRoundTrip(c.courseNumber);
  }

  lemma DisplayNameInjective(c1: Course, c2: Course)
    requires DisplayName(c1) == DisplayName(c2)
    ensures c1.department == c2.department && c1.courseNumber == c2.courseNumber
  {
    DisplayNameRoundTrip(c1);
    DisplayNameRoundTrip(c2);
  }

  /** The URL key: the display name with every space removed. */
  function UrlParam(c: Course): (r: string)
    ensures ' ' !in r
    ensures forall ch :: ch != ' ' ==> multiset(r)[ch] == multiset(DisplayName(c))[ch]
  {
    RemoveSpaces(DisplayName(c))
  }

  /** For a department without spaces the key is the department followed directly by the number. */
  lemma UrlParamOfCode(c: Course)
    requires ' ' !in c.department
    ensures UrlParam(c) == c.department + IntToString(c.courseNumber)
  {
    var d, t := c.department, IntToString(c.courseNumber);
    assert DisplayName(c) == d + (" " + t);
    RemoveSpacesAppend(d, " " + t);
    assert " " + t == [' '] + t;
    RemoveSpacesAppend([' '], t);
    assert RemoveSpaces([' ']) == [];
    NoSpaceInIntText(c.courseNumber);
    RemoveSpacesNoSpace(d);
    RemoveSpacesNoSpace(t);
  }

  predicate IsLetter(ch: char) {
    'A' <= ch <= 'Z' || 'a' <= ch <= 'z'
  }

  /** The length of the longest prefix of `s` made of letters. */
  function LetterPrefix(s: string): (k: nat)
    ensures k <= |s|
    ensures forall i :: 0 <= i < k ==> IsLetter(s[i])
    ensures k == |s| || !IsLetter(s[k])
  {
    if s == [] || !IsLetter(s[0]) then 0 else 1 + LetterPrefix(s[1..])
  }

  /** Reads a URL key back: a run of letters, then a decimal integer. */
  function ParseUrlParam(s: string): Option<(string, int)> {
    var k := LetterPrefix(s);
    match ParseInt(s[k..])
    case None => None
    case Some(n) => Some((s[..k], n))
  }

  /** For an alphabetic department code the URL key determines the department and the number. */
  lemma UrlParamRoundTrip(c: Course)
    requires forall i :: 0 <= i < |c.department| ==> IsLetter(c.department[i])
    ensures ParseUrlParam(UrlParam(c)) == Some((c.department, c.courseNumber))
  {
    var d, t := c.department, IntToString(c.courseNumber);
    assert ' ' !in d;
    UrlParamOfCode(c);
    var s := d + t;
    var k := LetterPrefix(s);
    assert !IsLetter(s[|d|]);
    assert k == |d|;
    assert s[k..] == t && s[..k] == d;
    IntToStringRoundTrip(c.courseNumber);
  }

  /** The long description: a display name, a colon and a space, then the title. */
  function LongText(display: string, title: string): string {
    display + ": " + title
  }

  function LongName(c: Course): string {
    LongText(DisplayName(c), c.title)
  }

  /** Reads a long description back, splitting at the first colon, which must be followed by a space. */
  function SplitLong(s: string): Option<(string, string)> {
    match FirstIndex(s, ':')
    case None => None
    case Some(k) =>
      if k + 1 < |s| && s[k + 1] == ' ' then Some((s[..k], s[k + 2..])) else None
  }

  lemma LongTextRoundTrip(display: string, title: string)
    requires ':' !in display
    ensures SplitLong(LongText(display, title)) == Some((display, title))
  {
    var s := LongText(display, title);
    assert s[|display|] == ':' && s[|display| + 1] == ' ';
    assert s[..|display|] == display && s[|display| + 2..] == title;
    var k := FirstIndex(s, ':');
    assert k == Some(|display|);
  }

  /** The long description of a course gives back its display name and its title. */
  lemma LongNameRoundTrip(c: Course)
    requires ':' !in c.department
    ensures SplitLong(LongName(c)) == Some((DisplayName(c), c.title))
  {
    NoSpaceInIntText(c.courseNumber);
    assert ':' !in DisplayName(c);
    LongTextRoundTrip(DisplayName(c), c.title);
  }
}
