# The Jolly Advisor: course helpers and review votes

This project models two parts of a university course-review application.

The first is the Course model's small query and display helpers:
- the name, semester and professor filters, which keep every course when given no criterion;
- the one-hop prerequisite and postrequisite lookups in the prerequisite table;
- the "real professors" view, which drops the placeholder names "Staff" and "TBA";
- schedulability, which holds when some offering can be scheduled;
- the search score, which counts whole-word matches of a query;
- the display name (`to_s`), the URL key (`to_param`) and the long description (`long_string`).

The second is review helpfulness as the review scenarios manipulate it. A review's helpfulness is the sum of its +1/-1 votes. A scenario step can bring a course to a given number of reviews, or replace its reviews by one review of a given helpfulness. The "already upvoted" and "already downvoted" steps force the current user's single vote to +1 or -1. They then add compensating votes by factory-made users, so the helpfulness stays where it was. A displayed list of reviews is checked to be in non-increasing order of helpfulness.

Modules:
- `Wrappers` (`wrappers.dfy`): `Option`.
- `Text` (`text.dfy`):
  - word splitting in the manner of Ruby's `String#split` with no argument;
  - decimal text of integers and its parser;
  - removal of spaces;
  - first and last occurrence search.
- `Courses` (`courses.dfy`): the Course helpers, as functions over the `Course`, `Professor`, `CourseInstance` and `PrerequisiteRow` datatypes.
- `CourseExamples` (`course_examples.dfy`): each concrete case of the Course tests, as a lemma about the model.
- `ReviewSteps` (`reviews.dfy`), which has two classes:
  - `Review` holds a sequence of votes and a counter for factory-made voters. Its methods change the votes in place.
  - `CourseReviews` holds a course's reviews.

  Helpfulness, vote lookup and the order check are pure functions.

Assumptions where the tests leave the behaviour open:
- `Score` is case-sensitive.
- `Score` counts the query words, with repetition, that equal some course word. Matching (query word, course word) pairs are not counted.
- The course words are the department's words, then the course number as decimal text, then the title's words.
- Words are maximal runs of characters other than ASCII whitespace, as Ruby's awk-style split produces them.
- Course ids are resolved one by one against a catalogue of saved courses, in the order given. An id that names no course makes the result `None`. This is an assumption: depending on how the application looks the ids up, it raises or skips the id.
- The prerequisite table has a row per (course, prerequisite group).
  - `postrequisites` takes the course id of every row whose group lists the course.
  - It keeps each id once, at its first occurrence in table order, because looking courses up by a list of ids returns each row once. A course whose several groups list the course is therefore a postrequisite once.
  - For the same reason, an id repeated within one prerequisite group is resolved to its course once.
- The search index and the semester and professor selections are outside services, so they are function parameters and nothing is assumed about them.

## Model

| member | source | states |
|---|---|---|
| Courses.FilterByName | spec/models/course_spec.rb:7-19 | with no name the result is the full course collection; with a name it is exactly what the search returns |
| Courses.FilterBySemester | spec/models/course_spec.rb:22-29 | with no semester the result is the full course collection |
| Courses.FilterByProfessor | spec/models/course_spec.rb:31-38 | with no professor the result is the full course collection |
| CourseExamples.FilterByNameNil | spec/models/course_spec.rb:14-19 | filtering by a nil name returns all courses, and so is non-empty whenever there are courses |
| CourseExamples.FilterByNameSearches | spec/models/course_spec.rb:8-12 | a non-nil name returns the search result unchanged |
| CourseExamples.FilterBySemesterNil | spec/models/course_spec.rb:23-28 | a nil semester returns all courses |
| CourseExamples.FilterByProfessorNil | spec/models/course_spec.rb:32-37 | a nil professor returns all courses |
| Courses.FindCourses | spec/models/course_spec.rb:53-54 | ids resolve to the catalogue's courses in the order given, and resolution succeeds exactly when every id is known; distinct ids give distinct courses when the catalogue is keyed by id |
| Courses.PostrequisiteIds | spec/models/course_spec.rb:49-55 | an id is returned exactly when some table row for that course lists the given course as a prerequisite |
| Courses.Uniq | spec/models/course_spec.rb:49-55 | the ids without repetitions: each id is kept once, and no id is added or lost |
| Courses.UniqOfUnique | spec/models/course_spec.rb:49-55 | a list that already has no repetitions is returned unchanged |
| Courses.Postrequisites | spec/models/course_spec.rb:49-55 | the postrequisites are exactly the courses of the ids the table lookup yields, each once when the catalogue is keyed by id, and the lookup fails only on an unknown id |
| Courses.PrerequisiteGroups | spec/models/course_spec.rb:58-64 | a group is returned exactly when some table row for the course has that prerequisite list |
| Courses.PrerequisiteGroupsAppend | spec/models/course_spec.rb:58-64 | the groups of a longer table are those of its parts in order, so with the membership contract there is exactly one group per row of the course |
| Courses.FindGroups | spec/models/course_spec.rb:62-63 | each group of ids is resolved separately, each id once, so each course appears once per group when the catalogue is keyed by id; the grouping is kept |
| Courses.Prerequisites | spec/models/course_spec.rb:58-64 | one resolved group per table row of the course, in table order, each naming its courses once when the catalogue is keyed by id; the result is nested and not flattened, and fails exactly when some group has an unknown id |
| Courses.PrerequisiteDuality | spec/models/course_spec.rb:49-65 | p is in one of c's prerequisite groups if and only if c is among p's postrequisite ids |
| CourseExamples.PostrequisitesExample | spec/models/course_spec.rb:49-55 | a row saying post requires pre gives pre the postrequisites [post] |
| CourseExamples.PostrequisitesOncePerCourse | spec/models/course_spec.rb:49-55 | two groups of post that both list pre still give pre the postrequisites [post] |
| CourseExamples.PrerequisitesExample | spec/models/course_spec.rb:58-64 | the same row gives post the prerequisites [[pre]] |
| CourseExamples.PrerequisitesOncePerGroup | spec/models/course_spec.rb:58-64 | a group that names pre twice gives post the prerequisites [[pre]] |
| Courses.RealProfessors | spec/models/course_spec.rb:67-100 | no result is named "Staff" or "TBA", and every other professor is kept with its multiplicity |
| Courses.IsPlaceholder | spec/models/course_spec.rb:70-76 | a professor is a placeholder exactly when named "Staff" or "TBA" |
| Courses.RealProfessorsAppend | spec/models/course_spec.rb:93-99 | filtering distributes over concatenation, so the kept professors stay in their original order |
| Courses.RealProfessorsAllReal | spec/models/course_spec.rb:93-99 | a list without placeholder names is returned unchanged |
| Courses.CourseRealProfessors | spec/models/course_spec.rb:67-100 | a professor is among a course's real professors if and only if the course lists them and their name is not a placeholder |
| CourseExamples.RealProfessorsAllPlaceholders | spec/models/course_spec.rb:70-76 | ["Staff", "TBA"] gives [] |
| CourseExamples.RealProfessorsSomeReal | spec/models/course_spec.rb:78-91 | ["Staff", "Real Name"] gives one professor, named neither "Staff" nor "TBA" |
| CourseExamples.RealProfessorsNoneFiltered | spec/models/course_spec.rb:93-99 | ["Real", "Name"] is returned unchanged |
| Courses.AnySchedulable | spec/models/course_spec.rb:102-128 | true if and only if some instance in the list is schedulable |
| Courses.Schedulable | spec/models/course_spec.rb:102-128 | a course is schedulable if and only if one of its instances is |
| CourseExamples.SchedulableExamples | spec/models/course_spec.rb:102-128 | one schedulable instance gives true; one non-schedulable instance gives false; no instances give false |
| Courses.MatchCount | spec/models/course_spec.rb:130-154 | the count is between 0 and the number of query words; it is 0 exactly when no query word is a course word, and the maximum exactly when every query word is one |
| Courses.MatchCountAppend | spec/models/course_spec.rb:145-153 | every matching query word adds one, so matches in a longer query add up |
| Courses.Score | spec/models/course_spec.rb:130-154 | the score is at most the number of query words, and 0 exactly when no whole query word equals a course word |
| Courses.CourseWords | spec/models/course_spec.rb:130-133 | the words a query is matched against: the department's words, the number's decimal text, the title's words |
| Text.Words | spec/models/course_spec.rb:135-153 | the whitespace-separated words of a text (`split`); WordsOfSpaces and WordsOfSpacedWord fix it on every text |
| Text.WordsOfJoinWords | spec/models/course_spec.rb:130-154 | splitting words joined by spaces gives back exactly those words |
| Text.WordsAreWords | spec/models/course_spec.rb:130-154 | every word that splitting produces is non-empty and contains no whitespace |
| Text.WordsOfSpaces | spec/models/course_spec.rb:135-153 | a text of whitespace only has no words |
| Text.WordsOfSpacedWord | spec/models/course_spec.rb:135-153 | any leading whitespace, then a word ended by whitespace or the end of the text: that word comes first, followed by the words of the rest |
| Text.WordsOfWord | spec/models/course_spec.rb:140-142 | a single word splits into just that word |
| Text.WordsOfPair | spec/models/course_spec.rb:135-153 | two words joined by one space split into exactly those two words |
| CourseExamples.ScoreOfPair | spec/models/course_spec.rb:135-153 | a two-word query scores one for each of its words that is a word of the course |
| CourseExamples.Eecs132Words | spec/models/course_spec.rb:131-133 | the words of EECS 132 "Intro to Java" are EECS, 132, Intro, to, Java |
| CourseExamples.ScoreNoMatch | spec/models/course_spec.rb:136-138 | "no match" scores 0 |
| CourseExamples.ScoreNoPartialMatch | spec/models/course_spec.rb:140-142 | "jav" scores 0: a prefix of "Java" is no match |
| CourseExamples.ScoreDepartmentAndTitle | spec/models/course_spec.rb:146-148 | "EECS Java" scores 2 |
| CourseExamples.ScoreNumberAndShortWord | spec/models/course_spec.rb:150-152 | "132 to" scores 2 |
| Text.IntToStringRoundTrip | spec/models/course_spec.rb:162-167 | the decimal text of the course number reads back as that number |
| Text.IntToString | spec/models/course_spec.rb:162-167 | decimal text of an integer (`Integer#to_s`): non-empty, digits after an optional leading minus, and no leading zero except for "0" itself |
| Courses.DisplayName | spec/models/course_spec.rb:162-167 | `to_s`: the department, one space, the course number; its round trip is DisplayNameRoundTrip |
| Courses.DisplayNameRoundTrip | spec/models/course_spec.rb:162-167 | the display name is the department, a space and the number: splitting at its last space gives back both |
| Courses.DisplayNameInjective | spec/models/course_spec.rb:162-167 | two courses with the same display name have the same department and number |
| Courses.UrlParam | spec/models/course_spec.rb:156-160 | the URL key has no space and keeps every other character of the display name |
| Text.RemoveSpaces | spec/models/course_spec.rb:156-160 | `gsub(' ', '')`: no space remains and every other character keeps its count |
| Text.RemoveSpacesAppend | spec/models/course_spec.rb:156-160 | removing spaces distributes over concatenation, so the other characters keep their order |
| Courses.UrlParamOfCode | spec/models/course_spec.rb:156-160 | for a department without spaces, the URL key is the department followed directly by the number |
| Courses.UrlParamRoundTrip | spec/models/course_spec.rb:156-160 | for an alphabetic department code, the URL key gives back the department and the number |
| Courses.LongTextRoundTrip | spec/models/course_spec.rb:170-175 | the long description is the display name, ": " and the title, and splitting at the first colon gives back both |
| Courses.LongText | spec/models/course_spec.rb:170-175 | a display name, ": " and a title; its round trip is LongTextRoundTrip |
| Courses.LongName | spec/models/course_spec.rb:170-175 | `long_string`: the course's display name, ": " and its title; its round trip is LongNameRoundTrip |
| Courses.LongNameRoundTrip | spec/models/course_spec.rb:170-175 | a course's long description gives back its display name and its title |
| CourseExamples.DisplayExamples | spec/models/course_spec.rb:156-175 | EECS 132 displays as "EECS 132" with URL key "EECS132"; "hello" and "world" give "hello: world" |
| ReviewSteps.VoteSumAppend | features/step_definitions/reviews_steps.rb:35-37 | the helpfulness of two batches of votes is the sum of their helpfulness |
| ReviewSteps.VoteSum | features/step_definitions/reviews_steps.rb:22 | the helpfulness of a set of votes: the sum of their scores; its laws are VoteSumAppend, VoteSumUpdate and VoteSumFactoryVotes |
| ReviewSteps.FactoryVotes | features/step_definitions/reviews_steps.rb:19 | `create_list(:review_vote, n, …)`: exactly n votes of one score, by made-up voters numbered from the given start |
| ReviewSteps.VoteSumUpdate | features/step_definitions/reviews_steps.rb:33 | changing one vote's score changes the helpfulness by the difference of the scores |
| ReviewSteps.VoteSumFactoryVotes | features/step_definitions/reviews_steps.rb:19-22 | n created votes of one score add n times that score |
| ReviewSteps.VoteIndex | features/step_definitions/reviews_steps.rb:31-32 | the result is the first vote of that voter, and it is absent exactly when the voter has not voted |
| ReviewSteps.VoteIndexAppend | features/step_definitions/reviews_steps.rb:34-37 | appending votes keeps the user's vote where it was |
| ReviewSteps.WithVote | features/step_definitions/reviews_steps.rb:31-33 | find-or-create the voter's vote, then set its score; its properties are WithVoteOwnScore, WithVoteSum and WithVoteValid |
| ReviewSteps.OwnScore | features/step_definitions/reviews_steps.rb:33 | the score of the voter's vote, 0 when they have none |
| ReviewSteps.WithVoteOwnScore | features/step_definitions/reviews_steps.rb:31-33 | after voting, the voter's vote has the new score, every other vote is unchanged, and a vote is added only when the voter had none |
| ReviewSteps.WithVoteSum | features/step_definitions/reviews_steps.rb:30-37 | voting replaces the voter's old score (0 if none) by the new one in the helpfulness |
| ReviewSteps.UpvoteRaises | features/step_definitions/reviews_steps.rb:33-37 | making one's vote +1 raises the helpfulness by 0 to 2, so the compensating count is never negative |
| ReviewSteps.DownvoteLowers | features/step_definitions/reviews_steps.rb:45-49 | making one's vote -1 lowers the helpfulness by 0 to 2 |
| ReviewSteps.WithVoteValid | features/step_definitions/reviews_steps.rb:31-32 | voting keeps every score at +1 or -1 and at most one vote per voter |
| ReviewSteps.WithVoteIdempotent | features/step_definitions/reviews_steps.rb:33 | re-voting the score one already gives changes nothing |
| ReviewSteps.Review.constructor | features/step_definitions/reviews_steps.rb:18 | a new review has no votes |
| ReviewSteps.Review.Helpfulness | features/step_definitions/reviews_steps.rb:30 | `helpfulness`: the review's current vote sum |
| ReviewSteps.Review.AddFactoryVotes | features/step_definitions/reviews_steps.rb:19 | appends n votes of the score by new made-up voters and adds n times the score to the helpfulness, keeping the review valid |
| ReviewSteps.Review.SetOwnVote | features/step_definitions/reviews_steps.rb:31-33 | finds or creates the user's vote and sets its score, and the votes become WithVote of the old votes |
| ReviewSteps.Review.AlreadyUpvoted | features/step_definitions/reviews_steps.rb:25-38 | the user's vote is +1, the helpfulness is as before, and the new votes are the user's vote followed by -1 votes of new voters, and the voter counter grows by their number; an existing +1 vote leaves everything unchanged |
| ReviewSteps.Review.AlreadyDownvoted | features/step_definitions/reviews_steps.rb:40-50 | the user's vote is -1, the helpfulness is as before, and the new votes are the user's vote followed by +1 votes of new voters, and the voter counter grows by their number; an existing -1 vote leaves everything unchanged |
| ReviewSteps.CourseReviews.constructor | features/step_definitions/reviews_steps.rb:1-3 | a course starts with no reviews |
| ReviewSteps.CourseReviews.HasReviews | features/step_definitions/reviews_steps.rb:1-11 | the course ends with exactly n reviews, all different objects: missing ones are new and empty and added at the end; surplus ones are removed from the front; with exactly n nothing changes |
| ReviewSteps.CourseReviews.HasReviewWithHelpfulness | features/step_definitions/reviews_steps.rb:13-23 | the course has one new review, made of h upvotes by h made-up voters, whose helpfulness is h |
| ReviewSteps.OrderedByHelpfulness | features/step_definitions/reviews_steps.rb:85-93 | accepts a displayed list if and only if each helpfulness is at least the next one |
| ReviewSteps.OrderedIsSorted | features/step_definitions/reviews_steps.rb:85-93 | the adjacent check accepts exactly the lists where every earlier helpfulness is at least every later one |
| ReviewSteps.VotedReviewKeepsHelpfulness | features/step_definitions/reviews_steps.rb:13-50 | a review of helpfulness h that the user has upvoted and then downvoted still shows h |

## Left out

- features/step_definitions/wishlist_steps.rb is not part of this model. It is page navigation plus one update of a boolean flag.
- The browser steps of reviews_steps.rb are not modelled: button clicks (lines 52-56), the random dropdown choice (58-63) and the page-content checks (65-83). They are UI interaction and randomness.
- Persistence is not modelled: `reload`, `where`, `destroy_all` and the factory's database writes act on in-memory sequences.
- The find-or-create lookup of a course by department and number (reviews_steps.rb lines 2-3 and 15-16) is not modelled. Each step starts from the course object it acts on.
- The histories of reviews and votes are not kept: destroyed reviews simply leave the sequence.
- CourseReviews.HasReviews: the database's `limit` picks rows in an order the code does not fix. The model destroys the first rows of the sequence.
- CourseReviews.HasReviewWithHelpfulness: the step's `helpfulness < 0 ? -1 : 1` needs no `-1` branch, because the step's pattern admits only digits, so `h` is a natural number.
- OrderedByHelpfulness: it takes the helpfulness numbers as displayed (already read with `to_i`); the page parsing is not modelled.
- The full-text search backend, and filtering by a real semester or professor, are outside services, so they are function parameters.
- Composing several filters by intersection is not modelled; no step or spec composes filters.
- The association matchers (course_spec.rb lines 4-5), course instance end dates (42-43) and the unused `@course_bad` (46) are not modelled.
- An unsaved course (`Course.new`) has a nil id in the application. In the model every course has a natural-number id.
- Sorting reviews by helpfulness is not modelled. The page sorts the reviews; the step definitions only check the displayed order.
- Postrequisites: the order of the result is the order of first occurrence in the table. The application's lookup by several ids does not promise an order; the model fixes one.
