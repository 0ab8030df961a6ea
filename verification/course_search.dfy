/** The course search of the home page (client/src/pages/home-page.tsx). */
module HomePage {
  import opened Wrappers
  import opened Text
  import opened Schema

  /** The filter predicate: the lower-cased search occurs in the lower-cased title or description. */
  predicate Matches(course: Course, search: string)
    ensures Matches(course, search) <==>
      Occurs(Lower(course.title), Lower(search)) || Occurs(Lower(course.description), Lower(search))
  {
    || Includes(Lower(course.title), Lower(search))
    || Includes(Lower(course.description), Lower(search))
  }

  /**
   * `courses.filter(...)`: keeps the matching courses, left to right. A
   * matching course is kept as often as the list holds it, any other not at all.
   */
  function Filter(courses: seq<Course>, search: string): (r: seq<Course>)
    ensures |r| <= |courses|
    ensures forall c :: multiset(r)[c] == if Matches(c, search) then multiset(courses)[c] else 0
  {
    if courses == [] then []
    else
      assert courses == [courses[0]] + courses[1..];
      (if Matches(courses[0], search) then [courses[0]] else []) + Filter(courses[1..], search)
  }

  /** `filteredCourses`: undefined while the course list is undefined. */
  function FilteredCourses(courses: Option<seq<Course>>, search: string): (r: Option<seq<Course>>)
    ensures r.Some? <==> courses.Some?
    ensures r.Some? ==> Subsequence(r.value, courses.value)
    ensures r.Some? ==> forall c :: c in r.value <==> c in courses.value && Matches(c, search)
    ensures r.Some? ==> forall c ::
      multiset(r.value)[c] == if Matches(c, search) then multiset(courses.value)[c] else 0
  {
    match courses
    case None => None
    case Some(cs) =>
      FilterIsSubsequence(cs, search);
      FilterMembers(cs, search);
      Some(Filter(cs, search))
  }

  /** `r` is `s` with some elements dropped and the rest in their original order. */
  ghost predicate Subsequence<T>(r: seq<T>, s: seq<T>) {
    if r == [] then true
    else if s == [] then false
    else if r[0] == s[0] then Subsequence(r[1..], s[1..])
    else Subsequence(r, s[1..])
  }

  /** The filter keeps the order of the courses it keeps. */
  lemma {:induction false} FilterIsSubsequence(courses: seq<Course>, search: string)
    ensures Subsequence(Filter(courses, search), courses)
  {
    if courses != [] {
      FilterIsSubsequence(courses[1..], search);
      var rest := Filter(courses[1..], search);
      if Matches(courses[0], search) {
        assert Filter(courses, search) == [courses[0]] + rest;
        assert ([courses[0]] + rest)[1..] == rest;
      } else {
        assert Filter(courses, search) == rest;
        SubsequenceDropHead(rest, courses);
      }
    }
  }

  /** A subsequence of the tail of `s` is a subsequence of `s`. */
  lemma {:induction false} SubsequenceDropHead<T>(r: seq<T>, s: seq<T>)
    requires s != []
    requires Subsequence(r, s[1..])
    ensures Subsequence(r, s)
    decreases |s|, |r|
  {
    if r != [] && r[0] == s[0] {
      SubsequenceTail(r, s[1..]);
    }
  }

  /** Dropping the head of a non-empty subsequence keeps it a subsequence. */
  lemma {:induction false} SubsequenceTail<T>(r: seq<T>, s: seq<T>)
    requires r != []
    requires Subsequence(r, s)
    ensures Subsequence(r[1..], s)
    decreases |s|, |r|
  {
    assert s != [];
    if r[0] == s[0] {
      if r[1..] != [] {
        SubsequenceDropHead(r[1..], s);
      }
    } else {
      SubsequenceTail(r, s[1..]);
      if r[1..] != [] {
        SubsequenceDropHead(r[1..], s);
      }
    }
  }

  /** A course is in the result exactly when it is in the list and matches. */
  lemma {:induction false} FilterMembers(courses: seq<Course>, search: string)
    ensures forall c :: c in Filter(courses, search) <==> c in courses && Matches(c, search)
  {
    if courses != [] {
      FilterMembers(courses[1..], search);
      assert courses == [courses[0]] + courses[1..];
    }
  }

  /** An empty search keeps every course. */
  lemma {:induction false} EmptySearchKeepsAll(courses: seq<Course>)
    ensures Filter(courses, "") == courses
  {
    if courses != [] {
      IncludesEmpty(Lower(courses[0].title));
      EmptySearchKeepsAll(courses[1..]);
    }
  }

  /** Two searches with the same lower-case form select the same courses. */
  lemma {:induction false} FilterCaseInsensitive(courses: seq<Course>, a: string, b: string)
    requires Lower(a) == Lower(b)
    ensures Filter(courses, a) == Filter(courses, b)
  {
    if courses != [] {
      FilterCaseInsensitive(courses[1..], a, b);
    }
  }

  /** In particular the result does not change when the search is lower-cased first. */
  lemma FilterOfLowerSearch(courses: seq<Course>, search: string)
    ensures Filter(courses, Lower(search)) == Filter(courses, search)
  {
    LowerIdempotent(search);
    FilterCaseInsensitive(courses, Lower(search), search);
  }
}
