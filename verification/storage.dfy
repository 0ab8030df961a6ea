/**
 * The in-memory storage of the server (server/storage.ts, class MemStorage):
 * two tables, users and courses, each a Map keyed by an auto-increment id.
 * A JS Map also remembers the order in which its keys were first set; each
 * table keeps that order beside it.
 */
module Storage {
  import opened Wrappers
  import opened Schema
  import opened Text

  /**
   * The keys of a table and their insertion order: each key was handed out by
   * a counter that starts at 1, so the order is strictly increasing and every
   * key is below the counter's next value.
   */
  ghost predicate KeyOrder<V>(m: map<int, V>, order: seq<int>, next: int) {
    && (forall i :: 0 <= i < |order| ==> order[i] in m)
    && (forall k :: k in m ==> k in order)
    && (forall i, j :: 0 <= i < j < |order| ==> order[i] < order[j])
    && (forall k :: k in m ==> 1 <= k < next)
    && 1 <= next
  }

  /** `Array.from(m.values())`: the values of the map in the order of `keys`. */
  function ValuesInOrder<V>(m: map<int, V>, keys: seq<int>): (r: seq<V>)
    requires forall i :: 0 <= i < |keys| ==> keys[i] in m
    ensures |r| == |keys|
    ensures forall i :: 0 <= i < |keys| ==> r[i] == m[keys[i]]
  {
    if keys == [] then []
    else ValuesInOrder(m, keys[..|keys| - 1]) + [m[keys[|keys| - 1]]]
  }

  const CourseImages: seq<string> := [
    "https://images.unsplash.com/photo-1472289065668-ce650ac443d2",
    "https://images.unsplash.com/photo-1493723843671-1d655e66ac1c",
    "https://images.unsplash.com/photo-1557804483-ef3ae78eca57",
    "https://images.unsplash.com/photo-1517048676732-d65bc937f952"
  ]

  const SampleDescription := "This is a sample course description that showcases what you'll learn in this comprehensive program."

  /** The course the constructor seeds for the image at `index`: id index + 1, featured only for the first. */
  function SeedCourse(index: nat): (c: Course)
    requires index < |CourseImages|
    ensures c.id == index + 1 && c.imageUrl == CourseImages[index]
    ensures c.featured == Some(index == 0)
  {
    Course(index + 1, "Sample Course " + Decimal(index + 1), SampleDescription, CourseImages[index],
           Some(1), "10 weeks", 99, Some(index == 0))
  }

  class MemStorage {
    var users: map<int, User>
    var userOrder: seq<int>
    var courses: map<int, Course>
    var courseOrder: seq<int>
    var userCurrentId: int
    var courseCurrentId: int

    ghost predicate Valid()
      reads this
    {
      && KeyOrder(users, userOrder, userCurrentId)
      && KeyOrder(courses, courseOrder, courseCurrentId)
      && (forall id :: id in users ==> users[id].id == id)
      && (forall id :: id in courses ==> courses[id].id == id)
    }

    /** The users in insertion order. */
    ghost function Users(): seq<User>
      requires Valid()
      reads this
    {
      ValuesInOrder(users, userOrder)
    }

    /**
     * No users; the four sample courses under ids 1 to 4, only the first
     * featured; the user counter at 1 and the course counter at 5.
     */
    constructor ()
      ensures Valid()
      ensures users == map[] && userOrder == [] && userCurrentId == 1
      ensures courseOrder == [1, 2, 3, 4] && courseCurrentId == 5
      ensures forall id :: id in courses <==> 1 <= id <= 4
      ensures forall id :: id in courses ==> courses[id] == SeedCourse(id - 1)
      ensures forall id :: id in courses ==> (courses[id].featured == Some(true) <==> id == 1)
    {
      users := map[];
      userOrder := [];
      courses := map[];
      courseOrder := [];
      userCurrentId := 1;
      courseCurrentId := 1;
      new;
      var index := 0;
      while index < |CourseImages|
        invariant 0 <= index <= |CourseImages|
        invariant users == map[] && userOrder == [] && userCurrentId == 1 && courseCurrentId == 1
        invariant |courseOrder| == index && forall i :: 0 <= i < index ==> courseOrder[i] == i + 1
        invariant forall id :: id in courses <==> 1 <= id <= index
        invariant forall id :: id in courses ==> courses[id] == SeedCourse(id - 1)
      {
        courses := courses[index + 1 := SeedCourse(index)];
        courseOrder := courseOrder + [index + 1];
        index := index + 1;
      }
      courseCurrentId := |CourseImages| + 1;
      assert courseOrder == [1, 2, 3, 4];
      forall id | id in courses
        ensures id in courseOrder
      {
        assert courseOrder[id - 1] == id;
      }
    }

    /** `users.get(id)`: the stored user, or undefined when there is none. */
    method GetUser(id: int) returns (user: Option<User>)
      requires Valid()
      ensures user.Some? <==> id in users
      ensures user.Some? ==> user.value == users[id] && user.value.id == id
    {
      user := if id in users then Some(users[id]) else None;
    }

    /**
     * `Array.from(users.values()).find(...)`: the first user, in insertion
     * order, with this username; undefined when none has it.
     */
    method GetUserByUsername(username: string) returns (user: Option<User>)
      requires Valid()
      ensures user.Some? ==> user.value.username == username
      ensures user.Some? ==> exists k :: (0 <= k < |Users()| && Users()[k] == user.value
        && forall j :: 0 <= j < k ==> Users()[j].username != username)
      ensures user.None? ==> forall u :: u in Users() ==> u.username != username
      ensures user.None? ==> forall id :: id in users ==> users[id].username != username
    {
      var i := 0;
      while i < |userOrder|
        invariant 0 <= i <= |userOrder|
        invariant forall j :: 0 <= j < i ==> users[userOrder[j]].username != username
      {
        var candidate := users[userOrder[i]];
        if candidate.username == username {
          assert Users()[i] == candidate;
          return Some(candidate);
        }
        i := i + 1;
      }
      return None;
    }

    /**
     * `createUser`: the user gets the current counter value as id, is stored
     * under it (a key not used before) and the counter moves on by one. The
     * course table is untouched. Usernames are not checked for uniqueness.
     */
    method CreateUser(insertUser: InsertUser) returns (user: User)
      requires Valid()
      modifies this`users, this`userOrder, this`userCurrentId
      ensures Valid()
      ensures user == insertUser.WithId(old(userCurrentId))
      ensures user.id !in old(users)
      ensures users == old(users)[user.id := user] && userOrder == old(userOrder) + [user.id]
      ensures |users| == |old(users)| + 1
      ensures userCurrentId == old(userCurrentId) + 1
    {
      var id := userCurrentId;
      userCurrentId := userCurrentId + 1;
      user := insertUser.WithId(id);
      users := users[id := user];
      userOrder := userOrder + [id];
    }

    /** `Array.from(courses.values())`: every stored course once, in insertion order, which is id order. */
    method GetAllCourses() returns (all: seq<Course>)
      requires Valid()
      ensures all == ValuesInOrder(courses, courseOrder)
      ensures forall i :: 0 <= i < |all| ==> all[i].id in courses && courses[all[i].id] == all[i]
      ensures forall id :: id in courses ==> courses[id] in all
      ensures forall i, j :: 0 <= i < j < |all| ==> all[i].id < all[j].id
    {
      all := [];
      var i := 0;
      while i < |courseOrder|
        invariant 0 <= i <= |courseOrder|
        invariant all == ValuesInOrder(courses, courseOrder[..i])
      {
        assert courseOrder[..i + 1][..i] == courseOrder[..i];
        all := all + [courses[courseOrder[i]]];
        i := i + 1;
      }
      assert courseOrder[..i] == courseOrder;
      forall id | id in courses
        ensures courses[id] in all
      {
        var k :| 0 <= k < |courseOrder| && courseOrder[k] == id;
        assert all[k] == courses[id];
      }
    }

    /** `courses.get(id)`: the stored course, or undefined when there is none. */
    method GetCourse(id: int) returns (course: Option<Course>)
      requires Valid()
      ensures course.Some? <==> id in courses
      ensures course.Some? ==> course.value == courses[id] && course.value.id == id
    {
      course := if id in courses then Some(courses[id]) else None;
    }

    /**
     * `createCourse`: the course gets the current counter value as id, is
     * stored under it (a key not used before) and the counter moves on by
     * one. The user table is untouched.
     */
    method CreateCourse(insertCourse: InsertCourse) returns (course: Course)
      requires Valid()
      modifies this`courses, this`courseOrder, this`courseCurrentId
      ensures Valid()
      ensures course == insertCourse.WithId(old(courseCurrentId))
      ensures course.id !in old(courses)
      ensures courses == old(courses)[course.id := course] && courseOrder == old(courseOrder) + [course.id]
      ensures |courses| == |old(courses)| + 1
      ensures courseCurrentId == old(courseCurrentId) + 1
    {
      var id := courseCurrentId;
      courseCurrentId := courseCurrentId + 1;
      course := insertCourse.WithId(id);
      courses := courses[id := course];
      courseOrder := courseOrder + [id];
    }
  }

  /**
   * Two sign-ups with the same username are both stored, under ids 1 and 2,
   * and the lookup by username finds the first.
   */
  method DuplicateUsernames() returns (first: User, second: User, found: Option<User>)
    ensures first.id == 1 && second.id == 2 && first.username == second.username
    ensures found == Some(first)
  {
    var storage := new MemStorage();
    first := storage.CreateUser(InsertUser("ann", "secret"));
    second := storage.CreateUser(InsertUser("ann", "other"));
    assert storage.userOrder == [1, 2];
    assert storage.Users() == [first, second];
    found := storage.GetUserByUsername("ann");
  }
}
