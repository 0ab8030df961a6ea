/**
 * Record shapes of the tables declared in shared/schema.ts (users, courses,
 * mock_tests, questions, test_attempts). Nullable columns become Option.
 */
module Schema {
  import opened Wrappers

  datatype User = User(id: int, username: string, password: string)

  /** The insert shape of a user: every column but the serial id. */
  datatype InsertUser = InsertUser(username: string, password: string)
  {
    /** `{ ...insertUser, id }` */
    function WithId(id: int): User
    {
      User(id, username, password)
    }
  }

  datatype Course = Course(
    id: int,
    title: string,
    description: string,
    imageUrl: string,
    authorId: Option<int>,
    duration: string,
    price: int,
    featured: Option<bool>)

  /** The insert shape of a course: every column but the serial id. */
  datatype InsertCourse = InsertCourse(
    title: string,
    description: string,
    imageUrl: string,
    authorId: Option<int>,
    duration: string,
    price: int,
    featured: Option<bool>)
  {
    /** `{ ...insertCourse, id }` */
    function WithId(id: int): Course
    {
      Course(id, title, description, imageUrl, authorId, duration, price, featured)
    }
  }

  /** A mock test; `duration` is in minutes and the column is an unconstrained integer. */
  datatype MockTest = MockTest(
    id: int,
    title: string,
    description: string,
    duration: int,
    totalQuestions: int,
    difficulty: string,
    imageUrl: string,
    authorId: Option<int>,
    featured: Option<bool>)

  /** A question: `correctOption` is an unconstrained integer column. */
  datatype Question = Question(
    id: int,
    mockTestId: Option<int>,
    text: string,
    options: seq<string>,
    correctOption: int,
    explanation: string)

  /** The answer recorded for a question not answered yet. */
  const Unanswered := -1

  /** The body of POST /api/test-attempts, without its `completedAt` timestamp. */
  datatype AttemptPayload = AttemptPayload(
    userId: int,
    mockTestId: int,
    score: int,
    correctAnswers: int,
    totalQuestions: int)
}
