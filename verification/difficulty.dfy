/** The badge colour of a mock-test card (client/src/components/mock-test-card.tsx). */
module MockTestCard {
  import opened Text

  const Green := "bg-green-500"
  const Yellow := "bg-yellow-500"
  const Red := "bg-red-500"
  const Gray := "bg-gray-500"

  /**
   * `getDifficultyColor`: a switch over the lower-cased difficulty. Each of
   * the three known levels, in any letter case, has its own colour; every
   * other string falls through to gray.
   */
  function DifficultyColor(difficulty: string): (r: string)
    ensures r == Green <==> Lower(difficulty) == "beginner"
    ensures r == Yellow <==> Lower(difficulty) == "intermediate"
    ensures r == Red <==> Lower(difficulty) == "advanced"
    ensures r == Gray <==> Lower(difficulty) !in {"beginner", "intermediate", "advanced"}
  {
    match Lower(difficulty)
    case "beginner" => Green
    case "intermediate" => Yellow
    case "advanced" => Red
    case _ => Gray
  }

  /** The colour depends only on the lower-cased difficulty. */
  lemma DifficultyColorCaseInsensitive(a: string, b: string)
    requires Lower(a) == Lower(b)
    ensures DifficultyColor(a) == DifficultyColor(b)
  {
  }

  /** In particular a difficulty and its lower-case form get the same colour. */
  lemma DifficultyColorOfLower(d: string)
    ensures DifficultyColor(Lower(d)) == DifficultyColor(d)
  {
    LowerIdempotent(d);
  }

  /** "Beginner" in title case is a beginner test. */
  lemma BeginnerExample()
    ensures DifficultyColor("Beginner") == Green
  {
    LowerPointwise("Beginner", "beginner");
  }

  /** "INTERMEDIATE" in capitals is an intermediate test. */
  lemma IntermediateExample()
    ensures DifficultyColor("INTERMEDIATE") == Yellow
  {
    LowerPointwise("INTERMEDIATE", "intermediate");
  }

  /** A level outside the three known ones is gray. */
  lemma UnknownLevelExample()
    ensures DifficultyColor("Expert") == Gray
  {
    LowerPointwise("Expert", "expert");
  }
}
