/**
 * The content-review step: the evaluation focus and model choices, the
 * instruction sent to the generation endpoint, the three-field result it
 * returns, and which feedback panels are shown for that result.
 */
module Review {
  import opened Wrappers
  import opened Strings

  /** The three choices of the "Evaluation focus" radio. */
  datatype Focus = GeneralUnderstanding | ConceptualAccuracy | AcademicRigor

  /** The three keys of the model selector. */
  datatype ModelId = Flash | Pro | Ultra {
    function Name(): string {
      match this
      case Flash => "gemini-2.0-flash"
      case Pro => "gemini-2.0-pro"
      case Ultra => "gemini-2.0-ultra"
    }
  }

  /** The structured result: `whats_right`, `whats_wrong`, `recommendations`. */
  datatype Evaluation = Evaluation(whatsRight: string, whatsWrong: string, recommendations: string)

  /** The radio label of a focus, which is also its key in the additions table. */
  function Label(focus: Focus): string {
    match focus
    case GeneralUnderstanding => "General understanding"
    case ConceptualAccuracy => "Conceptual accuracy"
    case AcademicRigor => "Academic rigor"
  }

  /** The focus-specific sentence of the prompt. */
  function Addition(focus: Focus): string {
    match focus
    case GeneralUnderstanding => "Focus on overall grasp of concepts."
    case ConceptualAccuracy => "Focus deeply on precision of technical terms and relationships between concepts."
    case AcademicRigor => "Evaluate with academic standards in mind, highlighting scholarly accuracy."
  }

  /**
   * `prompt_additions[name]`: the focus whose label is `name`, or None
   * where the table lookup would raise a KeyError.
   */
  function FocusNamed(name: string): (r: Option<Focus>)
    ensures r.Some? ==> Label(r.value) == name
    ensures (exists f :: Label(f) == name) ==> r.Some?
  {
    if name == "General understanding" then Some(GeneralUnderstanding)
    else if name == "Conceptual accuracy" then Some(ConceptualAccuracy)
    else if name == "Academic rigor" then Some(AcademicRigor)
    else None
  }

  const OPENING := "Evaluate the following content with focus on "

  /** The fixed three-part instruction between the focus sentence and the note. */
  const INSTRUCTIONS :=
    "\n\nProvide your feedback in these three clearly separated sections:\n\n"
    + "1. What's Right: Highlight the aspects that demonstrate correct understanding.\n"
    + "2. What's Wrong: Identify any misconceptions or errors.\n"
    + "3. Recommendations: Suggest specific topics or areas to focus on for improvement.\n\n"

  /** The opening sentence, which names the focus and adds its elaboration. */
  function Heading(focus: Focus): string {
    OPENING + Label(focus) + ". " + Addition(focus)
  }

  /** The instruction sent to the endpoint for `content` under `focus`. */
  function Prompt(focus: Focus, content: string): (r: string)
    ensures StartsWith(r, Heading(focus))
    ensures EndsWith(r, "Content:\n" + content)
  {
    var tail := "Content:\n" + content;
    ConcatEnds(Heading(focus), INSTRUCTIONS, tail);
    Heading(focus) + INSTRUCTIONS + tail
  }

  /** A concatenation starts with its first part and ends with its last. */
  lemma ConcatEnds(a: string, b: string, c: string)
    ensures StartsWith(a + b + c, a) && EndsWith(a + b + c, c)
  {
    assert (a + b + c)[..|a|] == a;
    assert (a + b + c)[|a + b|..] == c;
  }

  /** The character right after the opening names the focus. */
  lemma FocusLetter(focus: Focus)
    ensures |OPENING| < |Heading(focus)|
    ensures Heading(focus)[|OPENING|] == Label(focus)[0]
  {
    FirstAfter(OPENING, Label(focus), ". ", Addition(focus));
  }

  /** The character after `a` in a concatenation is the first of `b`. */
  lemma FirstAfter(a: string, b: string, c: string, d: string)
    requires b != []
    ensures |a| < |a + b + c + d|
    ensures (a + b + c + d)[|a|] == b[0]
  {
  }

  /** The first letter of each focus label tells the three apart. */
  lemma LabelsDiffer(f1: Focus, f2: Focus)
    requires Label(f1)[0] == Label(f2)[0]
    ensures f1 == f2
  {
  }

  /** The note's text is what follows the fixed part of the prompt. */
  lemma PromptSplit(focus: Focus, content: string)
    ensures Prompt(focus, content) == Heading(focus) + INSTRUCTIONS + "Content:\n" + content
  {
  }

  /** A text agrees with each of its prefixes inside that prefix. */
  lemma SameAt(r: string, h: string, n: nat)
    requires StartsWith(r, h) && n < |h|
    ensures r[n] == h[n]
  {
    assert r[..|h|][n] == h[n];
  }

  /**
   * The prompt determines both the focus and the content: different
   * requests never send the same instruction.
   */
  lemma PromptDetermines(f1: Focus, c1: string, f2: Focus, c2: string)
    ensures Prompt(f1, c1) == Prompt(f2, c2) <==> f1 == f2 && c1 == c2
  {
    if Prompt(f1, c1) == Prompt(f2, c2) {
      var r := Prompt(f1, c1);
      var n := |OPENING|;
      FocusLetter(f1);
      FocusLetter(f2);
      SameAt(r, Heading(f1), n);
      SameAt(r, Heading(f2), n);
      LabelsDiffer(f1, f2);
      PromptSplit(f1, c1);
      PromptSplit(f1, c2);
      SharedPrefix(Heading(f1) + INSTRUCTIONS + "Content:\n", c1, c2);
    }
  }

  /** One feedback panel of the results area. */
  datatype Panel = Right(text: string) | Wrong(text: string) | Recommend(text: string) | Raw(text: string)

  function Rank(p: Panel): nat {
    match p
    case Right(_) => 0
    case Wrong(_) => 1
    case Recommend(_) => 2
    case Raw(_) => 3
  }

  /** The panels shown for `result` (decoded from the reply text `raw`), top to bottom. */
  function Display(result: Evaluation, raw: string): seq<Panel> {
    var right := if |result.whatsRight| > 0 then [Right(result.whatsRight)] else [];
    var wrong := if |result.whatsWrong| > 0 then [Wrong(result.whatsWrong)] else [];
    var recommend := if |result.recommendations| > 0 then [Recommend(result.recommendations)] else [];
    var fallback := if |right + wrong + recommend| == 0 then [Raw(raw)] else [];
    right + wrong + recommend + fallback
  }

  /**
   * A section is shown exactly when its field is non-empty, and the raw
   * reply exactly when all three are empty; so something is always shown.
   */
  lemma DisplayShows(result: Evaluation, raw: string)
    ensures Right(result.whatsRight) in Display(result, raw) <==> result.whatsRight != ""
    ensures Wrong(result.whatsWrong) in Display(result, raw) <==> result.whatsWrong != ""
    ensures Recommend(result.recommendations) in Display(result, raw) <==> result.recommendations != ""
    ensures Raw(raw) in Display(result, raw) <==>
      result.whatsRight == "" && result.whatsWrong == "" && result.recommendations == ""
    ensures Display(result, raw) != []
  {
  }

  /**
   * The results area holds nothing but those four panels, each at most
   * once, in the order right, wrong, recommendations, raw.
   */
  lemma DisplayLayout(result: Evaluation, raw: string)
    ensures forall p :: p in Display(result, raw) ==>
      p in [Right(result.whatsRight), Wrong(result.whatsWrong), Recommend(result.recommendations), Raw(raw)]
    ensures forall i, j :: 0 <= i < j < |Display(result, raw)| ==>
      Rank(Display(result, raw)[i]) < Rank(Display(result, raw)[j])
  {
  }
}
