/** The two document schemas of models/Interview.js: the closed enumerations,
    the validated Question and Interview values a stored record holds, the
    unvalidated documents the POST handler builds, and the schema's
    validation-with-defaults that turns the latter into the former. */
module InterviewModel {
  import opened Results
  import opened Text

  // ---------------------------------------------------------------------
  // Closed enumerations and their stored spellings
  // ---------------------------------------------------------------------

  datatype Topic = Arrays | DP | Graphs | LLD | SystemDesign | Algorithms | Behavioral

  function TopicName(t: Topic): string {
    match t
    case Arrays => "Arrays"
    case DP => "DP"
    case Graphs => "Graphs"
    case LLD => "LLD"
    case SystemDesign => "System Design"
    case Algorithms => "Algorithms"
    case Behavioral => "Behavioral"
  }

  /** The `enum` check on `topic`: exactly the listed spellings are admitted,
      case-sensitively, and each names one topic. */
  function ParseTopic(s: string): (r: Option<Topic>)
    ensures r.Some? ==> TopicName(r.value) == s
    ensures forall t :: TopicName(t) == s ==> r == Some(t)
  {
    if s == "Arrays" then Some(Arrays)
    else if s == "DP" then Some(DP)
    else if s == "Graphs" then Some(Graphs)
    else if s == "LLD" then Some(LLD)
    else if s == "System Design" then Some(SystemDesign)
    else if s == "Algorithms" then Some(Algorithms)
    else if s == "Behavioral" then Some(Behavioral)
    else None
  }

  datatype RoundType = OA | Technical | Design | HR

  function RoundTypeName(t: RoundType): string {
    match t
    case OA => "OA"
    case Technical => "Technical"
    case Design => "Design"
    case HR => "HR"
  }

  /** The `enum` check on `roundType`. */
  function ParseRoundType(s: string): (r: Option<RoundType>)
    ensures r.Some? ==> RoundTypeName(r.value) == s
    ensures forall t :: RoundTypeName(t) == s ==> r == Some(t)
  {
    if s == "OA" then Some(OA)
    else if s == "Technical" then Some(Technical)
    else if s == "Design" then Some(Design)
    else if s == "HR" then Some(HR)
    else None
  }

  datatype Difficulty = Easy | Medium | Hard

  function DifficultyName(d: Difficulty): string {
    match d
    case Easy => "Easy"
    case Medium => "Medium"
    case Hard => "Hard"
  }

  /** The `enum` check on `difficulty`. */
  function ParseDifficulty(s: string): (r: Option<Difficulty>)
    ensures r.Some? ==> DifficultyName(r.value) == s
    ensures forall d :: DifficultyName(d) == s ==> r == Some(d)
  {
    if s == "Easy" then Some(Easy)
    else if s == "Medium" then Some(Medium)
    else if s == "Hard" then Some(Hard)
    else None
  }

  datatype Position = Intern | SDE1 | SDE2 | Senior | Lead

  function PositionName(p: Position): string {
    match p
    case Intern => "Intern"
    case SDE1 => "SDE1"
    case SDE2 => "SDE2"
    case Senior => "Senior"
    case Lead => "Lead"
  }

  /** The `enum` check on `position`. */
  function ParsePosition(s: string): (r: Option<Position>)
    ensures r.Some? ==> PositionName(r.value) == s
    ensures forall p :: PositionName(p) == s ==> r == Some(p)
  {
    if s == "Intern" then Some(Intern)
    else if s == "SDE1" then Some(SDE1)
    else if s == "SDE2" then Some(SDE2)
    else if s == "Senior" then Some(Senior)
    else if s == "Lead" then Some(Lead)
    else None
  }

  /** Every enumerated spelling is non-empty, hence truthy, and unpadded. */
  lemma NamesAreNonEmpty(t: Topic, k: RoundType, d: Difficulty, p: Position)
    ensures TopicName(t) != "" && RoundTypeName(k) != ""
    ensures DifficultyName(d) != "" && PositionName(p) != ""
    ensures Unpadded(PositionName(p))
  {
  }

  // ---------------------------------------------------------------------
  // Stored values
  // ---------------------------------------------------------------------

  /** A question as a stored record holds it; `recency` is a timestamp in
      milliseconds. */
  datatype Question = Question(
    text: string,
    topic: Topic,
    roundType: RoundType,
    difficulty: Difficulty,
    frequency: int,
    recency: int)

  datatype Interview = Interview(
    company: string,
    role: string,
    position: Position,
    experience: string,
    year: string,
    questions: seq<Question>)

  /** `questionSchema`: `text` is required (a required string must be
      non-empty) and `frequency` lies in [1, 5]; the enumerated fields are
      valid by their types. */
  predicate ValidQuestion(q: Question) {
    q.text != "" && 1 <= q.frequency <= 5
  }

  /** `interviewSchema`: the required strings are non-empty and every
      embedded question is valid. */
  predicate ValidInterview(iv: Interview) {
    && iv.company != "" && iv.role != "" && iv.experience != "" && iv.year != ""
    && forall i :: 0 <= i < |iv.questions| ==> ValidQuestion(iv.questions[i])
  }

  // ---------------------------------------------------------------------
  // Unvalidated documents and the schema's validation with defaults
  // ---------------------------------------------------------------------

  /** A question sub-document before validation: every field may be missing
      (None is `undefined`). */
  datatype DraftQuestion = DraftQuestion(
    text: Option<string>,
    topic: Option<string>,
    roundType: Option<string>,
    difficulty: Option<string>,
    frequency: Option<int>,
    recency: Option<int>)

  datatype DraftInterview = DraftInterview(
    company: Option<string>,
    role: Option<string>,
    position: Option<string>,
    experience: Option<string>,
    year: Option<string>,
    questions: seq<DraftQuestion>)

  /** The schema default of `frequency`. */
  const DefaultFrequency := 3

  /** `q` is what the question schema stores for `d` at time `now`: the
      strings are taken as given, an enumerated field names its value, and a
      missing `frequency` or `recency` takes its default (3, and `now`). */
  predicate StoresQuestion(q: Question, d: DraftQuestion, now: int) {
    && d.text == Some(q.text)
    && d.topic == Some(TopicName(q.topic))
    && d.roundType == Some(RoundTypeName(q.roundType))
    && d.difficulty == Some(DifficultyName(q.difficulty))
    && q.frequency == (if d.frequency.Some? then d.frequency.value else DefaultFrequency)
    && q.recency == (if d.recency.Some? then d.recency.value else now)
  }

  /** `iv` is what the interview schema stores for `d` at time `now`. */
  predicate StoresInterview(iv: Interview, d: DraftInterview, now: int) {
    && d.company == Some(iv.company)
    && d.role == Some(iv.role)
    && d.position == Some(PositionName(iv.position))
    && d.experience == Some(iv.experience)
    && d.year == Some(iv.year)
    && |d.questions| == |iv.questions|
    && forall i :: 0 <= i < |iv.questions| ==> StoresQuestion(iv.questions[i], d.questions[i], now)
  }

  /** A draft determines the stored question: the enumerations' spellings
      are distinct. */
  lemma StoresQuestionUnique(q1: Question, q2: Question, d: DraftQuestion, now: int)
    requires StoresQuestion(q1, d, now) && StoresQuestion(q2, d, now)
    ensures q1 == q2
  {
    assert ParseTopic(TopicName(q1.topic)) == Some(q2.topic);
    assert ParseRoundType(RoundTypeName(q1.roundType)) == Some(q2.roundType);
    assert ParseDifficulty(DifficultyName(q1.difficulty)) == Some(q2.difficulty);
  }

  /** Validation of one question sub-document: it succeeds exactly when some
      valid question is what the schema stores for `d`, and yields that
      question. A missing or empty `text`, a missing or unlisted enumerated
      value, or a `frequency` outside [1, 5] is rejected. */
  function CastQuestion(d: DraftQuestion, now: int): (r: Option<Question>)
    ensures r.Some? ==> ValidQuestion(r.value) && StoresQuestion(r.value, d, now)
    ensures forall q :: ValidQuestion(q) && StoresQuestion(q, d, now) ==> r == Some(q)
  {
    var frequency := if d.frequency.Some? then d.frequency.value else DefaultFrequency;
    var recency := if d.recency.Some? then d.recency.value else now;
    if !Truthy(d.text) || d.topic.None? || d.roundType.None? || d.difficulty.None? then None
    else
      match (ParseTopic(d.topic.value), ParseRoundType(d.roundType.value), ParseDifficulty(d.difficulty.value))
      case (Some(t), Some(k), Some(v)) =>
        if 1 <= frequency <= 5 then Some(Question(d.text.value, t, k, v, frequency, recency))
        else None
      case _ => None
  }

  /** Validation of the `questions` array: it succeeds exactly when every
      element validates, and then yields the validated elements in order. */
  function CastQuestions(ds: seq<DraftQuestion>, now: int): (r: Option<seq<Question>>)
    ensures r.Some? ==> |r.value| == |ds|
    ensures r.Some? ==> forall i :: 0 <= i < |ds| ==> CastQuestion(ds[i], now) == Some(r.value[i])
    ensures r.None? ==> exists i :: 0 <= i < |ds| && CastQuestion(ds[i], now).None?
    decreases |ds|
  {
    if ds == [] then Some([])
    else
      var head := CastQuestion(ds[0], now);
      var tail := CastQuestions(ds[1..], now);
      if head.None? then None
      else if tail.None? then
        var j :| 0 <= j < |ds[1..]| && CastQuestion(ds[1..][j], now).None?;
        assert ds[1..][j] == ds[j + 1];
        None
      else
        var r := [head.value] + tail.value;
        assert forall i :: 1 <= i < |ds| ==> ds[i] == ds[1..][i - 1] && r[i] == tail.value[i - 1];
        Some(r)
  }

  /** Validation of a whole interview document, as `save()` performs it: a
      value it yields is valid and is what the schema stores for `d`. */
  function CastInterview(d: DraftInterview, now: int): (r: Option<Interview>)
    ensures r.Some? ==> ValidInterview(r.value) && StoresInterview(r.value, d, now)
  {
    if !Truthy(d.company) || !Truthy(d.role) || d.position.None? || !Truthy(d.experience) || !Truthy(d.year) then None
    else
      match (ParsePosition(d.position.value), CastQuestions(d.questions, now))
      case (Some(p), Some(qs)) =>
        Some(Interview(d.company.value, d.role.value, p, d.experience.value, d.year.value, qs))
      case _ => None
  }

  /** Conversely, validation rejects nothing it should store: whenever a
      valid interview is what the schema stores for `d`, validation yields it. */
  lemma CastInterviewComplete(d: DraftInterview, now: int, iv: Interview)
    requires ValidInterview(iv) && StoresInterview(iv, d, now)
    ensures CastInterview(d, now) == Some(iv)
  {
    assert ParsePosition(PositionName(iv.position)) == Some(iv.position);
    forall i | 0 <= i < |d.questions|
      ensures CastQuestion(d.questions[i], now) == Some(iv.questions[i])
    {
      assert ValidQuestion(iv.questions[i]) && StoresQuestion(iv.questions[i], d.questions[i], now);
    }
    var qs := CastQuestions(d.questions, now);
    assert qs.Some?;
    assert qs.value == iv.questions;
  }
}
