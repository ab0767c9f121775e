/** The POST /api/interview handler of index.js: the up-front check that
    every question carries its four required fields, the defaulting of
    `frequency` and `recency`, and the schema validation `save()` runs. */
module CreateHandler {
  import opened Results
  import opened Text
  import opened InterviewModel

  /** One question of the request body, as JSON gives it: any field may be
      missing. `recency` is a timestamp in milliseconds. */
  datatype RawQuestion = RawQuestion(
    text: Option<string>,
    topic: Option<string>,
    roundType: Option<string>,
    difficulty: Option<string>,
    frequency: Option<int>,
    recency: Option<int>)

  /** The request body. */
  datatype Payload = Payload(
    company: Option<string>,
    role: Option<string>,
    position: Option<string>,
    experience: Option<string>,
    year: Option<string>,
    questions: Option<seq<RawQuestion>>)

  datatype CreateError =
    | QuestionFieldsMissing   // the 400 answer of the up-front check
    | SchemaRejected          // `save()` refused the document (its validation error)

  function CreateErrorMessage(e: CreateError): string {
    match e
    case QuestionFieldsMissing => "Each question must have text, topic, roundType, and difficulty"
    case SchemaRejected => "Failed to save data"
  }

  /** The four required question fields (text, topic, roundType and
      difficulty) are present and non-empty. */
  predicate HasRequiredFields(q: RawQuestion) {
    Truthy(q.text) && Truthy(q.topic) && Truthy(q.roundType) && Truthy(q.difficulty)
  }

  /** The up-front check: a question list is present and every question has
      its four required fields (vacuously so for an empty list). */
  predicate ShapeAccepted(p: Payload) {
    p.questions.Some? && forall i :: 0 <= i < |p.questions.value| ==> HasRequiredFields(p.questions.value[i])
  }

  /** `q.frequency || 3`: a missing or zero frequency becomes 3. */
  function FrequencyOrDefault(f: Option<int>): (r: int)
    ensures r != 0
    ensures f.Some? && f.value != 0 ==> r == f.value
    ensures !(f.Some? && f.value != 0) ==> r == DefaultFrequency
  {
    if f.Some? && f.value != 0 then f.value else 3
  }

  /** `q.recency || new Date()`: a missing or zero timestamp becomes `now`. */
  function RecencyOrNow(t: Option<int>, now: int): (r: int)
    ensures now != 0 ==> r != 0
    ensures t.Some? && t.value != 0 ==> r == t.value
    ensures !(t.Some? && t.value != 0) ==> r == now
  {
    if t.Some? && t.value != 0 then t.value else now
  }

  /** The object literal built for one question by the handler's `map`. */
  function DraftOf(q: RawQuestion, now: int): DraftQuestion {
    DraftQuestion(q.text, q.topic, q.roundType, q.difficulty,
                  Some(FrequencyOrDefault(q.frequency)), Some(RecencyOrNow(q.recency, now)))
  }

  /** The document handed to `new Interview(...)`. */
  function DraftInterviewOf(p: Payload, qs: seq<RawQuestion>, now: int): DraftInterview {
    DraftInterview(p.company, p.role, p.position, p.experience, p.year,
                   seq(|qs|, i requires 0 <= i < |qs| => DraftOf(qs[i], now)))
  }

  /** The stored question `q` answers the submitted question `raw` at time
      `now`: text and the enumerated fields are copied unchanged, `frequency`
      is kept when truthy and is 3 otherwise, `recency` is kept when truthy
      and is `now` otherwise. */
  predicate DescribesQuestion(q: Question, raw: RawQuestion, now: int) {
    && raw.text == Some(q.text)
    && raw.topic == Some(TopicName(q.topic))
    && raw.roundType == Some(RoundTypeName(q.roundType))
    && raw.difficulty == Some(DifficultyName(q.difficulty))
    && q.frequency == FrequencyOrDefault(raw.frequency)
    && q.recency == RecencyOrNow(raw.recency, now)
  }

  /** The stored interview `iv` answers payload `p` at time `now`: the
      top-level fields are copied, and the question list has the submitted
      list's length and order, question by question. */
  predicate Describes(iv: Interview, p: Payload, now: int) {
    && p.company == Some(iv.company)
    && p.role == Some(iv.role)
    && p.position == Some(PositionName(iv.position))
    && p.experience == Some(iv.experience)
    && p.year == Some(iv.year)
    && p.questions.Some?
    && |p.questions.value| == |iv.questions|
    && forall i :: 0 <= i < |iv.questions| ==> DescribesQuestion(iv.questions[i], p.questions.value[i], now)
  }

  /** Describing the payload is being what the schema stores for the
      handler's document. */
  lemma DescribesIffStores(iv: Interview, p: Payload, now: int)
    requires p.questions.Some?
    ensures Describes(iv, p, now) <==> StoresInterview(iv, DraftInterviewOf(p, p.questions.value, now), now)
  {
  }

  /** The whole handler on a payload received at time `now`. The up-front check
      fails exactly when the list is missing or some question lacks a required
      field; otherwise a created record is valid and answers the payload. */
  function Create(p: Payload, now: int): (r: Result<Interview, CreateError>)
    ensures r == Failure(QuestionFieldsMissing) <==> !ShapeAccepted(p)
    ensures r.Success? ==> ValidInterview(r.value) && Describes(r.value, p, now)
  {
    if p.questions.None? || !(forall i :: 0 <= i < |p.questions.value| ==> HasRequiredFields(p.questions.value[i])) then
      Failure(QuestionFieldsMissing)
    else
      var d := DraftInterviewOf(p, p.questions.value, now);
      match CastInterview(d, now)
      case Some(iv) =>
        DescribesIffStores(iv, p, now);
        Success(iv)
      case None => Failure(SchemaRejected)
  }

  /** Create refuses nothing it should store: whenever a valid interview
      answers the payload, Create yields exactly that interview. Together
      with Create's contract: Create succeeds if and only if some valid
      interview answers the payload. */
  lemma CreateComplete(p: Payload, now: int, iv: Interview)
    requires ValidInterview(iv) && Describes(iv, p, now)
    ensures Create(p, now) == Success(iv)
  {
    var qs := p.questions.value;
    forall i | 0 <= i < |qs|
      ensures HasRequiredFields(qs[i])
    {
      assert DescribesQuestion(iv.questions[i], qs[i], now);
      assert ValidQuestion(iv.questions[i]);
      NamesAreNonEmpty(iv.questions[i].topic, iv.questions[i].roundType, iv.questions[i].difficulty, iv.position);
    }
    DescribesIffStores(iv, p, now);
    CastInterviewComplete(DraftInterviewOf(p, qs, now), now, iv);
  }

  /** Create succeeds exactly when some valid interview answers the payload,
      and the schema never rejects a payload it could store. */
  lemma CreateSucceedsExactly(p: Payload, now: int)
    ensures Create(p, now).Success? <==> exists iv :: ValidInterview(iv) && Describes(iv, p, now)
  {
    if Create(p, now).Success? {
      var iv := Create(p, now).value;
      assert ValidInterview(iv) && Describes(iv, p, now);
    } else if exists iv :: ValidInterview(iv) && Describes(iv, p, now) {
      var iv :| ValidInterview(iv) && Describes(iv, p, now);
      CreateComplete(p, now, iv);
      assert false;
    }
  }

  /** A frequency of 0 is falsy and becomes the default 3, like a missing
      one; any other frequency is kept, and the schema then rejects it when
      it lies outside [1, 5]. */
  lemma FrequencyDefaulting(p: Payload, now: int, i: nat)
    requires ShapeAccepted(p) && i < |p.questions.value|
    requires Create(p, now).Success?
    ensures var f := p.questions.value[i].frequency;
            Create(p, now).value.questions[i].frequency == (if f == None || f == Some(0) then 3 else f.value)
    ensures p.questions.value[i].frequency.Some? && p.questions.value[i].frequency.value != 0 ==>
              1 <= p.questions.value[i].frequency.value <= 5
  {
    var iv := Create(p, now).value;
    assert DescribesQuestion(iv.questions[i], p.questions.value[i], now);
    assert ValidQuestion(iv.questions[i]);
  }

  /** A submitted question whose frequency is truthy and outside [1, 5]
      makes the whole submission fail, after the up-front check has passed. */
  lemma OutOfRangeFrequencyRejected(p: Payload, now: int, i: nat)
    requires ShapeAccepted(p) && i < |p.questions.value|
    requires var f := p.questions.value[i].frequency; f.Some? && f.value != 0 && !(1 <= f.value <= 5)
    ensures Create(p, now) == Failure(SchemaRejected)
  {
    if Create(p, now).Success? {
      FrequencyDefaulting(p, now, i);
    }
  }

  /** An empty question list passes the up-front check: `every` over an
      empty array holds. With valid top-level fields the record is created
      with no questions. */
  lemma EmptyQuestionListAccepted(p: Payload, now: int)
    requires p.questions == Some([])
    ensures Create(p, now) != Failure(QuestionFieldsMissing)
    ensures Truthy(p.company) && Truthy(p.role) && Truthy(p.experience) && Truthy(p.year)
            && p.position.Some? && ParsePosition(p.position.value).Some? ==>
              Create(p, now).Success? && Create(p, now).value.questions == []
  {
    if Truthy(p.company) && Truthy(p.role) && Truthy(p.experience) && Truthy(p.year)
       && p.position.Some? && ParsePosition(p.position.value).Some? {
      var iv := Interview(p.company.value, p.role.value, ParsePosition(p.position.value).value,
                          p.experience.value, p.year.value, []);
      CreateComplete(p, now, iv);
    }
  }

  /** The payload a client would send for a stored interview. */
  function PayloadOf(iv: Interview): Payload {
    Payload(Some(iv.company), Some(iv.role), Some(PositionName(iv.position)),
            Some(iv.experience), Some(iv.year),
            Some(seq(|iv.questions|, i requires 0 <= i < |iv.questions| =>
              var q := iv.questions[i];
              RawQuestion(Some(q.text), Some(TopicName(q.topic)), Some(RoundTypeName(q.roundType)),
                          Some(DifficultyName(q.difficulty)), Some(q.frequency), Some(q.recency)))))
  }

  /** Re-submitting a valid interview creates it unchanged, provided no
      question has the falsy timestamp 0 (which would be replaced by `now`). */
  lemma CreateRoundTrip(iv: Interview, now: int)
    requires ValidInterview(iv)
    requires forall i :: 0 <= i < |iv.questions| ==> iv.questions[i].recency != 0
    ensures Create(PayloadOf(iv), now) == Success(iv)
  {
    var p := PayloadOf(iv);
    forall i | 0 <= i < |iv.questions|
      ensures DescribesQuestion(iv.questions[i], p.questions.value[i], now)
    {
      assert ValidQuestion(iv.questions[i]);
    }
    CreateComplete(p, now, iv);
  }
}
