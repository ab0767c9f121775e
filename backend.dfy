/** The two handlers over one store: a create appends the new record to the
    store or leaves it untouched, and later searches see what was stored,
    with worked examples. */
module Backend {
  import opened Results
  import opened Text
  import opened InterviewModel
  import opened CreateHandler
  import opened SearchHandler

  datatype StoreReply = StoreReply(store: seq<Interview>, result: Result<Interview, CreateError>)

  /** `new Interview(...)` followed by `save()`: the reply is the create
      handler's answer; a created record is appended after the existing ones,
      and a rejected submission stores nothing. */
  function CreateAndStore(store: seq<Interview>, p: Payload, now: int): (r: StoreReply)
    ensures r.result == Create(p, now)
    ensures r.result.Failure? ==> r.store == store
    ensures r.result.Success? ==> r.store == store + [r.result.value] && ValidInterview(r.result.value)
  {
    var result := Create(p, now);
    StoreReply(if result.Success? then store + [result.value] else store, result)
  }

  /** Adding a record that the query does not match changes no answer. */
  lemma AddingUnmatchedRecordChangesNothing(store: seq<Interview>, iv: Interview, c: Criteria)
    requires HasIdentity(c) ==> !Matches(iv, KeyOf(c))
    ensures SearchOutcome(store + [iv], c) == SearchOutcome(store, c)
  {
    UnmatchedRecordIsNotSelected(store, iv, c);
    SearchDependsOnlyOnMatches(store + [iv], store, c);
  }

  lemma UnmatchedRecordIsNotSelected(store: seq<Interview>, iv: Interview, c: Criteria)
    requires HasIdentity(c) ==> !Matches(iv, KeyOf(c))
    ensures HasIdentity(c) ==> FindMatching(store + [iv], KeyOf(c)) == FindMatching(store, KeyOf(c))
  {
    if HasIdentity(c) {
      FindMatchingAppend(store, [iv], KeyOf(c));
      assert [iv][1..] == [];
      assert FindMatching(store + [iv], KeyOf(c)) == FindMatching(store, KeyOf(c)) + [];
    }
  }

  /** Adding a record that the query matches appends the record's selected
      questions to the answer. */
  lemma AddingMatchedRecordAppends(store: seq<Interview>, iv: Interview, c: Criteria)
    requires HasIdentity(c) && Matches(iv, KeyOf(c))
    ensures QuestionsOf(SearchOutcome(store + [iv], c))
              == QuestionsOf(SearchOutcome(store, c)) + Selected(iv.questions, c.topic, c.difficulty)
  {
    SearchFollowsStoreOrder(store, [iv], c);
    SingleMatchedRecord(iv, c);
  }

  lemma SingleMatchedRecord(iv: Interview, c: Criteria)
    requires HasIdentity(c) && Matches(iv, KeyOf(c))
    ensures QuestionsOf(SearchOutcome([iv], c)) == Selected(iv.questions, c.topic, c.difficulty)
  {
    assert [iv][1..] == [];
    assert FindMatching([iv], KeyOf(c)) == [iv];
    assert Aggregated([iv], c.topic, c.difficulty) == Selected(iv.questions, c.topic, c.difficulty) + [];
  }

  /** A record just created is found again by every unfiltered query that
      matches it (OwnIdentityMatches: its own unpadded identity fields form
      one): the search then succeeds and returns the earlier answer's
      questions followed by all the new record's questions. */
  lemma CreatedRecordIsFound(store: seq<Interview>, p: Payload, now: int, iv: Interview, c: Criteria)
    requires Create(p, now) == Success(iv) && iv.questions != []
    requires HasIdentity(c) && Matches(iv, KeyOf(c)) && !Truthy(c.topic) && !Truthy(c.difficulty)
    ensures var r := SearchOutcome(CreateAndStore(store, p, now).store, c);
            r.Success? && r.value.questions == QuestionsOf(SearchOutcome(store, c)) + iv.questions
  {
    assert CreateAndStore(store, p, now).store == store + [iv];
    UnfilteredMatchedRecordFound(store, iv, c);
  }

  /** `find` promises no order, so `after` is the saved store in any order
      the database returns it. Taken as a set, a search then returns the
      earlier answer's questions together with the new record's passing
      questions when the record matches, and nothing else. */
  lemma CreatedRecordFoundInAnyOrder(store: seq<Interview>, p: Payload, now: int, iv: Interview,
                                     after: seq<Interview>, c: Criteria, q: Question)
    requires Create(p, now) == Success(iv)
    requires forall x :: x in after <==> x in CreateAndStore(store, p, now).store
    requires HasIdentity(c)
    ensures q in QuestionsOf(SearchOutcome(after, c)) <==>
              || q in QuestionsOf(SearchOutcome(store, c))
              || (Matches(iv, KeyOf(c)) && q in iv.questions && PassesFilters(q, c.topic, c.difficulty))
  {
    assert CreateAndStore(store, p, now).store == store + [iv];
    SearchQuestionsMembers(store, c, q);
    SearchQuestionsMembers(after, c, q);
  }

  /** The unfiltered query made of a record's own identity fields. */
  function OwnIdentity(iv: Interview): Criteria {
    Criteria(Some(iv.company), Some(iv.role), Some(PositionName(iv.position)), Some(iv.year), None, None)
  }

  /** A valid record whose company, role and year are unpadded is matched
      by the query made of its own identity fields. */
  lemma OwnIdentityMatches(iv: Interview)
    requires ValidInterview(iv)
    requires Unpadded(iv.company) && Unpadded(iv.role) && Unpadded(iv.year)
    ensures HasIdentity(OwnIdentity(iv)) && Matches(iv, KeyOf(OwnIdentity(iv)))
  {
    NamesAreNonEmpty(Arrays, OA, Easy, iv.position);
    assert HasIdentity(OwnIdentity(iv));
    assert Trim(iv.company) == iv.company && Trim(iv.role) == iv.role && Trim(iv.year) == iv.year;
    assert Trim(PositionName(iv.position)) == PositionName(iv.position);
    assert KeyOf(OwnIdentity(iv)) == Key(iv.company, iv.role, PositionName(iv.position), iv.year);
  }

  /** An unfiltered query that matches a new record with questions succeeds
      and returns the record's questions after the earlier answer's. */
  lemma UnfilteredMatchedRecordFound(store: seq<Interview>, iv: Interview, c: Criteria)
    requires HasIdentity(c) && Matches(iv, KeyOf(c)) && !Truthy(c.topic) && !Truthy(c.difficulty)
    requires iv.questions != []
    ensures var r := SearchOutcome(store + [iv], c);
            r.Success? && r.value.questions == QuestionsOf(SearchOutcome(store, c)) + iv.questions
  {
    AddingMatchedRecordAppends(store, iv, c);
    SelectedUnfiltered(iv.questions, c.topic, c.difficulty);
  }

  /** The handler stores `company`, `role` and `year` as submitted but trims
      only the search parameters: a record whose value begins or ends with
      whitespace changes no search answer at all. */
  lemma PaddedRecordIsNeverFound(store: seq<Interview>, p: Payload, now: int, iv: Interview, c: Criteria)
    requires Create(p, now) == Success(iv)
    requires !Unpadded(p.company.value) || !Unpadded(p.role.value) || !Unpadded(p.year.value)
    ensures SearchOutcome(CreateAndStore(store, p, now).store, c) == SearchOutcome(store, c)
  {
    assert Describes(iv, p, now);
    assert CreateAndStore(store, p, now).store == store + [iv];
    if HasIdentity(c) {
      PaddedRecordNeverMatches(iv, c);
    }
    AddingUnmatchedRecordChangesNothing(store, iv, c);
  }

  // ---------------------------------------------------------------------
  // Worked examples
  // ---------------------------------------------------------------------

  /** The three spellings fold to one; kept apart so that the literal
      unfolding does not enter the proofs that use it. */
  lemma LowerExample()
    ensures Lower("Google") == Lower("GOOGLE") == Lower("google") == "google"
  {
  }

  /** A stored company "Google" is found by " google ", "GOOGLE" and
      "Google" (GoogleFoundDespiteCase), and not by "Goo" or "Google2". */
  lemma GoogleFoundDespitePadding()
    ensures EqualsIgnoreCase("Google", Trim(" google "))
  {
    var s := " " + "google" + " ";
    assert s == " google ";
    TrimRemovesPadding(" ", "google", " ");
    LowerExample();
  }

  lemma GoogleFoundDespiteCase()
    ensures EqualsIgnoreCase("Google", Trim("GOOGLE"))
    ensures EqualsIgnoreCase("Google", Trim("Google"))
  {
    assert Unpadded("GOOGLE") && Unpadded("Google");
    LowerExample();
  }

  lemma GoogleNotFoundByOtherLengths()
    ensures !EqualsIgnoreCase("Google", Trim("Goo"))
    ensures !EqualsIgnoreCase("Google", Trim("Google2"))
  {
    assert Unpadded("Goo") && Unpadded("Google2");
    assert |Lower("Google")| == 6 && |Lower("Goo")| == 3 && |Lower("Google2")| == 7;
  }

  // The Meta example: one interview with an easy Arrays question and a hard
  // System Design question, submitted without frequency or recency.

  function MetaPayload(): Payload {
    Payload(Some("Meta"), Some("SWE"), Some("SDE1"), Some("2y"), Some("2024"),
      Some([RawQuestion(Some("Reverse a list"), Some("Arrays"), Some("Technical"), Some("Easy"), None, None),
            RawQuestion(Some("Design a cache"), Some("System Design"), Some("Design"), Some("Hard"), None, None)]))
  }

  function MetaRecord(now: int): Interview {
    Interview("Meta", "SWE", SDE1, "2y", "2024",
      [Question("Reverse a list", Arrays, Technical, Easy, 3, now),
       Question("Design a cache", SystemDesign, Design, Hard, 3, now)])
  }

  function MetaQuery(difficulty: string): Criteria {
    Criteria(Some("meta"), Some("swe"), Some("sde1"), Some("2024"), None, Some(difficulty))
  }

  /** Creating the Meta payload stores it with frequency 3 and recency `now`. */
  lemma MetaCreated(now: int)
    ensures CreateAndStore([], MetaPayload(), now) == StoreReply([MetaRecord(now)], Success(MetaRecord(now)))
  {
    var p, iv := MetaPayload(), MetaRecord(now);
    assert DescribesQuestion(iv.questions[0], p.questions.value[0], now);
    assert DescribesQuestion(iv.questions[1], p.questions.value[1], now);
    CreateComplete(p, now, iv);
  }

  lemma MetaMatches(now: int, difficulty: string)
    ensures HasIdentity(MetaQuery(difficulty)) && Matches(MetaRecord(now), KeyOf(MetaQuery(difficulty)))
  {
    MetaKey(difficulty);
    MetaRecordMatchesKey(now);
  }

  lemma MetaRecordMatchesKey(now: int)
    ensures Matches(MetaRecord(now), Key("meta", "swe", "sde1", "2024"))
  {
    MetaLower();
  }

  lemma MetaKey(difficulty: string)
    ensures HasIdentity(MetaQuery(difficulty))
    ensures KeyOf(MetaQuery(difficulty)) == Key("meta", "swe", "sde1", "2024")
  {
    assert Unpadded("meta") && Unpadded("swe") && Unpadded("sde1") && Unpadded("2024");
  }

  lemma MetaLower()
    ensures Lower("Meta") == "meta" == Lower("meta")
    ensures Lower("SWE") == "swe" == Lower("swe")
    ensures Lower("SDE1") == "sde1" == Lower("sde1")
  {
  }

  lemma MetaSelected(now: int)
    ensures Selected(MetaRecord(now).questions, None, Some("Easy")) == [MetaRecord(now).questions[0]]
    ensures Selected(MetaRecord(now).questions, None, Some("Medium")) == []
  {
    var qs := MetaRecord(now).questions;
    assert qs[1..][1..] == [];
  }

  /** Searching "meta"/"swe"/"sde1"/"2024" for difficulty "Easy" answers one
      record and one question, the Arrays one with its defaults; filtering
      for "Medium" finds the record but no question. */
  lemma MetaExample(now: int)
    ensures var store := CreateAndStore([], MetaPayload(), now).store;
            && SearchOutcome(store, MetaQuery("Easy"))
                 == Success(Summary(1, 1, [Question("Reverse a list", Arrays, Technical, Easy, 3, now)]))
            && SearchOutcome(store, MetaQuery("Medium")) == Failure(NoQuestionsForFilters)
  {
    MetaCreated(now);
    MetaEasy(now);
    MetaMedium(now);
  }

  lemma MetaFound(now: int, difficulty: string)
    ensures FindMatching([MetaRecord(now)], KeyOf(MetaQuery(difficulty))) == [MetaRecord(now)]
  {
    var iv := MetaRecord(now);
    MetaMatches(now, difficulty);
    assert [iv][1..] == [];
  }

  lemma MetaEasy(now: int)
    ensures SearchOutcome([MetaRecord(now)], MetaQuery("Easy"))
              == Success(Summary(1, 1, [Question("Reverse a list", Arrays, Technical, Easy, 3, now)]))
  {
    var iv, c := MetaRecord(now), MetaQuery("Easy");
    MetaFound(now, "Easy");
    MetaKey("Easy");
    SearchOutcomeIsSearchWithin([iv], c);
    MetaAggregated(now);
  }

  lemma MetaMedium(now: int)
    ensures SearchOutcome([MetaRecord(now)], MetaQuery("Medium")) == Failure(NoQuestionsForFilters)
  {
    var iv, c := MetaRecord(now), MetaQuery("Medium");
    MetaFound(now, "Medium");
    MetaKey("Medium");
    SearchOutcomeIsSearchWithin([iv], c);
    MetaAggregated(now);
  }

  lemma MetaAggregated(now: int)
    ensures Aggregated([MetaRecord(now)], None, Some("Easy")) == [MetaRecord(now).questions[0]]
    ensures Aggregated([MetaRecord(now)], None, Some("Medium")) == []
  {
    var iv := MetaRecord(now);
    MetaSelected(now);
    assert [iv][1..] == [];
    assert Aggregated([iv], None, Some("Easy")) == [iv.questions[0]] + [];
    assert Aggregated([iv], None, Some("Medium")) == [] + [];
  }
}
