/** The GET /api/interview/search handler of index.js: the required identity
    parameters, the anchored case-insensitive query over the store, and the
    aggregation of the matching records' questions under the optional topic
    and difficulty filters. The store is the sequence of records in the
    order the store returns them. */
module SearchHandler {
  import opened Results
  import opened Text
  import opened InterviewModel

  /** The query string; every parameter may be missing. */
  datatype Criteria = Criteria(
    company: Option<string>,
    role: Option<string>,
    position: Option<string>,
    year: Option<string>,
    topic: Option<string>,
    difficulty: Option<string>)

  datatype SearchError =
    | MissingParameters       // 400
    | NoMatchingData          // 404: no record matches the identity fields
    | NoQuestionsForFilters   // 404: records match, no question survives the filters

  function SearchErrorMessage(e: SearchError): string {
    match e
    case MissingParameters => "All parameters (company, role, position, year) are required."
    case NoMatchingData => "No matching data found."
    case NoQuestionsForFilters => "No questions found for the given filters."
  }

  /** The body of a successful answer. */
  datatype Summary = Summary(totalResults: nat, totalQuestions: nat, questions: seq<Question>)

  /** The four identity parameters (company, role, position and year) are
      present and non-empty. */
  predicate HasIdentity(c: Criteria) {
    Truthy(c.company) && Truthy(c.role) && Truthy(c.position) && Truthy(c.year)
  }

  /** The trimmed identity values the four anchored patterns are built from. */
  datatype Key = Key(company: string, role: string, position: string, year: string)

  function KeyOf(c: Criteria): Key
    requires HasIdentity(c)
  {
    Key(Trim(c.company.value), Trim(c.role.value), Trim(c.position.value), Trim(c.year.value))
  }

  /** The four patterns `^value$` with flag `i`, each tested against the
      stored field. */
  predicate Matches(iv: Interview, k: Key) {
    && EqualsIgnoreCase(iv.company, k.company)
    && EqualsIgnoreCase(iv.role, k.role)
    && EqualsIgnoreCase(PositionName(iv.position), k.position)
    && EqualsIgnoreCase(iv.year, k.year)
  }

  /** `Interview.find(query)`: the matching records, in store order. */
  function FindMatching(store: seq<Interview>, k: Key): (r: seq<Interview>)
    ensures |r| <= |store|
    ensures forall iv :: iv in r <==> iv in store && Matches(iv, k)
    decreases |store|
  {
    if store == [] then []
    else (if Matches(store[0], k) then [store[0]] else []) + FindMatching(store[1..], k)
  }

  /** The query respects store order: querying a concatenation is
      concatenating the queries. */
  lemma {:induction false} FindMatchingAppend(a: seq<Interview>, b: seq<Interview>, k: Key)
    ensures FindMatching(a + b, k) == FindMatching(a, k) + FindMatching(b, k)
    decreases |a|
  {
    if a == [] {
      assert a + b == b;
    } else {
      assert (a + b)[1..] == a[1..] + b;
      FindMatchingAppend(a[1..], b, k);
    }
  }

  /** Two keys that every record matches alike select the same records. */
  lemma {:induction false} FindMatchingSameKeys(store: seq<Interview>, k1: Key, k2: Key)
    requires forall iv :: Matches(iv, k1) == Matches(iv, k2)
    ensures FindMatching(store, k1) == FindMatching(store, k2)
    decreases |store|
  {
    if store != [] {
      FindMatchingSameKeys(store[1..], k1, k2);
    }
  }

  // ---------------------------------------------------------------------
  // Filters
  // ---------------------------------------------------------------------

  /** The question's topic is spelled exactly `topic`, case included; decided
      on the parsed value (HasTopicSpelling). */
  predicate HasTopic(q: Question, topic: string) {
    ParseTopic(topic) == Some(q.topic)
  }

  /** The question's difficulty is spelled exactly `difficulty`, case
      included. */
  predicate HasDifficulty(q: Question, difficulty: string) {
    ParseDifficulty(difficulty) == Some(q.difficulty)
  }

  /** The comparisons are exact, case-sensitive string equality with the
      stored spelling. */
  lemma HasTopicSpelling(q: Question, topic: string, difficulty: string)
    ensures HasTopic(q, topic) <==> TopicName(q.topic) == topic
    ensures HasDifficulty(q, difficulty) <==> DifficultyName(q.difficulty) == difficulty
  {
  }

  /** The questions whose topic is spelled exactly `topic`, in their order. */
  function KeepTopic(qs: seq<Question>, topic: string): (r: seq<Question>)
    ensures |r| <= |qs|
    ensures forall q :: q in r <==> q in qs && HasTopic(q, topic)
    decreases |qs|
  {
    if qs == [] then []
    else (if HasTopic(qs[0], topic) then [qs[0]] else []) + KeepTopic(qs[1..], topic)
  }

  /** The questions whose difficulty is spelled exactly `difficulty`, in
      their order. */
  function KeepDifficulty(qs: seq<Question>, difficulty: string): (r: seq<Question>)
    ensures |r| <= |qs|
    ensures forall q :: q in r <==> q in qs && HasDifficulty(q, difficulty)
    decreases |qs|
  {
    if qs == [] then []
    else (if HasDifficulty(qs[0], difficulty) then [qs[0]] else []) + KeepDifficulty(qs[1..], difficulty)
  }

  /** A question passes both optional filters: an absent or empty filter
      admits everything, a present one demands exact, case-sensitive equality. */
  predicate PassesFilters(q: Question, topic: Option<string>, difficulty: Option<string>) {
    && (!Truthy(topic) || HasTopic(q, topic.value))
    && (!Truthy(difficulty) || HasDifficulty(q, difficulty.value))
  }

  /** The questions of one record that pass both filters, in record order. */
  function Selected(qs: seq<Question>, topic: Option<string>, difficulty: Option<string>): (r: seq<Question>)
    ensures |r| <= |qs|
    decreases |qs|
  {
    if qs == [] then []
    else (if PassesFilters(qs[0], topic, difficulty) then [qs[0]] else []) + Selected(qs[1..], topic, difficulty)
  }

  /** A question is selected exactly when it is one of the record's and
      passes both filters. */
  lemma {:induction false} SelectedMembers(qs: seq<Question>, topic: Option<string>, difficulty: Option<string>, q: Question)
    ensures q in Selected(qs, topic, difficulty) <==> q in qs && PassesFilters(q, topic, difficulty)
    decreases |qs|
  {
    if qs != [] {
      SelectedMembers(qs[1..], topic, difficulty, q);
      assert qs == [qs[0]] + qs[1..];
    }
  }

  /** The handler's two conditional filters, applied one after the other,
      keep exactly the questions passing their conjunction, in order. */
  lemma SequentialFiltersAreConjunction(qs: seq<Question>, topic: Option<string>, difficulty: Option<string>)
    ensures var afterTopic := if Truthy(topic) then KeepTopic(qs, topic.value) else qs;
            (if Truthy(difficulty) then KeepDifficulty(afterTopic, difficulty.value) else afterTopic)
              == Selected(qs, topic, difficulty)
  {
    if Truthy(topic) && Truthy(difficulty) {
      SelectedByBoth(qs, topic, difficulty);
    } else if Truthy(topic) {
      SelectedByTopic(qs, topic, difficulty);
    } else if Truthy(difficulty) {
      SelectedByDifficulty(qs, topic, difficulty);
    } else {
      SelectedUnfiltered(qs, topic, difficulty);
    }
  }

  /** Without a truthy filter every question is selected. */
  lemma {:induction false} SelectedUnfiltered(qs: seq<Question>, topic: Option<string>, difficulty: Option<string>)
    requires !Truthy(topic) && !Truthy(difficulty)
    ensures Selected(qs, topic, difficulty) == qs
    decreases |qs|
  {
    if qs != [] {
      SelectedUnfiltered(qs[1..], topic, difficulty);
      assert qs == [qs[0]] + qs[1..];
    }
  }

  lemma {:induction false} SelectedByTopic(qs: seq<Question>, topic: Option<string>, difficulty: Option<string>)
    requires Truthy(topic) && !Truthy(difficulty)
    ensures Selected(qs, topic, difficulty) == KeepTopic(qs, topic.value)
    decreases |qs|
  {
    if qs != [] {
      SelectedByTopic(qs[1..], topic, difficulty);
    }
  }

  lemma {:induction false} SelectedByDifficulty(qs: seq<Question>, topic: Option<string>, difficulty: Option<string>)
    requires !Truthy(topic) && Truthy(difficulty)
    ensures Selected(qs, topic, difficulty) == KeepDifficulty(qs, difficulty.value)
    decreases |qs|
  {
    if qs != [] {
      SelectedByDifficulty(qs[1..], topic, difficulty);
    }
  }

  lemma {:induction false} SelectedByBoth(qs: seq<Question>, topic: Option<string>, difficulty: Option<string>)
    requires Truthy(topic) && Truthy(difficulty)
    ensures Selected(qs, topic, difficulty) == KeepDifficulty(KeepTopic(qs, topic.value), difficulty.value)
    decreases |qs|
  {
    if qs != [] {
      var q, t, d := qs[0], topic.value, difficulty.value;
      SelectedByBoth(qs[1..], topic, difficulty);
      var head := if HasTopic(q, t) then [q] else [];
      var rest := KeepTopic(qs[1..], t);
      assert KeepTopic(qs, t) == head + rest;
      KeepDifficultyAppend(head, rest, d);
      assert KeepDifficulty(head, d) == if PassesFilters(q, topic, difficulty) then [q] else [];
    }
  }

  lemma {:induction false} KeepDifficultyAppend(a: seq<Question>, b: seq<Question>, difficulty: string)
    ensures KeepDifficulty(a + b, difficulty) == KeepDifficulty(a, difficulty) + KeepDifficulty(b, difficulty)
    decreases |a|
  {
    if a == [] {
      assert a + b == b;
    } else {
      assert (a + b)[1..] == a[1..] + b;
      KeepDifficultyAppend(a[1..], b, difficulty);
    }
  }

  /** The two filters are independent: their order does not matter. */
  lemma {:induction false} FiltersCommute(qs: seq<Question>, topic: string, difficulty: string)
    ensures KeepDifficulty(KeepTopic(qs, topic), difficulty) == KeepTopic(KeepDifficulty(qs, difficulty), topic)
    decreases |qs|
  {
    if qs != [] {
      var q := qs[0];
      FiltersCommute(qs[1..], topic, difficulty);
      var byTopic := if HasTopic(q, topic) then [q] else [];
      var byDifficulty := if HasDifficulty(q, difficulty) then [q] else [];
      assert KeepTopic(qs, topic) == byTopic + KeepTopic(qs[1..], topic);
      assert KeepDifficulty(qs, difficulty) == byDifficulty + KeepDifficulty(qs[1..], difficulty);
      KeepDifficultyAppend(byTopic, KeepTopic(qs[1..], topic), difficulty);
      KeepTopicAppend(byDifficulty, KeepDifficulty(qs[1..], difficulty), topic);
      assert [q][1..] == [];
      assert KeepDifficulty(byTopic, difficulty) == KeepTopic(byDifficulty, topic);
    }
  }

  lemma {:induction false} KeepTopicAppend(a: seq<Question>, b: seq<Question>, topic: string)
    ensures KeepTopic(a + b, topic) == KeepTopic(a, topic) + KeepTopic(b, topic)
    decreases |a|
  {
    if a == [] {
      assert a + b == b;
    } else {
      assert (a + b)[1..] == a[1..] + b;
      KeepTopicAppend(a[1..], b, topic);
    }
  }

  // ---------------------------------------------------------------------
  // Aggregation
  // ---------------------------------------------------------------------

  /** The records' selected questions, concatenated in record order. */
  function Aggregated(ivs: seq<Interview>, topic: Option<string>, difficulty: Option<string>): seq<Question>
    decreases |ivs|
  {
    if ivs == [] then []
    else Selected(ivs[0].questions, topic, difficulty) + Aggregated(ivs[1..], topic, difficulty)
  }

  /** Aggregation preserves record order: for records [I1, I2] the result is
      I1's selected questions followed by I2's. */
  lemma {:induction false} AggregatedAppend(a: seq<Interview>, b: seq<Interview>, topic: Option<string>, difficulty: Option<string>)
    ensures Aggregated(a + b, topic, difficulty) == Aggregated(a, topic, difficulty) + Aggregated(b, topic, difficulty)
    decreases |a|
  {
    if a == [] {
      assert a + b == b;
    } else {
      var head := Selected(a[0].questions, topic, difficulty);
      var rest, tail := Aggregated(a[1..], topic, difficulty), Aggregated(b, topic, difficulty);
      calc {
        Aggregated(a + b, topic, difficulty);
      == { assert (a + b)[0] == a[0] && (a + b)[1..] == a[1..] + b; }
        head + Aggregated(a[1..] + b, topic, difficulty);
      == { AggregatedAppend(a[1..], b, topic, difficulty); }
        head + (rest + tail);
      ==
        (head + rest) + tail;
      }
    }
  }

  lemma AggregatedSnoc(ivs: seq<Interview>, iv: Interview, topic: Option<string>, difficulty: Option<string>)
    ensures Aggregated(ivs + [iv], topic, difficulty) == Aggregated(ivs, topic, difficulty) + Selected(iv.questions, topic, difficulty)
  {
    AggregatedAppend(ivs, [iv], topic, difficulty);
    assert [iv][1..] == [];
    assert Aggregated([iv], topic, difficulty) == Selected(iv.questions, topic, difficulty) + [];
  }

  /** One more record aggregated: its selected questions follow those of
      the records before it. */
  lemma AggregatedStep(ivs: seq<Interview>, i: nat, topic: Option<string>, difficulty: Option<string>)
    requires i < |ivs|
    ensures Aggregated(ivs[..i + 1], topic, difficulty)
              == Aggregated(ivs[..i], topic, difficulty) + Selected(ivs[i].questions, topic, difficulty)
  {
    assert ivs[..i + 1] == ivs[..i] + [ivs[i]];
    AggregatedSnoc(ivs[..i], ivs[i], topic, difficulty);
  }

  /** A question is aggregated exactly when it belongs to one of the records
      and passes both filters. */
  lemma {:induction false} AggregatedMembers(ivs: seq<Interview>, topic: Option<string>, difficulty: Option<string>, q: Question)
    ensures q in Aggregated(ivs, topic, difficulty) <==>
              (exists iv :: iv in ivs && q in iv.questions) && PassesFilters(q, topic, difficulty)
    decreases |ivs|
  {
    if ivs != [] {
      AggregatedMembers(ivs[1..], topic, difficulty, q);
      SelectedMembers(ivs[0].questions, topic, difficulty, q);
      if q in ivs[0].questions {
        assert ivs[0] in ivs;
      }
      forall iv | iv in ivs && q in iv.questions && iv != ivs[0]
        ensures iv in ivs[1..]
      {
      }
    }
  }

  /** `allQuestions`, grown record by record with `push(...filteredQuestions)`. */
  method Aggregate(interviews: seq<Interview>, topic: Option<string>, difficulty: Option<string>)
    returns (allQuestions: seq<Question>)
    ensures allQuestions == Aggregated(interviews, topic, difficulty)
  {
    allQuestions := [];
    for i := 0 to |interviews|
      invariant allQuestions == Aggregated(interviews[..i], topic, difficulty)
    {
      var filteredQuestions := interviews[i].questions;
      if Truthy(topic) {
        filteredQuestions := KeepTopic(filteredQuestions, topic.value);
      }
      if Truthy(difficulty) {
        filteredQuestions := KeepDifficulty(filteredQuestions, difficulty.value);
      }
      SequentialFiltersAreConjunction(interviews[i].questions, topic, difficulty);
      AggregatedStep(interviews, i, topic, difficulty);
      allQuestions := allQuestions + filteredQuestions;
    }
    assert interviews[..|interviews|] == interviews;
  }

  // ---------------------------------------------------------------------
  // The handler
  // ---------------------------------------------------------------------

  /** The answer to `c` over `store`. The identity check comes first and
      fails exactly when a parameter is missing or empty, whatever the store
      holds; no-match is reported exactly when no stored record matches; a
      success counts its records and its questions, and every question it
      returns passes both filters (SearchReturnsOnlyMatchingQuestions: and
      comes from a matching record). */
  function SearchOutcome(store: seq<Interview>, c: Criteria): (r: Result<Summary, SearchError>)
    ensures r == Failure(MissingParameters) <==> !HasIdentity(c)
    ensures HasIdentity(c) ==>
              (r == Failure(NoMatchingData) <==> forall iv :: iv in store ==> !Matches(iv, KeyOf(c)))
    ensures r.Success? ==>
              && HasIdentity(c)
              && r.value.totalResults == |FindMatching(store, KeyOf(c))| > 0
              && r.value.totalQuestions == |r.value.questions| > 0
              && forall q :: q in r.value.questions ==> PassesFilters(q, c.topic, c.difficulty)
  {
    if !HasIdentity(c) then Failure(MissingParameters)
    else
      var found := FindMatching(store, KeyOf(c));
      assert found != [] ==> found[0] in found;
      SearchWithin(found, c.topic, c.difficulty)
  }

  /** The answer once the matching records `found` are known: no-match
      exactly when there are none; otherwise the filtered questions of the
      records, or the second not-found answer when none survive. */
  function SearchWithin(found: seq<Interview>, topic: Option<string>, difficulty: Option<string>): (r: Result<Summary, SearchError>)
    ensures r != Failure(MissingParameters)
    ensures r == Failure(NoMatchingData) <==> found == []
    ensures r.Success? ==>
              && r.value.totalResults == |found| > 0
              && r.value.totalQuestions == |r.value.questions| > 0
              && forall q :: q in r.value.questions ==> PassesFilters(q, topic, difficulty)
  {
    if |found| == 0 then
      Failure(NoMatchingData)
    else
      var allQuestions := Aggregated(found, topic, difficulty);
      if |allQuestions| == 0 then
        Failure(NoQuestionsForFilters)
      else
        assert forall q :: q in allQuestions ==> PassesFilters(q, topic, difficulty) by {
          forall q | q in allQuestions
            ensures PassesFilters(q, topic, difficulty)
          {
            AggregatedMembers(found, topic, difficulty, q);
          }
        }
        Success(Summary(|found|, |allQuestions|, allQuestions))
  }

  /** Past the identity check, the answer is decided by the matching records. */
  lemma SearchOutcomeIsSearchWithin(store: seq<Interview>, c: Criteria)
    requires HasIdentity(c)
    ensures SearchOutcome(store, c) == SearchWithin(FindMatching(store, KeyOf(c)), c.topic, c.difficulty)
  {
  }

  /** Every returned question belongs to a stored record that matches the
      identity parameters, and passes both filters. */
  lemma SearchReturnsOnlyMatchingQuestions(store: seq<Interview>, c: Criteria, q: Question)
    requires SearchOutcome(store, c).Success? && q in SearchOutcome(store, c).value.questions
    ensures PassesFilters(q, c.topic, c.difficulty)
    ensures exists iv :: iv in store && Matches(iv, KeyOf(c)) && q in iv.questions
  {
    var found := FindMatching(store, KeyOf(c));
    AggregatedMembers(found, c.topic, c.difficulty, q);
  }

  /** index.js's search handler. */
  method Search(store: seq<Interview>, c: Criteria) returns (r: Result<Summary, SearchError>)
    ensures r == SearchOutcome(store, c)
  {
    if !Truthy(c.company) || !Truthy(c.role) || !Truthy(c.position) || !Truthy(c.year) {
      return Failure(MissingParameters);
    }
    var query := Key(Trim(c.company.value), Trim(c.role.value), Trim(c.position.value), Trim(c.year.value));
    var interviews := FindMatching(store, query);
    if |interviews| == 0 {
      return Failure(NoMatchingData);
    }
    var allQuestions := Aggregate(interviews, c.topic, c.difficulty);
    if |allQuestions| == 0 {
      return Failure(NoQuestionsForFilters);
    }
    return Success(Summary(|interviews|, |allQuestions|, allQuestions));
  }

  // ---------------------------------------------------------------------
  // Properties of the answer
  // ---------------------------------------------------------------------

  /** No passing question is lost: every question of a matching record that
      passes both filters is in a successful answer. */
  lemma SearchFindsEveryPassingQuestion(store: seq<Interview>, c: Criteria, iv: Interview, q: Question)
    requires HasIdentity(c)
    requires iv in store && Matches(iv, KeyOf(c)) && q in iv.questions
    requires PassesFilters(q, c.topic, c.difficulty)
    ensures SearchOutcome(store, c).Success?
    ensures q in SearchOutcome(store, c).value.questions
  {
    var interviews := FindMatching(store, KeyOf(c));
    assert iv in interviews;
    AggregatedMembers(interviews, c.topic, c.difficulty, q);
  }

  /** The questions an answer carries, taken as a set, are exactly the
      passing questions of the matching records, in whatever order the
      records come. */
  lemma SearchQuestionsMembers(store: seq<Interview>, c: Criteria, q: Question)
    requires HasIdentity(c)
    ensures q in QuestionsOf(SearchOutcome(store, c)) <==>
              (exists iv :: iv in store && Matches(iv, KeyOf(c)) && q in iv.questions) && PassesFilters(q, c.topic, c.difficulty)
  {
    var found := FindMatching(store, KeyOf(c));
    SearchOutcomeIsSearchWithin(store, c);
    AggregatedMembers(found, c.topic, c.difficulty, q);
    if found != [] {
      assert QuestionsOf(SearchWithin(found, c.topic, c.difficulty)) == Aggregated(found, c.topic, c.difficulty);
    }
  }

  /** The second not-found answer is given exactly when records match but
      none of their questions passes the filters. */
  lemma SearchNoQuestionsExactly(store: seq<Interview>, c: Criteria)
    ensures SearchOutcome(store, c) == Failure(NoQuestionsForFilters) <==>
              && HasIdentity(c)
              && (exists iv :: iv in store && Matches(iv, KeyOf(c)))
              && forall iv, q :: iv in store && Matches(iv, KeyOf(c)) && q in iv.questions ==>
                   !PassesFilters(q, c.topic, c.difficulty)
  {
    if HasIdentity(c) {
      var interviews := FindMatching(store, KeyOf(c));
      var all := Aggregated(interviews, c.topic, c.difficulty);
      if exists iv, q :: iv in store && Matches(iv, KeyOf(c)) && q in iv.questions && PassesFilters(q, c.topic, c.difficulty) {
        var iv, q :| iv in store && Matches(iv, KeyOf(c)) && q in iv.questions && PassesFilters(q, c.topic, c.difficulty);
        SearchFindsEveryPassingQuestion(store, c, iv, q);
      } else if |interviews| > 0 && |all| > 0 {
        AggregatedMembers(interviews, c.topic, c.difficulty, all[0]);
        assert false;
      }
    }
  }

  /** Past the identity check, the answer depends on the store only through
      the records the query selects. */
  lemma SearchDependsOnlyOnMatches(s1: seq<Interview>, s2: seq<Interview>, c: Criteria)
    requires HasIdentity(c) ==> FindMatching(s1, KeyOf(c)) == FindMatching(s2, KeyOf(c))
    ensures SearchOutcome(s1, c) == SearchOutcome(s2, c)
  {
  }

  /** The questions an answer carries; none on failure. */
  function QuestionsOf(r: Result<Summary, SearchError>): seq<Question> {
    if r.Success? then r.value.questions else []
  }

  /** Answers follow store order: searching a store made of `a` followed by
      `b` returns the questions found in `a` followed by those found in `b`. */
  lemma SearchFollowsStoreOrder(a: seq<Interview>, b: seq<Interview>, c: Criteria)
    ensures QuestionsOf(SearchOutcome(a + b, c)) == QuestionsOf(SearchOutcome(a, c)) + QuestionsOf(SearchOutcome(b, c))
  {
    if HasIdentity(c) {
      var k := KeyOf(c);
      FindMatchingAppend(a, b, k);
      AggregatedAppend(FindMatching(a, k), FindMatching(b, k), c.topic, c.difficulty);
      assert Aggregated([], c.topic, c.difficulty) == [];
    }
  }

  /** Matching ignores letter case and surrounding whitespace of the
      identity parameters: two queries that agree on them after trimming and
      folding case, and carry the same filters, get the same answer. */
  lemma SearchIgnoresCaseAndPadding(store: seq<Interview>, c1: Criteria, c2: Criteria)
    requires HasIdentity(c1) && HasIdentity(c2)
    requires Lower(Trim(c1.company.value)) == Lower(Trim(c2.company.value))
    requires Lower(Trim(c1.role.value)) == Lower(Trim(c2.role.value))
    requires Lower(Trim(c1.position.value)) == Lower(Trim(c2.position.value))
    requires Lower(Trim(c1.year.value)) == Lower(Trim(c2.year.value))
    requires c1.topic == c2.topic && c1.difficulty == c2.difficulty
    ensures SearchOutcome(store, c1) == SearchOutcome(store, c2)
  {
    var k1, k2 := KeyOf(c1), KeyOf(c2);
    FoldedKeysMatchAlike(k1, k2);
    FindMatchingSameKeys(store, k1, k2);
    SearchOutcomeIsSearchWithin(store, c1);
    SearchOutcomeIsSearchWithin(store, c2);
  }

  /** Keys equal up to letter case are matched by the same records. */
  lemma FoldedKeysMatchAlike(k1: Key, k2: Key)
    requires Lower(k1.company) == Lower(k2.company) && Lower(k1.role) == Lower(k2.role)
    requires Lower(k1.position) == Lower(k2.position) && Lower(k1.year) == Lower(k2.year)
    ensures forall iv :: Matches(iv, k1) == Matches(iv, k2)
  {
  }

  /** The patterns are anchored: a stored value whose length differs from
      the trimmed parameter (a proper substring, or a longer value such as
      "Google2" for "Google") never matches. */
  lemma AnchoredMatchIsWholeString(iv: Interview, c: Criteria)
    requires HasIdentity(c)
    requires || |iv.company| != |Trim(c.company.value)|
             || |iv.role| != |Trim(c.role.value)|
             || |PositionName(iv.position)| != |Trim(c.position.value)|
             || |iv.year| != |Trim(c.year.value)|
    ensures !Matches(iv, KeyOf(c))
  {
    if Matches(iv, KeyOf(c)) {
      var k := KeyOf(c);
      EqualsIgnoreCaseSameLength(iv.company, k.company);
      EqualsIgnoreCaseSameLength(iv.role, k.role);
      EqualsIgnoreCaseSameLength(PositionName(iv.position), k.position);
      EqualsIgnoreCaseSameLength(iv.year, k.year);
    }
  }

  /** A stored record whose company, role or year begins or ends with
      whitespace matches no query, since only the parameters are trimmed. */
  lemma PaddedRecordNeverMatches(iv: Interview, c: Criteria)
    requires HasIdentity(c)
    requires !Unpadded(iv.company) || !Unpadded(iv.role) || !Unpadded(iv.year)
    ensures !Matches(iv, KeyOf(c))
  {
    if Matches(iv, KeyOf(c)) {
      var k := KeyOf(c);
      EqualsIgnoreCaseKeepsUnpadded(iv.company, k.company);
      EqualsIgnoreCaseKeepsUnpadded(iv.role, k.role);
      EqualsIgnoreCaseKeepsUnpadded(iv.year, k.year);
    }
  }
}
