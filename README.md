# Interview-experience backend: a Dafny model

The backend stores interview experiences. Each one is a record of a company, a
role, a position, an experience string, a year and a list of questions. Each
question carries a topic, a round type, a difficulty, a frequency and a
recency. Two HTTP handlers do the work:

- **POST `/api/interview`** checks that every submitted question has a truthy
  `text`, `topic`, `roundType` and `difficulty`. It then fills in
  `frequency || 3` and `recency || now`, and hands the document to the
  Mongoose schema. The schema checks the required fields, the closed
  enumerations and the bound `1 <= frequency <= 5`.
- **GET `/api/interview/search`** requires `company`, `role`, `position` and
  `year`. It selects the records whose four identity fields equal the trimmed
  parameters up to letter case, over the whole string. It then filters each
  record's questions by the optional `topic` and `difficulty`, concatenates
  the results in store order, and answers with the record count, the question
  count and the questions. It has two distinct not-found answers: one when no
  record matches, one when records match but no question survives the filters.

The model has six modules:

- `Results`: the Option and Result wrappers.
- `Text`: JavaScript truthiness; `String.prototype.trim` over the WhiteSpace
  and LineTerminator code points of ECMAScript; the ASCII case folding that an
  anchored `^…$` pattern with flag `i` amounts to for a metacharacter-free
  parameter and a stored value that does not end in a line feed.
- `InterviewModel`: models/Interview.js. It holds the enumerations, the stored
  values, the unvalidated documents, and the schema validation together with
  its defaults.
- `CreateHandler`: the POST handler.
- `SearchHandler`: the GET handler. The store is a `seq<Interview>` and `find`
  is a sequence filter. The aggregation loop is the method `Aggregate`.
- `Backend`: both handlers over one store, plus worked examples.

The clock is a parameter `now` (milliseconds). Timestamps are integers.

Two behaviours of the code are easy to miss:

- A document that passes the handler's up-front check but fails schema
  validation does not get a validation answer. `save()` throws, so the
  handler answers "Failed to save data" (`SchemaRejected`).
- `frequency` defaults to 3 whenever it is falsy, so 0 also becomes 3, not
  only a missing value. Likewise a `recency` of 0 becomes `now`.

The search trims only the parameters, never the stored values. The records
are stored exactly as submitted. So a record whose company, role or year
begins or ends with whitespace is never found by any query free of
regular-expression metacharacters
(`SearchHandler.PaddedRecordNeverMatches`, `Backend.PaddedRecordIsNeverFound`),
with one exception the model does not capture: a stored value ending in a
single line feed. A parameter holding metacharacters, such as `\sMeta` or
`.*`, is a pattern the model does not interpret either (see "Left out").

## Model

| member | source | states |
|---|---|---|
| Text.Truthy | index.js:73 | defines JavaScript truthiness of an optional string: present and not empty |
| Text.EqualsIgnoreCase | index.js:81-84 | defines the anchored `i` match of a stored value against a metacharacter-free parameter: whole-string equality after ASCII case folding |
| Text.IsWhitespace | index.js:81-84 | defines the characters `trim` removes: the WhiteSpace and LineTerminator code points of ECMAScript, listed in the constant `WhitespaceChars` |
| Text.TrimStart | index.js:81-84 | the leading half of `trim`: the result is a suffix of the input and does not begin with whitespace |
| Text.TrimEnd | index.js:81-84 | the trailing half of `trim`: the result is a prefix of the input and does not end with whitespace |
| Text.Trim | index.js:81-84 | the trimmed parameter has no whitespace at either end, and an unpadded parameter is used unchanged |
| Text.TrimRemovesOnlyPadding | index.js:81-84 | what `trim` removes is whitespace: the result sits inside the parameter between a leading and a trailing whitespace run |
| Text.TrimRemovesPadding | index.js:81-84 | whitespace around an unpadded, non-empty value is removed and the value itself kept (" google " becomes "google") |
| Text.TrimStartDropsOnlyWhitespace | index.js:81-84 | the leading part `trim` drops is all whitespace |
| Text.TrimEndDropsOnlyWhitespace | index.js:81-84 | the trailing part `trim` drops is all whitespace |
| Text.LowerChar | index.js:81-84 | defines the folding of one character under flag `i`: A to Z become a to z, every other character is kept |
| Text.Lower | index.js:81-84 | folds a whole string character by character, keeping its length |
| Text.LowerAt | index.js:81-84 | flag `i` folds case character by character |
| Text.EqualsIgnoreCaseSameLength | index.js:81-84 | the model's anchored match, `EqualsIgnoreCase`, is whole-string equality after folding, so values of different lengths never match it |
| Text.EqualsIgnoreCaseKeepsUnpadded | index.js:81-84 | a stored value that matches an unpadded parameter is itself unpadded |
| Text.LowerCharKeepsWhitespace | index.js:81-84 | case folding neither creates nor removes whitespace |
| InterviewModel.ValidQuestion | models/Interview.js:3-33 | defines question validity: non-empty text and a frequency in [1, 5]; the enumerated fields are valid by their types |
| InterviewModel.ValidInterview | models/Interview.js:35-59 | defines record validity: non-empty company, role, experience and year, and every question valid |
| InterviewModel.StoresQuestion | models/Interview.js:3-33 | defines what the question schema stores for a document: the strings as given, each enumerated spelling as its value, a missing frequency as 3 and a missing recency as `now` |
| InterviewModel.StoresInterview | models/Interview.js:35-59 | defines what the interview schema stores for a document: the top-level strings as given, the position as its value, and each question stored in order |
| InterviewModel.ParseTopic | models/Interview.js:8-12 | exactly the seven listed topic spellings are admitted, case-sensitively, each naming one topic |
| InterviewModel.ParseRoundType | models/Interview.js:13-17 | exactly OA, Technical, Design and HR are admitted |
| InterviewModel.ParseDifficulty | models/Interview.js:18-22 | exactly Easy, Medium and Hard are admitted |
| InterviewModel.ParsePosition | models/Interview.js:45-49 | exactly Intern, SDE1, SDE2, Senior and Lead are admitted |
| InterviewModel.NamesAreNonEmpty | models/Interview.js:8-22 | every enumerated spelling is non-empty, so a valid value passes a required-field check; position names are unpadded |
| InterviewModel.StoresQuestionUnique | models/Interview.js:3-33 | a question document determines the stored question |
| InterviewModel.CastQuestion | models/Interview.js:3-33 | validating a question yields a question with non-empty text, listed enum values and a frequency in [1, 5], with frequency 3 and recency `now` when they are missing; any valid question the document describes is what it yields |
| InterviewModel.CastQuestions | models/Interview.js:58 | the question array validates exactly when every element validates, and then yields the elements in order |
| InterviewModel.CastInterview | models/Interview.js:35-59 | a validated interview has non-empty company, role, experience and year, a listed position and valid questions, and it is what the schema stores for the document |
| InterviewModel.CastInterviewComplete | models/Interview.js:35-59 | validation rejects nothing it should store: a valid interview the document describes is what validation yields |
| CreateHandler.Create | index.js:24-58 | the up-front rejection happens exactly when the question list is absent or a question lacks a truthy text, topic, roundType or difficulty; a created record is valid and answers the payload field by field, question by question, in order, with the defaults applied |
| CreateHandler.DescribesIffStores | index.js:37-51 | the document the handler builds is stored exactly as the payload with `frequency || 3` and `recency || now` |
| CreateHandler.CreateComplete | index.js:24-58 | Create succeeds with `iv` whenever `iv` is valid and answers the payload |
| CreateHandler.CreateSucceedsExactly | index.js:24-58 | a submission is stored exactly when some valid interview answers it |
| CreateHandler.HasRequiredFields | index.js:29-31 | defines the per-question check: `text`, `topic`, `roundType` and `difficulty` all truthy |
| CreateHandler.ShapeAccepted | index.js:29-31 | defines the up-front check: the question list is present and every question passes HasRequiredFields |
| CreateHandler.FrequencyOrDefault | index.js:48 | the defaulted frequency is never 0; a truthy frequency is kept and a missing or zero one becomes 3 |
| CreateHandler.RecencyOrNow | index.js:49 | a truthy timestamp is kept and a missing or zero one becomes `now`, so the result is truthy whenever the clock is |
| CreateHandler.CreateErrorMessage | index.js:32-34 | defines the error text of the up-front rejection; a schema rejection gives the save failure's text of index.js:60-63 |
| CreateHandler.DraftOf | index.js:43-50 | defines the object built for one question: the four fields copied, the frequency defaulted to 3 and the recency to `now` |
| CreateHandler.DescribesQuestion | index.js:43-50 | defines when a stored question answers a submitted one: the text and the spellings of the enumerated fields copied, the frequency and recency defaulted as the handler does |
| CreateHandler.Describes | index.js:37-51 | defines when a stored interview answers the payload: the top-level fields copied, the question list present and answered question by question, in order |
| CreateHandler.DraftInterviewOf | index.js:37-51 | defines the document handed to `new Interview`: the top-level fields as submitted and one defaulted question per submitted one, in order |
| CreateHandler.FrequencyDefaulting | index.js:48 | the stored frequency is the submitted one when truthy and 3 when missing or 0, and a kept frequency lies in [1, 5] |
| CreateHandler.OutOfRangeFrequencyRejected | index.js:48 | a truthy frequency outside [1, 5] makes the submission fail after the up-front check |
| CreateHandler.EmptyQuestionListAccepted | index.js:29-31 | an empty question list passes the up-front check; with valid top-level fields the record is created with no questions |
| CreateHandler.CreateRoundTrip | index.js:37-51 | re-submitting a valid interview with non-zero recencies creates it unchanged |
| SearchHandler.HasIdentity | index.js:73 | defines the parameter check: `company`, `role`, `position` and `year` all truthy |
| SearchHandler.SearchErrorMessage | index.js:74-76 | defines the texts of the 400 answer and of the two 404 answers (index.js:91, 108) |
| SearchHandler.KeyOf | index.js:81-84 | defines the four trimmed identity parameters the patterns are built from |
| SearchHandler.Matches | index.js:80-85 | defines the query: each of the four stored identity fields equals its trimmed parameter up to letter case, over the whole string |
| SearchHandler.FindMatching | index.js:80-88 | the query returns exactly the stored records that match the four anchored patterns |
| SearchHandler.FindMatchingAppend | index.js:88 | the query preserves store order |
| SearchHandler.FindMatchingSameKeys | index.js:80-88 | keys that every record matches alike select the same records |
| SearchHandler.HasTopicSpelling | index.js:99-102 | the filters compare the stored spelling for exact, case-sensitive equality |
| SearchHandler.HasTopic | index.js:99 | defines the topic test: the filter value is exactly the spelling of the question's topic |
| SearchHandler.HasDifficulty | index.js:102 | defines the difficulty test: the filter value is exactly the spelling of the question's difficulty |
| SearchHandler.PassesFilters | index.js:98-103 | defines passing both filters: an absent or empty filter admits every question, a present one applies its test |
| SearchHandler.KeepTopic | index.js:99 | the topic filter keeps exactly the questions with that topic |
| SearchHandler.KeepDifficulty | index.js:102 | the difficulty filter keeps exactly the questions with that difficulty |
| SearchHandler.SelectedMembers | index.js:97-103 | a question is selected exactly when it is the record's and passes both filters |
| SearchHandler.SequentialFiltersAreConjunction | index.js:97-103 | the two conditional filters applied in turn keep exactly the questions passing their conjunction, in order; an absent or empty filter admits everything |
| SearchHandler.FiltersCommute | index.js:98-103 | the order of the two filters does not matter |
| SearchHandler.Selected | index.js:97-103 | defines one record's filtered questions, in record order; never more than the record has |
| SearchHandler.Aggregated | index.js:95-105 | defines `allQuestions`: each matching record's filtered questions, concatenated in record order |
| SearchHandler.AggregatedAppend | index.js:95-105 | aggregation preserves record order: aggregating a concatenation concatenates the aggregations |
| SearchHandler.AggregatedMembers | index.js:95-105 | a question is aggregated exactly when it belongs to one of the records and passes both filters |
| SearchHandler.Aggregate | index.js:95-105 | the loop's `allQuestions` is the concatenation, in record order, of each record's filtered questions |
| SearchHandler.SearchOutcome | index.js:68-115 | the missing-parameter answer comes exactly when a parameter is absent or empty, whatever the store; no-match comes exactly when no stored record matches; a success counts the matched records and its questions, both non-zero, and every question passes both filters |
| SearchHandler.SearchWithin | index.js:90-115 | once the matching records are known, no-match comes exactly when there are none |
| SearchHandler.Search | index.js:68-115 | the handler, with its early returns and its loop, gives the answer SearchOutcome describes |
| SearchHandler.SearchReturnsOnlyMatchingQuestions | index.js:95-115 | every returned question comes from a matching stored record and passes both filters |
| SearchHandler.SearchQuestionsMembers | index.js:88-105 | taken as a set, the returned questions are exactly the passing questions of the matching records, whatever their order |
| SearchHandler.SearchFindsEveryPassingQuestion | index.js:95-115 | every passing question of a matching record is returned |
| SearchHandler.SearchNoQuestionsExactly | index.js:107-109 | the second not-found answer comes exactly when records match but none of their questions passes the filters |
| SearchHandler.SearchDependsOnlyOnMatches | index.js:88-115 | past the identity check, the answer depends on the store only through the matching records |
| SearchHandler.SearchFollowsStoreOrder | index.js:95-105 | the questions found in a store `a` followed by `b` are those found in `a` followed by those found in `b` |
| SearchHandler.SearchIgnoresCaseAndPadding | index.js:80-85 | queries whose identity parameters agree after trimming and case folding, with the same filters, get the same answer |
| SearchHandler.FoldedKeysMatchAlike | index.js:80-85 | keys equal up to case are matched by the same records |
| SearchHandler.AnchoredMatchIsWholeString | index.js:80-85 | a stored value of another length than the trimmed parameter (a proper substring, "Google2" for "Google") never matches |
| SearchHandler.PaddedRecordNeverMatches | index.js:80-85 | a record whose company, role or year begins or ends with whitespace matches no query |
| Backend.CreateAndStore | index.js:37-58 | the reply is the create handler's answer; a rejected submission leaves the store unchanged; a created record is valid and is placed after the existing ones in the retrieval order the model assumes |
| Backend.AddingUnmatchedRecordChangesNothing | index.js:88 | adding a record the query does not match changes no answer |
| Backend.AddingMatchedRecordAppends | index.js:88-105 | adding a matching record appends its selected questions to the answer |
| Backend.CreatedRecordIsFound | index.js:53 | after a create, an unfiltered query that matches the record succeeds, returning the earlier questions followed by the new record's in the assumed retrieval order |
| Backend.CreatedRecordFoundInAnyOrder | index.js:53-105 | whatever order `find` returns the saved store in, the questions found after a create are, as a set, the earlier answer's plus the new record's passing questions when it matches |
| Backend.OwnIdentityMatches | index.js:80-85 | a valid record with unpadded company, role and year is matched by the query made of its own fields |
| Backend.PaddedRecordIsNeverFound | index.js:53 | creating a record with a padded company, role or year changes no search answer |
| Backend.GoogleFoundDespitePadding | index.js:81 | a stored "Google" is matched by " google " |
| Backend.GoogleFoundDespiteCase | index.js:81 | a stored "Google" is matched by "GOOGLE" and "Google" |
| Backend.GoogleNotFoundByOtherLengths | index.js:81 | a stored "Google" is matched neither by "Goo" nor by "Google2" |
| Backend.MetaCreated | index.js:24-58 | a Meta submission without frequency or recency is stored with frequency 3 and recency `now` |
| Backend.MetaExample | index.js:68-115 | searching "meta"/"swe"/"sde1"/"2024" with difficulty "Easy" answers one record and its one easy question; with "Medium" it gives the second not-found answer |

## Left out

- HTTP, Express, CORS, `express.json` and dotenv (index.js:1-21). Answers are tagged results; the messages of the 400 and 404 answers are kept as strings (`CreateErrorMessage`, `SearchErrorMessage`).
- The Mongoose connection and `startServer` (index.js:128-142): process lifecycle and I/O.
- Store failures and their 500 answers (index.js:59-64, 117-119). `save()` and `find` never fail in the model, except that a schema rejection is the `SchemaRejected` failure.
- ObjectId assignment, `async`/`await`, and concurrent requests. The store is a sequence and each handler is one step over it.
- CreateAndStore, CreatedRecordIsFound: the store sequence is the order in which `find` returns the records, and the model puts a created record last in it. The program's `find` (index.js:88) has no sort, and the database promises no order without one. A case-insensitive pattern on the indexed `company` field (models/Interview.js:39) may return records in index-key order, so a "META" created after a "Meta" may come first. For any order, `CreatedRecordFoundInAnyOrder` states what is found, as a set.
- The regular-expression engine. Case-insensitive anchored matching is ASCII case-folded equality of the whole stored value with the trimmed parameter. Regular-expression metacharacters in a parameter are not modelled: a `.` or `*` in a parameter is treated as a literal character. In the program the trimmed parameter is pasted into the pattern unescaped, so `.*` matches every value and `\sMeta` finds a stored " Meta". A malformed pattern, such as the role "C++ Developer", makes `new RegExp` throw, and the search answers 500 "Internal Server Error" (index.js:117-119); the model has no such answer. A stored value holding metacharacters, such as the role "SDE (Backend)", is not found by its own spelling. So `OwnIdentityMatches`, `PaddedRecordNeverMatches` and `PaddedRecordIsNeverFound` describe the program only for metacharacter-free values and parameters. Without the multiline flag, the database's PCRE engine lets `$` match just before a final line feed. So a record stored with company "Meta\n" is found by `company=Meta`, while the model's whole-string equality says it is not. `EqualsIgnoreCaseSameLength`, `AnchoredMatchIsWholeString`, `EqualsIgnoreCaseKeepsUnpadded`, `PaddedRecordNeverMatches` and `PaddedRecordIsNeverFound` therefore describe the program only for stored values that do not end in a line feed.
- Unicode case folding beyond ASCII letters.
- The wall clock (index.js:49, models/Interview.js:31): `now` is a parameter, and a Date is an integer of milliseconds.
- Mongoose's index declaration (models/Interview.js:39) and its type casting. Every field is modelled as a string or an integer, as JSON gives it, or as missing. Null versus undefined, numbers sent as strings, non-integer or NaN frequencies, and array-valued query parameters are not modelled.
- Nothing further: the schema defaults of `frequency` and `recency` are modelled (they apply only to a missing field), although the POST handler always fills both fields, so through the handler they never take effect.
