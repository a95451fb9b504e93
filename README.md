# AI Tutor Bot: a Dafny model of the tutoring core

This project models the core of the AI Tutor bot, a retrieval-augmented tutor for STEM
material. It has three parts:

- **Text processor** (`text_processor.dfy`). It cuts a document into word-bounded chunks of
  sentences that overlap, and tags each chunk with a subject and a short list of concepts.
- **Adaptive learning system** (`adaptive_learning.dfy`). It records when a learner reviewed
  each concept and computes when the concept is next due, on the spaced-repetition ladder
  1, 3, 7, 14, 30 days. It also ranks candidate concepts with due or unseen ones first.
- **Tutor agent** (`tutor_agent.dfy`). It ingests documents as chunk vectors. It answers a
  question from the chunks the vector store retrieves, filtering by the concepts the learner
  already knows and retrying without the filter when nothing comes back. It then reinforces the
  two highest-ranked concepts of the answer.

The supporting files are:

- `builtins.dfy`: the Python built-ins the core relies on, on strings as `seq<char>`. These are
  `str.split()` word counts, `strip`, ASCII `lower`, `join`, `split(sep)`, the substring test,
  `str(n)`, string order and `list(set)`.
- `config.dfy`: the configuration constants (chunk size 768, overlap 100, ladder
  `[1, 3, 7, 14, 30]`).
- `wrappers.dfy`: `Option` and `Result`.

The collaborators are parameters of the model: an embedding model, a question-answering
pipeline, a vector store and a cosine similarity. Each is a total function that returns a value
or a `Failure`, which stands for the exception the collaborator raises. The clock is a
parameter `now`, in whole seconds.

The learning system and the agent are classes whose methods update the review history in place.

- `GenerateResponse` is proved equal to the ghost specification `Respond`. `Respond` returns the
  reply, the concepts handed to `update_progress` and the new history.
- The chunking loop and the overlap loop are methods proved against the functions `ChunkedText`
  and `Overlap`.
- The lemmas beside those functions state what the chunking promises:
  - the chunks keep the sentences in order;
  - each chunk starts with the overlap of the chunk before it;
  - only a chunk of one sentence after its overlap runs past the word limit.

## Model

| member | source | states |
|---|---|---|
| PyBuiltins.WordCountZeroIffBlank | ai_tutor_bot/utils/text_processor.py:25-26 | `len(s.split())` is 0 exactly when every character of `s` is whitespace |
| PyBuiltins.WordCountJoinSpace | ai_tutor_bot/utils/text_processor.py:32 | joining two strings with one space adds their word counts |
| PyBuiltins.Strip | ai_tutor_bot/utils/text_processor.py:18 | the result is a slice `s[i..j]` of the input with only whitespace before `i` and after `j`; it is empty exactly when the input is blank, and otherwise starts and ends with a non-space character |
| PyBuiltins.Split | agents/tutor_agent.py:141 | `s.split(sep)` returns at least one piece |
| PyBuiltins.SplitJoin | ai_tutor_bot/utils/text_processor.py:86 | splitting the join of separator-free parts at the separator gives the parts back |
| PyBuiltins.JoinContainsPart | agents/tutor_agent.py:148 | every part occurs as a substring of the join |
| PyBuiltins.NatToString | agents/tutor_agent.py:68 | `str(idx)` is a non-empty string of decimal digits |
| PyBuiltins.NatToStringInjective | agents/tutor_agent.py:72 | different indices give different `str(idx)` |
| PyBuiltins.LexLeTotal | ai_tutor_bot/utils/adaptive_learning.py:43 | any two concept names are comparable in Python's string order |
| PyBuiltins.LexLeTransitive | ai_tutor_bot/utils/adaptive_learning.py:43 | Python's string order is transitive |
| PyBuiltins.LexLeAntisymmetric | ai_tutor_bot/utils/adaptive_learning.py:43 | two names that are each at most the other are equal |
| PyBuiltins.Enumerate | agents/tutor_agent.py:144 | `list(context_concepts)` holds every element of the set exactly once |
| AdaptiveLearning.RecordReview | ai_tutor_bot/utils/adaptive_learning.py:13-19 | after a review the concept's history is the old one plus `now`; the user and the concept become known |
| AdaptiveLearning.RecordReviewOthers | ai_tutor_bot/utils/adaptive_learning.py:13-19 | a review changes no other history and no other user's row |
| AdaptiveLearning.RecordReviewWellFormed | ai_tutor_bot/utils/adaptive_learning.py:16-19 | every recorded concept keeps at least one review, so `reviews[-1]` never fails |
| AdaptiveLearning.RecordReviewChronological | ai_tutor_bot/utils/adaptive_learning.py:19 | a review no earlier than the past ones keeps every history in chronological order |
| AdaptiveLearning.IntervalLadder | ai_tutor_bot/utils/adaptive_learning.py:22-25 | after 1, 2, 3, 4 and 5 or more reviews the interval is 1, 3, 7, 14 and 30 days |
| AdaptiveLearning.IntervalMonotone | ai_tutor_bot/utils/adaptive_learning.py:22-25 | more reviews never shorten the interval |
| AdaptiveLearning.Priority | ai_tutor_bot/utils/adaptive_learning.py:32-39 | the priority is 1 for a concept never reviewed; otherwise it is 1 exactly when the due date is at most `now`, and 0 otherwise |
| AdaptiveLearning.DueAgainAfterInterval | ai_tutor_bot/utils/adaptive_learning.py:12-37 | a concept just reviewed is not due at the review time, and is due at a later time exactly when the ladder interval for its review count has passed |
| AdaptiveLearning.OneReviewExamples | ai_tutor_bot/utils/adaptive_learning.py:32-39 | a single review 40 days ago is due; one a minute ago is not |
| AdaptiveLearning.Insert | ai_tutor_bot/utils/adaptive_learning.py:43 | inserting into the sorted list adds exactly that element |
| AdaptiveLearning.InsertSorted | ai_tutor_bot/utils/adaptive_learning.py:43 | inserting into a list sorted by `(-priority, name)` keeps it sorted |
| AdaptiveLearning.SortRanked | ai_tutor_bot/utils/adaptive_learning.py:43 | the sort returns a permutation of its input |
| AdaptiveLearning.SortRankedSorted | ai_tutor_bot/utils/adaptive_learning.py:43 | the sort's result is ordered by priority descending, then name ascending |
| AdaptiveLearning.Names | ai_tutor_bot/utils/adaptive_learning.py:44 | element `i` is the name of pair `i` |
| AdaptiveLearning.NamesSort | ai_tutor_bot/utils/adaptive_learning.py:43-44 | the names after sorting are a permutation of the names before |
| AdaptiveLearning.RankedConceptsIsRanking | ai_tutor_bot/utils/adaptive_learning.py:29-44 | `get_learning_context` returns a permutation of its input, due or unseen concepts first, and names ascending among equal priority |
| AdaptiveLearning.RankingHeads | ai_tutor_bot/utils/adaptive_learning.py:43 | two rankings of the same concepts start with the same concept |
| AdaptiveLearning.RankingUnique | ai_tutor_bot/utils/adaptive_learning.py:43-44 | a ranking is determined by the multiset of concepts, whatever order they are offered in |
| AdaptiveLearning.AdaptiveLearningSystem.constructor | ai_tutor_bot/utils/adaptive_learning.py:9-10 | a new system has no progress |
| AdaptiveLearning.AdaptiveLearningSystem.UpdateProgress | ai_tutor_bot/utils/adaptive_learning.py:12-27 | appends `now` to the concept's history, creating the user's and the concept's entries when missing, and changes nothing else; returns the last review plus the ladder interval for the new review count |
| AdaptiveLearning.AdaptiveLearningSystem.GetLearningContext | ai_tutor_bot/utils/adaptive_learning.py:29-44 | returns the ranking of the given concepts: a permutation of them, due or unseen first, then by name; the history is unchanged |
| TextProcessor.SentencesStripped | ai_tutor_bot/utils/text_processor.py:18 | every kept sentence is non-empty and stripped at both ends, and there are no more sentences than pieces |
| TextProcessor.SentencesNoneIffBlank | ai_tutor_bot/utils/text_processor.py:18 | no sentence is kept exactly when every piece is blank |
| TextProcessor.ConcatBlank | ai_tutor_bot/utils/text_processor.py:17-18 | when the text is blank, so is every piece the split cuts it into |
| TextProcessor.JoinWords | ai_tutor_bot/utils/text_processor.py:25-32 | a chunk joined with spaces has as many words as its sentences together |
| TextProcessor.OverlapStops | ai_tutor_bot/utils/text_processor.py:35-39 | the overlap takes sentences from the front of the chunk while fewer than `chunk_overlap` words have been taken; it reaches the budget unless it took the whole chunk |
| TextProcessor.PopOverlap | ai_tutor_bot/utils/text_processor.py:33-39 | the popped sentences are the overlap, the chunk is the overlap followed by what is left, and `overlap_length` is the overlap's word count |
| TextProcessor.PackKeeps | ai_tutor_bot/utils/text_processor.py:28-30 | a sentence that fits, or that starts an empty chunk, joins the current chunk |
| TextProcessor.PackCloses | ai_tutor_bot/utils/text_processor.py:31-41 | a sentence that does not fit closes the chunk and starts a new one from the overlap and the sentence |
| TextProcessor.PackEnds | ai_tutor_bot/utils/text_processor.py:43-44 | a non-empty last chunk is emitted at the end, and an empty one is not |
| TextProcessor.PackFromShape | ai_tutor_bot/utils/text_processor.py:24-44 | from a seeded chunk on, the packing keeps its shape: each chunk starts with the previous chunk's overlap and adds at least one sentence |
| TextProcessor.PackFromFresh | ai_tutor_bot/utils/text_processor.py:24-44 | the sentences each chunk adds beyond its overlap are the remaining sentences, in order |
| TextProcessor.PackFromSentences | ai_tutor_bot/utils/text_processor.py:24-44 | every chunk holds only sentences of the input |
| TextProcessor.PackFromNonEmpty | ai_tutor_bot/utils/text_processor.py:43-44 | the packing produces no chunk exactly when there is nothing left to pack |
| TextProcessor.PackSpec | ai_tutor_bot/utils/text_processor.py:20-46 | each chunk begins with the overlap of the one before; the sentences the chunks add are the input sentences in order; chunks hold only input sentences; there are no chunks exactly when there are no sentences |
| TextProcessor.PackNoOverlap | ai_tutor_bot/utils/text_processor.py:35 | with `chunk_overlap` 0 the chunks partition the sentences in order |
| TextProcessor.OversizedChunks | ai_tutor_bot/utils/text_processor.py:28 | a chunk over `chunk_size` words is its overlap plus a single sentence |
| TextProcessor.ChunkedTextNone | ai_tutor_bot/utils/text_processor.py:12-46 | an empty or blank text gives no chunks, and the result is empty exactly when every split piece is blank |
| TextProcessor.ChunkedTextChunks | ai_tutor_bot/utils/text_processor.py:32-44 | every chunk is the space-join of a non-empty group of sentences and has at least one word |
| TextProcessor.PackedNonEmpty | ai_tutor_bot/utils/text_processor.py:43-44 | no chunk of a packing is empty |
| TextProcessor.ChunkText | ai_tutor_bot/utils/text_processor.py:10-46 | `chunk_text` returns `ChunkedText` of its text and the split pieces: none for an empty text |
| TextProcessor.FirstSubject | ai_tutor_bot/utils/text_processor.py:61-65 | the subject is the first one with a keyword in the lowered text, or "general" when there is none |
| TextProcessor.SubjectNames | ai_tutor_bot/utils/text_processor.py:53-61 | the four subject names are distinct, and none is "general" |
| TextProcessor.DetectSubjectGeneral | ai_tutor_bot/utils/text_processor.py:61-65 | the subject is "general" exactly when no keyword occurs in the lowered text |
| TextProcessor.DetectSubjectIs | ai_tutor_bot/utils/text_processor.py:62-65 | the subject is subject `k` exactly when one of its keywords occurs and none of any earlier subject does |
| TextProcessor.PhNeverMatches | ai_tutor_bot/utils/text_processor.py:56-63 | the keyword "pH" never occurs in lowered text, so chemistry is detected by its other four keywords alone |
| TextProcessor.ScanSubjects | ai_tutor_bot/utils/text_processor.py:60-67 | the scan returns the detected subject |
| TextProcessor.ExtractMetadata | ai_tutor_bot/utils/text_processor.py:49-91 | the metadata always has the subject; it has `concepts` exactly when some pattern matched, holding distinct candidates, as many as there are up to five, joined by ", " |
| TextProcessor.ConceptsRoundTrip | ai_tutor_bot/utils/text_processor.py:84-86 | splitting the joined concepts at ", " gives the selection back when no candidate contains ", "; there are one to five of them |
| Tutor.VectorIdInjective | agents/tutor_agent.py:72 | the vector id `"{id}_{idx}"` determines the document id and the index |
| Tutor.NonBlankKeeps | agents/tutor_agent.py:50 | the filter keeps only input chunks, none of them blank |
| Tutor.NonBlankIdentity | agents/tutor_agent.py:50 | the filter drops nothing from a list with no blank chunk |
| Tutor.DocumentChunksAreChunkedText | agents/tutor_agent.py:47-50 | the filter after `chunk_text` drops nothing, since no chunk is blank |
| Tutor.ChunkPlansShape | agents/tutor_agent.py:63-73 | no record without `id`; otherwise one record per chunk that has an embedding, record `idx` with id `"{id}_{idx}"`, embedding `idx`, chunk `idx` and `chunk_id` `str(idx)` |
| Tutor.DocumentPlansShape | agents/tutor_agent.py:41-73 | a document with missing or empty text, no `id`, or a failed encoding gives no record; otherwise records as for its chunks |
| Tutor.PlansAppend | agents/tutor_agent.py:41-76 | documents are ingested independently: the records of two lists are those of each, in order |
| Tutor.RecordForChunk | agents/tutor_agent.py:65-73 | the record built for a chunk is the planned one with the chunk's extracted metadata merged in |
| Tutor.QuestionIsValidIff | agents/tutor_agent.py:84 | a question is valid exactly when it has a non-whitespace character |
| Tutor.ConceptFilterSpec | agents/tutor_agent.py:106-112 | a filter is built exactly when the user has a known concept; it has one `$contains` clause per known concept and no other |
| Tutor.RetrieveSpec | agents/tutor_agent.py:115-124 | a raising first query gives no matches and no retry; a non-empty first result is kept; an empty one is replaced by the unfiltered retry's result, or none if the retry raises |
| Tutor.ResultConceptsUnion | agents/tutor_agent.py:137-141 | a concept is collected exactly when some match's ", "-split `concepts` entry lists it |
| Tutor.MatchConceptsOfSelection | agents/tutor_agent.py:137-141 | reading back a `concepts` entry that `extract_metadata` wrote gives exactly the concepts it selected, when no candidate contains ", "; a selection that is the single empty concept reads back as no concept |
| Tutor.ContextSpec | agents/tutor_agent.py:148 | every match's text occurs in the context, and splitting the context at newlines gives the texts back when none holds a newline |
| Tutor.SourcesSpec | agents/tutor_agent.py:175 | the sources are the matches' sources, each once, no more of them than matches |
| Tutor.RankingSpec | agents/tutor_agent.py:143-144 | the prioritized concepts hold each collected concept once, ordered due first and then by name |
| Tutor.RankingOfAnyOrder | agents/tutor_agent.py:143-144 | whatever order `list(set)` gives, `get_learning_context` returns the same ranking |
| Tutor.TopTwoDistinct | agents/tutor_agent.py:158 | the first two prioritized concepts are distinct |
| Tutor.ReinforceHistory | agents/tutor_agent.py:158-159 | updating distinct concepts appends one review at `now` to each of their histories and changes no other history |
| Tutor.ReinforceWellFormed | agents/tutor_agent.py:158-159 | the updates keep every recorded concept non-empty |
| Tutor.RespondFixedReplies | agents/tutor_agent.py:84-134 | blank question, failed embedding or no matches: the fixed answer, no context, concepts or sources, relevance 0, no update |
| Tutor.RespondAnswered | agents/tutor_agent.py:137-176 | with matches: the concepts are the ranked union; the context is the texts joined by newlines; the answer is the pipeline's or the fixed apology; the sources are the matches' sources; exactly the first two concepts get one review |
| Tutor.AnsweredReinforcesAtMostTwo | agents/tutor_agent.py:137-176 | from the matches on, at most two distinct concepts are updated, the first two reported when a reply is returned |
| Tutor.RespondReinforcesAtMostTwo | agents/tutor_agent.py:83-176 | whatever the outcome, at most two distinct concepts are updated, the progress is their updates, and on a reply they are the first two of its concepts |
| Tutor.TutorAgent.constructor | agents/tutor_agent.py:17-26 | a new agent has its collaborators and a fresh learning system with no progress |
| Tutor.TutorAgent.ChunkVectors | agents/tutor_agent.py:63-75 | the records of a document's chunks are the planned ones, with `extract_metadata`'s output merged in |
| Tutor.TutorAgent.DocumentVectors | agents/tutor_agent.py:42-75 | one document's records are its planned ones: none when it is skipped |
| Tutor.TutorAgent.IngestDocuments | agents/tutor_agent.py:39-81 | the one upsert receives the records of all documents in order, and it happens exactly when some record was produced |
| Tutor.TutorAgent.RetrieveMatches | agents/tutor_agent.py:115-124 | the retrieval step returns the specified matches |
| Tutor.TutorAgent.CollectConcepts | agents/tutor_agent.py:137-141 | the loop collects the union of the matches' concepts |
| Tutor.TutorAgent.ReinforceTop | agents/tutor_agent.py:158-159 | the loop calls `update_progress` once per concept in order |
| Tutor.TutorAgent.AnswerFrom | agents/tutor_agent.py:137-176 | from the matches on, the reply and the new progress are those of the specification |
| Tutor.TutorAgent.GenerateResponse | agents/tutor_agent.py:83-176 | the reply and the new progress are those of `Respond` for the old progress |
| Tutor.TutorAgent.HandleQuery | agents/tutor_agent.py:178-194 | an exception becomes the fixed error reply; the latency and the user id are always attached; the progress is that of `generate_response` |

## Left out

- Regular expressions. The sentence split (ai_tutor_bot/utils/text_processor.py:16-17) and
  the three `re.findall` patterns (72-80) are inputs: the pieces and matches they return. The
  strip-and-filter of line 18 and everything after it is modelled.
- `str.lower()` covers ASCII letters only; whitespace is the set `str.isspace()` accepts.
- Text that is not a string (the `isinstance` checks): a document's `text` that is missing or
  not a string is `None`, and a question is a string.
- Exceptions inside `extract_metadata`. With the patterns abstract, nothing in the modelled code
  raises, so its `except` branch is not modelled.
- The theorem pattern appends group 1, the optional `'s`, and not the theorem's name
  (line 77). This is modelled as written.
- Order of Python sets and dictionaries:
  - `list(set(concepts))[:5]` takes any distinct candidates, as many as there are up to five.
  - `list(context_concepts)` is any enumeration; `RankingOfAnyOrder` shows the ranking does not
    depend on it.
  - the `sources` list and the `$or` clauses are sets;
  - metadata dictionaries are maps without key order.
- Floating point: the cosine similarity is an abstract collaborator returning a `real`; numpy
  reshaping and conversion are not modelled.
- Model loading, device choice and the tokenizer (agents/tutor_agent.py:17-37). The
  constructor takes the collaborators instead.
- `async`/`await`: calls run in sequence, with no concurrency.
- The vector store:
  - `IngestDocuments` returns the batch handed to `async_upsert` instead of calling it;
  - an upsert that raises is not modelled;
  - ai_tutor_bot/db/vector_db.py is not part of this model.
- Clock:
  - `datetime.now()` is the parameter `now`, in whole seconds;
  - one `now` serves every `update_progress` call of a request, where Python reads the clock
    once per call;
  - `get_learning_context` ranks every candidate against the same `now`, where Python reads the
    clock once per candidate (ai_tutor_bot/utils/adaptive_learning.py:37), so candidates with the
    same history could get slightly different priorities there;
  - `handle_query`'s latency is the difference of two given times.
- Logging, and main.py.
- A match whose `metadata` key is missing: every match carries metadata.
- TextProcessor.ExtractMetadata: states which distinct concepts may be selected and how they are
  joined, but not which ones, because Python's set order is unspecified.
- Tutor.TutorAgent.IngestDocuments: states each record's id, embedding, base metadata and chunk
  exactly. Of the merged metadata it states only that it satisfies `extract_metadata`'s
  contract, for the same reason.
