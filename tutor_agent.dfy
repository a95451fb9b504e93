/** The retrieval orchestrator (agents/tutor_agent.py): ingestion of documents as chunk vectors,
    and the answer to a question built from the chunks the vector store retrieves, reinforcing the
    learner's top concepts. The embedding model, the question-answering model and the vector store
    are collaborators given as functions that return a value or fail (raise). */
module Tutor {
  import opened Wrappers
  import opened PyBuiltins
  import Config
  import opened AdaptiveLearning
  import opened TextProcessor

  // ---------------------------------------------------------------------------------------------
  // Collaborators

  /** An embedding, as `tolist()` returns it. */
  type Vector = seq<real>

  /** A document to ingest. A field is `None` when its key is missing; for `text` also when the
      value is not a string. */
  datatype Document = Document(id: Option<string>, source: Option<string>, text: Option<string>)

  /** The regular expressions of the text processor: what `re.split` cuts a text into at sentence
      ends, and what the formula, theorem and term patterns of `re.findall` report. */
  datatype Patterns = Patterns(
    sentences: string -> seq<string>,
    formulas: string -> seq<string>,
    theorems: string -> seq<(string, string)>,
    terms: string -> seq<string>)

  /** `{"concepts": {"$contains": value}}`. */
  datatype Clause = Contains(field: string, value: string)

  /** `{"$or": clauses}`. */
  datatype Filter = AnyOf(clauses: set<Clause>)

  /** A hit of the vector store: its metadata. */
  datatype Match = Match(metadata: map<string, string>)

  /** The embedding model (`encode` of a list of texts), the store's query, the question-answering
      pipeline (question, context) and the cosine similarity of two embeddings. */
  datatype Services = Services(
    encode: seq<string> -> Result<seq<Vector>>,
    query: (Vector, Option<Filter>) -> Result<seq<Match>>,
    answer: (string, string) -> Result<string>,
    cosine: (Vector, Vector) -> Result<real>)

  /** `encode([text])[0]`: fails when the model raises or returns no embedding. */
  function TextEmbedding(services: Services, text: string): Result<Vector> {
    match services.encode([text])
    case Success(vs) => if vs != [] then Success(vs[0]) else Failure
    case Failure => Failure
  }

  // ---------------------------------------------------------------------------------------------
  // Ingestion

  /** `f"{doc_id}_{idx}"`. */
  function VectorId(docId: string, idx: nat): string {
    docId + "_" + NatToString(idx)
  }

  /** Different (document, index) pairs get different vector ids: the index has no underscore, so
      the last underscore separates the two. */
  lemma VectorIdInjective(a: string, i: nat, b: string, j: nat)
    requires VectorId(a, i) == VectorId(b, j)
    ensures a == b && i == j
  {
    var s := NatToString(i);
    var t := NatToString(j);
    var w := VectorId(a, i);
    assert w == a + "_" + s && w == b + "_" + t;
    assert w[|a|] == '_' && w[|b|] == '_';
    assert a == w[..|a|] == b;
    assert s == w[|a| + 1..] == t;
    NatToStringInjective(i, j);
  }

  /** `[chunk for chunk in chunks if chunk.strip()]`. */
  function NonBlank(chunks: seq<string>): seq<string>
    decreases |chunks|
  {
    if chunks == [] then []
    else (if Strip(chunks[0]) != [] then [chunks[0]] else []) + NonBlank(chunks[1..])
  }

  /** The filter keeps only chunks of its input, and none of them is blank. */
  lemma {:induction false} NonBlankKeeps(chunks: seq<string>)
    ensures forall c :: c in NonBlank(chunks) ==> c in chunks && !IsBlank(c)
    decreases |chunks|
  {
    if chunks != [] {
      NonBlankKeeps(chunks[1..]);
      var h := chunks[0];
      var t := NonBlank(chunks[1..]);
      assert NonBlank(chunks) == (if Strip(h) != [] then [h] else []) + t;
      forall c | c in NonBlank(chunks) ensures c in chunks && !IsBlank(c) {
        if c in t { assert c in chunks[1..]; } else { assert c == h && Strip(h) != []; }
      }
    }
  }

  /** The filter drops nothing from a list with no blank chunk. */
  lemma {:induction false} NonBlankIdentity(chunks: seq<string>)
    requires forall c :: c in chunks ==> !IsBlank(c)
    ensures NonBlank(chunks) == chunks
    decreases |chunks|
  {
    if chunks != [] {
      forall c | c in chunks[1..] ensures !IsBlank(c) {
        assert c in chunks;
      }
      NonBlankIdentity(chunks[1..]);
      assert chunks[0] in chunks && Strip(chunks[0]) != [];
      HeadTail(chunks);
    }
  }

  lemma HeadTail<T>(xs: seq<T>)
    requires xs != []
    ensures [xs[0]] + xs[1..] == xs
  {
  }

  /** The chunks of a document's text that are embedded: none for a missing or empty text. */
  function DocumentChunks(doc: Document, patterns: Patterns): seq<string> {
    if doc.text.None? || doc.text.value == "" then []
    else
      var text := doc.text.value;
      NonBlank(ChunkedText(text, patterns.sentences(text), Config.ChunkSize, Config.ChunkOverlap))
  }

  /** The filter of blank chunks drops nothing: no chunk `chunk_text` makes is blank. */
  lemma DocumentChunksAreChunkedText(doc: Document, patterns: Patterns)
    requires doc.text.Some? && doc.text.value != ""
    ensures var text := doc.text.value;
      DocumentChunks(doc, patterns) == ChunkedText(text, patterns.sentences(text), Config.ChunkSize, Config.ChunkOverlap)
  {
    var text := doc.text.value;
    var chunks := ChunkedText(text, patterns.sentences(text), Config.ChunkSize, Config.ChunkOverlap);
    forall c | c in chunks ensures !IsBlank(c) {
      var k :| 0 <= k < |chunks| && chunks[k] == c;
      ChunkedTextChunks(text, patterns.sentences(text), Config.ChunkSize, Config.ChunkOverlap, k);
      WordCountZeroIffBlank(c);
    }
    NonBlankIdentity(chunks);
  }

  /** The metadata a chunk record starts with; the text processor's metadata is merged into it. */
  function BaseMetadata(doc: Document, idx: nat, chunk: string): map<string, string> {
    map["source" := doc.source.GetOr(""), "doc_id" := doc.id.GetOr(""), "chunk_id" := NatToString(idx), "text" := chunk]
  }

  /** A vector to store: id, embedding and metadata. */
  datatype VectorRecord = VectorRecord(id: string, embedding: Vector, metadata: map<string, string>)

  /** A record ingestion produces, but for the subject and concept metadata of its chunk, which
      `extract_metadata` chooses (its order of concepts is not fixed). */
  datatype Planned = Planned(id: string, embedding: Vector, base: map<string, string>, chunk: string)

  /** The records of one document: chunk `idx` paired with embedding `idx` as `zip` pairs them,
      none when the document has no `id` (its `doc['id']` raises for every chunk). */
  function ChunkPlans(doc: Document, chunks: seq<string>, embeddings: seq<Vector>): seq<Planned> {
    if doc.id.None? then []
    else
      seq(Min(|chunks|, |embeddings|), idx requires 0 <= idx < Min(|chunks|, |embeddings|) =>
        Planned(VectorId(doc.id.value, idx), embeddings[idx], BaseMetadata(doc, idx, chunks[idx]), chunks[idx]))
  }

  /** The records of one document; none when its text is missing or empty, when no chunk is left,
      or when embedding the chunks fails. */
  function DocumentPlans(doc: Document, services: Services, patterns: Patterns): seq<Planned> {
    var chunks := DocumentChunks(doc, patterns);
    if chunks == [] then []
    else
      match services.encode(chunks)
      case Failure => []
      case Success(embeddings) => ChunkPlans(doc, chunks, embeddings)
  }

  /** `f(xs[0]) + f(xs[1]) + ...`. */
  function FlatMap<T, U>(xs: seq<T>, f: T -> seq<U>): seq<U>
    decreases |xs|
  {
    if xs == [] then [] else f(xs[0]) + FlatMap(xs[1..], f)
  }

  lemma {:induction false} FlatMapAppend<T, U>(xs: seq<T>, ys: seq<T>, f: T -> seq<U>)
    ensures FlatMap(xs + ys, f) == FlatMap(xs, f) + FlatMap(ys, f)
    decreases |xs|
  {
    if xs == [] {
      assert xs + ys == ys;
    } else {
      assert (xs + ys)[0] == xs[0] && (xs + ys)[1..] == xs[1..] + ys;
      FlatMapAppend(xs[1..], ys, f);
    }
  }

  lemma FlatMapSnoc<T, U>(xs: seq<T>, d: nat, f: T -> seq<U>)
    requires d < |xs|
    ensures FlatMap(xs[..d + 1], f) == FlatMap(xs[..d], f) + f(xs[d])
  {
    FlatMapAppend(xs[..d], [xs[d]], f);
    assert xs[..d + 1] == xs[..d] + [xs[d]];
    assert [xs[d]][1..] == [];
  }

  /** The records of a list of documents, in order. */
  function Plans(docs: seq<Document>, services: Services, patterns: Patterns): seq<Planned> {
    FlatMap(docs, doc => DocumentPlans(doc, services, patterns))
  }

  /** Documents are handled independently: the records of two lists are those of each, and those
      of one document are its own. */
  lemma PlansAppend(d1: seq<Document>, d2: seq<Document>, services: Services, patterns: Patterns)
    ensures Plans(d1 + d2, services, patterns) == Plans(d1, services, patterns) + Plans(d2, services, patterns)
    ensures |d2| == 1 ==> Plans(d2, services, patterns) == DocumentPlans(d2[0], services, patterns)
  {
    FlatMapAppend(d1, d2, doc => DocumentPlans(doc, services, patterns));
    if |d2| == 1 {
      assert d2[1..] == [];
    }
  }

  /** A document contributes nothing when its text is missing or empty, when it has no `id`, or
      when the embedding fails; otherwise record `idx` carries id `"{id}_{idx}"`, embedding `idx`
      and chunk `idx`, for each chunk that has an embedding. */
  lemma DocumentPlansShape(doc: Document, services: Services, patterns: Patterns)
    ensures doc.text.None? || doc.text.value == "" || doc.id.None? ==> DocumentPlans(doc, services, patterns) == []
    ensures services.encode(DocumentChunks(doc, patterns)).Failure? ==> DocumentPlans(doc, services, patterns) == []
    ensures var plans := DocumentPlans(doc, services, patterns);
      var chunks := DocumentChunks(doc, patterns);
      plans != [] ==>
        && doc.id.Some? && services.encode(chunks).Success?
        && |plans| == Min(|chunks|, |services.encode(chunks).value|)
        && forall idx :: 0 <= idx < |plans| ==>
             && plans[idx].id == VectorId(doc.id.value, idx)
             && plans[idx].chunk == chunks[idx]
             && plans[idx].embedding == services.encode(chunks).value[idx]
             && plans[idx].base["chunk_id"] == NatToString(idx)
  {
    var chunks := DocumentChunks(doc, patterns);
    if chunks != [] && services.encode(chunks).Success? {
      ChunkPlansShape(doc, chunks, services.encode(chunks).value);
    }
  }

  lemma ChunkPlansShape(doc: Document, chunks: seq<string>, embeddings: seq<Vector>)
    ensures var plans := ChunkPlans(doc, chunks, embeddings);
      && (doc.id.None? ==> plans == [])
      && (doc.id.Some? ==> |plans| == Min(|chunks|, |embeddings|))
      && forall idx :: 0 <= idx < |plans| ==>
           && plans[idx].id == VectorId(doc.id.value, idx)
           && plans[idx].chunk == chunks[idx]
           && plans[idx].embedding == embeddings[idx]
           && plans[idx].base["chunk_id"] == NatToString(idx)
  {
  }

  /** `record` is `plan` with the metadata of its chunk merged in. */
  ghost predicate RecordFor(plan: Planned, record: VectorRecord, patterns: Patterns) {
    var c := plan.chunk;
    && record.id == plan.id
    && record.embedding == plan.embedding
    && exists extracted :: ExtractedFrom(extracted, c, patterns.formulas(c), patterns.theorems(c), patterns.terms(c))
         && record.metadata == plan.base + extracted
  }

  /** `records` are the planned records, one for one and in order. */
  ghost predicate Stored(plans: seq<Planned>, records: seq<VectorRecord>, patterns: Patterns) {
    |records| == |plans| && forall k :: 0 <= k < |plans| ==> RecordFor(plans[k], records[k], patterns)
  }

  lemma StoredAppend(p1: seq<Planned>, r1: seq<VectorRecord>, p2: seq<Planned>, r2: seq<VectorRecord>, patterns: Patterns)
    requires Stored(p1, r1, patterns) && Stored(p2, r2, patterns)
    ensures Stored(p1 + p2, r1 + r2, patterns)
  {
    forall k | 0 <= k < |p1 + p2| ensures RecordFor((p1 + p2)[k], (r1 + r2)[k], patterns) {
      if k < |p1| {
        assert (p1 + p2)[k] == p1[k] && (r1 + r2)[k] == r1[k];
      } else {
        assert (p1 + p2)[k] == p2[k - |p1|] && (r1 + r2)[k] == r2[k - |p1|];
      }
    }
  }

  /** The planned records of the documents up to `d + 1` are those up to `d`, then those of
      document `d`. */
  lemma PlansSnoc(docs: seq<Document>, d: nat, services: Services, patterns: Patterns)
    requires d < |docs|
    ensures Plans(docs[..d + 1], services, patterns) == Plans(docs[..d], services, patterns) + DocumentPlans(docs[d], services, patterns)
  {
    FlatMapSnoc(docs, d, doc => DocumentPlans(doc, services, patterns));
  }

  /** The record built for chunk `idx` from its extracted metadata is the planned one. */
  lemma RecordForChunk(doc: Document, chunks: seq<string>, embeddings: seq<Vector>, idx: nat,
                       extracted: map<string, string>, patterns: Patterns)
    requires doc.id.Some? && idx < Min(|chunks|, |embeddings|)
    requires var c := chunks[idx]; ExtractedFrom(extracted, c, patterns.formulas(c), patterns.theorems(c), patterns.terms(c))
    ensures RecordFor(ChunkPlans(doc, chunks, embeddings)[idx],
                      VectorRecord(VectorId(doc.id.value, idx), embeddings[idx], BaseMetadata(doc, idx, chunks[idx]) + extracted),
                      patterns)
  {
    assert ChunkPlans(doc, chunks, embeddings)[idx]
      == Planned(VectorId(doc.id.value, idx), embeddings[idx], BaseMetadata(doc, idx, chunks[idx]), chunks[idx]);
  }

  /** One more record, for the next planned one, extends the stored prefix. */
  lemma StoredStep(plans: seq<Planned>, idx: nat, records: seq<VectorRecord>, record: VectorRecord, patterns: Patterns)
    requires idx < |plans| && Stored(plans[..idx], records, patterns) && RecordFor(plans[idx], record, patterns)
    ensures Stored(plans[..idx + 1], records + [record], patterns)
  {
    StoredAppend(plans[..idx], records, [plans[idx]], [record], patterns);
    assert plans[..idx + 1] == plans[..idx] + [plans[idx]];
  }

  // ---------------------------------------------------------------------------------------------
  // Answering: the pure steps

  /** `query and query.strip()`. */
  predicate QuestionIsValid(query: string) {
    Strip(query) != []
  }

  /** A question is valid exactly when it has a character that is not whitespace. */
  lemma QuestionIsValidIff(query: string)
    ensures QuestionIsValid(query) <==> exists i :: 0 <= i < |query| && !IsSpace(query[i])
  {
  }

  const InvalidQuestion: string := "Please provide a valid question"
  const NotProcessed: string := "I couldn't process your question"
  const NotFound: string := "I couldn't find relevant information to answer your question"
  const NoAnswer: string := "I couldn't generate an answer for that question. Please try again."
  const Failed: string := "I encountered an error processing your request"

  /** The dictionary `generate_response` returns. The sources are `list(set(...))`, whose order
      Python does not fix: they are a set here. */
  datatype Response = Response(answer: string, context: string, concepts: seq<string>, relevance: real, sources: set<string>)

  /** A fixed reply: no context, concepts or sources, relevance 0. */
  function Fallback(answer: string): Response {
    Response(answer, "", [], 0.0, {})
  }

  /** The concepts the user has reviewed: `user_progress.get(user_id, {}).keys()`. */
  function KnownConcepts(p: Progress, user: string): set<string> {
    if user in p then p[user].Keys else {}
  }

  /** The store filter: one `$contains` clause per known concept, or none when the user knows no
      concept. */
  function ConceptFilter(p: Progress, user: string): Option<Filter> {
    var known := KnownConcepts(p, user);
    if known == {} then None else Some(AnyOf(set c | c in known :: Contains("concepts", c)))
  }

  /** A filter is built exactly when the user knows some concept, and its clauses are the
      `$contains` tests of the known concepts, one for each. */
  lemma ConceptFilterSpec(p: Progress, user: string)
    ensures ConceptFilter(p, user).Some? <==> KnownConcepts(p, user) != {}
    ensures ConceptFilter(p, user).Some? ==>
      forall cl :: cl in ConceptFilter(p, user).value.clauses <==> cl.field == "concepts" && cl.value in KnownConcepts(p, user)
  {
  }

  /** The matches retrieved: those of the filtered query, or when it returns none those of a
      second, unfiltered one; none when a query raises. */
  function Retrieve(services: Services, embedding: Vector, filter: Option<Filter>): seq<Match> {
    match services.query(embedding, filter)
    case Failure => []
    case Success(first) =>
      if first != [] then first
      else
        match services.query(embedding, None)
        case Failure => []
        case Success(second) => second
  }

  /** The first query's matches are kept when there are some; the unfiltered query is made
      exactly when the first one succeeds with no match, and its matches are kept; a raising query
      leaves none. Without a filter the retry repeats the first query. */
  lemma RetrieveSpec(services: Services, embedding: Vector, filter: Option<Filter>)
    ensures services.query(embedding, filter).Failure? ==> Retrieve(services, embedding, filter) == []
    ensures services.query(embedding, filter).Success? && services.query(embedding, filter).value != [] ==>
      Retrieve(services, embedding, filter) == services.query(embedding, filter).value
    ensures services.query(embedding, filter) == Success([]) ==>
      Retrieve(services, embedding, filter) == (if services.query(embedding, None).Success? then services.query(embedding, None).value else [])
    ensures filter == None ==>
      Retrieve(services, embedding, filter) == (if services.query(embedding, None).Success? then services.query(embedding, None).value else [])
  {
  }

  /** The concepts a match lists: its `concepts` entry split on ", ", none when the entry is
      missing or empty. */
  function MatchConcepts(m: Match): set<string> {
    var c := if "concepts" in m.metadata then m.metadata["concepts"] else "";
    if c == "" then {} else set x | x in Split(c, ", ")
  }

  /** The union of the matches' concepts, `context_concepts`. */
  function ResultConcepts(rs: seq<Match>): set<string>
    decreases |rs|
  {
    if rs == [] then {} else ResultConcepts(rs[..|rs| - 1]) + MatchConcepts(rs[|rs| - 1])
  }

  /** A concept is in the union exactly when some match lists it. */
  lemma ResultConceptsUnion(rs: seq<Match>)
    ensures forall x :: x in ResultConcepts(rs) <==> exists k :: 0 <= k < |rs| && x in MatchConcepts(rs[k])
  {
    forall x {
      ResultConceptsMember(rs, x);
    }
  }

  lemma {:induction false} ResultConceptsMember(rs: seq<Match>, x: string)
    ensures x in ResultConcepts(rs) <==> exists k :: 0 <= k < |rs| && x in MatchConcepts(rs[k])
    decreases |rs|
  {
    if rs != [] {
      var init := rs[..|rs| - 1];
      ResultConceptsMember(init, x);
      if x in ResultConcepts(init) {
        var k :| 0 <= k < |init| && x in MatchConcepts(init[k]);
        assert init[k] == rs[k];
      } else if x !in MatchConcepts(rs[|rs| - 1]) {
        forall k | 0 <= k < |rs| ensures x !in MatchConcepts(rs[k]) {
          if k < |rs| - 1 {
            assert init[k] == rs[k];
          }
        }
      }
    }
  }

  /** Read back, the `concepts` entry `extract_metadata` writes gives the selected concepts when no
      candidate contains ", ", except that a lone empty concept reads back as none. */
  lemma MatchConceptsOfSelection(m: Match, all: seq<string>, picked: seq<string>)
    requires ConceptSelection(all, picked) && all != []
    requires forall x :: x in all ==> !IsSubstring(", ", x)
    requires "concepts" in m.metadata && m.metadata["concepts"] == Join(picked, ", ")
    ensures picked != [""] ==> MatchConcepts(m) == set x | x in picked
    ensures picked == [""] ==> MatchConcepts(m) == {}
  {
    ConceptsRoundTrip(all, picked);
    if |picked| == 1 {
      assert Join(picked, ", ") == picked[0];
      assert picked[0] == "" ==> picked == [""];
    } else {
      assert Join(picked, ", ") == picked[0] + ", " + Join(picked[1..], ", ");
    }
  }

  /** Every match carries metadata `key`. */
  predicate AllHave(rs: seq<Match>, key: string) {
    forall k :: 0 <= k < |rs| ==> key in rs[k].metadata
  }

  /** `[res["metadata"]["text"] for res in results]`. */
  function Texts(rs: seq<Match>): seq<string>
    requires AllHave(rs, "text")
  {
    seq(|rs|, k requires 0 <= k < |rs| && AllHave(rs, "text") => rs[k].metadata["text"])
  }

  /** The context: the matches' texts joined by newlines. */
  function Context(rs: seq<Match>): string
    requires AllHave(rs, "text")
  {
    Join(Texts(rs), "\n")
  }

  /** The context holds every match's text, and splitting it at newlines gives the texts back
      when none of them holds a newline. */
  lemma ContextSpec(rs: seq<Match>)
    requires AllHave(rs, "text")
    ensures forall k :: 0 <= k < |rs| ==> IsSubstring(rs[k].metadata["text"], Context(rs))
    ensures rs != [] && (forall k, i :: 0 <= k < |rs| && 0 <= i < |rs[k].metadata["text"]| ==> rs[k].metadata["text"][i] != '\n')
      ==> Split(Context(rs), "\n") == Texts(rs)
  {
    var texts := Texts(rs);
    forall k | 0 <= k < |rs| ensures IsSubstring(rs[k].metadata["text"], Context(rs)) {
      JoinContainsPart(texts, "\n", k);
    }
    if rs != [] && (forall k, i :: 0 <= k < |rs| && 0 <= i < |rs[k].metadata["text"]| ==> rs[k].metadata["text"][i] != '\n') {
      forall k | 0 <= k < |texts| ensures SepFree(texts[k], "\n") {
        CharFree(texts[k], '\n');
      }
      SplitJoin(texts, "\n");
    }
  }

  /** `set(res["metadata"]["source"] for res in results)`. */
  function Sources(rs: seq<Match>): set<string>
    requires AllHave(rs, "source")
  {
    set k | 0 <= k < |rs| :: rs[k].metadata["source"]
  }

  /** Each match's source is reported, once, and nothing else is. */
  lemma SourcesSpec(rs: seq<Match>)
    requires AllHave(rs, "source")
    ensures forall s :: s in Sources(rs) <==> exists k :: 0 <= k < |rs| && rs[k].metadata["source"] == s
    ensures |Sources(rs)| <= |rs|
  {
    SourcesBound(rs);
  }

  lemma {:induction false} SourcesBound(rs: seq<Match>)
    requires AllHave(rs, "source")
    ensures |Sources(rs)| <= |rs|
    decreases |rs|
  {
    if rs != [] {
      var init := rs[..|rs| - 1];
      SourcesBound(init);
      assert Sources(rs) == Sources(init) + {rs[|rs| - 1].metadata["source"]} by {
        forall s ensures s in Sources(rs) <==> s in Sources(init) + {rs[|rs| - 1].metadata["source"]} {
          if s in Sources(rs) {
            var k :| 0 <= k < |rs| && rs[k].metadata["source"] == s;
            if k < |rs| - 1 {
              assert init[k] == rs[k];
            }
          }
          if s in Sources(init) {
            var k :| 0 <= k < |init| && init[k].metadata["source"] == s;
            assert rs[k] == init[k];
          }
        }
      }
    }
  }

  /** The relevance score: the cosine similarity of the question's and the answer's embeddings, or
      0 when either step fails. */
  function Relevance(services: Services, queryEmbedding: Vector, answer: string): real {
    match TextEmbedding(services, answer)
    case Failure => 0.0
    case Success(a) =>
      match services.cosine(queryEmbedding, a)
      case Success(score) => score
      case Failure => 0.0
  }

  /** The answer text: the pipeline's answer, or the fixed apology when it raises. */
  function AnswerText(services: Services, query: string, context: string): string {
    match services.answer(query, context)
    case Success(a) => a
    case Failure => NoAnswer
  }

  // ---------------------------------------------------------------------------------------------
  // Ranking the retrieved concepts

  /** Some list of the elements of `s`, each once. */
  ghost function SomeEnumeration(s: set<string>): (xs: seq<string>)
    ensures multiset(xs) == multiset(s)
    decreases |s|
  {
    if s == {} then []
    else
      var x :| x in s;
      assert multiset(s) == multiset(s - {x}) + multiset{x};
      SomeEnumeration(s - {x}) + [x]
  }

  /** `get_learning_context` of `list(concepts)`: the ranking of the set's concepts, each once. */
  ghost function Ranking(p: Progress, user: string, concepts: set<string>, now: Timestamp): seq<string>
    requires WellFormed(p)
  {
    RankedConcepts(p, user, SomeEnumeration(concepts), now)
  }

  /** The ranking holds each concept of the set once, in `ConceptBefore` order. */
  lemma RankingSpec(p: Progress, user: string, concepts: set<string>, now: Timestamp)
    requires WellFormed(p)
    ensures IsRanking(p, user, now, SomeEnumeration(concepts), Ranking(p, user, concepts, now))
    ensures multiset(Ranking(p, user, concepts, now)) == multiset(concepts)
    ensures Ordered(p, user, now, Ranking(p, user, concepts, now))
  {
    RankedConceptsIsRanking(p, user, SomeEnumeration(concepts), now);
  }

  /** Whatever order `list(set)` lists the concepts in, `get_learning_context` ranks them the
      same way. */
  lemma RankingOfAnyOrder(p: Progress, user: string, concepts: set<string>, order: seq<string>, now: Timestamp)
    requires WellFormed(p) && multiset(order) == multiset(concepts)
    ensures RankedConcepts(p, user, order, now) == Ranking(p, user, concepts, now)
  {
    RankedConceptsIsRanking(p, user, order, now);
    RankingSpec(p, user, concepts, now);
    RankingUnique(p, user, now, order, RankedConcepts(p, user, order, now), Ranking(p, user, concepts, now));
  }

  /** A list holding each element of a set once has no repeated element. */
  lemma SetMultisetDistinct(r: seq<string>, s: set<string>)
    requires multiset(r) == multiset(s)
    ensures Distinct(r)
  {
    forall i, j | 0 <= i < j < |r| ensures r[i] != r[j] {
      var x := r[j];
      assert r == r[..j] + r[j..];
      assert r[j..][0] == x;
      assert multiset(r)[x] == multiset(r[..j])[x] + multiset(r[j..])[x];
      assert multiset(r[..j])[x] == 0;
      assert r[..j][i] == r[i];
    }
  }

  /** The first two concepts of a ranking of a set are distinct. */
  lemma TopTwoDistinct(ranked: seq<string>, s: set<string>)
    requires multiset(ranked) == multiset(s)
    ensures Distinct(ranked[..Min(2, |ranked|)])
  {
    SetMultisetDistinct(ranked, s);
    var top := ranked[..Min(2, |ranked|)];
    forall i, j | 0 <= i < j < |top| ensures top[i] != top[j] {
      assert top[i] == ranked[i] && top[j] == ranked[j];
    }
  }

  // ---------------------------------------------------------------------------------------------
  // Reinforcing concepts

  /** The progress after `update_progress(user, c)` for each `c` of `concepts` in turn. */
  function Reinforce(p: Progress, user: string, concepts: seq<string>, now: Timestamp): Progress
    decreases |concepts|
  {
    if concepts == [] then p
    else RecordReview(Reinforce(p, user, concepts[..|concepts| - 1], now), user, concepts[|concepts| - 1], now)
  }

  /** Reinforcing distinct concepts appends one review, at `now`, to each of their histories for
      `user`, and changes no other history. */
  lemma {:induction false} ReinforceHistory(p: Progress, user: string, concepts: seq<string>, now: Timestamp, u: string, c: string)
    requires Distinct(concepts)
    ensures History(Reinforce(p, user, concepts, now), u, c)
      == History(p, u, c) + (if u == user && c in concepts then [now] else [])
    decreases |concepts|
  {
    if concepts != [] {
      var init := concepts[..|concepts| - 1];
      var last := concepts[|concepts| - 1];
      assert Distinct(init) by {
        forall i, j | 0 <= i < j < |init| ensures init[i] != init[j] {
          assert init[i] == concepts[i] && init[j] == concepts[j];
        }
      }
      ReinforceHistory(p, user, init, now, u, c);
      RecordReviewOthers(Reinforce(p, user, init, now), user, last, now);
      MemberInitLast(concepts, c);
    }
  }

  /** An element of a non-empty list is in all but its last element, or is the last. */
  lemma MemberInitLast<T>(xs: seq<T>, y: T)
    requires xs != []
    ensures y in xs <==> y in xs[..|xs| - 1] || y == xs[|xs| - 1]
  {
    assert xs == xs[..|xs| - 1] + [xs[|xs| - 1]];
  }

  lemma {:induction false} ReinforceWellFormed(p: Progress, user: string, concepts: seq<string>, now: Timestamp)
    requires WellFormed(p)
    ensures WellFormed(Reinforce(p, user, concepts, now))
    decreases |concepts|
  {
    if concepts != [] {
      var init := concepts[..|concepts| - 1];
      ReinforceWellFormed(p, user, init, now);
      RecordReviewWellFormed(Reinforce(p, user, init, now), user, concepts[|concepts| - 1], now);
    }
  }

  // ---------------------------------------------------------------------------------------------
  // generate_response

  /** The reply to a question, the concepts handed to `update_progress` in order, and the
      progress after it. A `Failure` reply is an exception escaping `generate_response`: a match
      without `text` metadata (before any update), or one without `source` metadata (after the
      updates). */
  datatype Outcome = Outcome(reply: Result<Response>, updated: seq<string>, progress: Progress)

  /** `generate_response(user, query)` with progress `p` at time `now`. */
  ghost function Respond(p: Progress, services: Services, user: string, query: string, now: Timestamp): Outcome
    requires WellFormed(p)
  {
    if !QuestionIsValid(query) then Outcome(Success(Fallback(InvalidQuestion)), [], p)
    else
      match TextEmbedding(services, query)
      case Failure => Outcome(Success(Fallback(NotProcessed)), [], p)
      case Success(e) => Answer(p, services, user, query, e, now)
  }

  /** `generate_response` once the question is embedded as `e`. */
  ghost function Answer(p: Progress, services: Services, user: string, query: string, e: Vector, now: Timestamp): Outcome
    requires WellFormed(p)
  {
    var results := Retrieve(services, e, ConceptFilter(p, user));
    if results == [] then Outcome(Success(Fallback(NotFound)), [], p)
    else Answered(p, services, user, query, e, results, now)
  }

  /** `generate_response` from the retrieved matches `results` on: a match without `text` raises
      before any update, one without `source` after the updates. */
  ghost function Answered(p: Progress, services: Services, user: string, query: string, e: Vector,
                          results: seq<Match>, now: Timestamp): Outcome
    requires WellFormed(p)
  {
    if !AllHave(results, "text") then Outcome(Failure, [], p)
    else Assemble(p, services, user, query, e, results, Ranking(p, user, ResultConcepts(results), now), now)
  }

  /** `generate_response` once the concepts are ranked as `ranked`: the context, the answer,
      the updates of the first two concepts, the relevance and the sources. */
  function Assemble(p: Progress, services: Services, user: string, query: string, e: Vector,
                    results: seq<Match>, ranked: seq<string>, now: Timestamp): Outcome
    requires AllHave(results, "text")
  {
    var context := Context(results);
    var answer := AnswerText(services, query, context);
    var top := ranked[..Min(2, |ranked|)];
    var progress := Reinforce(p, user, top, now);
    if !AllHave(results, "source") then Outcome(Failure, top, progress)
    else Outcome(Success(Response(answer, context, ranked, Relevance(services, e, answer), Sources(results))), top, progress)
  }

  /** The fixed replies: a blank question, a question the model cannot embed, and nothing
      retrieved each give their fixed answer with no context, concepts or sources, relevance 0,
      and change no progress. */
  lemma RespondFixedReplies(p: Progress, services: Services, user: string, query: string, now: Timestamp)
    requires WellFormed(p)
    ensures !QuestionIsValid(query) ==>
      Respond(p, services, user, query, now) == Outcome(Success(Response(InvalidQuestion, "", [], 0.0, {})), [], p)
    ensures QuestionIsValid(query) && TextEmbedding(services, query).Failure? ==>
      Respond(p, services, user, query, now) == Outcome(Success(Response(NotProcessed, "", [], 0.0, {})), [], p)
    ensures (QuestionIsValid(query) && TextEmbedding(services, query).Success?
             && Retrieve(services, TextEmbedding(services, query).value, ConceptFilter(p, user)) == []) ==>
      Respond(p, services, user, query, now) == Outcome(Success(Response(NotFound, "", [], 0.0, {})), [], p)
  {
  }

  /** An answer built from retrieved matches: its concepts are those the matches list, each once,
      due ones first and by name; its context is their texts joined by newlines; its answer is
      the pipeline's or the fixed apology; its sources are the matches' sources; and exactly the
      first two concepts (or fewer) get one review at `now`. */
  lemma RespondAnswered(p: Progress, services: Services, user: string, query: string, now: Timestamp)
    requires WellFormed(p) && QuestionIsValid(query) && TextEmbedding(services, query).Success?
    requires var results := Retrieve(services, TextEmbedding(services, query).value, ConceptFilter(p, user));
      results != [] && AllHave(results, "text") && AllHave(results, "source")
    ensures var results := Retrieve(services, TextEmbedding(services, query).value, ConceptFilter(p, user));
      var o := Respond(p, services, user, query, now);
      && o.reply.Success?
      && multiset(o.reply.value.concepts) == multiset(ResultConcepts(results))
      && Ordered(p, user, now, o.reply.value.concepts)
      && o.reply.value.context == Join(Texts(results), "\n")
      && (services.answer(query, o.reply.value.context).Failure? ==> o.reply.value.answer == NoAnswer)
      && (services.answer(query, o.reply.value.context).Success? ==> o.reply.value.answer == services.answer(query, o.reply.value.context).value)
      && o.reply.value.sources == Sources(results)
      && forall u, c :: History(o.progress, u, c) == History(p, u, c)
           + (if u == user && c in o.reply.value.concepts[..Min(2, |o.reply.value.concepts|)] then [now] else [])
  {
    var results := Retrieve(services, TextEmbedding(services, query).value, ConceptFilter(p, user));
    var ranked := Ranking(p, user, ResultConcepts(results), now);
    RankingSpec(p, user, ResultConcepts(results), now);
    TopTwoDistinct(ranked, ResultConcepts(results));
    var top := ranked[..Min(2, |ranked|)];
    forall u, c ensures History(Reinforce(p, user, top, now), u, c) == History(p, u, c) + (if u == user && c in top then [now] else []) {
      ReinforceHistory(p, user, top, now, u, c);
    }
  }

  /** `update_progress` was called for at most two distinct concepts, and when a reply was
      returned they are the first of the concepts it reports. */
  ghost predicate ReinforcesAtMostTwo(p: Progress, user: string, now: Timestamp, o: Outcome) {
    && |o.updated| <= 2 && Distinct(o.updated)
    && o.progress == Reinforce(p, user, o.updated, now)
    && (o.reply.Success? ==> o.updated == o.reply.value.concepts[..Min(2, |o.reply.value.concepts|)])
  }

  /** From the retrieved matches on, `update_progress` is called for at most two distinct
      concepts, the first two of those reported when a reply is returned. */
  lemma AnsweredReinforcesAtMostTwo(p: Progress, services: Services, user: string, query: string, e: Vector,
                                    results: seq<Match>, now: Timestamp)
    requires WellFormed(p)
    ensures ReinforcesAtMostTwo(p, user, now, Answered(p, services, user, query, e, results, now))
  {
    if AllHave(results, "text") {
      var ranked := Ranking(p, user, ResultConcepts(results), now);
      RankingSpec(p, user, ResultConcepts(results), now);
      TopTwoDistinct(ranked, ResultConcepts(results));
      AssembleReinforces(p, services, user, query, e, results, ranked, now);
    }
  }

  lemma AssembleReinforces(p: Progress, services: Services, user: string, query: string, e: Vector,
                           results: seq<Match>, ranked: seq<string>, now: Timestamp)
    requires AllHave(results, "text") && Distinct(ranked[..Min(2, |ranked|)])
    ensures ReinforcesAtMostTwo(p, user, now, Assemble(p, services, user, query, e, results, ranked, now))
  {
    var o := Assemble(p, services, user, query, e, results, ranked, now);
    var top := ranked[..Min(2, |ranked|)];
    assert o.updated == top && o.progress == Reinforce(p, user, top, now);
    assert o.reply.Success? ==> o.reply.value.concepts == ranked;
  }

  /** However `generate_response` ends, `update_progress` has been called for at most two
      distinct concepts, and when it returns they are the first of the concepts it reports. */
  lemma RespondReinforcesAtMostTwo(p: Progress, services: Services, user: string, query: string, now: Timestamp)
    requires WellFormed(p)
    ensures ReinforcesAtMostTwo(p, user, now, Respond(p, services, user, query, now))
  {
    if QuestionIsValid(query) && TextEmbedding(services, query).Success? {
      var e := TextEmbedding(services, query).value;
      var results := Retrieve(services, e, ConceptFilter(p, user));
      if results != [] {
        AnsweredReinforcesAtMostTwo(p, services, user, query, e, results, now);
        assert Respond(p, services, user, query, now) == Answered(p, services, user, query, e, results, now);
      }
    }
  }

  /** A question answered from the matches, with latency and user attached. */
  datatype Reply = Reply(response: Response, latency: real, userId: string)

  /** The tutor: its collaborators, the text processor's patterns, and the learning system it
      updates. */
  class TutorAgent {
    const services: Services
    const patterns: Patterns
    const learningSystem: AdaptiveLearningSystem

    constructor (services: Services, patterns: Patterns)
      ensures this.services == services && this.patterns == patterns
      ensures fresh(learningSystem) && learningSystem.Valid() && learningSystem.userProgress == map[]
    {
      this.services := services;
      this.patterns := patterns;
      learningSystem := new AdaptiveLearningSystem();
    }

    /** The records of one document's chunks: the loop over `zip(chunks, embeddings)`. A chunk
        whose `doc['id']` raises is skipped. */
    method ChunkVectors(doc: Document, chunks: seq<string>, embeddings: seq<Vector>) returns (records: seq<VectorRecord>)
      ensures Stored(ChunkPlans(doc, chunks, embeddings), records, patterns)
    {
      records := [];
      ghost var plans := ChunkPlans(doc, chunks, embeddings);
      for idx := 0 to Min(|chunks|, |embeddings|)
        invariant doc.id.None? ==> records == []
        invariant doc.id.Some? ==> Stored(plans[..idx], records, patterns)
      {
        var chunk := chunks[idx];
        var extracted := ExtractMetadata(chunk, patterns.formulas(chunk), patterns.theorems(chunk), patterns.terms(chunk));
        var metadata := BaseMetadata(doc, idx, chunk) + extracted;
        if doc.id.None? {
          continue;
        }
        var record := VectorRecord(VectorId(doc.id.value, idx), embeddings[idx], metadata);
        RecordForChunk(doc, chunks, embeddings, idx, extracted, patterns);
        StoredStep(plans, idx, records, record, patterns);
        records := records + [record];
      }
      if doc.id.Some? {
        assert plans[..Min(|chunks|, |embeddings|)] == plans;
      }
    }

    /** The body of the loop over documents: a document without text, without a non-blank
        chunk, or whose embedding fails, contributes nothing. */
    method DocumentVectors(doc: Document) returns (records: seq<VectorRecord>)
      ensures Stored(DocumentPlans(doc, services, patterns), records, patterns)
    {
      if doc.text.None? || doc.text.value == "" {
        return [];
      }
      var text := doc.text.value;
      var chunks := ChunkText(text, patterns.sentences(text), Config.ChunkSize, Config.ChunkOverlap);
      chunks := NonBlank(chunks);
      if chunks == [] {
        return [];
      }
      var encoded := services.encode(chunks);
      if encoded.Failure? {
        return [];
      }
      records := ChunkVectors(doc, chunks, encoded.value);
    }

    /** `ingest_documents(documents)`: returns the batch handed to the one upsert, or `None` when
        no record was produced and nothing is upserted. */
    method IngestDocuments(documents: seq<Document>) returns (upserted: Option<seq<VectorRecord>>)
      ensures upserted.None? <==> Plans(documents, services, patterns) == []
      ensures upserted.Some? ==> Stored(Plans(documents, services, patterns), upserted.value, patterns)
    {
      var vectors: seq<VectorRecord> := [];
      for d := 0 to |documents|
        invariant Stored(Plans(documents[..d], services, patterns), vectors, patterns)
      {
        var doc := documents[d];
        var records := DocumentVectors(doc);
        PlansSnoc(documents, d, services, patterns);
        StoredAppend(Plans(documents[..d], services, patterns), vectors, DocumentPlans(doc, services, patterns), records, patterns);
        vectors := vectors + records;
      }
      assert documents[..|documents|] == documents;
      if vectors != [] {
        upserted := Some(vectors);
      } else {
        upserted := None;
      }
    }

    /** The retrieval step: the filtered query, retried without the filter when it finds
        nothing; a query that raises leaves no matches. */
    method RetrieveMatches(queryEmbed: Vector, filter: Option<Filter>) returns (results: seq<Match>)
      ensures results == Retrieve(services, queryEmbed, filter)
    {
      var first := services.query(queryEmbed, filter);
      if first.Failure? {
        results := [];
      } else if first.value != [] {
        results := first.value;
      } else {
        var second := services.query(queryEmbed, None);
        results := if second.Success? then second.value else [];
      }
    }

    /** The concept set: the union of each match's `", "`-split `concepts` entry. */
    method CollectConcepts(results: seq<Match>) returns (contextConcepts: set<string>)
      ensures contextConcepts == ResultConcepts(results)
    {
      contextConcepts := {};
      for k := 0 to |results|
        invariant contextConcepts == ResultConcepts(results[..k])
      {
        var metadata := results[k].metadata;
        var concepts := if "concepts" in metadata then metadata["concepts"] else "";
        if concepts != "" {
          contextConcepts := contextConcepts + set x | x in Split(concepts, ", ");
        }
        assert results[..k + 1][..k] == results[..k];
      }
      assert results[..|results|] == results;
    }

    /** The loop `for concept in prioritized_concepts[:2]`: one review at `now` per concept. */
    method ReinforceTop(userId: string, top: seq<string>, now: Timestamp)
      requires learningSystem.Valid()
      modifies learningSystem
      ensures learningSystem.Valid()
      ensures learningSystem.userProgress == Reinforce(old(learningSystem.userProgress), userId, top, now)
    {
      ghost var p := learningSystem.userProgress;
      for k := 0 to |top|
        invariant learningSystem.Valid()
        invariant learningSystem.userProgress == Reinforce(p, userId, top[..k], now)
      {
        var nextReview := learningSystem.UpdateProgress(userId, top[k], now);
        assert top[..k + 1][..k] == top[..k];
      }
      assert top[..|top|] == top;
    }

    /** `generate_response` from the retrieved, non-empty matches on. */
    method AnswerFrom(userId: string, query: string, queryEmbed: Vector, results: seq<Match>, now: Timestamp)
      returns (reply: Result<Response>)
      requires learningSystem.Valid()
      modifies learningSystem
      ensures learningSystem.Valid()
      ensures reply == Answered(old(learningSystem.userProgress), services, userId, query, queryEmbed, results, now).reply
      ensures learningSystem.userProgress == Answered(old(learningSystem.userProgress), services, userId, query, queryEmbed, results, now).progress
    {
      ghost var p := learningSystem.userProgress;
      var contextConcepts := CollectConcepts(results);
      var conceptList := Enumerate(contextConcepts);
      var prioritized := learningSystem.GetLearningContext(userId, conceptList, now);
      RankingOfAnyOrder(p, userId, contextConcepts, conceptList, now);

      if !AllHave(results, "text") {
        return Failure;
      }
      var context := Context(results);
      var answered := services.answer(query, context);
      var answer := if answered.Success? then answered.value else NoAnswer;

      ReinforceTop(userId, prioritized[..Min(2, |prioritized|)], now);

      var relevance := Relevance(services, queryEmbed, answer);
      if !AllHave(results, "source") {
        return Failure;
      }
      reply := Success(Response(answer, context, prioritized, relevance, Sources(results)));
    }

    /** `generate_response(user_id, query)` at time `now`. */
    method GenerateResponse(userId: string, query: string, now: Timestamp) returns (reply: Result<Response>)
      requires learningSystem.Valid()
      modifies learningSystem
      ensures learningSystem.Valid()
      ensures reply == Respond(old(learningSystem.userProgress), services, userId, query, now).reply
      ensures learningSystem.userProgress == Respond(old(learningSystem.userProgress), services, userId, query, now).progress
    {
      if !QuestionIsValid(query) {
        return Success(Fallback(InvalidQuestion));
      }
      var embedded := TextEmbedding(services, query);
      if embedded.Failure? {
        return Success(Fallback(NotProcessed));
      }
      var queryEmbed := embedded.value;
      var filter := ConceptFilter(learningSystem.userProgress, userId);
      var results := RetrieveMatches(queryEmbed, filter);
      if results == [] {
        return Success(Fallback(NotFound));
      }
      reply := AnswerFrom(userId, query, queryEmbed, results, now);
    }

    /** `handle_query(user_id, query)`: any exception becomes the fixed error reply; the latency
        is the time between `startTime` and `endTime`, in seconds. */
    method HandleQuery(userId: string, query: string, now: Timestamp, startTime: real, endTime: real) returns (reply: Reply)
      requires learningSystem.Valid()
      modifies learningSystem
      ensures learningSystem.Valid()
      ensures var o := Respond(old(learningSystem.userProgress), services, userId, query, now);
        && reply == Reply(if o.reply.Success? then o.reply.value else Fallback(Failed), endTime - startTime, userId)
        && learningSystem.userProgress == o.progress
    {
      var response: Response;
      var generated := GenerateResponse(userId, query, now);
      if generated.Success? {
        response := generated.value;
      } else {
        response := Fallback(Failed);
      }
      reply := Reply(response, endTime - startTime, userId);
    }
  }
}
