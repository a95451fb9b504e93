/** The text segmenter (ai_tutor_bot/utils/text_processor.py): greedy word-count packing of
    sentences into overlapping chunks, and the subject/concept metadata of a text. The regular
    expressions are not modelled: the pieces `re.split` cuts a text into and the matches
    `re.findall` reports are inputs. */
module TextProcessor {
  import opened PyBuiltins

  // ---------------------------------------------------------------------------------------------
  // Sentences

  /** The concatenation of the pieces `re.split` returns: with a capturing separator group they
      tile the text. */
  function Concat(pieces: seq<string>): string
    decreases |pieces|
  {
    if pieces == [] then "" else pieces[0] + Concat(pieces[1..])
  }

  /** `[s.strip() for s in pieces if s.strip()]`: the stripped pieces, blank ones dropped. */
  function Sentences(pieces: seq<string>): seq<string>
    decreases |pieces|
  {
    if pieces == [] then []
    else
      var s := Strip(pieces[0]);
      (if s != [] then [s] else []) + Sentences(pieces[1..])
  }

  /** Each sentence is a non-empty string with no whitespace at either end, and there are no more
      sentences than pieces. */
  lemma {:induction false} SentencesStripped(pieces: seq<string>)
    ensures |Sentences(pieces)| <= |pieces|
    ensures forall s :: s in Sentences(pieces) ==> IsSentence(s)
    decreases |pieces|
  {
    if pieces != [] {
      SentencesStripped(pieces[1..]);
      var s := Strip(pieces[0]);
      var t := Sentences(pieces[1..]);
      if s != [] {
        assert IsSentence(s);
        assert Sentences(pieces) == [s] + t;
      } else {
        assert Sentences(pieces) == t;
      }
    }
  }

  /** A stripped, non-empty sentence. */
  predicate IsSentence(s: string) {
    s != [] && !IsSpace(s[0]) && !IsSpace(s[|s| - 1])
  }

  /** Every piece is blank. */
  ghost predicate AllBlank(pieces: seq<string>) {
    forall i :: 0 <= i < |pieces| ==> IsBlank(pieces[i])
  }

  /** There is no sentence exactly when every piece is blank. */
  lemma {:induction false} SentencesNoneIffBlank(pieces: seq<string>)
    ensures Sentences(pieces) == [] <==> AllBlank(pieces)
    decreases |pieces|
  {
    if pieces != [] {
      SentencesNoneIffBlank(pieces[1..]);
      var s := Strip(pieces[0]);
      assert Sentences(pieces) == (if s != [] then [s] else []) + Sentences(pieces[1..]);
      if IsBlank(pieces[0]) {
        assert s == [];
        assert AllBlank(pieces) <==> AllBlank(pieces[1..]) by {
          if AllBlank(pieces[1..]) {
            forall i | 1 <= i < |pieces| ensures IsBlank(pieces[i]) {
              assert pieces[i] == pieces[1..][i - 1];
            }
          }
          if AllBlank(pieces) {
            forall i | 0 <= i < |pieces[1..]| ensures IsBlank(pieces[1..][i]) {
              assert pieces[1..][i] == pieces[i + 1];
            }
          }
        }
      } else {
        assert s != [];
      }
    }
  }

  /** The pieces of a blank text are blank. */
  lemma {:induction false} ConcatBlank(pieces: seq<string>)
    requires IsBlank(Concat(pieces))
    ensures AllBlank(pieces)
    decreases |pieces|
  {
    if pieces != [] {
      var t := Concat(pieces);
      var rest := Concat(pieces[1..]);
      assert t == pieces[0] + rest;
      forall k | 0 <= k < |pieces[0]| ensures IsSpace(pieces[0][k]) {
        assert pieces[0][k] == t[k];
      }
      forall k | 0 <= k < |rest| ensures IsSpace(rest[k]) {
        assert rest[k] == t[|pieces[0]| + k];
      }
      ConcatBlank(pieces[1..]);
      forall i | 1 <= i < |pieces| ensures IsBlank(pieces[i]) {
        assert pieces[i] == pieces[1..][i - 1];
      }
    }
  }

  // ---------------------------------------------------------------------------------------------
  // Words of a list of sentences

  /** The number of words of a list of sentences. */
  function TotalWords(g: seq<string>): nat
    decreases |g|
  {
    if g == [] then 0 else WordCount(g[0]) + TotalWords(g[1..])
  }

  lemma {:induction false} TotalWordsConcat(a: seq<string>, b: seq<string>)
    ensures TotalWords(a + b) == TotalWords(a) + TotalWords(b)
    decreases |a|
  {
    if a == [] {
      assert a + b == b;
    } else {
      assert (a + b)[1..] == a[1..] + b;
      TotalWordsConcat(a[1..], b);
    }
  }

  /** `" ".join(g)` has as many words as the sentences of `g` together. */
  lemma {:induction false} JoinWords(g: seq<string>)
    ensures WordCount(Join(g, " ")) == TotalWords(g)
    decreases |g|
  {
    if |g| == 1 {
      assert g[1..] == [];
    } else if |g| > 1 {
      JoinWords(g[1..]);
      WordCountJoinSpace(g[0], Join(g[1..], " "));
    }
  }

  // ---------------------------------------------------------------------------------------------
  // Packing

  /** How many sentences are popped from the front of a closed chunk while fewer than `budget`
      words have been taken. */
  function OverlapCount(chunk: seq<string>, budget: int): (n: nat)
    ensures n <= |chunk|
    decreases |chunk|
  {
    if chunk == [] || budget <= 0 then 0
    else 1 + OverlapCount(chunk[1..], budget - WordCount(chunk[0]))
  }

  /** The overlap carried into the next chunk: the leading sentences popped from the closed one. */
  function Overlap(chunk: seq<string>, budget: int): seq<string> {
    chunk[..OverlapCount(chunk, budget)]
  }

  /** One step of the popping: a sentence is taken while the budget is not met. */
  lemma OverlapPops(chunk: seq<string>, budget: int)
    requires chunk != [] && budget > 0
    ensures Overlap(chunk, budget) == [chunk[0]] + Overlap(chunk[1..], budget - WordCount(chunk[0]))
  {
    var n := OverlapCount(chunk[1..], budget - WordCount(chunk[0]));
    assert chunk[..n + 1] == [chunk[0]] + chunk[1..][..n];
  }

  /** The overlap is the shortest leading run of sentences holding at least `budget` words, or the
      whole chunk when it holds fewer: popping goes on exactly while the budget is not met. */
  lemma {:induction false} OverlapStops(chunk: seq<string>, budget: int)
    ensures var o := Overlap(chunk, budget);
      && (|o| < |chunk| ==> TotalWords(o) >= budget)
      && forall k :: 0 <= k < |o| ==> TotalWords(o[..k]) < budget
    decreases |chunk|
  {
    if chunk != [] && budget > 0 {
      var w := WordCount(chunk[0]);
      var o' := Overlap(chunk[1..], budget - w);
      var o := [chunk[0]] + o';
      OverlapPops(chunk, budget);
      OverlapStops(chunk[1..], budget - w);
      assert o[1..] == o';
      forall k | 0 < k < |o| ensures TotalWords(o[..k]) < budget {
        assert o[..k][1..] == o'[..k - 1];
      }
      assert o[..0] == [];
    }
  }

  /** The chunks (as lists of sentences) the loop of `chunk_text` produces from the sentences
      `rest` still to come, with `current` the chunk being filled. */
  function PackFrom(rest: seq<string>, current: seq<string>, size: int, overlap: int): seq<seq<string>>
    decreases |rest|
  {
    if rest == [] then (if current == [] then [] else [current])
    else if TotalWords(current) + WordCount(rest[0]) <= size || current == [] then
      PackFrom(rest[1..], current + [rest[0]], size, overlap)
    else
      [current] + PackFrom(rest[1..], Overlap(current, overlap) + [rest[0]], size, overlap)
  }

  function Pack(sentences: seq<string>, size: int, overlap: int): seq<seq<string>> {
    PackFrom(sentences, [], size, overlap)
  }

  /** `[" ".join(g) for g in groups]`. */
  function JoinEach(groups: seq<seq<string>>): (r: seq<string>)
    ensures |r| == |groups| && forall k :: 0 <= k < |r| ==> r[k] == Join(groups[k], " ")
  {
    seq(|groups|, k requires 0 <= k < |groups| => Join(groups[k], " "))
  }

  /** A step of the packing loop in which sentence `i` joins the current chunk. */
  lemma PackKeeps(sentences: seq<string>, i: nat, groups: seq<seq<string>>, current: seq<string>, size: int, overlap: int)
    requires i < |sentences| && groups + PackFrom(sentences[i..], current, size, overlap) == Pack(sentences, size, overlap)
    requires TotalWords(current) + WordCount(sentences[i]) <= size || current == []
    ensures groups + PackFrom(sentences[i + 1..], current + [sentences[i]], size, overlap) == Pack(sentences, size, overlap)
  {
    assert sentences[i..][0] == sentences[i] && sentences[i..][1..] == sentences[i + 1..];
  }

  /** A step of the packing loop in which sentence `i` closes the current chunk and starts the
      next one after the overlap. */
  lemma PackCloses(sentences: seq<string>, i: nat, groups: seq<seq<string>>, current: seq<string>, size: int, overlap: int)
    requires i < |sentences| && groups + PackFrom(sentences[i..], current, size, overlap) == Pack(sentences, size, overlap)
    requires !(TotalWords(current) + WordCount(sentences[i]) <= size || current == [])
    ensures (groups + [current]) + PackFrom(sentences[i + 1..], Overlap(current, overlap) + [sentences[i]], size, overlap) == Pack(sentences, size, overlap)
  {
    assert sentences[i..][0] == sentences[i] && sentences[i..][1..] == sentences[i + 1..];
    var tail := PackFrom(sentences[i + 1..], Overlap(current, overlap) + [sentences[i]], size, overlap);
    assert groups + ([current] + tail) == (groups + [current]) + tail;
  }

  /** The end of the packing loop: the last chunk is closed unless it is empty. */
  lemma PackEnds(sentences: seq<string>, groups: seq<seq<string>>, current: seq<string>, size: int, overlap: int)
    requires groups + PackFrom(sentences[|sentences|..], current, size, overlap) == Pack(sentences, size, overlap)
    ensures current == [] ==> groups == Pack(sentences, size, overlap)
    ensures current != [] ==> groups + [current] == Pack(sentences, size, overlap)
  {
    assert sentences[|sentences|..] == [];
  }

  lemma JoinEachAppend(groups: seq<seq<string>>, g: seq<string>)
    ensures JoinEach(groups + [g]) == JoinEach(groups) + [Join(g, " ")]
  {
  }

  /** What `chunk_text(text, size, overlap)` returns, `pieces` being what the sentence split
      cuts `text` into. */
  function ChunkedText(text: string, pieces: seq<string>, size: int, overlap: int): seq<string> {
    if text == [] then [] else JoinEach(Pack(Sentences(pieces), size, overlap))
  }

  /** `current` begins with `seed` (the overlap it was started with) and at least one sentence of
      its own, and it exceeds `size` words only if it holds a single sentence beyond its seed. */
  ghost predicate Seeded(current: seq<string>, seed: seq<string>, size: int) {
    if current == [] then seed == []
    else |seed| < |current| && current[..|seed|] == seed && (TotalWords(current) > size ==> |current| == |seed| + 1)
  }

  /** The shape of a packing: every chunk starts with the overlap of the chunk before it (the
      first with `seed`), adds at least one sentence, and runs past the word limit only when it
      is that overlap plus one sentence. */
  ghost predicate PackedFrom(groups: seq<seq<string>>, seed: seq<string>, size: int, overlap: int)
    decreases |groups|
  {
    groups != [] ==>
      && groups[0] != []
      && Seeded(groups[0], seed, size)
      && PackedFrom(groups[1..], Overlap(groups[0], overlap), size, overlap)
  }

  /** The sentences each chunk adds beyond the overlap it starts with, in order. */
  ghost function Fresh(groups: seq<seq<string>>, seed: seq<string>, overlap: int): seq<string>
    decreases |groups|
  {
    if groups == [] then []
    else (if |seed| <= |groups[0]| then groups[0][|seed|..] else []) + Fresh(groups[1..], Overlap(groups[0], overlap), overlap)
  }

  /** Concatenation of the chunks' sentence lists. */
  function Flatten(groups: seq<seq<string>>): seq<string>
    decreases |groups|
  {
    if groups == [] then [] else groups[0] + Flatten(groups[1..])
  }

  lemma {:induction false} PackFromShape(rest: seq<string>, current: seq<string>, seed: seq<string>, size: int, overlap: int)
    requires Seeded(current, seed, size)
    ensures PackedFrom(PackFrom(rest, current, size, overlap), seed, size, overlap)
    decreases |rest|
  {
    if rest != [] {
      var s := rest[0];
      if TotalWords(current) + WordCount(s) <= size || current == [] {
        TotalWordsConcat(current, [s]);
        assert (current + [s])[..|seed|] == current[..|seed|];
        PackFromShape(rest[1..], current + [s], seed, size, overlap);
      } else {
        var o := Overlap(current, overlap);
        assert (o + [s])[..|o|] == o;
        PackFromShape(rest[1..], o + [s], o, size, overlap);
        assert ([current] + PackFrom(rest[1..], o + [s], size, overlap))[1..] == PackFrom(rest[1..], o + [s], size, overlap);
      }
    }
  }

  lemma {:induction false} PackFromFresh(rest: seq<string>, current: seq<string>, seed: seq<string>, size: int, overlap: int)
    requires Seeded(current, seed, size)
    ensures Fresh(PackFrom(rest, current, size, overlap), seed, overlap) == current[|seed|..] + rest
    decreases |rest|
  {
    if rest == [] {
      if current != [] {
        assert [current][1..] == [];
      }
    } else {
      var s := rest[0];
      if TotalWords(current) + WordCount(s) <= size || current == [] {
        TotalWordsConcat(current, [s]);
        assert (current + [s])[..|seed|] == current[..|seed|];
        PackFromFresh(rest[1..], current + [s], seed, size, overlap);
        assert (current + [s])[|seed|..] + rest[1..] == current[|seed|..] + rest;
      } else {
        var o := Overlap(current, overlap);
        var tail := PackFrom(rest[1..], o + [s], size, overlap);
        assert (o + [s])[..|o|] == o;
        PackFromFresh(rest[1..], o + [s], o, size, overlap);
        assert ([current] + tail)[1..] == tail;
        assert (o + [s])[|o|..] + rest[1..] == rest;
      }
    }
  }

  lemma {:induction false} PackFromNoOverlap(rest: seq<string>, current: seq<string>, size: int)
    ensures Flatten(PackFrom(rest, current, size, 0)) == current + rest
    decreases |rest|
  {
    if rest == [] {
      if current != [] {
        assert [current][1..] == [];
      }
    } else {
      var s := rest[0];
      if TotalWords(current) + WordCount(s) <= size || current == [] {
        PackFromNoOverlap(rest[1..], current + [s], size);
        assert current + [s] + rest[1..] == current + rest;
      } else {
        var tail := PackFrom(rest[1..], [] + [s], size, 0);
        PackFromNoOverlap(rest[1..], [] + [s], size);
        assert ([current] + tail)[1..] == tail;
        assert [] + [s] + rest[1..] == rest;
      }
    }
  }

  lemma {:induction false} PackFromSentences(rest: seq<string>, current: seq<string>, all: seq<string>, size: int, overlap: int)
    requires forall x :: x in current ==> x in all
    requires forall x :: x in rest ==> x in all
    ensures forall g, x :: g in PackFrom(rest, current, size, overlap) && x in g ==> x in all
    decreases |rest|
  {
    if rest != [] {
      var s := rest[0];
      if TotalWords(current) + WordCount(s) <= size || current == [] {
        PackFromSentences(rest[1..], current + [s], all, size, overlap);
      } else {
        var o := Overlap(current, overlap);
        assert forall x :: x in o ==> x in current;
        PackFromSentences(rest[1..], o + [s], all, size, overlap);
      }
    }
  }

  lemma {:induction false} PackFromNonEmpty(rest: seq<string>, current: seq<string>, size: int, overlap: int)
    ensures PackFrom(rest, current, size, overlap) == [] <==> rest == [] && current == []
    decreases |rest|
  {
    if rest != [] {
      var s := rest[0];
      if TotalWords(current) + WordCount(s) <= size || current == [] {
        PackFromNonEmpty(rest[1..], current + [s], size, overlap);
      }
    }
  }

  /** The packing of a list of sentences: every chunk is a non-empty list of the sentences, starts
      with the overlap of the chunk before it and goes past `size` words only as that overlap plus
      one sentence; the sentences the chunks add beyond their overlaps are the input, once each and
      in order; and there is a chunk exactly when there is a sentence. */
  lemma PackSpec(sentences: seq<string>, size: int, overlap: int)
    ensures PackedFrom(Pack(sentences, size, overlap), [], size, overlap)
    ensures Fresh(Pack(sentences, size, overlap), [], overlap) == sentences
    ensures forall g, x :: g in Pack(sentences, size, overlap) && x in g ==> x in sentences
    ensures Pack(sentences, size, overlap) == [] <==> sentences == []
  {
    PackFromShape(sentences, [], [], size, overlap);
    PackFromFresh(sentences, [], [], size, overlap);
    PackFromSentences(sentences, [], sentences, size, overlap);
    PackFromNonEmpty(sentences, [], size, overlap);
  }

  /** With no overlap the chunks, read one after the other, are exactly the sentences. */
  lemma PackNoOverlap(sentences: seq<string>, size: int)
    ensures Flatten(Pack(sentences, size, 0)) == sentences
  {
    PackFromNoOverlap(sentences, [], size);
  }

  /** The first chunk of a packing exceeds `size` words only if it is a single sentence, and every
      later one only if it is the overlap of its predecessor plus one sentence. */
  lemma {:induction false} OversizedChunks(groups: seq<seq<string>>, seed: seq<string>, size: int, overlap: int, k: nat)
    requires PackedFrom(groups, seed, size, overlap)
    requires k < |groups| && TotalWords(groups[k]) > size
    ensures k == 0 ==> |groups[k]| == |seed| + 1 && groups[k][..|seed|] == seed
    ensures k > 0 ==> var o := Overlap(groups[k - 1], overlap);
      |groups[k]| == |o| + 1 && groups[k][..|o|] == o
    decreases k
  {
    if k > 1 {
      OversizedChunks(groups[1..], Overlap(groups[0], overlap), size, overlap, k - 1);
      assert groups[1..][k - 1] == groups[k] && groups[1..][k - 2] == groups[k - 1];
    } else if k == 1 {
      assert groups[1..][0] == groups[1];
    }
  }

  /** `chunk_text` returns no chunk for an empty or blank text, and in general exactly when every
      piece of the text is blank. */
  lemma ChunkedTextNone(text: string, pieces: seq<string>, size: int, overlap: int)
    requires Concat(pieces) == text
    ensures IsBlank(text) ==> ChunkedText(text, pieces, size, overlap) == []
    ensures ChunkedText(text, pieces, size, overlap) == [] <==> AllBlank(pieces)
  {
    SentencesNoneIffBlank(pieces);
    PackFromNonEmpty(Sentences(pieces), [], size, overlap);
    if IsBlank(text) {
      ConcatBlank(pieces);
    }
  }

  /** Each chunk is the space-join of a non-empty list of sentences, and has as many words as they,
      at least one: no chunk is blank. */
  lemma ChunkedTextChunks(text: string, pieces: seq<string>, size: int, overlap: int, k: nat)
    requires k < |ChunkedText(text, pieces, size, overlap)|
    ensures text != []
    ensures var g := Pack(Sentences(pieces), size, overlap)[k];
      && g != []
      && ChunkedText(text, pieces, size, overlap)[k] == Join(g, " ")
      && WordCount(ChunkedText(text, pieces, size, overlap)[k]) == TotalWords(g) >= 1
  {
    var sentences := Sentences(pieces);
    var groups := Pack(sentences, size, overlap);
    SentencesStripped(pieces);
    PackFromShape(sentences, [], [], size, overlap);
    PackFromSentences(sentences, [], sentences, size, overlap);
    PackedNonEmpty(groups, [], size, overlap, k);
    var g := groups[k];
    assert g[0] in g && g in groups;
    assert IsSentence(g[0]);
    WordCountOfStripped(g[0]);
    JoinWords(g);
  }

  lemma {:induction false} PackedNonEmpty(groups: seq<seq<string>>, seed: seq<string>, size: int, overlap: int, k: nat)
    requires PackedFrom(groups, seed, size, overlap) && k < |groups|
    ensures groups[k] != []
    decreases k
  {
    if k > 0 {
      PackedNonEmpty(groups[1..], Overlap(groups[0], overlap), size, overlap, k - 1);
      assert groups[1..][k - 1] == groups[k];
    }
  }

  /** The inner loop of `chunk_text`: pops sentences off the front of the closed chunk into the
      overlap while it holds fewer than `budget` words; returns the overlap, its word count and
      what is left of the chunk. */
  method PopOverlap(chunk: seq<string>, budget: int) returns (overlap: seq<string>, overlapLength: int, rest: seq<string>)
    ensures overlap == Overlap(chunk, budget) && overlap + rest == chunk
    ensures overlapLength == TotalWords(overlap)
  {
    rest := chunk;
    overlap := [];
    overlapLength := 0;
    ghost var remaining := budget;
    while rest != [] && overlapLength < budget
      invariant |overlap| <= |chunk| && overlap == chunk[..|overlap|] && rest == chunk[|overlap|..]
      invariant overlapLength == TotalWords(overlap) && remaining == budget - overlapLength
      invariant OverlapCount(chunk, budget) == |overlap| + OverlapCount(rest, remaining)
      decreases |rest|
    {
      var popped := rest[0];
      assert chunk[..|overlap| + 1] == overlap + [popped];
      rest := rest[1..];
      var poppedWords := WordCount(popped);
      TotalWordsConcat(overlap, [popped]);
      overlap := overlap + [popped];
      overlapLength := overlapLength + poppedWords;
      remaining := remaining - poppedWords;
    }
  }

  /** `TextProcessor.chunk_text(text, chunk_size, chunk_overlap)`, given the pieces the sentence
      split cuts `text` into. */
  method ChunkText(text: string, pieces: seq<string>, chunkSize: int, chunkOverlap: int) returns (chunks: seq<string>)
    ensures text == [] ==> chunks == []
    ensures chunks == ChunkedText(text, pieces, chunkSize, chunkOverlap)
  {
    if text == [] {
      return [];
    }
    var sentences := Sentences(pieces);
    chunks := [];
    ghost var groups: seq<seq<string>> := [];
    var currentChunk: seq<string> := [];
    var currentLength := 0;
    for i := 0 to |sentences|
      invariant currentLength == TotalWords(currentChunk)
      invariant groups + PackFrom(sentences[i..], currentChunk, chunkSize, chunkOverlap) == Pack(sentences, chunkSize, chunkOverlap)
      invariant chunks == JoinEach(groups)
    {
      var sentence := sentences[i];
      var sentenceLength := WordCount(sentence);
      if currentLength + sentenceLength <= chunkSize || currentChunk == [] {
        PackKeeps(sentences, i, groups, currentChunk, chunkSize, chunkOverlap);
        TotalWordsConcat(currentChunk, [sentence]);
        currentChunk := currentChunk + [sentence];
        currentLength := currentLength + sentenceLength;
      } else {
        PackCloses(sentences, i, groups, currentChunk, chunkSize, chunkOverlap);
        JoinEachAppend(groups, currentChunk);
        chunks := chunks + [Join(currentChunk, " ")];
        groups := groups + [currentChunk];
        var overlap, overlapLength;
        overlap, overlapLength, currentChunk := PopOverlap(currentChunk, chunkOverlap);
        TotalWordsConcat(overlap, [sentence]);
        currentChunk := overlap + [sentence];
        currentLength := overlapLength + sentenceLength;
      }
    }
    PackEnds(sentences, groups, currentChunk, chunkSize, chunkOverlap);
    if currentChunk != [] {
      JoinEachAppend(groups, currentChunk);
      chunks := chunks + [Join(currentChunk, " ")];
      groups := groups + [currentChunk];
    }
  }

  // ---------------------------------------------------------------------------------------------
  // Subject detection

  /** The keyword table, in the order it is scanned. */
  const Subjects: seq<(string, seq<string>)> := [
    ("math", ["equation", "theorem", "calculate", "solve", "derivative", "integral"]),
    ("physics", ["force", "energy", "velocity", "quantum", "electron"]),
    ("chemistry", ["atom", "molecule", "reaction", "bond", "pH"]),
    ("biology", ["cell", "dna", "protein", "photosynthesis", "gene"])
  ]

  const General: string := "general"

  /** `any(keyword in lowered for keyword in keywords)`. */
  predicate Mentions(keywords: seq<string>, lowered: string) {
    exists k :: 0 <= k < |keywords| && IsSubstring(keywords[k], lowered)
  }

  /** The name of the first entry of `table` one of whose keywords occurs in `lowered`, else
      "general". */
  function FirstSubject(table: seq<(string, seq<string>)>, lowered: string): (subject: string)
    ensures (subject == General && forall j :: 0 <= j < |table| ==> !Mentions(table[j].1, lowered))
         || exists k :: 0 <= k < |table| && subject == table[k].0 && Mentions(table[k].1, lowered)
              && forall j :: 0 <= j < k ==> !Mentions(table[j].1, lowered)
    decreases |table|
  {
    if table == [] then General
    else if Mentions(table[0].1, lowered) then table[0].0
    else
      var r := FirstSubject(table[1..], lowered);
      assert forall j :: 1 <= j < |table| ==> table[j] == table[1..][j - 1];
      r
  }

  /** The subject `extract_metadata` reports for `text`. */
  function DetectSubject(text: string): string {
    FirstSubject(Subjects, Lower(text))
  }

  /** The subject names differ from each other and from "general": their first letters do. */
  lemma SubjectNames(i: nat, j: nat)
    requires i < |Subjects| && j < |Subjects|
    ensures Subjects[i].0 != General
    ensures i != j ==> Subjects[i].0 != Subjects[j].0
  {
    var firsts := "mpcb";
    assert Subjects[i].0[0] == firsts[i] && Subjects[j].0[0] == firsts[j];
  }

  /** The subject is "general" exactly when no keyword of any subject occurs in the lowered
      text. */
  lemma DetectSubjectGeneral(text: string)
    ensures DetectSubject(text) == General <==> forall j :: 0 <= j < |Subjects| ==> !Mentions(Subjects[j].1, Lower(text))
  {
    var l := Lower(text);
    var r := DetectSubject(text);
    if r == General && exists k :: 0 <= k < |Subjects| && r == Subjects[k].0 {
      var k :| 0 <= k < |Subjects| && r == Subjects[k].0;
      SubjectNames(k, k);
    }
  }

  /** The subject is the `k`-th of the table exactly when one of its keywords occurs in the
      lowered text and none of an earlier subject's does. */
  lemma DetectSubjectIs(text: string, k: nat)
    requires k < |Subjects|
    ensures DetectSubject(text) == Subjects[k].0 <==>
      Mentions(Subjects[k].1, Lower(text)) && forall j :: 0 <= j < k ==> !Mentions(Subjects[j].1, Lower(text))
  {
    var l := Lower(text);
    var r := DetectSubject(text);
    SubjectNames(k, k);
    if r != General {
      var m :| 0 <= m < |Subjects| && r == Subjects[m].0 && Mentions(Subjects[m].1, l)
        && forall j :: 0 <= j < m ==> !Mentions(Subjects[j].1, l);
      SubjectNames(m, k);
    }
  }

  /** A lowered text holds no upper-case 'H', so the keyword "pH" never matches. */
  lemma PhNeverMatches(text: string)
    ensures !IsSubstring("pH", Lower(text))
    ensures Mentions(Subjects[2].1, Lower(text)) <==> Mentions(Subjects[2].1[..4], Lower(text))
  {
    var l := Lower(text);
    forall i | 0 <= i <= |l| ensures !OccursAt("pH", l, i) {
      if i + 2 <= |l| {
        assert l[i..i + 2][1] == l[i + 1] == LowerChar(text[i + 1]);
      }
    }
    var kw := Subjects[2].1;
    if Mentions(kw, l) {
      var k :| 0 <= k < |kw| && IsSubstring(kw[k], l);
      assert k < 4;
      assert kw[..4][k] == kw[k];
    }
    if Mentions(kw[..4], l) {
      var k :| 0 <= k < 4 && IsSubstring(kw[..4][k], l);
      assert kw[k] == kw[..4][k];
    }
  }

  // ---------------------------------------------------------------------------------------------
  // Concepts

  /** At most this many concepts are kept. */
  const MaxConcepts: nat := 5

  /** `t[0]` of a theorem match: the tuple of the pattern's two groups, of which the first is the
      optional possessive `'s`. */
  function TheoremConcepts(theorems: seq<(string, string)>): (r: seq<string>)
    ensures |r| == |theorems| && forall k :: 0 <= k < |r| ==> r[k] == theorems[k].0
  {
    seq(|theorems|, k requires 0 <= k < |theorems| => theorems[k].0)
  }

  /** The candidate concepts, in the order they are collected. */
  function AllConcepts(formulas: seq<string>, theorems: seq<(string, string)>, terms: seq<string>): seq<string> {
    formulas + TheoremConcepts(theorems) + terms
  }

  /** `list(set(all))[:5]` for some iteration order of the set: distinct candidates, as many as
      there are distinct ones up to five. */
  ghost predicate ConceptSelection(all: seq<string>, picked: seq<string>) {
    && Distinct(picked)
    && |picked| == Min(MaxConcepts, |set x | x in all|)
    && forall x :: x in picked ==> x in all
  }

  /** The dictionary `extract_metadata` returns: the subject always; the joined concepts exactly
      when some pattern matched. */
  ghost predicate ExtractedFrom(metadata: map<string, string>, text: string, formulas: seq<string>, theorems: seq<(string, string)>, terms: seq<string>) {
    var all := AllConcepts(formulas, theorems, terms);
    && metadata.Keys == {"subject"} + (if all != [] then {"concepts"} else {})
    && metadata["subject"] == DetectSubject(text)
    && ("concepts" in metadata ==> exists picked :: ConceptSelection(all, picked) && metadata["concepts"] == Join(picked, ", "))
  }

  /** The subject scan of `extract_metadata`: the keyword table in order, stopping at the first
      subject one of whose keywords occurs in the lowered text. */
  method ScanSubjects(text: string) returns (subject: string)
    ensures subject == DetectSubject(text)
  {
    subject := General;
    var lowered := Lower(text);
    for i := 0 to |Subjects|
      invariant FirstSubject(Subjects[i..], lowered) == FirstSubject(Subjects, lowered)
      invariant subject == General
    {
      assert Subjects[i..][0] == Subjects[i] && Subjects[i..][1..] == Subjects[i + 1..];
      if Mentions(Subjects[i].1, lowered) {
        subject := Subjects[i].0;
        break;
      }
    }
  }

  /** `TextProcessor.extract_metadata(text)`, given what the three concept patterns find in `text`.
      It is total: the source's handler around it has nothing to catch here. */
  method ExtractMetadata(text: string, formulas: seq<string>, theorems: seq<(string, string)>, terms: seq<string>)
    returns (metadata: map<string, string>)
    ensures ExtractedFrom(metadata, text, formulas, theorems, terms)
  {
    metadata := map[];
    var subject := ScanSubjects(text);
    metadata := metadata["subject" := subject];

    var concepts: seq<string> := [];
    concepts := concepts + formulas;
    assert concepts == formulas;
    concepts := concepts + TheoremConcepts(theorems);
    concepts := concepts + terms;
    assert concepts == AllConcepts(formulas, theorems, terms);
    if concepts != [] {
      var unique := Enumerate(set x | x in concepts);
      var picked := unique[..Min(MaxConcepts, |unique|)];
      metadata := metadata["concepts" := Join(picked, ", ")];
      forall x | x in picked ensures x in concepts {
        var k :| 0 <= k < |picked| && picked[k] == x;
        assert unique[k] == x && x in unique;
        assert x in set y | y in concepts;
      }
      assert ConceptSelection(concepts, picked);
      assert metadata["concepts"] == Join(picked, ", ");
    }
    assert metadata.Keys == {"subject"} + (if concepts != [] then {"concepts"} else {});
    assert metadata["subject"] == DetectSubject(text);
  }

  /** Splitting the `concepts` entry on ", " gives the selected concepts back when none of the
      candidates contains ", ". */
  lemma ConceptsRoundTrip(all: seq<string>, picked: seq<string>)
    requires ConceptSelection(all, picked) && all != []
    requires forall x :: x in all ==> !IsSubstring(", ", x)
    ensures Split(Join(picked, ", "), ", ") == picked
    ensures 1 <= |picked| <= MaxConcepts
  {
    var distinct := set x | x in all;
    assert all[0] in distinct;
    assert |distinct| >= 1;
    forall k | 0 <= k < |picked| ensures SepFree(picked[k], ", ") {
      CommaSpaceFree(picked[k]);
    }
    SplitJoin(picked, ", ");
  }
}
