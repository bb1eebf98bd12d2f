/**
 * The retrieval-and-answer logic of the `/chat` route (app/routes/chat.py).
 *
 * A query is embedded, every stored chunk is scored against the query
 * vector, the first chunk with the strictly highest score is kept, a fixed
 * relevance threshold of 0.4 decides whether it is usable, and only then is
 * the chat-completion provider asked for an answer.  The external providers
 * and the document store are modelled by their outcomes: the query vector
 * (or its absence), the list of stored items in enumeration order, the
 * similarity function, and the completion outcome.  Every external call the
 * route makes is recorded in a trace, so that "no generation call" can be
 * stated.
 */
module ChatRoute {
  import opened Wrappers
  import opened Http

  type Vector = seq<real>

  /** Cosine similarity of the query vector and a stored vector, as the numeric library computes it. */
  type Similarity = (Vector, Vector) -> real

  /** The fixed relevance threshold of the scan and of the route. */
  const Threshold: real := 0.4
  /** The starting value of the running highest score. */
  const Sentinel: real := -1.0

  const UnknownFile := "Unknown File"
  const NoMatchReply := "I couldn't find relevant information."
  const FallbackReply := "Sorry, I couldn't process your request."
  const EmbeddingFailedDetail := "Failed to generate query embeddings."

  const EmbeddingModel := "text-embedding-ada-002"
  const CompletionModel := "gpt-4-turbo"
  const SystemInstruction := "You are a helpful assistant."

  /** One property of a stored item: a missing key, a JSON null, or a string. */
  datatype Field = Absent | Null | Str(s: string)

  /** A stored chunk record as the document store enumerates it. */
  datatype Item = Item(fileName: Field, text: Field, vector: Option<Vector>)

  /** The triple (best_match, best_file, highest_score). */
  datatype Match = Match(text: Option<string>, file: Option<string>, score: real)

  /** An exception that escapes the handler. */
  datatype Fault = UnhandledException

  /**
   * An item the scan gets past: it has a vector (looking up a missing vector
   * raises) and its text is not null (the debug preview of the text slices
   * it, which raises on null).
   */
  predicate Scorable(item: Item) {
    item.vector.Some? && !item.text.Null?
  }

  predicate AllScorable(items: seq<Item>) {
    forall i | 0 <= i < |items| :: Scorable(items[i])
  }

  /**
   * The file name an item contributes: "Unknown File" when the key is
   * missing, nothing when it is null, the stored name otherwise.
   */
  function FileOf(item: Item): (r: Option<string>)
    ensures item.fileName.Absent? ==> r == Some(UnknownFile)
    ensures item.fileName.Null? ==> r == None
    ensures item.fileName.Str? ==> r == Some(item.fileName.s)
  {
    match item.fileName
    case Absent => Some(UnknownFile)
    case Null => None
    case Str(s) => Some(s)
  }

  /** The text a non-null item contributes: the empty text when the key is missing. */
  function TextOf(item: Item): (r: string)
    requires !item.text.Null?
    ensures item.text.Absent? ==> r == ""
    ensures item.text.Str? ==> r == item.text.s
  {
    match item.text
    case Absent => ""
    case Str(s) => s
  }

  function ScoreOf(q: Vector, item: Item, similarity: Similarity): real
    requires item.vector.Some?
  {
    similarity(q, item.vector.value)
  }

  /**
   * The running best after the loop has visited every item of `items`:
   * a later item replaces the best only with a strictly higher score.
   */
  function Scan(q: Vector, items: seq<Item>, similarity: Similarity): (b: Match)
    requires AllScorable(items)
    ensures Sentinel <= b.score
    ensures b.text.Some? <==> Sentinel < b.score
    ensures b.text.None? ==> b.file.None?
    decreases |items|
  {
    if items == [] then Match(None, None, Sentinel)
    else
      var last := items[|items| - 1];
      var b := Scan(q, items[..|items| - 1], similarity);
      var s := ScoreOf(q, last, similarity);
      if s > b.score then Match(Some(TextOf(last)), FileOf(last), s) else b
  }

  /** Item `k` scores `s`, and every item before it scores strictly less. */
  ghost predicate ChosenAt(q: Vector, items: seq<Item>, similarity: Similarity, k: int, s: real)
    requires AllScorable(items)
  {
    && 0 <= k < |items|
    && ScoreOf(q, items[k], similarity) == s
    && forall j | 0 <= j < k :: ScoreOf(q, items[j], similarity) < s
  }

  /** Item `k` is the earliest item attaining the highest score. */
  ghost predicate IsFirstMax(q: Vector, items: seq<Item>, similarity: Similarity, k: int)
    requires AllScorable(items)
  {
    && 0 <= k < |items|
    && ChosenAt(q, items, similarity, k, ScoreOf(q, items[k], similarity))
    && forall i | 0 <= i < |items| :: ScoreOf(q, items[i], similarity) <= ScoreOf(q, items[k], similarity)
  }

  /**
   * The declarative meaning of the scan: the score is the maximum of the
   * sentinel and every item's score; when some item beats the sentinel the
   * text and file are those of the earliest item attaining it, and otherwise
   * both are absent.
   */
  ghost predicate IsFirstBest(q: Vector, items: seq<Item>, similarity: Similarity, m: Match)
    requires AllScorable(items)
  {
    && Sentinel <= m.score
    && (forall i | 0 <= i < |items| :: ScoreOf(q, items[i], similarity) <= m.score)
    && if m.score == Sentinel then m.text.None? && m.file.None?
       else exists k :: ChosenAt(q, items, similarity, k, m.score)
                        && m.text == Some(TextOf(items[k])) && m.file == FileOf(items[k])
  }

  lemma {:induction false} ScanIsFirstBest(q: Vector, items: seq<Item>, similarity: Similarity)
    requires AllScorable(items)
    ensures IsFirstBest(q, items, similarity, Scan(q, items, similarity))
  {
    if items != [] {
      var n := |items| - 1;
      var init := items[..n];
      assert forall j | 0 <= j < n :: init[j] == items[j];
      ScanIsFirstBest(q, init, similarity);
      var b := Scan(q, init, similarity);
      var s := ScoreOf(q, items[n], similarity);
      if s > b.score {
        assert ChosenAt(q, items, similarity, n, s);
      } else if b.score != Sentinel {
        var k :| ChosenAt(q, init, similarity, k, b.score)
                 && b.text == Some(TextOf(init[k])) && b.file == FileOf(init[k]);
        assert ChosenAt(q, items, similarity, k, b.score);
      }
    }
  }

  /** The declarative meaning determines the result: the scan is its only solution. */
  lemma FirstBestUnique(q: Vector, items: seq<Item>, similarity: Similarity, m1: Match, m2: Match)
    requires AllScorable(items)
    requires IsFirstBest(q, items, similarity, m1)
    requires IsFirstBest(q, items, similarity, m2)
    ensures m1 == m2
  {
    if m1.score != Sentinel && m2.score != Sentinel {
      var k1 :| ChosenAt(q, items, similarity, k1, m1.score)
                && m1.text == Some(TextOf(items[k1])) && m1.file == FileOf(items[k1]);
      var k2 :| ChosenAt(q, items, similarity, k2, m2.score)
                && m2.text == Some(TextOf(items[k2])) && m2.file == FileOf(items[k2]);
      assert m1.score == m2.score;
    }
  }

  /**
   * The document search as a value: the scan, then the threshold, which
   * drops text and file but keeps the score; an item the scan cannot get
   * past makes the whole call raise.
   */
  function FindRelevant(q: Vector, items: seq<Item>, similarity: Similarity): (r: Result<Match, Fault>)
    ensures items == [] ==> r == Ok(Match(None, None, Sentinel))
    ensures r.Err? <==> exists i | 0 <= i < |items| :: !Scorable(items[i])
    ensures r.Ok? ==> (r.value.text.None? <==> r.value.score < Threshold)
    ensures r.Ok? && r.value.text.None? ==> r.value.file.None?
  {
    if AllScorable(items) then
      var best := Scan(q, items, similarity);
      if best.score < Threshold then Ok(Match(None, None, best.score)) else Ok(best)
    else
      Err(UnhandledException)
  }

  /**
   * What the threshold leaves of the scan: the score is never clamped, a
   * score below the threshold reports no text and no file, and a score at or
   * above it reports the text and file of the earliest item attaining it.
   */
  lemma FindRelevantThreshold(q: Vector, items: seq<Item>, similarity: Similarity)
    requires AllScorable(items)
    ensures FindRelevant(q, items, similarity).Ok?
    ensures var m := FindRelevant(q, items, similarity).value;
      && Sentinel <= m.score
      && (forall i | 0 <= i < |items| :: ScoreOf(q, items[i], similarity) <= m.score)
      && (m.score == Sentinel || exists k :: ChosenAt(q, items, similarity, k, m.score))
      && (m.score < Threshold ==> m.text.None? && m.file.None?)
      && (Threshold <= m.score ==>
            exists k :: ChosenAt(q, items, similarity, k, m.score)
                        && m.text == Some(TextOf(items[k])) && m.file == FileOf(items[k]))
  {
    ScanIsFirstBest(q, items, similarity);
  }

  /** The loop of `find_relevant_document` over the store's items in enumeration order. */
  method FindRelevantDocument(q: Vector, items: seq<Item>, similarity: Similarity)
    returns (r: Result<Match, Fault>)
    ensures r == FindRelevant(q, items, similarity)
  {
    var bestMatch: Option<string> := None;
    var bestFile: Option<string> := None;
    var highestScore := Sentinel;
    for i := 0 to |items|
      invariant AllScorable(items[..i])
      invariant Match(bestMatch, bestFile, highestScore) == Scan(q, items[..i], similarity)
    {
      assert items[..i + 1][..i] == items[..i];
      var item := items[i];
      var fileName := FileOf(item);
      if item.vector.None? || item.text.Null? {
        return Err(UnhandledException);
      }
      var text := TextOf(item);
      var score := similarity(q, item.vector.value);
      if score > highestScore {
        highestScore := score;
        bestMatch := Some(text);
        bestFile := fileName;
      }
    }
    assert items[..|items|] == items;
    if highestScore < Threshold {
      return Ok(Match(None, None, highestScore));
    }
    return Ok(Match(bestMatch, bestFile, highestScore));
  }

  /** An outbound call the route makes. */
  datatype Call =
    | EmbedCall(model: string, input: string)
    | ReadAllItems
    | CompletionCall(model: string, system: string, user: string)

  /** What the completion provider did with the request. */
  datatype Completion = Completed(content: string) | Failed

  /** The route's answer: a body without or with a `document` key, or an HTTP error. */
  datatype Reply =
    | NotFound(response: string)
    | Answered(response: string, document: Option<string>)
    | HttpError(status: nat, detail: string)

  datatype Exchange = Exchange(reply: Reply, calls: seq<Call>)

  const PromptIntro := "Use the following context to answer the question.\n\nContext: "
  const PromptUser := "\n\nUser: "
  const PromptEnd := "\nAI:"

  /** The user message sent to the completion provider. */
  function Prompt(context: string, query: string): string {
    PromptIntro + context + PromptUser + query + PromptEnd
  }

  /** The generator's answer: the provider's content, or a fixed apology when the call fails. */
  function Answer(outcome: Completion): string {
    match outcome
    case Completed(content) => content
    case Failed => FallbackReply
  }

  /**
   * The answer generator: one completion call with the fixed model, the fixed
   * system instruction and the prompt, and the answer it yields.
   */
  function GenerateResponse(context: string, query: string, outcome: Completion): (g: (string, Call))
    ensures g.1 == CompletionCall(CompletionModel, SystemInstruction, Prompt(context, query))
    ensures outcome.Completed? ==> g.0 == outcome.content
    ensures outcome.Failed? ==> g.0 == FallbackReply
  {
    (Answer(outcome), CompletionCall(CompletionModel, SystemInstruction, Prompt(context, query)))
  }

  /**
   * The generator sends one request whose prompt holds the context and the
   * query verbatim, without truncation, and answers with the provider's
   * content or, when the provider fails, with the fixed apology.
   */
  lemma GenerateResponseRequest(context: string, query: string, outcome: Completion)
    ensures var (answer, call) := GenerateResponse(context, query, outcome);
      && call.CompletionCall? && call.model == CompletionModel && call.system == SystemInstruction
      && |call.user| == |PromptIntro| + |context| + |PromptUser| + |query| + |PromptEnd|
      && call.user[|PromptIntro|..|PromptIntro| + |context|] == context
      && call.user[|PromptIntro| + |context| + |PromptUser|..|call.user| - |PromptEnd|] == query
      && (outcome.Failed? ==> answer == FallbackReply)
      && (outcome.Completed? ==> answer == outcome.content)
  {
  }

  /**
   * The `chat` endpoint: `embedding` is what the embedding provider gave for
   * the query (None when the call raised), `store` what reading every item of
   * the document store gave (None when the read raised), `completion` what
   * the completion provider does if it is called.
   */
  function Chat(query: string, embedding: Option<Vector>, store: Option<seq<Item>>, similarity: Similarity,
                completion: Completion): (x: Exchange)
    ensures 1 <= |x.calls| <= 3 && x.calls[0] == EmbedCall(EmbeddingModel, query)
    ensures (|x.calls| == 1) <==> embedding.None?
    ensures |x.calls| >= 2 ==> x.calls[1] == ReadAllItems
    ensures (|x.calls| == 3) <==> x.reply.Answered?
    ensures |x.calls| == 3 ==> x.calls[2].CompletionCall?
    ensures embedding.Some? && store.None? ==> x.reply == HttpError(500, InternalErrorDetail)
    ensures x.reply.NotFound? ==> x.reply.response == NoMatchReply
    ensures x.reply.HttpError? ==> x.reply.status == 500
  {
    var embed := EmbedCall(EmbeddingModel, query);
    match embedding
    case None => Exchange(HttpError(500, EmbeddingFailedDetail), [embed])
    case Some(q) =>
      match store
      case None => Exchange(HttpError(500, InternalErrorDetail), [embed, ReadAllItems])
      case Some(items) =>
      match FindRelevant(q, items, similarity)
      case Err(_) => Exchange(HttpError(500, InternalErrorDetail), [embed, ReadAllItems])
      case Ok(m) =>
        if m.text.None? || m.score < Threshold then
          Exchange(NotFound(NoMatchReply), [embed, ReadAllItems])
        else
          var (answer, call) := GenerateResponse(m.text.value, query, completion);
          Exchange(Answered(answer, m.file), [embed, ReadAllItems, call])
  }

  /** A failed query embedding is a 500 error; the store and the generator are never called. */
  lemma ChatEmbeddingFailure(query: string, store: Option<seq<Item>>, similarity: Similarity, completion: Completion)
    ensures Chat(query, None, store, similarity, completion)
         == Exchange(HttpError(500, EmbeddingFailedDetail), [EmbedCall(EmbeddingModel, query)])
  {
  }

  /** A failed read of the document store is a 500 error, before any generation. */
  lemma ChatStoreReadFailure(query: string, q: Vector, similarity: Similarity, completion: Completion)
    ensures Chat(query, Some(q), None, similarity, completion)
         == Exchange(HttpError(500, InternalErrorDetail), [EmbedCall(EmbeddingModel, query), ReadAllItems])
  {
  }

  /** An item the scan cannot get past turns the request into a 500 error, before any generation. */
  lemma ChatStoreFault(query: string, q: Vector, items: seq<Item>, similarity: Similarity, completion: Completion)
    requires exists i | 0 <= i < |items| :: !Scorable(items[i])
    ensures Chat(query, Some(q), Some(items), similarity, completion)
         == Exchange(HttpError(500, InternalErrorDetail), [EmbedCall(EmbeddingModel, query), ReadAllItems])
  {
  }

  /**
   * The fixed "not found" reply, without a `document` key and without a
   * generation call, is given exactly when every item scores below the
   * threshold.
   */
  lemma ChatNoRelevantMatch(query: string, q: Vector, items: seq<Item>, similarity: Similarity, completion: Completion)
    requires AllScorable(items)
    ensures var x := Chat(query, Some(q), Some(items), similarity, completion);
      && (x.reply.NotFound? <==> forall i | 0 <= i < |items| :: ScoreOf(q, items[i], similarity) < Threshold)
      && (x.reply.NotFound? ==>
            x == Exchange(NotFound(NoMatchReply), [EmbedCall(EmbeddingModel, query), ReadAllItems]))
  {
    FindRelevantThreshold(q, items, similarity);
  }

  /**
   * When some item reaches the threshold, the reply is the generator's
   * answer for a prompt built from the text of the earliest best item, and
   * the `document` is that item's file name.
   */
  lemma ChatAnswersFromFirstBest(query: string, q: Vector, items: seq<Item>, similarity: Similarity,
                                 completion: Completion)
    requires AllScorable(items)
    requires exists i | 0 <= i < |items| :: Threshold <= ScoreOf(q, items[i], similarity)
    ensures exists k ::
              && IsFirstMax(q, items, similarity, k)
              && Threshold <= ScoreOf(q, items[k], similarity)
              && Chat(query, Some(q), Some(items), similarity, completion)
                 == Exchange(Answered(Answer(completion), FileOf(items[k])),
                             [EmbedCall(EmbeddingModel, query), ReadAllItems,
                              CompletionCall(CompletionModel, SystemInstruction, Prompt(TextOf(items[k]), query))])
  {
    FindRelevantThreshold(q, items, similarity);
    var m := FindRelevant(q, items, similarity).value;
    var i :| 0 <= i < |items| && Threshold <= ScoreOf(q, items[i], similarity);
    assert Threshold <= m.score;
    var k :| ChosenAt(q, items, similarity, k, m.score)
             && m.text == Some(TextOf(items[k])) && m.file == FileOf(items[k]);
    assert IsFirstMax(q, items, similarity, k);
  }

  /** A matched record without text and without a file name still reaches the generator. */
  lemma EmptyTextStillGenerated(query: string, q: Vector, v: Vector, completion: Completion)
    ensures var items := [Item(Absent, Absent, Some(v))];
      Chat(query, Some(q), Some(items), (a: Vector, b: Vector) => 0.9, completion)
      == Exchange(Answered(Answer(completion), Some(UnknownFile)),
                  [EmbedCall(EmbeddingModel, query), ReadAllItems,
                   CompletionCall(CompletionModel, SystemInstruction, Prompt("", query))])
  {
    var items := [Item(Absent, Absent, Some(v))];
    assert items[..0] == [];
    assert Scan(q, items, (a: Vector, b: Vector) => 0.9) == Match(Some(""), Some(UnknownFile), 0.9);
  }

  /** Two records with the same top score: the earlier one is answered from. */
  lemma TieKeepsFirst(query: string, q: Vector, v: Vector, w: Vector, completion: Completion)
    ensures var items := [Item(Str("a.pdf"), Str("alpha"), Some(v)), Item(Str("b.pdf"), Str("beta"), Some(w))];
      Chat(query, Some(q), Some(items), (a: Vector, b: Vector) => 0.8, completion).reply
      == Answered(Answer(completion), Some("a.pdf"))
  {
    var items := [Item(Str("a.pdf"), Str("alpha"), Some(v)), Item(Str("b.pdf"), Str("beta"), Some(w))];
    var similarity := (a: Vector, b: Vector) => 0.8;
    assert items[..1][..0] == [] && items[..1] == [items[0]];
    assert Scan(q, items[..1], similarity) == Match(Some("alpha"), Some("a.pdf"), 0.8);
    assert Scan(q, items, similarity) == Match(Some("alpha"), Some("a.pdf"), 0.8);
  }
}
