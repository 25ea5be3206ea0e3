/**
 * The question-answering path of the RAG service: retrieve the closest
 * segments for a question, and either answer with a fixed text when there are
 * none or ask the chat model with a prompt built from them.  The embedding
 * model, the store's similarity search and the chat model are parameters; the
 * model records which of them were called, with what, in a call log.
 */
module RagAnswering {
  import opened Wrappers
  import opened JavaText

  type Vector = seq<real>

  /** One `EmbeddingMatch`: the matched segment's text and its score. */
  datatype Match = Match(text: string, score: real)

  datatype QuestionRequest = QuestionRequest(question: string, maxResults: Option<int>)

  datatype QuestionResponse = QuestionResponse(answer: string, sources: seq<string>, confidence: real)

  /** The three outside calls: embed a text, search the store, generate from a prompt. */
  datatype Models = Models(
    embed: string -> Vector,
    findRelevant: (Vector, int) -> seq<Match>,
    generate: string -> string)

  /** One call made to the models, in order. */
  datatype Call = Embedded(text: string) | Searched(query: Vector, maxResults: int) | Generated(prompt: string)

  datatype Answering = Answering(response: QuestionResponse, calls: seq<Call>)

  const DefaultMaxResults := 5
  const NoInformation := "I don't have enough information to answer this question."
  const ContextSeparator := "\n\n"

  /** The prompt's text block around its two `%s` slots (the block drops the trailing space of its first line). */
  const PromptHead := "You are a helpful AI assistant for IntelliDesk.\nAnswer the following question based on the provided context.\nIf the context doesn't contain enough information, say so clearly.\n\nContext:\n"
  const PromptMiddle := "\n\nQuestion: "
  const PromptTail := "\n\nAnswer:\n"

  const ExcerptLength := 100
  const Ellipsis := "..."

  /** The search limit: the request's value when given, 5 otherwise. */
  function MaxResults(request: QuestionRequest): (limit: int)
    ensures request.maxResults.None? ==> limit == 5
    ensures request.maxResults.Some? ==> limit == request.maxResults.value
  {
    request.maxResults.GetOr(DefaultMaxResults)
  }

  function Texts(matches: seq<Match>): (r: seq<string>)
    ensures |r| == |matches|
    ensures forall k :: 0 <= k < |matches| ==> r[k] == matches[k].text
  {
    seq(|matches|, k requires 0 <= k < |matches| => matches[k].text)
  }

  /** The context: the match texts, in match order, separated by blank lines. */
  function Context(matches: seq<Match>): string {
    Join(Texts(matches), ContextSeparator)
  }

  /** `buildPrompt`: the template with the context in the first slot and the question in the second. */
  function Prompt(question: string, context: string): string {
    PromptHead + context + PromptMiddle + question + PromptTail
  }

  /** A source excerpt: at most the first 100 characters of the text, then "..." in every case. */
  function Excerpt(text: string): string {
    var cut := if |text| < ExcerptLength then |text| else ExcerptLength;
    text[..cut] + Ellipsis
  }

  function Excerpts(matches: seq<Match>): (r: seq<string>)
    ensures |r| == |matches|
    ensures forall k :: 0 <= k < |matches| ==> r[k] == Excerpt(matches[k].text)
  {
    seq(|matches|, k requires 0 <= k < |matches| => Excerpt(matches[k].text))
  }

  function Sum(scores: seq<real>): real {
    if |scores| == 0 then 0.0 else Sum(scores[..|scores| - 1]) + scores[|scores| - 1]
  }

  function Scores(matches: seq<Match>): (r: seq<real>)
    ensures |r| == |matches|
    ensures forall k :: 0 <= k < |matches| ==> r[k] == matches[k].score
  {
    seq(|matches|, k requires 0 <= k < |matches| => matches[k].score)
  }

  /** The average of the scores, 0.0 for none; real arithmetic stands for the doubles. */
  function Mean(scores: seq<real>): real {
    if |scores| == 0 then 0.0 else Sum(scores) / (|scores| as real)
  }

  /** The matches the store returns for the question. */
  function Retrieved(request: QuestionRequest, models: Models): seq<Match> {
    models.findRelevant(models.embed(request.question), MaxResults(request))
  }

  /**
   * `answerQuestion`: with no matches, the fixed text, no sources and 0.0;
   * otherwise the chat model's answer to the prompt over the matches, one
   * excerpt per match in order, and the mean score.
   */
  function AnswerQuestion(request: QuestionRequest, models: Models): (r: Answering)
    ensures Retrieved(request, models) == [] ==>
      r.response == QuestionResponse(NoInformation, [], 0.0) && |r.calls| == 2
    ensures var matches := Retrieved(request, models);
      var prompt := Prompt(request.question, Context(matches));
      matches != [] ==>
        && |r.calls| == 3 && r.calls[2] == Generated(prompt)
        && r.response.answer == models.generate(prompt)
        && |r.response.sources| == |matches|
        && (forall k :: 0 <= k < |matches| ==> r.response.sources[k] == Excerpt(matches[k].text))
        && r.response.confidence == Mean(Scores(matches))
  {
    var question := request.question;
    var query := models.embed(question);
    var limit := MaxResults(request);
    var matches := models.findRelevant(query, limit);
    var lookup := [Embedded(question), Searched(query, limit)];
    if |matches| == 0 then
      Answering(QuestionResponse(NoInformation, [], 0.0), lookup)
    else
      var prompt := Prompt(question, Context(matches));
      Answering(QuestionResponse(models.generate(prompt), Excerpts(matches), Mean(Scores(matches))),
                lookup + [Generated(prompt)])
  }

  // ----- properties -----

  function EmbedCount(calls: seq<Call>): nat {
    if |calls| == 0 then 0
    else EmbedCount(calls[..|calls| - 1]) + (if calls[|calls| - 1].Embedded? then 1 else 0)
  }

  /** The question is embedded first and exactly once, and the search gets its vector and the (defaulted) limit. */
  lemma QuestionEmbeddedOnce(request: QuestionRequest, models: Models)
    ensures var r := AnswerQuestion(request, models);
      && |r.calls| >= 2
      && r.calls[0] == Embedded(request.question)
      && r.calls[1] == Searched(models.embed(request.question), MaxResults(request))
      && EmbedCount(r.calls) == 1
  {
    var r := AnswerQuestion(request, models);
    var lookup := [Embedded(request.question), Searched(models.embed(request.question), MaxResults(request))];
    assert lookup[..1] == [Embedded(request.question)];
    assert [Embedded(request.question)][..0] == [];
    assert EmbedCount([Embedded(request.question)]) == 1;
    assert EmbedCount(lookup) == 1;
    if |r.calls| == 3 {
      assert r.calls[..2] == lookup;
    }
  }

  /** The fixed answer comes exactly when the search finds nothing, and then the chat model is not called. */
  lemma NoMatchesAnswer(request: QuestionRequest, models: Models)
    ensures var r := AnswerQuestion(request, models);
      var matches := Retrieved(request, models);
      && (matches == [] <==> r.response.sources == [])
      && (matches == [] ==> r.response == QuestionResponse(NoInformation, [], 0.0))
      && (matches == [] <==> forall k :: 0 <= k < |r.calls| ==> !r.calls[k].Generated?)
  {
    var r := AnswerQuestion(request, models);
    if |r.calls| == 3 {
      assert r.calls[2].Generated?;
    }
  }

  /** Every match text sits in the context at its offset, in match order, one separator apart. */
  lemma ContextKeepsMatches(matches: seq<Match>, k: nat)
    requires k < |matches|
    ensures var at := JoinOffset(Texts(matches), ContextSeparator, k);
      && at + |matches[k].text| <= |Context(matches)|
      && Context(matches)[at..at + |matches[k].text|] == matches[k].text
      && (k + 1 < |matches| ==>
            var end := at + |matches[k].text|;
            && end + 2 <= |Context(matches)|
            && Context(matches)[end..end + 2] == "\n\n"
            && JoinOffset(Texts(matches), ContextSeparator, k + 1) == end + 2)
  {
    JoinPartAt(Texts(matches), ContextSeparator, k);
    if k + 1 < |matches| {
      JoinOffsetNext(Texts(matches), ContextSeparator, k);
      JoinSeparatorAt(Texts(matches), ContextSeparator, k);
    }
  }

  /** A single match is the whole context. */
  lemma SingleMatchContext(m: Match)
    ensures Context([m]) == m.text
  {}

  /** The prompt can be taken apart again: the context and the question sit between the fixed pieces. */
  lemma PromptParts(question: string, context: string)
    ensures var p := Prompt(question, context);
      var c := |PromptHead|;
      var q := c + |context| + |PromptMiddle|;
      && |p| == q + |question| + |PromptTail|
      && StartsWith(p, PromptHead)
      && p[c..c + |context|] == context
      && p[c + |context|..q] == PromptMiddle
      && p[q..q + |question|] == question
      && p[q + |question|..] == PromptTail
  {
    var p := Prompt(question, context);
    var c := |PromptHead|;
    var q := c + |context| + |PromptMiddle|;
    assert p == (PromptHead + context) + PromptMiddle + (question + PromptTail);
    assert p[..c] == PromptHead;
    assert p[c..c + |context|] == context;
    assert p[c + |context|..q] == PromptMiddle;
    assert p[q..] == question + PromptTail;
  }

  /** Once the context's length is known, the prompt determines the question and the context. */
  lemma PromptInjective(q1: string, c1: string, q2: string, c2: string)
    requires |c1| == |c2|
    requires Prompt(q1, c1) == Prompt(q2, c2)
    ensures q1 == q2 && c1 == c2
  {
    PromptParts(q1, c1);
    PromptParts(q2, c2);
  }

  /** An excerpt has length min(100, len) + 3, ends with "...", and without that suffix is a prefix of the text. */
  lemma ExcerptShape(text: string)
    ensures var e := Excerpt(text);
      var cut := if |text| < 100 then |text| else 100;
      && |e| == cut + 3
      && |e| <= 103
      && e[cut..] == "..."
      && StartsWith(text, e[..cut])
      && (|text| <= 100 ==> e == text + "...")
  {
    var e := Excerpt(text);
    var cut := if |text| < 100 then |text| else 100;
    assert e[..cut] == text[..cut];
  }

  lemma {:induction false} SumBounds(scores: seq<real>, lo: real, hi: real)
    requires forall k :: 0 <= k < |scores| ==> lo <= scores[k] <= hi
    ensures lo * (|scores| as real) <= Sum(scores) <= hi * (|scores| as real)
  {
    var n := |scores|;
    if n > 0 {
      var init := scores[..n - 1];
      SumBounds(init, lo, hi);
      assert lo * (n as real) == lo * ((n - 1) as real) + lo;
      assert hi * (n as real) == hi * ((n - 1) as real) + hi;
    }
  }

  /** The confidence lies between the lowest and the highest score. */
  lemma MeanWithin(scores: seq<real>, lo: real, hi: real)
    requires |scores| > 0
    requires forall k :: 0 <= k < |scores| ==> lo <= scores[k] <= hi
    ensures lo <= Mean(scores) <= hi
  {
    var n := |scores| as real;
    SumBounds(scores, lo, hi);
    var m := Sum(scores) / n;
    assert m * n == Sum(scores);
    assert (m - lo) * n == Sum(scores) - lo * n;
    assert (hi - m) * n == hi * n - Sum(scores);
    if m < lo {
      assert (lo - m) * n > 0.0;
    }
    if m > hi {
      assert (m - hi) * n > 0.0;
    }
  }
}
