/**
 * How `MCQGenerator` assembles the list of questions it returns
 * (`generate_questions`, `_generate_fallback_questions`,
 * `_create_basic_question`). The language model, the regular-expression
 * extraction of JSON and `json.loads` are an oracle: the caller passes in
 * what each model call would have produced once parsed.
 */
module McqGeneration {
  import opened Wrappers
  import opened McqValidation

  /** Python's `s[:k]` for `k >= 0`: the longest prefix of `s` with at most `k` elements. */
  function Take<T>(s: seq<T>, k: nat): seq<T> {
    if |s| <= k then s else s[..k]
  }

  lemma TakeSpec<T>(s: seq<T>, k: nat)
    ensures Take(s, k) <= s && |Take(s, k)| <= k
    ensures |Take(s, k)| == k || Take(s, k) == s
  {
  }

  /** `s.split('.')[0]`: the part of `s` before its first full stop. */
  function BeforeDot(s: string): string {
    if s == [] || s[0] == '.' then [] else [s[0]] + BeforeDot(s[1..])
  }

  /** `chunk.split('.')[0][:100]`. */
  function FirstSentence(chunk: string): string {
    Take(BeforeDot(chunk), 100)
  }

  /** `BeforeDot(s)` is the longest prefix of `s` without a full stop. */
  lemma {:induction false} BeforeDotSpec(s: string)
    ensures BeforeDot(s) <= s && '.' !in BeforeDot(s)
    ensures BeforeDot(s) == s || s[|BeforeDot(s)|] == '.'
  {
    if s != [] && s[0] != '.' {
      BeforeDotSpec(s[1..]);
    }
  }

  /**
   * The sentence a basic question is about is a prefix of the chunk of at
   * most 100 characters without a full stop, cut short only by the limit,
   * a full stop or the end of the chunk.
   */
  lemma FirstSentenceSpec(chunk: string)
    ensures FirstSentence(chunk) <= chunk && |FirstSentence(chunk)| <= 100 && '.' !in FirstSentence(chunk)
    ensures |FirstSentence(chunk)| == 100 || FirstSentence(chunk) == chunk || chunk[|FirstSentence(chunk)|] == '.'
  {
    BeforeDotSpec(chunk);
    TakeSpec(BeforeDot(chunk), 100);
  }

  const BasicLead := "What does the document mention about: "
  const BasicFiller := ["Information not provided in the text", "This topic is not covered", "The document does not specify"]
  const BasicAnswerLead := "It discusses: "
  const BasicExplanation := "This information is directly stated in the document text."

  function BasicQuestion(chunk: string, index: int): (r: RawQuestion)
    ensures |r.options| == 4
    ensures forall i :: 0 <= i < 4 ==> r.options[i].isCorrect.Some?
    ensures MarkedIndices(Flags(r.options)) == [1]
    ensures r.correctAnswer == Chr(65 + 1)
  {
    var sentence := FirstSentence(chunk);
    var r := RawQuestion(
      BasicLead + sentence + "?",
      [ RawOption(BasicFiller[0], Some(false)),
        RawOption(BasicAnswerLead + sentence, Some(true)),
        RawOption(BasicFiller[1], Some(false)),
        RawOption(BasicFiller[2], Some(false)) ],
      BasicExplanation,
      Chr(66));
    SoleMark(Flags(r.options), 1);
    r
  }

  /** A basic question is well formed and the validator leaves it as it is. */
  lemma BasicQuestionValid(chunk: string, index: int)
    ensures WellFormed(BasicQuestion(chunk, index))
    ensures Validate(BasicQuestion(chunk, index)) == Some(BasicQuestion(chunk, index))
  {
    ValidateOneMarked(BasicQuestion(chunk, index));
  }

  /** What one per-chunk model call of the fallback produced. */
  datatype ChunkReply =
    | Raised              // the call, `json.loads` or the validator raised
    | NoObject            // the reply held no `{...}`
    | Parsed(q: RawQuestion)

  /** One element of the JSON array the main model call produced. */
  datatype RawItem =
    | Malformed           // an element the validator raises on (not a dictionary, options not dictionaries)
    | Item(q: RawQuestion)

  /** What the main model call produced once parsed. */
  datatype LlmReply =
    | Failed              // the call or `json.loads` raised, or the result cannot be sliced
    | Items(items: seq<RawItem>)

  /**
   * Where one question of a returned list comes from: a parsed question the
   * validator accepted, or the basic question built from a chunk.
   */
  datatype Source =
    | Validated(raw: RawQuestion)
    | Basic(chunk: string, index: int)

  /** The question a source stands for. */
  function Realize(s: Source): RawQuestion {
    match s
    case Validated(raw) => (if Validate(raw).Some? then Validate(raw).value else raw)
    case Basic(chunk, index) => BasicQuestion(chunk, index)
  }

  function Realized(ss: seq<Source>): (qs: seq<RawQuestion>)
    ensures |qs| == |ss|
  {
    if ss == [] then [] else Realized(ss[..|ss| - 1]) + [Realize(ss[|ss| - 1])]
  }

  lemma {:induction false} RealizedConcat(a: seq<Source>, b: seq<Source>)
    ensures Realized(a + b) == Realized(a) + Realized(b)
  {
    if b == [] {
      assert a + b == a;
    } else {
      var init := b[..|b| - 1];
      assert (a + b)[..|a + b| - 1] == a + init;
      RealizedConcat(a, init);
    }
  }

  lemma {:induction false} RealizedAt(ss: seq<Source>)
    ensures forall i :: 0 <= i < |ss| ==> Realized(ss)[i] == Realize(ss[i])
  {
    if ss != [] {
      RealizedAt(ss[..|ss| - 1]);
    }
  }

  lemma RealizedTake(ss: seq<Source>, k: nat)
    ensures Realized(Take(ss, k)) == Take(Realized(ss), k)
  {
    RealizedAt(ss);
    RealizedAt(Take(ss, k));
  }

  /**
   * The validator returns a question exactly for parsed questions with
   * options (`ValidateRejectsOnlyEmpty`), so this is the test `if validated_q`
   * makes in `generate_questions` and in the fallback loop.
   */
  predicate Accepted(q: RawQuestion) {
    q.options != []
  }

  /** A source that can appear in a returned list: a validated question had options. */
  predicate Producible(s: Source) {
    s.Validated? ==> Accepted(s.raw)
  }

  /** The question of a producible source has exactly one correct option, named by its answer letter. */
  lemma RealizeWellFormed(s: Source)
    requires Producible(s)
    ensures WellFormed(Realize(s))
  {
    match s
    case Validated(raw) =>
      ValidateRejectsOnlyEmpty(raw);
      ValidateWellFormed(raw);
    case Basic(chunk, index) =>
      BasicQuestionValid(chunk, index);
  }

  /** Every question realized from producible sources is well formed. */
  lemma RealizedWellFormed(ss: seq<Source>)
    requires forall s :: s in ss ==> Producible(s)
    ensures forall q :: q in Realized(ss) ==> WellFormed(q)
  {
    RealizedAt(ss);
    forall q | q in Realized(ss)
      ensures WellFormed(q)
    {
      var i :| 0 <= i < |ss| && Realized(ss)[i] == q;
      RealizeWellFormed(ss[i]);
    }
  }

  /** One iteration of the loop in `_generate_fallback_questions` for chunk `i`: what it appends. */
  function FallbackStep(chunk: string, i: int, reply: ChunkReply): seq<Source> {
    match reply
    case Raised => [Basic(Take(chunk, 600), i)]
    case NoObject => []
    case Parsed(q) => if Accepted(q) then [Validated(q)] else []
  }

  /** `min(n, len(chunks))` as the length of a `range`: never negative. */
  function Calls(n: int, chunkCount: nat): nat {
    if n < chunkCount then (if n < 0 then 0 else n) else chunkCount
  }

  /** What the first `k` iterations of the fallback loop have appended. */
  function FallbackUpTo(chunks: seq<string>, replies: seq<ChunkReply>, k: nat): seq<Source>
    requires k <= |chunks| == |replies|
  {
    if k == 0 then []
    else FallbackUpTo(chunks, replies, k - 1) + FallbackStep(chunks[k - 1], k - 1, replies[k - 1])
  }

  /**
   * `_generate_fallback_questions(chunks, n)`, where `replies[i]` is what the
   * model call for chunk `i` would produce.
   */
  function Fallback(chunks: seq<string>, n: int, replies: seq<ChunkReply>): seq<Source>
    requires |replies| == |chunks|
  {
    FallbackUpTo(chunks, replies, Calls(n, |chunks|))
  }

  /**
   * Where a fallback question comes from, among the first `visited` chunks:
   * a parsed reply with options, or a chunk whose call raised, cut to 600
   * characters.
   */
  predicate FromFallback(s: Source, chunks: seq<string>, replies: seq<ChunkReply>, visited: nat)
    requires visited <= |chunks| == |replies|
  {
    match s
    case Validated(raw) => Accepted(raw) && Parsed(raw) in replies[..visited]
    case Basic(chunk, i) => 0 <= i < visited && replies[i] == Raised && chunk == Take(chunks[i], 600)
  }

  /** A question traced to the first `a` chunks is traced to the first `b >= a`. */
  lemma FromFallbackWider(s: Source, chunks: seq<string>, replies: seq<ChunkReply>, a: nat, b: nat)
    requires a <= b <= |chunks| == |replies|
    requires FromFallback(s, chunks, replies, a)
    ensures FromFallback(s, chunks, replies, b)
  {
    if s.Validated? {
      var j :| 0 <= j < a && replies[..a][j] == Parsed(s.raw);
      assert replies[..b][j] == Parsed(s.raw);
    }
  }

  lemma {:induction false} FallbackUpToBound(chunks: seq<string>, replies: seq<ChunkReply>, k: nat)
    requires k <= |chunks| == |replies|
    ensures |FallbackUpTo(chunks, replies, k)| <= k
    ensures forall s :: s in FallbackUpTo(chunks, replies, k) ==> FromFallback(s, chunks, replies, k)
  {
    if k > 0 {
      FallbackUpToBound(chunks, replies, k - 1);
      forall s | s in FallbackUpTo(chunks, replies, k - 1)
        ensures FromFallback(s, chunks, replies, k)
      {
        FromFallbackWider(s, chunks, replies, k - 1, k);
      }
      assert replies[..k][k - 1] == replies[k - 1];
    }
  }

  /**
   * The fallback yields at most `min(n, len(chunks))` questions, each a
   * validated reply with options or the basic question of a chunk whose call
   * raised.
   */
  lemma FallbackBound(chunks: seq<string>, n: int, replies: seq<ChunkReply>)
    requires |replies| == |chunks|
    ensures |Fallback(chunks, n, replies)| <= Calls(n, |chunks|)
    ensures forall s :: s in Fallback(chunks, n, replies) ==> FromFallback(s, chunks, replies, Calls(n, |chunks|)) && Producible(s)
  {
    FallbackUpToBound(chunks, replies, Calls(n, |chunks|));
  }

  lemma {:induction false} FallbackUpToAllRaised(chunks: seq<string>, replies: seq<ChunkReply>, k: nat)
    requires k <= |chunks| == |replies|
    requires forall i :: 0 <= i < k ==> replies[i] == Raised
    ensures FallbackUpTo(chunks, replies, k) == seq(k, i requires 0 <= i < k => Basic(Take(chunks[i], 600), i))
  {
    if k > 0 {
      FallbackUpToAllRaised(chunks, replies, k - 1);
    }
  }

  /** When every model call raises, the fallback is one basic question per chunk it visits, in chunk order. */
  lemma FallbackAllRaised(chunks: seq<string>, n: int, replies: seq<ChunkReply>)
    requires |replies| == |chunks|
    requires forall i :: 0 <= i < Calls(n, |chunks|) ==> replies[i] == Raised
    ensures |Fallback(chunks, n, replies)| == Calls(n, |chunks|)
    ensures forall i :: 0 <= i < Calls(n, |chunks|) ==> Fallback(chunks, n, replies)[i] == Basic(Take(chunks[i], 600), i)
  {
    FallbackUpToAllRaised(chunks, replies, Calls(n, |chunks|));
  }

  /**
   * A chunk the fallback visits whose model call raised always contributes
   * its basic question, whatever the other replies are.
   */
  lemma {:induction false} FallbackUpToKeepsRaised(chunks: seq<string>, replies: seq<ChunkReply>, k: nat)
    requires k <= |chunks| == |replies|
    ensures forall i :: 0 <= i < k && replies[i] == Raised ==> Basic(Take(chunks[i], 600), i) in FallbackUpTo(chunks, replies, k)
  {
    if k > 0 {
      FallbackUpToKeepsRaised(chunks, replies, k - 1);
    }
  }

  /** Every visited chunk whose call raised yields its basic question, cut to 600 characters. */
  lemma FallbackKeepsRaised(chunks: seq<string>, n: int, replies: seq<ChunkReply>)
    requires |replies| == |chunks|
    ensures forall i :: 0 <= i < Calls(n, |chunks|) && replies[i] == Raised ==>
      Basic(Take(chunks[i], 600), i) in Fallback(chunks, n, replies)
  {
    FallbackUpToKeepsRaised(chunks, replies, Calls(n, |chunks|));
  }

  lemma {:induction false} FallbackUpToKeepsParsed(chunks: seq<string>, replies: seq<ChunkReply>, k: nat)
    requires k <= |chunks| == |replies|
    ensures forall i :: 0 <= i < k && replies[i].Parsed? && Accepted(replies[i].q) ==>
      Validated(replies[i].q) in FallbackUpTo(chunks, replies, k)
  {
    if k > 0 {
      FallbackUpToKeepsParsed(chunks, replies, k - 1);
    }
  }

  /** Every visited chunk whose reply parsed to a question with options yields that question, validated. */
  lemma FallbackKeepsParsed(chunks: seq<string>, n: int, replies: seq<ChunkReply>)
    requires |replies| == |chunks|
    ensures forall i :: 0 <= i < Calls(n, |chunks|) && replies[i].Parsed? && Accepted(replies[i].q) ==>
      Validated(replies[i].q) in Fallback(chunks, n, replies)
  {
    FallbackUpToKeepsParsed(chunks, replies, Calls(n, |chunks|));
  }

  /** The loop over the model's array in `generate_questions`: the items the validator accepts, in their original order. */
  function Survivors(items: seq<RawItem>): seq<Source> {
    if items == [] then []
    else
      Survivors(items[..|items| - 1]) +
      match items[|items| - 1]
      case Item(q) => if Accepted(q) then [Validated(q)] else []
      case Malformed => []
  }

  /** The survivors of two lists are those of the first followed by those of the second. */
  lemma {:induction false} SurvivorsInOrder(a: seq<RawItem>, b: seq<RawItem>)
    ensures Survivors(a + b) == Survivors(a) + Survivors(b)
  {
    if b == [] {
      assert a + b == a;
    } else {
      var init := b[..|b| - 1];
      assert (a + b)[..|a + b| - 1] == a + init;
      assert (a + b)[|a + b| - 1] == b[|b| - 1];
      SurvivorsInOrder(a, init);
    }
  }

  /** No more survivors than items, each an accepted item of the list, and every item with options survives. */
  lemma {:induction false} SurvivorsBound(items: seq<RawItem>)
    ensures |Survivors(items)| <= |items|
    ensures forall s :: s in Survivors(items) ==> s.Validated? && Accepted(s.raw) && Item(s.raw) in items
    ensures (forall i :: 0 <= i < |items| ==> items[i].Item? && Accepted(items[i].q)) ==>
      |Survivors(items)| == |items|
  {
    if items != [] {
      var init := items[..|items| - 1];
      SurvivorsBound(init);
      assert forall x :: x in init ==> x in items;
      assert items[|items| - 1] in items;
    }
  }

  /** In any list, mixed or not, every item with options survives the validator. */
  lemma {:induction false} SurvivorsKeepAccepted(items: seq<RawItem>)
    ensures forall i :: 0 <= i < |items| && items[i].Item? && Accepted(items[i].q) ==>
      Validated(items[i].q) in Survivors(items)
  {
    if items != [] {
      var init := items[..|items| - 1];
      SurvivorsKeepAccepted(init);
      assert forall i :: 0 <= i < |init| ==> init[i] == items[i];
    }
  }

  /**
   * The end of `generate_questions`: the validated questions, topped up from the fallback by
   * the shortfall when there are fewer than `n`, cut to `n`.
   */
  function TopUp(chunks: seq<string>, n: nat, valid: seq<Source>, fallback: seq<ChunkReply>): seq<Source>
    requires |fallback| == |chunks|
  {
    var all := if |valid| < n then valid + Fallback(chunks, n - |valid|, fallback) else valid;
    Take(all, n)
  }

  /**
   * `generate_questions(chunks, n)`: `reply` is the main model call's parsed
   * output and `fallback` the per-chunk replies of whichever fallback call
   * runs. A malformed item among the first `n` raises, and the whole list is
   * then the fallback's.
   */
  function Generate(chunks: seq<string>, n: nat, reply: LlmReply, fallback: seq<ChunkReply>): seq<Source>
    requires |fallback| == |chunks|
  {
    match reply
    case Failed => Fallback(chunks, n, fallback)
    case Items(items) =>
      var head := Take(items, n);
      if Malformed in head then Fallback(chunks, n, fallback)
      else TopUp(chunks, n, Survivors(head), fallback)
  }

  /** The items of the main reply that `generate_questions` looks at. */
  function Considered(n: nat, reply: LlmReply): seq<RawItem> {
    match reply
    case Failed => []
    case Items(items) => Take(items, n)
  }

  /**
   * Where a returned question comes from: an accepted item among
   * `considered`, or the fallback over the first `min(n, len(chunks))` chunks.
   */
  predicate Traced(s: Source, chunks: seq<string>, n: nat, fallback: seq<ChunkReply>, considered: seq<RawItem>)
    requires |fallback| == |chunks|
  {
    Producible(s) &&
    (FromFallback(s, chunks, fallback, Calls(n, |chunks|)) || (s.Validated? && Item(s.raw) in considered))
  }

  /** Topping up at most `n` validated items yields at most `n` traced questions, the validated ones first. */
  lemma TopUpBound(chunks: seq<string>, n: nat, head: seq<RawItem>, fallback: seq<ChunkReply>)
    requires |fallback| == |chunks|
    requires |head| <= n
    ensures var valid := Survivors(head);
      |TopUp(chunks, n, valid, fallback)| <= n &&
      TopUp(chunks, n, valid, fallback) == if |valid| < n then valid + Fallback(chunks, n - |valid|, fallback) else valid
    ensures forall s :: s in TopUp(chunks, n, Survivors(head), fallback) ==> Traced(s, chunks, n, fallback, head)
  {
    var valid := Survivors(head);
    SurvivorsBound(head);
    FallbackBound(chunks, n - |valid|, fallback);
    forall s | s in Fallback(chunks, n - |valid|, fallback)
      ensures FromFallback(s, chunks, fallback, Calls(n, |chunks|))
    {
      FromFallbackWider(s, chunks, fallback, Calls(n - |valid|, |chunks|), Calls(n, |chunks|));
    }
  }

  /**
   * `generate_questions` returns at most `n` questions, each either an
   * accepted item among the first `n` of the main reply or a fallback
   * question.
   */
  lemma GenerateBound(chunks: seq<string>, n: nat, reply: LlmReply, fallback: seq<ChunkReply>)
    requires |fallback| == |chunks|
    ensures |Generate(chunks, n, reply, fallback)| <= n
    ensures forall s :: s in Generate(chunks, n, reply, fallback) ==> Traced(s, chunks, n, fallback, Considered(n, reply))
  {
    FallbackBound(chunks, n, fallback);
    if reply.Items? {
      TakeSpec(reply.items, n);
      TopUpBound(chunks, n, Take(reply.items, n), fallback);
    }
  }

  /**
   * On the success path the survivors come first, in order, and the fallback
   * is asked for exactly the shortfall; the final truncation cuts nothing.
   */
  lemma GenerateTopsUp(chunks: seq<string>, n: nat, items: seq<RawItem>, fallback: seq<ChunkReply>)
    requires |fallback| == |chunks|
    requires Malformed !in Take(items, n)
    ensures var valid := Survivors(Take(items, n));
      Generate(chunks, n, Items(items), fallback) ==
        if |valid| < n then valid + Fallback(chunks, n - |valid|, fallback) else valid
  {
    TakeSpec(items, n);
    TopUpBound(chunks, n, Take(items, n), fallback);
  }

  /** Only the first `n` items of the model's array are looked at. */
  lemma GenerateIgnoresLaterItems(chunks: seq<string>, n: nat, items: seq<RawItem>, later: seq<RawItem>, fallback: seq<ChunkReply>)
    requires |fallback| == |chunks|
    requires |items| >= n
    ensures Generate(chunks, n, Items(items + later), fallback) == Generate(chunks, n, Items(items), fallback)
  {
    assert Take(items + later, n) == Take(items, n);
  }

  /** Every question `generate_questions` returns has exactly one correct option, and there are at most `n`. */
  lemma GenerateWellFormed(chunks: seq<string>, n: nat, reply: LlmReply, fallback: seq<ChunkReply>)
    requires |fallback| == |chunks|
    ensures |Realized(Generate(chunks, n, reply, fallback))| <= n
    ensures forall q :: q in Realized(Generate(chunks, n, reply, fallback)) ==> WellFormed(q)
  {
    GenerateBound(chunks, n, reply, fallback);
    RealizedWellFormed(Generate(chunks, n, reply, fallback));
  }

  /**
   * `self._validate_and_fix_question(q)`: validate the dictionary `json.loads` built from `raw`,
   * in place; `None` where the validator returns `None`.
   */
  method ValidateParsed(raw: RawQuestion) returns (r: Option<RawQuestion>)
    ensures r == Validate(raw)
  {
    var q := new Question(raw);
    var ok := q.ValidateAndFix();
    r := if ok then Some(q.Value()) else None;
  }

  /** One iteration of the loop in `_generate_fallback_questions` for chunk `i`. */
  method FallbackOne(chunk: string, i: int, reply: ChunkReply) returns (added: seq<RawQuestion>)
    ensures added == Realized(FallbackStep(chunk, i, reply))
  {
    var text := Take(chunk, 600);
    match reply {
      case Raised =>
        added := [BasicQuestion(text, i)];
      case NoObject =>
        added := [];
      case Parsed(raw) =>
        ValidateRejectsOnlyEmpty(raw);
        var validated := ValidateParsed(raw);
        added := if validated.Some? then [validated.value] else [];
    }
  }

  /** `_generate_fallback_questions` as the loop the source runs. */
  method FallbackQuestions(chunks: seq<string>, n: int, replies: seq<ChunkReply>) returns (questions: seq<RawQuestion>)
    requires |replies| == |chunks|
    ensures questions == Realized(Fallback(chunks, n, replies))
  {
    questions := [];
    var count := if n < |chunks| then n else |chunks|;
    var i := 0;
    ghost var sources := [];
    while i < count
      invariant 0 <= i <= Calls(n, |chunks|)
      invariant sources == FallbackUpTo(chunks, replies, i)
      invariant questions == Realized(sources)
      decreases count - i
    {
      var added := FallbackOne(chunks[i], i, replies[i]);
      ghost var step := FallbackStep(chunks[i], i, replies[i]);
      RealizedConcat(sources, step);
      questions := questions + added;
      sources := sources + step;
      i := i + 1;
    }
    assert i == Calls(n, |chunks|);
  }

  /** The loop over `questions_raw[:num_questions]` in `generate_questions`: `None` when an item raises, else the validated items in order. */
  method ValidateItems(head: seq<RawItem>) returns (valid: Option<seq<RawQuestion>>)
    ensures valid.None? <==> Malformed in head
    ensures valid.Some? ==> valid.value == Realized(Survivors(head))
  {
    var questions := [];
    var i := 0;
    while i < |head|
      invariant 0 <= i <= |head|
      invariant Malformed !in head[..i]
      invariant questions == Realized(Survivors(head[..i]))
    {
      assert head[..i + 1] == head[..i] + [head[i]];
      SurvivorsInOrder(head[..i], [head[i]]);
      match head[i] {
        case Malformed =>
          return None;
        case Item(raw) =>
          ValidateRejectsOnlyEmpty(raw);
          var validated := ValidateParsed(raw);
          RealizedConcat(Survivors(head[..i]), Survivors([head[i]]));
          if validated.Some? {
            questions := questions + [validated.value];
          }
      }
      i := i + 1;
    }
    assert head[..i] == head;
    valid := Some(questions);
  }

  /** `generate_questions` as the source runs it; the caller keeps `n` within 1..15. */
  method GenerateQuestions(chunks: seq<string>, n: nat, reply: LlmReply, fallback: seq<ChunkReply>)
    returns (questions: seq<RawQuestion>)
    requires 1 <= n <= 15
    requires |fallback| == |chunks|
    ensures questions == Realized(Generate(chunks, n, reply, fallback))
  {
    if reply.Failed? {
      questions := FallbackQuestions(chunks, n, fallback);
      return;
    }
    var head := Take(reply.items, n);
    var valid := ValidateItems(head);
    if valid.None? {
      questions := FallbackQuestions(chunks, n, fallback);
      return;
    }
    questions := valid.value;
    ghost var sources := Survivors(head);
    if |questions| < n {
      var remaining := n - |questions|;
      var extra := FallbackQuestions(chunks, remaining, fallback);
      RealizedConcat(sources, Fallback(chunks, remaining, fallback));
      questions := questions + extra;
      sources := sources + Fallback(chunks, remaining, fallback);
    }
    RealizedTake(sources, n);
    questions := Take(questions, n);
  }
}
