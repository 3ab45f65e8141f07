/**
 * The question records the language model produces, and the normaliser that
 * makes sure exactly one option of a question is marked correct
 * (`MCQGenerator._validate_and_fix_question`).
 */
module McqValidation {
  import opened Wrappers

  /** The `is_correct` key of one option: absent, or present with its truth value. */
  type Flag = Option<bool>

  /** `opt.get("is_correct", False)`: an absent key counts as not correct. */
  predicate IsMarked(f: Flag) {
    f == Some(true)
  }

  /**
   * The `correct_answer` key of a question. A one-character string is
   * always written `Chr(code)`, so `Given` holds only strings of other
   * lengths and each Python value has exactly one form.
   */
  datatype AnswerKey =
    | Absent               // the model left the key out
    | Given(text: string)  // whatever else the model wrote there: never a single character
    | Chr(code: nat)       // the one-character string chr(code)

  datatype RawOption = RawOption(text: string, isCorrect: Flag)

  /**
   * A question dictionary. A missing, null or empty `options` value is an
   * empty option list: the validator treats the three alike.
   */
  datatype RawQuestion = RawQuestion(
    question: string,
    options: seq<RawOption>,
    explanation: string,
    correctAnswer: AnswerKey)

  function Flags(options: seq<RawOption>): seq<Flag> {
    seq(|options|, i requires 0 <= i < |options| => options[i].isCorrect)
  }

  function Texts(options: seq<RawOption>): seq<string> {
    seq(|options|, i requires 0 <= i < |options| => options[i].text)
  }

  /** The option list with texts `texts` and `is_correct` keys `fs`. */
  function Options(texts: seq<string>, fs: seq<Flag>): seq<RawOption>
    requires |texts| == |fs|
  {
    seq(|texts|, i requires 0 <= i < |texts| => RawOption(texts[i], fs[i]))
  }

  lemma OptionsOfParts(options: seq<RawOption>)
    ensures Options(Texts(options), Flags(options)) == options
  {
    var o := Options(Texts(options), Flags(options));
    assert |o| == |options|;
    assert forall i :: 0 <= i < |o| ==> o[i] == options[i];
  }

  lemma PartsOfOptions(texts: seq<string>, fs: seq<Flag>)
    requires |texts| == |fs|
    ensures Flags(Options(texts, fs)) == fs && Texts(Options(texts, fs)) == texts
  {
  }

  /** The indices of the marked options in increasing order (the `correct_indices` list of the validator). */
  function MarkedIndices(fs: seq<Flag>): seq<nat> {
    if fs == [] then []
    else MarkedIndices(fs[..|fs| - 1]) + (if IsMarked(fs[|fs| - 1]) then [|fs| - 1] else [])
  }

  /** `MarkedIndices(fs)` lists, in strictly increasing order, exactly the indices of the marked flags. */
  lemma {:induction false} MarkedIndicesSpec(fs: seq<Flag>)
    ensures forall k: nat :: k in MarkedIndices(fs) <==> k < |fs| && IsMarked(fs[k])
    ensures forall a :: 0 <= a < |MarkedIndices(fs)| ==> MarkedIndices(fs)[a] < |fs|
    ensures forall a, b :: 0 <= a < b < |MarkedIndices(fs)| ==> MarkedIndices(fs)[a] < MarkedIndices(fs)[b]
  {
    if fs != [] {
      var init := fs[..|fs| - 1];
      MarkedIndicesSpec(init);
      assert forall k :: 0 <= k < |init| ==> init[k] == fs[k];
    }
  }

  /** A list of `n` flags, all present, in which only index `k` is set. */
  function MarkOnly(n: nat, k: nat): seq<Flag> {
    seq(n, i => Some(i == k))
  }

  /** A flag list whose only marked entry is `k` has `[k]` as its marked indices. */
  lemma SoleMark(fs: seq<Flag>, k: nat)
    requires k < |fs| && IsMarked(fs[k])
    requires forall j :: 0 <= j < |fs| && j != k ==> !IsMarked(fs[j])
    ensures MarkedIndices(fs) == [k]
  {
    var r := MarkedIndices(fs);
    MarkedIndicesSpec(fs);
    assert k in r;
    assert forall a :: 0 <= a < |r| ==> r[a] in r;
    assert r[0] == k;
  }

  /**
   * `_validate_and_fix_question` on values: `None` for the `None` it returns,
   * otherwise the question as it is after the in-place rewrite.
   */
  function Validate(q: RawQuestion): Option<RawQuestion> {
    if |q.options| == 0 then None
    else
      var fs := Flags(q.options);
      var marked := MarkedIndices(fs);
      var fixed :=
        if |marked| == 0 then MarkOnly(|fs|, 0)
        else if |marked| > 1 then MarkOnly(|fs|, marked[0])
        else fs;
      var after := MarkedIndices(fixed);
      if |after| != 1 then None
      else Some(q.(options := Options(Texts(q.options), fixed), correctAnswer := Chr(65 + after[0])))
  }

  /** Exactly one option is marked, and `correct_answer` is chr(65 + its index). */
  predicate WellFormed(q: RawQuestion) {
    var marked := MarkedIndices(Flags(q.options));
    |marked| == 1 && q.correctAnswer == Chr(65 + marked[0])
  }

  /** The flags the validator leaves in place of `fs` (a non-empty list). */
  lemma FixedFlags(fs: seq<Flag>)
    requires |fs| > 0
    ensures var marked := MarkedIndices(fs);
      |marked| != 1 ==> MarkedIndices(MarkOnly(|fs|, if |marked| == 0 then 0 else marked[0])) == [if |marked| == 0 then 0 else marked[0]]
  {
    var marked := MarkedIndices(fs);
    if |marked| != 1 {
      var k := if |marked| == 0 then 0 else marked[0];
      MarkedIndicesSpec(fs);
      assert |marked| > 0 ==> marked[0] in marked;
      SoleMark(MarkOnly(|fs|, k), k);
    }
  }

  /** The validator rejects a question exactly when it has no options: its final `len(correct_indices) != 1` re-check never fails. */
  lemma ValidateRejectsOnlyEmpty(q: RawQuestion)
    ensures Validate(q).None? <==> q.options == []
  {
    if q.options != [] {
      FixedFlags(Flags(q.options));
    }
  }

  /** Every question the validator returns has exactly one correct option, named by its answer letter. */
  lemma ValidateWellFormed(q: RawQuestion)
    requires Validate(q).Some?
    ensures WellFormed(Validate(q).value)
  {
    var v := Validate(q).value;
    var fs := Flags(q.options);
    var marked := MarkedIndices(fs);
    var fixed :=
      if |marked| == 0 then MarkOnly(|fs|, 0)
      else if |marked| > 1 then MarkOnly(|fs|, marked[0])
      else fs;
    assert Flags(v.options) == fixed;
  }

  /** The validator changes neither the number of options, their texts, the question nor the explanation. */
  lemma ValidateChangesOnlyMarks(q: RawQuestion)
    requires Validate(q).Some?
    ensures var v := Validate(q).value;
      && v.question == q.question
      && v.explanation == q.explanation
      && Texts(v.options) == Texts(q.options)
  {
    var v := Validate(q).value;
    assert |v.options| == |q.options|;
    assert forall i :: 0 <= i < |v.options| ==> v.options[i].text == q.options[i].text;
  }

  /** No option marked: afterwards option 0 alone is marked, every flag is present, and the answer is "A". */
  lemma ValidateNoneMarked(q: RawQuestion)
    requires q.options != [] && MarkedIndices(Flags(q.options)) == []
    ensures Validate(q).Some?
    ensures var v := Validate(q).value;
      && |v.options| == |q.options|
      && v.options[0].isCorrect == Some(true)
      && (forall i :: 1 <= i < |v.options| ==> v.options[i].isCorrect == Some(false))
      && v.correctAnswer == Chr(65)
  {
    FixedFlags(Flags(q.options));
  }

  /** Several options marked: afterwards only the lowest originally marked one stays marked, and the answer is its letter. */
  lemma ValidateManyMarked(q: RawQuestion)
    requires |MarkedIndices(Flags(q.options))| > 1
    ensures Validate(q).Some?
    ensures var first := MarkedIndices(Flags(q.options))[0];
      var v := Validate(q).value;
      && |v.options| == |q.options|
      && (forall i :: 0 <= i < |v.options| ==> v.options[i].isCorrect == Some(i == first))
      && v.correctAnswer == Chr(65 + first)
  {
    FixedFlags(Flags(q.options));
  }

  /** Exactly one option marked: the options are left as they are and only the answer letter is set. */
  lemma ValidateOneMarked(q: RawQuestion)
    requires |MarkedIndices(Flags(q.options))| == 1
    ensures Validate(q) == Some(q.(correctAnswer := Chr(65 + MarkedIndices(Flags(q.options))[0])))
  {
    OptionsOfParts(q.options);
  }

  /** Validating a validated question gives it back unchanged. */
  lemma ValidateIdempotent(q: RawQuestion)
    requires Validate(q).Some?
    ensures Validate(Validate(q).value) == Validate(q)
  {
    var v := Validate(q).value;
    ValidateWellFormed(q);
    ValidateOneMarked(v);
  }

  /**
   * One question dictionary as `json.loads` built it. The validator rewrites
   * the `is_correct` keys of its options and its `correct_answer` in place;
   * nothing else of it can change.
   */
  class Question {
    const question: string
    const explanation: string
    const texts: seq<string>
    const flags: array<Flag>
    var correctAnswer: AnswerKey

    ghost predicate Valid() {
      |texts| == flags.Length
    }

    /** The dictionary's current contents. */
    function Value(): RawQuestion
      reads this, flags
      requires Valid()
    {
      RawQuestion(question, Options(texts, flags[..]), explanation, correctAnswer)
    }

    constructor (raw: RawQuestion)
      ensures Valid() && fresh(flags) && Value() == raw
    {
      question := raw.question;
      explanation := raw.explanation;
      texts := Texts(raw.options);
      flags := new Flag[|raw.options|](i requires 0 <= i < |raw.options| => raw.options[i].isCorrect);
      correctAnswer := raw.correctAnswer;
      new;
      assert flags[..] == Flags(raw.options);
      OptionsOfParts(raw.options);
    }

    /** `correct_count` in the validator: how many options are marked. */
    method CountMarked() returns (count: nat)
      ensures count == |MarkedIndices(flags[..])|
    {
      count := 0;
      var i := 0;
      while i < flags.Length
        invariant 0 <= i <= flags.Length
        invariant count == |MarkedIndices(flags[..i])|
      {
        assert flags[..i + 1][..i] == flags[..i];
        if flags[i] == Some(true) {
          count := count + 1;
        }
        i := i + 1;
      }
      assert flags[..i] == flags[..];
    }

    /** `correct_indices` in the validator: the indices of the marked options. */
    method CorrectIndices() returns (indices: seq<nat>)
      ensures indices == MarkedIndices(flags[..])
    {
      indices := [];
      var i := 0;
      while i < flags.Length
        invariant 0 <= i <= flags.Length
        invariant indices == MarkedIndices(flags[..i])
      {
        assert flags[..i + 1][..i] == flags[..i];
        if flags[i] == Some(true) {
          indices := indices + [i];
        }
        i := i + 1;
      }
      assert flags[..i] == flags[..];
    }

    /** The no-correct-answer branch of the validator: mark the first option and clear every other one. */
    method MarkFirstOnly()
      requires flags.Length > 0
      modifies flags
      ensures flags[..] == MarkOnly(flags.Length, 0)
    {
      flags[0] := Some(true);
      var i := 1;
      while i < flags.Length
        invariant 1 <= i <= flags.Length
        invariant flags[0] == Some(true)
        invariant forall j :: 1 <= j < i ==> flags[j] == Some(false)
      {
        flags[i] := Some(false);
        i := i + 1;
      }
    }

    /** The several-correct-answers branch of the validator: keep the first marked option and clear every other one. */
    method KeepFirstMarked() returns (correctIndex: nat)
      requires |MarkedIndices(flags[..])| > 0
      modifies flags
      ensures correctIndex == MarkedIndices(old(flags[..]))[0]
      ensures flags[..] == MarkOnly(flags.Length, correctIndex)
    {
      ghost var first := MarkedIndices(flags[..])[0];
      MarkedIndicesSpec(flags[..]);
      assert first in MarkedIndices(flags[..]);
      var found := false;
      correctIndex := 0;
      var i := 0;
      while i < flags.Length
        invariant 0 <= i <= flags.Length
        invariant forall j :: 0 <= j < i ==> flags[j] == Some(j == first)
        invariant forall j :: i <= j < flags.Length ==> flags[j] == old(flags[j])
        invariant found <==> first < i
        invariant found ==> correctIndex == first
      {
        if flags[i] == Some(true) && !found {
          flags[i] := Some(true);
          found := true;
          correctIndex := i;
        } else {
          flags[i] := Some(false);
        }
        i := i + 1;
      }
    }

    /**
     * `_validate_and_fix_question`: `ok` is false where the source returns
     * `None`. Otherwise exactly one flag is set afterwards and the answer key
     * names it; the new contents are those `Validate` gives.
     */
    method ValidateAndFix() returns (ok: bool)
      requires Valid()
      modifies this, flags
      ensures Valid()
      ensures Validate(old(Value())) == if ok then Some(Value()) else None
      ensures ok <==> flags.Length > 0
      ensures !ok ==> Value() == old(Value())
      ensures ok ==> WellFormed(Value())
    {
      if flags.Length == 0 {
        return false;
      }
      ghost var before := flags[..];
      PartsOfOptions(texts, before);
      FixedFlags(before);

      var count := CountMarked();
      if count == 0 {
        MarkFirstOnly();
        correctAnswer := Chr(65);
      } else if count > 1 {
        var correctIndex := KeepFirstMarked();
        correctAnswer := Chr(65 + correctIndex);
      }

      var indices := CorrectIndices();
      if |indices| != 1 {
        return false;
      }
      correctAnswer := Chr(65 + indices[0]);
      ok := true;
      PartsOfOptions(texts, flags[..]);
    }
  }
}
