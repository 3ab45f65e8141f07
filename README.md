# MCQ generator: question validation and list assembly

This project models the part of the PDF-chat backend that builds
multiple-choice questions. `MCQGenerator` in `backend/services/mcq_generator.py`
asks a language model for questions about document chunks. It then
normalises every question so that exactly one option is marked correct and
`correct_answer` holds that option's letter. Finally it assembles the returned
list, falling back to one model call per chunk, and to a canned "basic
question" when such a call fails.

- `wrappers.dfy` (module `Wrappers`) holds `Option`.
- `mcq_validation.dfy` (module `McqValidation`) holds the question records.
  - `Validate` is the validator as a function of the question.
  - The class `Question` is the dictionary the validator rewrites in place.
  - `Question.ValidateAndFix` is the in-place validator. It is proved to leave
    the dictionary holding exactly `Validate` of its old contents.
- `mcq_generation.dfy` (module `McqGeneration`) holds the list assembly.
  - The basic question built from a chunk.
  - The fallback loop and `generate_questions`, as loops over the replies of
    the model. Each is proved equal to a specification function.
  - The lemmas about those functions.

The language model, the regular-expression extraction and `json.loads` are
replaced by an oracle. The caller passes in what each model call would have
produced once parsed:

- `LlmReply` stands for the main call. Its items are `RawItem`s. A
  `Malformed` item is one the validator raises on.
- `ChunkReply` stands for each per-chunk fallback call. It is one of
  `Raised`, `NoObject` or `Parsed`.

The specification functions return `Source`s. A `Source` is a validated parsed
question, or a basic question built from chunk `i`. `Realized` turns a list of
`Source`s into the questions they stand for. This lets the list lemmas speak
about where each returned question came from.

The validator accepts a question exactly when it has options. That fact is
proved as `ValidateRejectsOnlyEmpty`. The assembly functions therefore test
`Accepted` (non-empty options) where the source tests the validator's result.

## Model

| member | source | states |
|---|---|---|
| McqValidation.MarkedIndicesSpec | backend/services/mcq_generator.py:48 | the indices of the options marked correct are exactly the marked positions, all in range, strictly increasing |
| McqValidation.ValidateRejectsOnlyEmpty | backend/services/mcq_generator.py:16-17 | the validator returns `None` if and only if the question has no options; the test at line 50 never rejects |
| McqValidation.ValidateNoneMarked | backend/services/mcq_generator.py:22-28 | with no option marked, the first option becomes the only correct one, every other option is marked false, and the answer is `A` |
| McqValidation.ValidateManyMarked | backend/services/mcq_generator.py:30-45 | with several options marked, only the first marked one stays correct, all others are marked false, and the answer is its letter |
| McqValidation.ValidateOneMarked | backend/services/mcq_generator.py:47-58 | with exactly one option marked, the flags are untouched and only `correct_answer` is set to that option's letter |
| McqValidation.ValidateWellFormed | backend/services/mcq_generator.py:47-58 | a returned question has exactly one option marked correct, and `correct_answer` is `chr(65 + index)` of it |
| McqValidation.ValidateChangesOnlyMarks | backend/services/mcq_generator.py:14-58 | a returned question keeps its text, explanation, option count and option texts |
| McqValidation.ValidateIdempotent | backend/services/mcq_generator.py:14-58 | validating a validated question changes nothing |
| McqValidation.Validate | backend/services/mcq_generator.py:14-58 | the validator as a function: `None` for an empty option list, else the question with its flags fixed (all cleared and the first set when none is marked, only the first marked kept when several are) and `correct_answer` set to `chr(65 + index)` of the marked option; its properties are the `Validate…` lemmas |
| McqGeneration.BeforeDot | backend/services/mcq_generator.py:197 | `s.split('.')[0]`, the text before the first full stop; characterised by `BeforeDotSpec` |
| McqGeneration.FirstSentence | backend/services/mcq_generator.py:197 | `chunk.split('.')[0][:100]`; characterised by `FirstSentenceSpec` |
| McqGeneration.FallbackStep | backend/services/mcq_generator.py:145-190 | what one iteration of the fallback loop appends: the basic question of the chunk cut to 600 characters when the call raised, nothing when no object was found, the validated question when the parsed one has options |
| McqGeneration.Fallback | backend/services/mcq_generator.py:140-192 | the fallback steps of the first `min(n, len(chunks))` chunks, concatenated in chunk order; its properties are `FallbackBound`, `FallbackKeepsRaised` and `FallbackAllRaised` |
| McqGeneration.FallbackKeepsRaised | backend/services/mcq_generator.py:186-190 | every visited chunk whose call raised contributes its basic question, whatever the other replies are |
| McqGeneration.FallbackKeepsParsed | backend/services/mcq_generator.py:180-185 | every visited chunk whose reply parsed to a question with options contributes that question, validated, whatever the other replies are |
| McqGeneration.Survivors | backend/services/mcq_generator.py:121-124 | the items with options, as validated questions, in their original order; its properties are `SurvivorsInOrder`, `SurvivorsBound` and `SurvivorsKeepAccepted` |
| McqGeneration.SurvivorsKeepAccepted | backend/services/mcq_generator.py:121-124 | in any list, mixed or not, every item with options is among the survivors |
| McqGeneration.TopUp | backend/services/mcq_generator.py:126-133 | the validated questions followed by the fallback for the shortfall when there are fewer than `n`, cut to `n`; its properties are `TopUpBound` |
| McqGeneration.Generate | backend/services/mcq_generator.py:60-138 | the full fallback when the main call fails or a malformed item is among the first `n`, else the survivors topped up; its properties are the `Generate…` lemmas |
| McqGeneration.ValidateParsed | backend/services/mcq_generator.py:122 | validating a parsed question in place yields exactly `Validate` of it |
| McqGeneration.FallbackOne | backend/services/mcq_generator.py:145-190 | one iteration of the fallback loop appends exactly the questions of `FallbackStep` |
| McqValidation.Question.CountMarked | backend/services/mcq_generator.py:20 | the count is the number of options marked correct |
| McqValidation.Question.MarkFirstOnly | backend/services/mcq_generator.py:25-27 | the first option is marked true and all others false |
| McqValidation.Question.KeepFirstMarked | backend/services/mcq_generator.py:33-42 | returns the index of the first marked option, and only that option remains marked |
| McqValidation.Question.CorrectIndices | backend/services/mcq_generator.py:48 | returns the marked indices in increasing order |
| McqValidation.Question.ValidateAndFix | backend/services/mcq_generator.py:14-58 | the in-place rewrite leaves the dictionary holding `Validate` of its old contents; it fails exactly on an empty option list and then changes nothing |
| McqGeneration.FirstSentenceSpec | backend/services/mcq_generator.py:197 | the sentence is a prefix of the chunk with at most 100 characters and no full stop, ending at the limit, a full stop or the chunk's end |
| McqGeneration.BasicQuestion | backend/services/mcq_generator.py:194-209 | the basic question has four options, all flagged, exactly the second marked correct, answer `B` |
| McqGeneration.BasicQuestionValid | backend/services/mcq_generator.py:194-209 | a basic question is well formed and the validator returns it unchanged |
| McqGeneration.RealizedWellFormed | backend/services/mcq_generator.py:121-124 | every question realized from accepted parsed items or basic questions is well formed |
| McqGeneration.FallbackBound | backend/services/mcq_generator.py:140-192 | the fallback returns at most `min(n, len(chunks))` questions; each is an accepted parsed reply of a visited chunk, or the basic question of a visited chunk whose call raised, cut to 600 characters |
| McqGeneration.FallbackAllRaised | backend/services/mcq_generator.py:144-145 | when every call of the visited chunks raises, the fallback is exactly one basic question per visited chunk, in chunk order |
| McqGeneration.FallbackQuestions | backend/services/mcq_generator.py:140-192 | the loop returns the questions of the fallback specification, in order |
| McqGeneration.SurvivorsInOrder | backend/services/mcq_generator.py:121-124 | validated items keep their relative order |
| McqGeneration.SurvivorsBound | backend/services/mcq_generator.py:121-124 | there are no more survivors than items; each is an accepted item of the list; every item survives when all items have options |
| McqGeneration.ValidateItems | backend/services/mcq_generator.py:121-124 | the loop fails exactly when a malformed item is met; otherwise it returns the validated items in order |
| McqGeneration.TopUpBound | backend/services/mcq_generator.py:126-133 | the validated items come first, the fallback is asked for exactly the shortfall, and the final slice cuts nothing |
| McqGeneration.GenerateBound | backend/services/mcq_generator.py:60-138 | at most `n` questions are returned; each is an accepted item among the first `n` of the model's array, or a fallback question from one of the first `min(n, len(chunks))` chunks |
| McqGeneration.GenerateTopsUp | backend/services/mcq_generator.py:121-133 | on the success path the result is the survivors followed by the fallback for the shortfall |
| McqGeneration.GenerateIgnoresLaterItems | backend/services/mcq_generator.py:121 | items after the first `n` of the model's array never affect the result |
| McqGeneration.GenerateWellFormed | backend/services/mcq_generator.py:60-138 | every returned question has exactly one correct option, named by its answer letter, and there are at most `n` |
| McqGeneration.GenerateQuestions | backend/services/mcq_generator.py:60-138 | with `n` in 1..15, as the `/generate-mcq` endpoint guarantees before calling it, the method returns the questions of the specification |

## Left out

- The language model calls, the regular-expression extraction and `json.loads` are an oracle. Their results are parameters. The prompt texts, the context string built at line 65, the temperature and `max_tokens` are not modelled.
- The `print` warnings are I/O and are not modelled.
- JSON values of `is_correct` other than booleans are modelled as booleans. Python's truthiness of strings, numbers and lists is not modelled.
- A missing, null, empty or otherwise falsy `options` value (`0`, `false`, `""`, `{}`) is modelled as an empty option list: the validator returns `None` for all of them, so the item is skipped.
- Elements of the main reply that are not dictionaries, truthy non-list `options` values and options that are not dictionaries make the validator raise. These are the `Malformed` item of the main call and the `Raised` reply of a fallback call.
- Keys of a question dictionary other than `question`, `options`, `explanation` and `correct_answer` are not modelled.
- Option keys other than `text` and `is_correct` are not modelled.
- `McqValidation.Question.ValidateAndFix`: `chr` raises `ValueError` past code point 0x10FFFF. The model writes the answer as `Chr(65 + index)` and does not model that error. It would need more than a million options.
- A one-character `correct_answer` string from the model is written `Chr(code)`, never `Given`. `Given` stands only for strings of other lengths, so an already correct reply such as `"B"` is well formed and the validator leaves it unchanged, as in Python.
- Answer letters past `Z` for more than 26 options are not letters. The model keeps them as the code point `chr` produces.
- Object identity is not modelled. The returned list holds snapshots of the validated dictionaries, not the dictionaries themselves.
- The oracle gives one list of per-chunk replies for whichever fallback call runs. A `generate_questions` call runs at most one fallback.
- `MCQGenerator.__init__`, the HuggingFace client and its token are not modelled.
- `backend/services/rag_service.py`, `backend/services/pdf_processor.py`, the routing in `backend/main.py` and `backend/test_api.py` are not part of this model. The only exception is the endpoint's 1..15 bound on the question count.
