# flair sequence-labelling data model in Dafny

This project models the in-memory data model of flair's `flair/data.py` and proves properties of it:

- **Dictionary**: the append-only string/id interner. It is a class whose `idx2item` sequence and `item2idx` map are mutual inverses with dense ids, with `<unk>` at id 0 when it is requested.
- **Label**: a value with a confidence score. A missing value is an error, and a score outside `[0, 1]` is replaced by `1.0`.
- **Token**: a class with a text, an index, a whitespace-after flag, start and end offsets and a map from tag type to `Label`.
- **Span**: a run of tokens with an optional tag and a score.
- **Sentence**: a class. The model covers:
  - its two constructors: the whitespace splitter, and the offset recovery run on an external tokenizer's words;
  - token numbering and lookup;
  - its labels;
  - the span decoder `get_spans`;
  - the spacing heuristic `infer_space_after`;
  - the renderers `to_tokenized_string`, `to_plain_string` and `to_original_text`.
- **Tag-scheme converters**: `iob2` (IOB1 to IOB2, in place, with a validity flag) and `iob_iobes` (IOB2 to IOBES, building a new list or raising).
- **TaggedCorpus**: the tag dictionary and the label dictionary built over its sentences.

## Modules

| Module | File | Contents |
|---|---|---|
| `Results` | `results.dfy` | `Option`, `Result` and the error kinds the source raises. |
| `Text` | `text.dfy` | The Python string operations the core uses: `rstrip`, `split('-')[0]`, `str.replace`, `str.index`, `' '.join`. |
| `Labels` | `labels.dfy` | `Label` as a value, with its setters. |
| `Dictionaries` | `dictionary.dfy` | The `Dictionary` class, and `Added`/`AddedAll`, which specify what interning does to `idx2item`. |
| `Layout` | `layout.dfy` | `Render`, the string obtained by padding to each token's start offset. |
| `Tokens` | `token.dfy` | The `Token` class, the `Span` datatype, and the `to_original_text` rendering loop. |
| `Tokenize` | `tokenize.dfy` | The whitespace splitter and the offset-recovery scan, as functions over a loop state. |
| `SpanDecoding` | `span_decoding.dfy` | `get_spans` as a left-to-right scan over tag labels (`DecodeSpans`). It is proved sound and complete against an independent description of maximal spans. |
| `Spacing` | `spacing.dfy` | `infer_space_after` as a function of token texts and flags, with a closed-form characterisation. |
| `Sentences` | `sentence.dfy` | The `Sentence` class. Its methods carry the source's loops and are proved equal to the functions above. |
| `TagSchemes` | `tag_schemes.dfy` | `iob2` (a method over an array of labels) and `iob_iobes`, with IOB2/IOBES well-formedness. |
| `Corpora` | `corpus.dfy` | `TaggedCorpus` with `make_tag_dictionary` and `make_label_dictionary`. |

## Where the code and its description differ

The model follows the code in both cases.

- **Next tag in `iob_iobes`.** The code looks only at the prefix of the next tag: `B-PER I-LOC` keeps `B-PER` and gives `E-LOC`. A description that requires the next tag to be `I-` with the same type is therefore stricter than the code. See `TagSchemes.ExampleIobesNextPrefixOnly`.
- **Negative ids in `get_item_for_index`.** The method indexes a Python list, so a negative id counts from the end. Only ids outside `-len..len-1` fail.

## Model

| member | source | states |
|---|---|---|
| Dictionaries.Added | flair/data.py:34-44 | Interning `x` leaves a list holding `x` and exactly the earlier items. |
| Dictionaries.AddedAllSpec | flair/data.py:34-44 | Interning a sequence of strings keeps the list duplicate-free. It keeps the earlier items as a prefix and adds exactly the new strings. |
| Dictionaries.AddedAllConcat | flair/data.py:34-44 | Interning `a` then `b` is the same as interning `a + b`. |
| Dictionaries.Dictionary.constructor | flair/data.py:25-32 | A new dictionary is valid. It holds `<unk>` at id 0 when `add_unk` is set, and is empty otherwise. |
| Dictionaries.Dictionary.AddItem | flair/data.py:34-44 | A present item returns its id and changes nothing. A new item gets id = old length and is appended to `idx2item`, with `item2idx` extended to match. Either way `idx2item[id] == item` and `item2idx[item] == id`, and the invariant (mutual inverses, dense ids) is kept. |
| Dictionaries.Dictionary.GetIdxForItem | flair/data.py:46-56 | A present item gets an id whose `idx2item` entry is that item. An absent item gets 0. |
| Dictionaries.Dictionary.GetItemForIndex | flair/data.py:67-68 | Succeeds exactly for `-len <= idx < len`, with Python's wrap-around for negative ids. Otherwise it fails with `IndexError`. The item returned has the (wrapped) id as its id. |
| Dictionaries.Dictionary.Len | flair/data.py:64-65 | The length is the number of interned items, and every id is below it. |
| Dictionaries.Dictionary.GetItems | flair/data.py:58-62 | The items in id order: item `i` has id `i`. |
| Labels.CoerceScore | flair/data.py:128-133 | The stored score is always in `[0, 1]`. An in-range score is kept, and any other score becomes `1.0`. |
| Labels.NewLabel | flair/data.py:108-122 | Construction fails with `ValueError` exactly when the value is missing. Otherwise it stores the value (the empty string included) and the coerced score. |
| Labels.SetValue | flair/data.py:117-122 | Setting a missing value fails. Any other value is stored with the score unchanged. |
| Labels.SetScore | flair/data.py:128-133 | The value is unchanged and the score ends up in range. An in-range score is stored as given, and an out-of-range score becomes 1.0. |
| Tokens.Token.constructor | flair/data.py:154-171 | The fields are as given, and the tag map is empty. `end_pos = start_pos + len(text)` when a start is given, and absent otherwise. |
| Tokens.Token.GetTag | flair/data.py:180-182 | Returns the stored label for a known tag type, and `Label('')` otherwise. |
| Tokens.Token.AddTagLabel | flair/data.py:173-174 | The tag type now maps to the given label. Every other tag type, the index and the whitespace flag are unchanged. |
| Tokens.Token.AddTag | flair/data.py:176-178 | The tag type now maps to a new `Label(tag_value, confidence)` with its score coerced into range. Every other tag type is unchanged. |
| Tokens.Span.StartPos | flair/data.py:225-234 | The span starts at its first token's start, and has no start when empty. |
| Tokens.Span.EndPos | flair/data.py:225-234 | The span ends at its last token's end, and has no end when empty. |
| Tokens.PadTo | flair/data.py:244-246 | The padding loop appends exactly `target - at` spaces. |
| Tokens.LayOut | flair/data.py:240-251 | The rendering loop's result is `Render` of the tokens: each token's text is placed at its own start offset, with spaces in between. |
| Tokens.Span.Text | flair/data.py:236-238 | The token texts laid out one space apart from offset 0 (`SpacedOut`), so each text stands one space after the end of the one before. |
| Tokens.Span.ToOriginalText | flair/data.py:240-251 | An empty span fails with `IndexError`, and a span whose first token has no offset fails with `TypeError`. Otherwise the result is the tokens laid out from the first token's offset, and every token's text stands at its own offset in it. For tokens one space apart it equals the span's `text`. |
| Tokens.TextIsOriginal | flair/data.py:236-251 | For a span of positioned tokens one space apart, laying them out from the first token's offset gives exactly the span's `text`. |
| Text.RStrip | flair/data.py:496 | `rstrip()` returns a prefix that does not end in whitespace, and only whitespace was removed. |
| Text.DropTrailingSpaces | flair/data.py:327-346 | Removing trailing `' '` returns a prefix that does not end in a space, and only spaces were removed. |
| Text.BeforeFirst | flair/data.py:857-865 | `split('-')[0]` is the longest prefix free of `'-'`, and a `'-'` follows it if anything does. |
| Text.Find | flair/data.py:308-313 | `str.index(sub, start)` gives the first occurrence at or after `start`, and `None` when there is none. |
| Text.ReplaceAllAbsent | flair/data.py:862-868 | `str.replace` leaves a string unchanged when it cannot contain the pattern. |
| Layout.Render | flair/data.py:547-558 | The rendered string runs from the start offset to where the last token ends. |
| Layout.RenderSnoc | flair/data.py:550-556 | Rendering one more token appends the padding up to its start and then its text. |
| Layout.RenderShows | flair/data.py:547-558 | Every token's text stands at its own offset in the rendered string. |
| Layout.SpacedOut | flair/data.py:488-489 | One piece per text, in order and with the texts unchanged, each one space after the end of the one before, the first at the given offset. |
| Layout.RenderJoin | flair/data.py:488-489 | Tokens one space apart starting at the origin render as their texts joined by single spaces. |
| Tokenize.WhitespaceTokensSound | flair/data.py:327-346 | The splitter's tokens are non-empty and space-free, and each occurs in the text at its offset. They are in increasing order, at least one character apart. Laying them out gives back the text without its trailing spaces. |
| Tokenize.PlaceStep | flair/data.py:307-324 | One word of the offset-recovery loop adds exactly one token and keeps the state's shape. |
| Tokenize.PlacedTokens | flair/data.py:303-324 | Covers the tokens after offset recovery: (1) they carry the words in order; (2) a word found in the text starts where it occurs; (3) of two found words, the first loses its whitespace flag exactly when the second starts where it ended; (4) a word not found clears its predecessor's flag; (5) the last token keeps its flag; (6) when every word is found, the tokens never go back. |
| Sentences.LabelsFrom | flair/data.py:428-437 | Each label argument becomes a label: a `Label` object as given, and a string as a `Label` with score 1.0. |
| Sentences.SplitSound | flair/data.py:327-359 | A whitespace-built sentence has space-free non-empty tokens found at their offsets, in increasing order with gaps, and numbered 1 to n. Its `to_original_text` is the input without trailing spaces. |
| Sentences.Sentence.constructor | flair/data.py:278-285 | An empty sentence holds the given labels. |
| Sentences.Sentence.FromText | flair/data.py:325-346 | Empty text fails with the source's `ValueError`. Otherwise the new sentence holds the labels and exactly the splitter's tokens, numbered from 1, each followed by whitespace. |
| Sentences.Sentence.FromWords | flair/data.py:302-324 | The new sentence holds the offset-recovery scan's tokens and whitespace flags for the given words, numbered from 1. |
| Sentences.Sentence.AddLabel | flair/data.py:428-433 | Appends the label, or a `Label` made from a string. The tokens are unchanged. |
| Sentences.Sentence.AddLabels | flair/data.py:435-437 | Appends all the labels in order. |
| Sentences.Sentence.LabelNames | flair/data.py:439-440 | The label values, in order. `Corpora.LabelNamesOf` collects them, and `Corpora.TaggedCorpus.MakeLabelDictionary` states its dictionary over them. |
| Sentences.Sentence.AddToken | flair/data.py:353-359 | Appends the token. An unset index becomes the new length; a set one is kept. The token's other fields are unchanged. |
| Sentences.Sentence.GetToken | flair/data.py:348-351 | Returns the first token whose index is the id, and `None` exactly when no token has it. In a sentence numbered 1 to n, id `k` is token `k - 1`. |
| Sentences.TagLabels | flair/data.py:372-373 | The labels `get_spans` reads: each token's `get_tag(tag_type)`. |
| Sentences.ScoreSumSlice | flair/data.py:397-398 | The score total of a run of tokens is the sum of the scores of their tag labels. |
| Sentences.Sentence.GetSpans | flair/data.py:361-426 | The spans returned are exactly `DecodeSpans` of the tokens' tag labels, each built from that run of tokens. An empty sentence gives none. |
| Sentences.Sentence.CloseSpan | flair/data.py:396-406 | Closing the pending span appends it exactly when the decoder's `Close` emits it. |
| Sentences.Sentence.InferSpaceAfter | flair/data.py:515-545 | The new whitespace flags are `InferredFlags` of the texts and the old flags. Indices and tags are unchanged. |
| Sentences.Sentence.ToTokenizedString | flair/data.py:488-489 | The token texts laid out one space apart from offset 0 (`SpacedOut`), so each text stands one space after the end of the one before. |
| Sentences.Sentence.ToPlainString | flair/data.py:491-496 | Each token, followed by a space when flagged, with trailing whitespace stripped. When every token is flagged and the last text does not end in whitespace, it equals `to_tokenized_string`. |
| Sentences.GlueIsJoin | flair/data.py:488-496 | When every flag is set and the last text is non-empty and does not end in whitespace, gluing the texts and stripping the end gives `' '.join` of them. |
| Sentences.PlainIsTokenized | flair/data.py:488-496 | For a sentence whose tokens are all flagged and whose last text does not end in whitespace, the plain string equals the sentence's `to_tokenized_string`. |
| Sentences.Sentence.ToOriginalText | flair/data.py:547-558 | The tokens laid out from offset 0. Every token's text stands at its own offset in the result. For tokens one space apart starting at 0 it equals `to_tokenized_string`. |
| Sentences.OriginalIsTokenized | flair/data.py:488-489 | For tokens one space apart starting at 0, laying them out from offset 0 gives exactly the sentence's `to_tokenized_string`. |
| SpanDecoding.NormalizeSpec | flair/data.py:373-381 | The normalised tag is always BIOES. `''` and `O` become `O-`, a BIOES tag is kept, and anything else becomes `S-` plus the tag. |
| SpanDecoding.TagChecks | flair/data.py:383-394 | A token is in a span exactly when its prefix is not `O-`. It opens a new span exactly for `B-`/`S-`, or after an `S-` tag whose type differs from its own in-span one. |
| SpanDecoding.ReadTag | flair/data.py:372-394 | The per-token reading gives the normalised tag and its in-span and opens-span flags. |
| SpanDecoding.InSpanTag | flair/data.py:372-394 | In terms of the raw tag, a token is in a span exactly when its tag is not `''`, not `O` and not `O-`-prefixed. |
| SpanDecoding.OpensTag | flair/data.py:372-394 | In terms of the raw tag, a token opens a span exactly when (1) its tag is `B-`/`S-`; (2) its tag is a non-BIOES tag other than `''`/`O`; or (3) it is in a span and follows an `S-` tag of a different type. |
| SpanDecoding.AddVoteTotal | flair/data.py:408-411 | Voting adds the weight to that type's total and leaves other totals alone. |
| SpanDecoding.Best | flair/data.py:402 | The chosen entry has the largest total. No earlier entry ties it, so the first-inserted type wins ties. |
| SpanDecoding.WinnerOfRun | flair/data.py:396-424 | A span's tag is a type of the run with the largest total weight, and the first such type in insertion order. The weight is 1.1 for the opening token and 1.0 for the others. |
| SpanDecoding.DecodeSpansExact | flair/data.py:361-426 | The decoded spans are in sentence order and disjoint. Each is a maximal run of in-span tokens opened only at its first token, with score = mean of the member scores `> min_score` and tag = vote winner. Every such run whose mean exceeds `min_score` is emitted. |
| SpanDecoding.SpanTokensTagged | flair/data.py:361-426 | Every token of a decoded span has a tag other than `''`, `O` and `O-`-prefixed. |
| SpanDecoding.MeanNonNegative | flair/data.py:396-398 | With valid scores, the mean score of a run is non-negative. |
| SpanDecoding.DefaultThresholdKeepsAll | flair/data.py:361-399 | With the default negative `min_score` and valid scores, every maximal run is emitted. |
| SpanDecoding.ExampleBio | flair/data.py:361-426 | `B-PER I-PER O B-LOC` decodes to `PER` over tokens 0-1 and `LOC` over token 3. |
| SpanDecoding.ExampleSingles | flair/data.py:393-394 | `S-PER S-LOC` decodes to two spans. |
| SpanDecoding.ExampleTie | flair/data.py:402 | `I-PER I-LOC` is one span typed `PER`: the tie goes to the first-inserted type. |
| SpanDecoding.ExampleMajority | flair/data.py:408-411 | `B-PER I-LOC I-LOC` is one span typed `LOC`: 2.0 outweighs 1.1. |
| SpanDecoding.ExampleThreshold | flair/data.py:399 | The filter is strict: `B-PER I-PER` with scores 0.25 and 0.25 has mean exactly `min_score` 0.25, and no span is kept. |
| Spacing.InferredFlagsSpec | flair/data.py:515-545 | After the heuristic, a token is flagged exactly when (1) it was flagged; (2) it is not `(` or an opening quote; and (3) the next token is not `. : , ; ) n't ! ?`, `'`-prefixed or a closing quote. The heuristic only clears flags. |
| Spacing.InferredFlagsIdempotent | flair/data.py:515-545 | Running the heuristic twice is the same as running it once. |
| TagSchemes.SplitsAsShaped | flair/data.py:835-836 | The split test accepts exactly `h-X` with a dash-free type `X`. |
| TagSchemes.FirstRejected | flair/data.py:832-837 | The position where `iob2` stops: every earlier tag is acceptable and this one is not. |
| TagSchemes.Iob2Result | flair/data.py:827-846 | The result has the input's length. |
| TagSchemes.Iob2 | flair/data.py:827-846 | Returns true exactly when every tag is acceptable. The array becomes `Iob2Result`: tags before the first rejected one rewritten, the rest untouched. |
| TagSchemes.Iob2Valid | flair/data.py:827-846 | When `iob2` accepts, the result is well-formed IOB2: every `I-X` has a predecessor that is not `O` and has type `X`. |
| TagSchemes.Iob2Fixes | flair/data.py:827-846 | A well-formed IOB2 sequence is accepted and left unchanged. |
| TagSchemes.Iob2Idempotent | flair/data.py:827-846 | Running `iob2` twice on accepted tags is the same as running it once. |
| TagSchemes.Iob2KeepsTypes | flair/data.py:827-846 | `iob2` changes only tag letters: `O`-ness, types after the letter and scores are kept, and the rejected tail is untouched. |
| TagSchemes.FirstUnrecognized | flair/data.py:849-871 | The position where `iob_iobes` raises: every earlier tag is `O`, `B`- or `I`-prefixed, and this one is not. |
| TagSchemes.IobIobes | flair/data.py:849-871 | The conversion loop's result is `IobIobesResult`, and the input is untouched. |
| TagSchemes.IobIobesFails | flair/data.py:849-871 | Raises exactly when some tag is not `O` and not `B`/`I`-prefixed. |
| TagSchemes.IobesOfShape | flair/data.py:849-871 | `O` stays `O`. `B-X` stays when the next tag has prefix `I` and becomes `S-X` otherwise. `I-X` stays when the next tag has prefix `I` and becomes `E-X` otherwise. |
| TagSchemes.IobIobesSucceeds | flair/data.py:849-871 | On well-formed IOB2 the conversion succeeds, keeps the length and keeps `O` as `O`. |
| TagSchemes.IobIobesValid | flair/data.py:849-871 | Well-formed IOB2 becomes well-formed IOBES: each `B`/`I` is followed by an `I`/`E` of its type, and each `I`/`E` follows a `B`/`I` of its type. |
| TagSchemes.IobIobesRoundTrip | flair/data.py:849-871 | Reading the IOBES tags back (`S` to `B`, `E` to `I`) gives the IOB2 tags that went in. |
| TagSchemes.Iob2ThenIobes | flair/data.py:827-871 | Tags `iob2` accepts in full convert to well-formed IOBES after `iob2`. |
| TagSchemes.ExampleIob2 | flair/data.py:827-846 | `I-PER I-PER O I-LOC` becomes `B-PER I-PER O B-LOC`. |
| TagSchemes.ExampleIob2Rejects | flair/data.py:835-837 | A two-dash tag stops `iob2`, keeping earlier rewrites and leaving later tags as they were. |
| TagSchemes.ExampleIobes | flair/data.py:849-871 | `B-PER I-PER B-LOC` becomes `B-PER E-PER S-LOC`. |
| TagSchemes.ExampleIobesNextPrefixOnly | flair/data.py:857-864 | Only the next tag's prefix is checked: `B-PER I-LOC` keeps `B-PER`. |
| TagSchemes.ExampleIobesRaises | flair/data.py:869-870 | An `E-` input tag raises. |
| Corpora.TagValues | flair/data.py:684-686 | The tag values read from a token list, in token order. This is the definition that `Corpora.TagLayout` and `Corpora.CorpusTagListed` state their results over. |
| Corpora.CorpusTagListed | flair/data.py:678-689 | The tag of every token of every sentence is among the corpus tags that are interned. |
| Corpora.TagLayout | flair/data.py:678-689 | In the tag dictionary, `<unk>` is 0 and `O` is 1. The corpus tags follow in first-seen order, then `<START>` and `<STOP>`. No tag is listed twice, and nothing else is listed. |
| Corpora.LabelNamesOf | flair/data.py:735-736 | Every label value of every sentence is collected. |
| Corpora.TaggedCorpus.constructor | flair/data.py:651-655 | The corpus holds the three splits. |
| Corpora.TaggedCorpus.AllSentences | flair/data.py:675-676 | The training, then the development, then the test sentences. `Corpora.TaggedCorpus.MakeTagDictionary` states its result over this sequence. |
| Corpora.TaggedCorpus.MakeTagDictionary | flair/data.py:678-689 | A new, valid dictionary. Its items are `<unk>` and `O`, then every token tag of every sentence, then `<START>`, `<STOP>`, each interned once in that order. |
| Corpora.TaggedCorpus.AddCorpusTags | flair/data.py:683-686 | The sentence loop interns all the corpus tags in order. |
| Corpora.TaggedCorpus.AddTags | flair/data.py:684-686 | The token loop interns each token's tag in order. |
| Corpora.TaggedCorpus.MakeLabelDictionary | flair/data.py:691-703 | A new, valid dictionary without `<unk>`. It holds each label value of the training sentences exactly once, and nothing else. |

## Left out

- **Embeddings.** Torch embeddings on tokens and sentences are opaque tensor payloads handled by foreign code: `set_embedding`, `get_embedding`, `clear_embeddings`, `cpu_embeddings`, and the `embedding` properties.
- **Dictionary persistence.** `save`, `load_from_file` and `load` are file and network I/O (pickle, `cached_path`).
- **UTF-8 in `Dictionary`.** Encoding and decoding are left out: the encoding is injective, so strings are stored directly.
- **The segtok tokenizer.** `split_single`, `split_contractions` and `word_tokenizer` are an external library. `Sentences.Sentence.FromWords` takes the words they produce as an input.
- **Token back-pointer and head.** `Token.sentence` and `head_id`/`get_head` are left out: nothing in the modelled core reads them.
- **Formatting and copying.** `to_tagged_string`, `to_dict`, `__str__`, `__repr__` and `Sentence.__copy__` only format output or copy it.
- **`convert_tag_scheme`.** It passes a `Label` object where `add_tag` expects a tag value and resets every confidence to 1.0. Only the two converters it calls are modelled.
- **Other corpus operations.** The `name` argument of the corpus constructor (default `'corpus'`) is not stored: nothing in the model reads it. `make_vocab_dictionary`, `_get_most_common_tokens`, downsampling, `obtain_statistics`, the `Corpus` base class, `wrapper` and `MultiCorpus` are left out. They depend on `Counter` tie order, float truncation or iterator plumbing.
- **Labels as values.** `Label` is a value, not a shared object. `iob2` rewrites an array of labels in place where the source rewrites label objects shared through tokens.
- **Scores.** Scores are real numbers, not floating point: rounding in the mean score of `get_spans` is not modelled.
- **Exceptions.** Errors the source raises are `Failure` values of a `Result`. The `TypeError` of `Span.to_original_text` on a first token without an offset is one of them.
- Sentences.Sentence.InferSpaceAfter: requires the sentence's tokens to be distinct objects; the source does not check this.
- Sentences.Sentence.ToOriginalText: requires every token to carry a start offset, and each to start at or after the end of the one before. The source's padding loop never ends otherwise.
- Tokens.Span.ToOriginalText: when the first token has an offset, requires every later token to carry one too, and each to start at or after the end of the one before. The source's padding loop never ends otherwise.
- Tokens.LayOut: requires every token to carry a start offset, and each to start at or after the end of the one before. The source's padding loop never ends otherwise.
- Corpora.TaggedCorpus.MakeLabelDictionary: states the ids only as a bijection onto the label values. The source interns them in the iteration order of a Python set, which is not modelled.
- Corpora.TaggedCorpus.MakeTagDictionary: the splits are sequences, read once when the method is called. The source's splits may be callables or iterables.
- Sentences.Sentence.AddLabel: the argument is either a `Label` or a string (`LabelArg`). The source silently ignores an argument of any other type; that case is not expressible here.
- Sentences.Sentence.GetSpans: `min_score` is a real number with default `-1.0`, the source's default `-1`.
