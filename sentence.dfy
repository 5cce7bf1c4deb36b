/**
 * A sentence: its tokens, its sentence-level labels, how it is built from text,
 * how its tag labels decode into spans, and how it is rendered back to text.
 */
module Sentences {
  import opened Results
  import opened Text
  import opened Labels
  import opened Layout
  import opened Tokenize
  import opened SpanDecoding
  import opened Spacing
  import opened Tokens

  /** What `add_label` accepts: a `Label`, or a string that becomes `Label(s)`. */
  datatype LabelArg = LabelObj(obj: Label) | LabelText(text: string)

  /** The label `add_label` appends for an argument. */
  function LabelFrom(arg: LabelArg): (r: Label)
    ensures arg.LabelObj? ==> r == arg.obj
    ensures arg.LabelText? ==> r.value == arg.text && r.score == 1.0
  {
    match arg
    case LabelObj(l) => l
    case LabelText(s) => NewLabel(Some(s)).value
  }

  /** The labels `add_labels` appends, in order. */
  function LabelsFrom(args: seq<LabelArg>): (r: seq<Label>)
    ensures |r| == |args| && forall i :: 0 <= i < |args| ==> r[i] == LabelFrom(args[i])
  {
    seq(|args|, i requires 0 <= i < |args| => LabelFrom(args[i]))
  }

  /** No token object occurs twice. */
  predicate DistinctTokens(ts: seq<Token>) {
    forall i, j :: 0 <= i < j < |ts| ==> ts[i] != ts[j]
  }

  /** The tokens' `whitespace_after` flags, in order. */
  function Flags(ts: seq<Token>): (r: seq<bool>)
    reads ts
    ensures |r| == |ts| && forall i :: 0 <= i < |ts| ==> r[i] == ts[i].whitespaceAfter
  {
    seq(|ts|, i requires 0 <= i < |ts| reads ts => ts[i].whitespaceAfter)
  }

  /** Token `i` has index `i + 1`, as `add_token` numbers fresh tokens. */
  predicate Indexed(ts: seq<Token>)
    reads ts
  {
    forall i :: 0 <= i < |ts| ==> ts[i].idx == Some(i + 1)
  }

  /** What a sentence built from text holds: tokens numbered from 1, no token twice, each followed by whitespace. */
  predicate Numbered(ts: seq<Token>)
    reads ts
  {
    Indexed(ts) && false !in Flags(ts)
  }

  /** The tokens of `Sentence(text)`: the splitter's pieces, numbered from 1, each followed by whitespace. */
  predicate SplitFrom(text: string, ts: seq<Token>)
    reads ts
  {
    Positioned(ts) && Pieces(ts) == WhitespaceTokens(text) && Numbered(ts)
  }

  /**
   * What `Sentence(text)` builds: every token is a non-empty run of non-space
   * characters standing in the text at its offset; the tokens come in increasing
   * order, at least one space apart, numbered 1 to n; and laying them out again
   * (`to_original_text`) gives back the text without its trailing spaces.
   */
  lemma {:induction false} SplitSound(text: string, ts: seq<Token>)
    requires SplitFrom(text, ts)
    ensures forall i :: 0 <= i < |ts| ==>
      IsWord(ts[i].text) && ts[i].startPos.value >= 0 && OccursAt(text, ts[i].text, ts[i].startPos.value)
    ensures forall i :: 0 <= i < |ts| - 1 ==> ts[i].startPos.value + |ts[i].text| < ts[i + 1].startPos.value
    ensures forall i :: 0 <= i < |ts| ==> ts[i].idx == Some(i + 1)
    ensures Placed(Pieces(ts), 0) && Render(Pieces(ts), 0) == DropTrailingSpaces(text)
  {
    var ps := Pieces(ts);
    WhitespaceTokensSound(text);
    assert WordsOf(text, ps) && Separated(ps);
    forall i | 0 <= i < |ts|
      ensures IsWord(ts[i].text) && ts[i].startPos.value >= 0 && OccursAt(text, ts[i].text, ts[i].startPos.value)
    {
      assert ps[i] == Piece(ts[i].text, ts[i].startPos.value);
    }
    forall i | 0 <= i < |ts| - 1
      ensures ts[i].startPos.value + |ts[i].text| < ts[i + 1].startPos.value
    {
      assert End(ps[i]) < ps[i + 1].start;
    }
  }

  /** The tokens of `Sentence(text, use_tokenizer=True)` for the tokenizer's `words`: the offset-recovery scan's pieces and flags, numbered from 1. */
  predicate Recovered(text: string, words: seq<string>, ts: seq<Token>)
    reads ts
  {
    && Positioned(ts)
    && Pieces(ts) == PlaceUpTo(text, words, |words|).pieces
    && Flags(ts) == PlaceUpTo(text, words, |words|).spaceAfter
    && Indexed(ts)
  }

  /** Laying out one more token appends its piece. */
  lemma {:induction false} PiecesSnoc(ts: seq<Token>, t: Token)
    requires Positioned(ts) && t.startPos.Some?
    ensures Positioned(ts + [t]) && Pieces(ts + [t]) == Pieces(ts) + [Piece(t.text, t.startPos.value)]
  {
    assert forall i :: 0 <= i < |ts| ==> (ts + [t])[i] == ts[i];
  }

  /** A token not yet in a list of distinct tokens keeps it distinct once appended. */
  lemma {:induction false} DistinctSnoc(ts: seq<Token>, t: Token)
    requires DistinctTokens(ts) && t !in ts
    ensures DistinctTokens(ts + [t])
  {
  }

  /** Flags given token by token. */
  lemma {:induction false} FlagsAre(ts: seq<Token>, flags: seq<bool>)
    requires |ts| == |flags| && forall i :: 0 <= i < |ts| ==> ts[i].whitespaceAfter == flags[i]
    ensures Flags(ts) == flags
  {
  }

  /** The tokens' labels for one tag type, as `get_tag` reads them. */
  function TagLabels(ts: seq<Token>, tagType: string): (r: seq<Label>)
    reads ts
    ensures |r| == |ts| && forall i :: 0 <= i < |ts| ==> r[i] == ts[i].GetTag(tagType)
  {
    if ts == [] then [] else TagLabels(ts[..|ts| - 1], tagType) + [ts[|ts| - 1].GetTag(tagType)]
  }

  /** `sum(t.get_tag(tag_type).score for t in ts)`, added left to right. */
  function ScoreSum(ts: seq<Token>, tagType: string): (r: real)
    reads ts
  {
    if ts == [] then 0.0 else ScoreSum(ts[..|ts| - 1], tagType) + ts[|ts| - 1].GetTag(tagType).score
  }

  /** The decoded span over tokens `sp.start` to `sp.end - 1`. */
  function SpanOf(ts: seq<Token>, sp: SpanInfo): (r: Span)
    requires sp.start <= sp.end <= |ts|
  {
    Span(ts[sp.start..sp.end], Some(sp.tag), sp.score)
  }

  /** `spans` are the decoded spans `infos`, made of the tokens `ts`. */
  predicate Mirrors(ts: seq<Token>, spans: seq<Span>, infos: seq<SpanInfo>) {
    && |spans| == |infos|
    && forall j :: 0 <= j < |infos| ==> infos[j].start <= infos[j].end <= |ts| && spans[j] == SpanOf(ts, infos[j])
  }

  /** The score sum of a run of tokens is the sum of their labels' scores. */
  lemma {:induction false} ScoreSumSlice(ts: seq<Token>, tagType: string, s: nat, e: nat)
    requires s <= e <= |ts|
    ensures ScoreSum(ts[s..e], tagType) == Sum(TagLabels(ts, tagType), s, e)
    decreases e - s
  {
    if s < e {
      ScoreSumSlice(ts, tagType, s, e - 1);
      assert ts[s..e][..e - s - 1] == ts[s..e - 1];
      assert ts[s..e][e - s - 1] == ts[e - 1];
    }
  }

  /** One more decoded span, made of the tokens, keeps the spans mirrored. */
  lemma MirrorsSnoc(ts: seq<Token>, spans: seq<Span>, infos: seq<SpanInfo>, sp: SpanInfo)
    requires Mirrors(ts, spans, infos) && sp.start <= sp.end <= |ts|
    ensures Mirrors(ts, spans + [SpanOf(ts, sp)], infos + [sp])
  {
  }

  /** The state of `get_spans`'s loop before token `k` of `ts`: the scan's state `st`, held in the loop's variables. */
  ghost predicate Decoding(labels: seq<Label>, ts: seq<Token>, minScore: real, k: nat, st: Scan,
                           spans: seq<Span>, currentSpan: seq<Token>, tags: seq<Vote>, previousTagValue: string)
  {
    && k <= |labels| == |ts| && st.start <= k
    && ScanFrom(labels, minScore, k, st) == ScanFrom(labels, minScore, 0, Initial)
    && currentSpan == ts[st.start..k] && tags == st.votes && previousTagValue == st.prev
    && Mirrors(ts, spans, st.spans)
  }

  /** Before the first token the loop holds the scan's initial state. */
  lemma DecodingStart(labels: seq<Label>, ts: seq<Token>, minScore: real)
    requires |labels| == |ts|
    ensures Decoding(labels, ts, minScore, 0, Initial, [], [], [], "O")
  {
  }

  /** After the last token, closing a non-empty current span completes the decoding. */
  lemma DecodingDone(labels: seq<Label>, ts: seq<Token>, minScore: real, st: Scan,
                     spans: seq<Span>, currentSpan: seq<Token>, tags: seq<Vote>, previousTagValue: string)
    requires Decoding(labels, ts, minScore, |ts|, st, spans, currentSpan, tags, previousTagValue)
    ensures |currentSpan| > 0 <==> st.start < |labels|
    ensures DecodeSpans(labels, minScore) ==
      if st.start < |labels| then Close(labels, minScore, st.spans, st.start, |labels|, st.votes) else st.spans
  {
  }

  /**
   * One token of `get_spans`'s loop is one scan step: a token that opens a span or
   * lies outside every span closes a non-empty current span; a token inside a span
   * joins the current span and adds its vote.
   */
  lemma DecodingStep(labels: seq<Label>, ts: seq<Token>, minScore: real, k: nat, st: Scan,
                     spans: seq<Span>, currentSpan: seq<Token>, tags: seq<Vote>, previousTagValue: string,
                     tagValue: string, inSpan: bool, startsNewSpan: bool,
                     spans': seq<Span>, currentSpan': seq<Token>, tags': seq<Vote>)
    requires Decoding(labels, ts, minScore, k, st, spans, currentSpan, tags, previousTagValue) && k < |ts|
    requires tagValue == Tagged(labels, k)
    requires inSpan == InSpan(tagValue) && startsNewSpan == StartsNew(previousTagValue, tagValue)
    requires var flush := (startsNewSpan || !inSpan) && |currentSpan| > 0;
      && (flush ==> st.start < k && Mirrors(ts, spans', Close(labels, minScore, st.spans, st.start, k, st.votes)))
      && (!flush ==> spans' == spans)
      && currentSpan' == (if flush then [] else currentSpan) + (if inSpan then [ts[k]] else [])
      && tags' == if inSpan then AddVote(if flush then [] else tags, Suffix(tagValue), if startsNewSpan then 1.1 else 1.0)
                  else if flush then [] else tags
    ensures Decoding(labels, ts, minScore, k + 1, ScanStep(labels, minScore, k, st), spans', currentSpan', tags', tagValue)
  {
    var next := ScanStep(labels, minScore, k, st);
    assert ScanFrom(labels, minScore, k, st) == ScanFrom(labels, minScore, k + 1, next);
    if inSpan && !((startsNewSpan || !inSpan) && |currentSpan| > 0) {
      assert currentSpan' == ts[st.start..k + 1];
    }
  }

  /** What `infer_space_after` leaves alone: each token's index and tags. */
  function Others(ts: seq<Token>): (r: seq<(Option<int>, map<string, Label>)>)
    reads ts
    ensures |r| == |ts| && forall i :: 0 <= i < |ts| ==> r[i] == (ts[i].idx, ts[i].tags)
  {
    seq(|ts|, i requires 0 <= i < |ts| reads ts => (ts[i].idx, ts[i].tags))
  }

  /** The text `to_plain_string` builds before stripping: each token, then a space if it is flagged. */
  function Glue(texts: seq<string>, flags: seq<bool>): (r: string)
    requires |texts| == |flags|
  {
    if texts == [] then ""
    else Glue(texts[..|texts| - 1], flags[..|flags| - 1]) + texts[|texts| - 1] + (if flags[|flags| - 1] then " " else "")
  }

  /** With every token followed by whitespace, the glued text is the texts joined by spaces, plus a trailing space. */
  lemma {:induction false} GlueAllSpaced(texts: seq<string>, flags: seq<bool>)
    requires |texts| == |flags| && texts != [] && forall i :: 0 <= i < |flags| ==> flags[i]
    ensures Glue(texts, flags) == Join(texts, " ") + " "
    decreases |texts|
  {
    var init, last := texts[..|texts| - 1], texts[|texts| - 1];
    if init != [] {
      GlueAllSpaced(init, flags[..|flags| - 1]);
      JoinSnoc(init, " ", last);
      assert texts == init + [last];
    }
  }

  /**
   * With every part followed by a space and the last part not ending in whitespace,
   * stripping the glued text gives the parts joined by single spaces.
   */
  lemma GlueIsJoin(texts: seq<string>, flags: seq<bool>)
    requires |texts| == |flags| && forall i :: 0 <= i < |flags| ==> flags[i]
    requires texts != [] ==> var last := texts[|texts| - 1]; last != [] && !IsSpace(last[|last| - 1])
    ensures RStrip(Glue(texts, flags)) == Join(texts, " ")
  {
    if texts != [] {
      var init, last := texts[..|texts| - 1], texts[|texts| - 1];
      var joined := Join(texts, " ");
      if init != [] {
        JoinSnoc(init, " ", last);
        assert texts == init + [last];
      }
      assert joined[|joined| - 1] == last[|last| - 1];
      GlueAllSpaced(texts, flags);
      assert (joined + " ")[..|joined|] == joined;
    }
  }

  /** Every token is followed by whitespace and the last token's text does not end in whitespace. */
  predicate PlainReady(ts: seq<Token>)
    reads ts
  {
    && (forall i :: 0 <= i < |ts| ==> ts[i].whitespaceAfter)
    && (ts != [] ==> ts[|ts| - 1].text != [] && !IsSpace(ts[|ts| - 1].text[|ts[|ts| - 1].text| - 1]))
  }

  /**
   * When every token is followed by whitespace and the last token does not end in
   * whitespace, `to_plain_string` and `to_tokenized_string` agree.
   */
  lemma PlainIsTokenized(s: Sentence)
    ensures PlainReady(s.tokens) ==> RStrip(Glue(Texts(s.tokens), Flags(s.tokens))) == s.ToTokenizedString()
  {
    var ts := s.tokens;
    if PlainReady(ts) {
      var texts, flags := Texts(ts), Flags(ts);
      assert forall i :: 0 <= i < |flags| ==> flags[i];
      GlueIsJoin(texts, flags);
    }
  }

  /**
   * When the tokens start at offset 0 and stand one space apart, `to_original_text`
   * and `to_tokenized_string` agree.
   */
  lemma OriginalIsTokenized(s: Sentence)
    requires Positioned(s.tokens)
    ensures SingleSpaced(Pieces(s.tokens)) && (s.tokens != [] ==> s.tokens[0].startPos == Some(0)) ==>
      Placed(Pieces(s.tokens), 0) && Render(Pieces(s.tokens), 0) == s.ToTokenizedString()
  {
    var ts := s.tokens;
    if SingleSpaced(Pieces(ts)) && (ts != [] ==> ts[0].startPos == Some(0)) {
      RenderJoin(Pieces(ts), 0);
      assert TextsOf(Pieces(ts)) == Texts(ts);
    }
  }

  class Sentence {
    /** The tokens, in sentence order. */
    var tokens: seq<Token>
    /** The sentence-level labels. */
    var labels: seq<Label>

    /** `Sentence(labels=...)` without text: no tokens, the labels added one by one. */
    constructor (labels: seq<LabelArg>)
      ensures tokens == [] && this.labels == LabelsFrom(labels)
    {
      tokens := [];
      this.labels := [];
      new;
      AddLabels(labels);
    }

    /**
     * `Sentence(text)` on whitespace-tokenised text: empty text raises `ValueError`;
     * otherwise the tokens are the splitter's, numbered from 1 and each followed by
     * whitespace (`SplitSound` says what they are).
     */
    static method FromText(text: string, labels: seq<LabelArg>) returns (r: Result<Sentence>)
      ensures r.Failure? <==> text == []
      ensures r.Failure? ==> r.error == ValueError("Cannot convert empty string to a Sentence object.")
      ensures r.Success? ==> fresh(r.value) && r.value.labels == LabelsFrom(labels) && SplitFrom(text, r.value.tokens)
    {
      var s := new Sentence(labels);
      if text == [] {
        return Failure(ValueError("Cannot convert empty string to a Sentence object."));
      }
      s.ReadText(text);
      return Success(s);
    }

    /** The splitter loop of `Sentence(text)`, on a sentence without tokens. */
    method ReadText(text: string)
      requires tokens == []
      modifies this
      ensures labels == old(labels) && SplitFrom(text, tokens)
    {
      var word := "";
      var index := 0;
      ghost var st := SplitUpTo(text, 0);
      while index < |text|
        invariant 0 <= index <= |text| && st == SplitUpTo(text, index)
        invariant labels == old(labels) && Reading(st, word)
      {
        word := ReadChar(text, index, st, word);
        st := SplitStep(text, index, st);
        index := index + 1;
      }
      // the source's `index + 1` after the loop is the length of the text
      Flush(text, st, word);
    }

    /**
     * The tokens added so far are the splitter state `st`'s pieces, numbered from 1
     * and each followed by whitespace, and `word` is the word being read.
     */
    ghost predicate Reading(st: SplitState, word: string)
      reads this, tokens
    {
      && Positioned(tokens) && Pieces(tokens) == st.pieces && word == st.word
      && Indexed(tokens) && false !in Flags(tokens)
    }

    /** The end of `Sentence(text)`: the word still being read, if any, becomes the last token. */
    method Flush(text: string, ghost st: SplitState, word: string)
      requires Reading(st, word)
      modifies this
      ensures labels == old(labels) && Positioned(tokens) && Pieces(tokens) == FinalPieces(text, st) && Numbered(tokens)
    {
      if |word| > 0 {
        ghost var before := tokens;
        var token := AddWord(word, |text| - |word|, false);
        PiecesSnoc(before, token);
      }
    }

    /** The body of the splitter's loop for character `index`: a space closes the word being read, any other character extends it. */
    method ReadChar(text: string, index: nat, ghost st: SplitState, word: string) returns (next: string)
      requires index < |text| && Reading(st, word)
      modifies this
      ensures labels == old(labels) && Reading(SplitStep(text, index, st), next)
    {
      if text[index] == ' ' {
        assert SplitStep(text, index, st) == SplitState(if |word| > 0 then st.pieces + [Piece(word, index - |word|)] else st.pieces, "");
        if |word| > 0 {
          ghost var before := tokens;
          var token := AddWord(word, index - |word|, false);
          PiecesSnoc(before, token);
        }
        next := "";
      } else {
        next := word + [text[index]];
      }
    }

    /**
     * `add_token(Token(word, start_position=start))`: a new token, followed by
     * whitespace, appended and numbered; then, when `glue` holds (the offset-recovery
     * loop found the word right after the previous one), the previous token loses
     * its whitespace.
     */
    method AddWord(word: string, start: int, glue: bool) returns (token: Token)
      requires Indexed(tokens) && (glue ==> tokens != [])
      modifies this, if glue then {tokens[|tokens| - 1]} else {}
      ensures fresh(token) && token.text == word && token.startPos == Some(start)
      ensures labels == old(labels) && tokens == old(tokens) + [token]
      ensures Indexed(tokens)
      ensures Flags(tokens) == (if glue then old(Flags(tokens))[..|old(tokens)| - 1] + [false] else old(Flags(tokens))) + [true]
    {
      ghost var n := |tokens|;
      ghost var flags := Flags(tokens);
      var previous := if glue then Some(tokens[|tokens| - 1]) else None;
      token := new Token(word, None, true, Some(start));
      AddToken(token);
      if previous.Some? {
        previous.value.whitespaceAfter := false;
      }
      ghost var expected := (if glue then flags[..n - 1] + [false] else flags) + [true];
      forall i | 0 <= i < n + 1
        ensures tokens[i].idx == Some(i + 1) && tokens[i].whitespaceAfter == expected[i]
      {
        if i < n {
          assert tokens[i] == old(tokens)[i] && old(tokens[i].idx) == Some(i + 1);
          if glue && i < n - 1 {
            // numbered apart from the previous token, so not the token that lost its whitespace
            assert old(tokens[n - 1].idx) == Some(n);
          }
        }
      }
      FlagsAre(tokens, expected);
    }

    /**
     * The offset-recovery loop's state after the first `k` words: the tokens, their
     * offsets and flags, the running offset and the last word's offset are the scan's,
     * the tokens are numbered from 1, and `lastToken` is the last token added.
     */
    ghost predicate Placing(text: string, words: seq<string>, k: nat, runningOffset: int, lastWordOffset: int, lastToken: Option<Token>)
      reads this, tokens
      requires k <= |words|
    {
      var st := PlaceUpTo(text, words, k);
      && Positioned(tokens) && Pieces(tokens) == st.pieces && Flags(tokens) == st.spaceAfter
      && runningOffset == st.running && lastWordOffset == st.lastWordOffset
      && Indexed(tokens)
      && lastToken == if tokens == [] then None else Some(tokens[|tokens| - 1])
    }

    /**
     * The body of the offset-recovery loop for word `k`: look the word up from the
     * running offset (guessing an offset when it is missing), append its token, and
     * take the previous token's whitespace when the word starts right after it.
     */
    method PlaceWord(text: string, words: seq<string>, k: nat, runningOffset: int, lastWordOffset: int, lastToken: Option<Token>)
      returns (running: int, lastOffset: int, token: Token)
      requires k < |words| && Placing(text, words, k, runningOffset, lastWordOffset, lastToken)
      modifies this, if lastToken.Some? then {lastToken.value} else {}
      ensures fresh(token) && labels == old(labels) && tokens == old(tokens) + [token]
      ensures Placing(text, words, k + 1, running, lastOffset, Some(token))
    {
      ghost var st := PlaceUpTo(text, words, k);
      var word := words[k];
      // `text.index(word, running_offset)`, which raises when the word is absent
      var found := Find(text, word, runningOffset);
      var wordOffset, startPosition;
      if found.Some? {
        wordOffset := found.value;
        startPosition := wordOffset;
      } else {
        wordOffset := lastWordOffset + 1;
        startPosition := if runningOffset > 0 then runningOffset + 1 else runningOffset;
      }
      var glue := wordOffset - 1 == lastWordOffset && lastToken.Some?;
      assert PlaceUpTo(text, words, k + 1) == PlaceStep(text, word, st) == PlaceState(
        st.pieces + [Piece(word, startPosition)],
        (if glue then st.spaceAfter[..|tokens| - 1] + [false] else st.spaceAfter) + [true],
        wordOffset + |word|, wordOffset + |word| - 1, st.located + [found.Some?]);
      ghost var before := tokens;
      token := AddWord(word, startPosition, glue);
      PiecesSnoc(before, token);
      running := wordOffset + |word|;
      lastOffset := running - 1;
    }

    /**
     * `Sentence(text, use_tokenizer=True)` after the tokenizer has produced `words`:
     * each word is looked up from the running offset, and the tokens, their offsets
     * and their whitespace flags are those of the offset-recovery scan
     * (`PlacedTokens` says what they are).
     */
    static method FromWords(text: string, words: seq<string>, labels: seq<LabelArg>) returns (s: Sentence)
      ensures fresh(s) && s.labels == LabelsFrom(labels) && Recovered(text, words, s.tokens)
    {
      s := new Sentence(labels);
      s.PlaceWords(text, words);
    }

    /** The offset-recovery loop of `Sentence(text, use_tokenizer=True)`, on a sentence without tokens. */
    method PlaceWords(text: string, words: seq<string>)
      requires tokens == []
      modifies this
      ensures labels == old(labels) && Recovered(text, words, tokens)
    {
      var runningOffset := 0;
      var lastWordOffset := -1;
      var lastToken: Option<Token> := None;
      var k := 0;
      while k < |words|
        invariant 0 <= k <= |words| && labels == old(labels)
        invariant Placing(text, words, k, runningOffset, lastWordOffset, lastToken)
        invariant lastToken.Some? ==> fresh(lastToken.value)
      {
        var token;
        runningOffset, lastWordOffset, token := PlaceWord(text, words, k, runningOffset, lastWordOffset, lastToken);
        lastToken := Some(token);
        k := k + 1;
      }
    }

    /** `add_label(label)`: appends the label, wrapping a string as `Label(s)`. */
    method AddLabel(arg: LabelArg)
      modifies this
      ensures labels == old(labels) + [LabelFrom(arg)]
      ensures tokens == old(tokens)
    {
      match arg
      case LabelObj(l) =>
        labels := labels + [l];
      case LabelText(s) =>
        labels := labels + [NewLabel(Some(s)).value];
    }

    /** `add_labels(labels)`: `add_label` for each, in order. */
    method AddLabels(args: seq<LabelArg>)
      modifies this
      ensures labels == old(labels) + LabelsFrom(args)
      ensures tokens == old(tokens)
    {
      var i := 0;
      while i < |args|
        invariant 0 <= i <= |args|
        invariant labels == old(labels) + LabelsFrom(args)[..i]
        invariant tokens == old(tokens)
      {
        AddLabel(args[i]);
        assert LabelsFrom(args)[..i + 1] == LabelsFrom(args)[..i] + [LabelFrom(args[i])];
        i := i + 1;
      }
      assert LabelsFrom(args)[..i] == LabelsFrom(args);
    }

    /** `get_label_names()`: the values of the sentence labels, in order. */
    function LabelNames(): (r: seq<string>)
      reads this
      ensures |r| == |labels| && forall i :: 0 <= i < |labels| ==> r[i] == labels[i].value
    {
      seq(|labels|, i requires 0 <= i < |labels| reads this => labels[i].value)
    }

    /**
     * `add_token(token)`: appends the token and, when it has no index yet, gives it
     * its 1-based position.
     */
    method AddToken(token: Token)
      modifies this, token
      ensures tokens == old(tokens) + [token] && labels == old(labels)
      ensures token.idx == if old(token.idx).None? then Some(|tokens|) else old(token.idx)
      ensures token.whitespaceAfter == old(token.whitespaceAfter) && token.tags == old(token.tags)
    {
      tokens := tokens + [token];
      if token.idx.None? {
        token.idx := Some(|tokens|);
      }
    }

    /**
     * `get_token(token_id)`: the first token whose index is `token_id`, and `None`
     * when there is none. On a sentence numbered by `add_token` that is token
     * `token_id - 1`.
     */
    method GetToken(tokenId: int) returns (r: Option<Token>)
      ensures r.None? <==> forall i :: 0 <= i < |tokens| ==> tokens[i].idx != Some(tokenId)
      ensures r.Some? ==>
        exists i :: 0 <= i < |tokens| && tokens[i] == r.value && tokens[i].idx == Some(tokenId) &&
                    forall j :: 0 <= j < i ==> tokens[j].idx != Some(tokenId)
      ensures Indexed(tokens) && 1 <= tokenId <= |tokens| ==> r == Some(tokens[tokenId - 1])
    {
      var i := 0;
      while i < |tokens|
        invariant 0 <= i <= |tokens|
        invariant forall j :: 0 <= j < i ==> tokens[j].idx != Some(tokenId)
      {
        if tokens[i].idx == Some(tokenId) {
          return Some(tokens[i]);
        }
        i := i + 1;
      }
      return None;
    }

    /**
     * `get_spans(tag_type, min_score)`: the spans the scan over the tokens' tags
     * decodes (`DecodeSpansExact` says which they are), made of the sentence's tokens.
     */
    method GetSpans(tagType: string, minScore: real := -1.0) returns (spans: seq<Span>)
      ensures Mirrors(tokens, spans, DecodeSpans(TagLabels(tokens, tagType), minScore))
      ensures tokens == [] ==> spans == []
    {
      ghost var labels := TagLabels(tokens, tagType);
      var currentSpan, tags, previousTagValue;
      ghost var st;
      spans, currentSpan, tags, previousTagValue, st := ScanTokens(tagType, minScore, labels);
      DecodingDone(labels, tokens, minScore, st, spans, currentSpan, tags, previousTagValue);
      if |currentSpan| > 0 {
        spans := CloseSpan(tagType, minScore, spans, currentSpan, tags, labels, st.spans, st.start, |tokens|);
      }
    }

    /** The loop of `get_spans` over the tokens, up to the final flush. */
    method ScanTokens(tagType: string, minScore: real, ghost labels: seq<Label>)
      returns (spans: seq<Span>, currentSpan: seq<Token>, tags: seq<Vote>, previousTagValue: string, ghost st: Scan)
      requires labels == TagLabels(tokens, tagType)
      ensures Decoding(labels, tokens, minScore, |tokens|, st, spans, currentSpan, tags, previousTagValue)
    {
      spans := [];
      currentSpan := [];
      tags := [];
      previousTagValue := "O";
      st := Initial;
      var k: nat := 0;
      DecodingStart(labels, tokens, minScore);
      while k < |tokens|
        invariant k <= |tokens|
        invariant Decoding(labels, tokens, minScore, k, st, spans, currentSpan, tags, previousTagValue)
      {
        spans, currentSpan, tags, previousTagValue :=
          ScanToken(tagType, minScore, k, labels, st, spans, currentSpan, tags, previousTagValue);
        st := ScanStep(labels, minScore, k, st);
        k := k + 1;
      }
    }

    /** One token of `get_spans`'s loop: its tag normalised, the current span closed or extended. */
    method ScanToken(tagType: string, minScore: real, k: nat, ghost labels: seq<Label>, ghost st: Scan,
                     spans: seq<Span>, currentSpan: seq<Token>, tags: seq<Vote>, previousTagValue: string)
      returns (spans': seq<Span>, currentSpan': seq<Token>, tags': seq<Vote>, tagValue: string)
      requires labels == TagLabels(tokens, tagType) && k < |tokens|
      requires Decoding(labels, tokens, minScore, k, st, spans, currentSpan, tags, previousTagValue)
      ensures Decoding(labels, tokens, minScore, k + 1, ScanStep(labels, minScore, k, st), spans', currentSpan', tags', tagValue)
    {
      var tag := tokens[k].GetTag(tagType);
      assert tag == labels[k];
      var inSpan, startsNewSpan;
      tagValue, inSpan, startsNewSpan := ReadTag(tag.value, previousTagValue);
      spans', currentSpan', tags' := spans, currentSpan, tags;
      if (startsNewSpan || !inSpan) && |currentSpan| > 0 {
        spans' := CloseSpan(tagType, minScore, spans, currentSpan, tags, labels, st.spans, st.start, k);
        currentSpan' := [];
        tags' := [];
      }
      if inSpan {
        currentSpan' := currentSpan' + [tokens[k]];
        var weight := if startsNewSpan then 1.1 else 1.0;
        tags' := AddVote(tags', Suffix(tagValue), weight);
      }
      DecodingStep(labels, tokens, minScore, k, st, spans, currentSpan, tags, previousTagValue,
                   tagValue, inSpan, startsNewSpan, spans', currentSpan', tags');
    }

    /**
     * Closing the current span, tokens `s` to `e - 1`: its score is the mean of its
     * tokens' scores, and it is kept, typed by the heaviest tag, when the score exceeds `minScore`.
     */
    method CloseSpan(tagType: string, minScore: real, spans: seq<Span>, currentSpan: seq<Token>, tags: seq<Vote>,
                     ghost labels: seq<Label>, ghost infos: seq<SpanInfo>, ghost s: nat, ghost e: nat) returns (r: seq<Span>)
      requires labels == TagLabels(tokens, tagType)
      requires s < e <= |tokens| && currentSpan == tokens[s..e] && Mirrors(tokens, spans, infos)
      ensures Mirrors(tokens, r, Close(labels, minScore, infos, s, e, tags))
    {
      ScoreSumSlice(tokens, tagType, s, e);
      var spanScore := ScoreSum(currentSpan, tagType) / |currentSpan| as real;
      r := spans;
      if spanScore > minScore {
        r := spans + [Span(currentSpan, Some(Winner(tags)), spanScore)];
        MirrorsSnoc(tokens, spans, infos, SpanInfo(s, e, Winner(tags), spanScore));
      }
    }

    /**
     * `infer_space_after()`: the whitespace heuristic (`InferredFlagsSpec` says which
     * flags it clears) applied to the tokens' flags; nothing else changes. The loop
     * writes through token references, so the tokens must be distinct objects.
     */
    method InferSpaceAfter()
      requires DistinctTokens(tokens)
      modifies tokens
      ensures Flags(tokens) == InferredFlags(Texts(tokens), old(Flags(tokens)))
      ensures Others(tokens) == old(Others(tokens))
    {
      ghost var texts, flags := Texts(tokens), Flags(tokens);
      ghost var st := SpaceState(flags, 0);
      var lastToken: Option<Token> := None;
      var quoteCount := 0;
      var k := 0;
      while k < |tokens|
        invariant 0 <= k <= |tokens| && lastToken == if k == 0 then None else Some(tokens[k - 1])
        invariant st == SpaceUpTo(texts, flags, k) && Flags(tokens) == st.flags && quoteCount == st.quotes
        invariant Others(tokens) == old(Others(tokens))
      {
        quoteCount := InferSpaceAt(k, lastToken, quoteCount);
        st := SpaceStep(texts, k, st);
        lastToken := Some(tokens[k]);
        k := k + 1;
      }
    }

    /** One token of `infer_space_after`'s loop: quotes, closers, `'` and `(` clear flags. */
    method InferSpaceAt(k: nat, lastToken: Option<Token>, quoteCount: nat) returns (count: nat)
      requires k < |tokens| && DistinctTokens(tokens)
      requires lastToken == if k == 0 then None else Some(tokens[k - 1])
      modifies tokens
      ensures var st := SpaceStep(Texts(tokens), k, SpaceState(old(Flags(tokens)), quoteCount));
        Flags(tokens) == st.flags && count == st.quotes
      ensures Others(tokens) == old(Others(tokens))
    {
      var token := tokens[k];
      count := CountQuote(token, k, lastToken, quoteCount);
      SpaceAround(token, k, lastToken);
    }

    /** The quote rule of `infer_space_after`'s loop for token `k`. */
    method CountQuote(token: Token, k: nat, lastToken: Option<Token>, quoteCount: nat) returns (count: nat)
      requires k < |tokens| && token == tokens[k] && DistinctTokens(tokens)
      requires lastToken == if k == 0 then None else Some(tokens[k - 1])
      modifies tokens
      ensures tokens == old(tokens)
      ensures var q := QuoteStep(Texts(tokens), k, SpaceState(old(Flags(tokens)), quoteCount));
        Flags(tokens) == q.flags && count == q.quotes
      ensures Others(tokens) == old(Others(tokens))
    {
      ghost var f0 := Flags(tokens);
      ghost var q := QuoteStep(Texts(tokens), k, SpaceState(f0, quoteCount));
      assert token.text == Texts(tokens)[k];
      ghost var isQuote := token.text == "\"";
      assert q.quotes == if isQuote then quoteCount + 1 else quoteCount;
      assert q.flags == if isQuote && q.quotes % 2 != 0 then f0[k := false] else if isQuote && k > 0 then f0[k - 1 := false] else f0;
      count := quoteCount;
      if token.text == "\"" {
        count := count + 1;
        if count % 2 != 0 {
          ClearSpace(token, k);
        } else if lastToken.Some? {
          ClearSpace(lastToken.value, k - 1);
        }
      }
    }

    /** The rest of one token of `infer_space_after`'s loop: closers, `'` and `(` clear flags. */
    method SpaceAround(token: Token, k: nat, lastToken: Option<Token>)
      requires k < |tokens| && token == tokens[k] && DistinctTokens(tokens)
      requires lastToken == if k == 0 then None else Some(tokens[k - 1])
      modifies tokens
      ensures tokens == old(tokens)
      ensures Flags(tokens) == AttachStep(Texts(tokens), k, old(Flags(tokens)))
      ensures Others(tokens) == old(Others(tokens))
    {
      ghost var t := Texts(tokens)[k];
      assert token.text == t;
      ghost var f0 := Flags(tokens);
      ghost var f1 := if k > 0 && t in Closers then f0[k - 1 := false] else f0;
      ghost var f2 := if k > 0 && StartsWith(t, "'") then f1[k - 1 := false] else f1;
      assert AttachStep(Texts(tokens), k, f0) == if t == "(" then f2[k := false] else f2;
      if lastToken.Some? {
        if token.text in Closers {
          ClearSpace(lastToken.value, k - 1);
        }
        assert Flags(tokens) == f1;
        if StartsWith(token.text, "'") {
          ClearSpace(lastToken.value, k - 1);
        }
      }
      assert Flags(tokens) == f2;
      if token.text in ["("] {
        ClearSpace(token, k);
      }
    }

    /** `t.whitespace_after = False` for the token `t` at position `i`. */
    method ClearSpace(t: Token, ghost i: nat)
      requires i < |tokens| && t == tokens[i] && DistinctTokens(tokens)
      modifies t
      ensures tokens == old(tokens)
      ensures Flags(tokens) == old(Flags(tokens))[i := false]
      ensures Others(tokens) == old(Others(tokens))
    {
      t.whitespaceAfter := false;
      ghost var expected := old(Flags(tokens))[i := false];
      forall j | 0 <= j < |tokens| ensures tokens[j].whitespaceAfter == expected[j] && Others(tokens)[j] == old(Others(tokens))[j] {
        if j != i {
          assert tokens[j] != tokens[i];
        }
      }
      FlagsAre(tokens, expected);
    }

    /** `to_tokenized_string()`: the token texts joined by single spaces, i.e. laid out one space apart from offset 0. */
    function ToTokenizedString(): (r: string)
      reads this
      ensures Placed(SpacedOut(Texts(tokens), 0), 0) && r == Render(SpacedOut(Texts(tokens), 0), 0)
    {
      RenderJoin(SpacedOut(Texts(tokens), 0), 0);
      Join(Texts(tokens), " ")
    }

    /**
     * `to_plain_string()`: each token's text followed by a space when it has
     * whitespace after it, with trailing whitespace stripped.
     */
    method ToPlainString() returns (r: string)
      ensures r == RStrip(Glue(Texts(tokens), Flags(tokens)))
      ensures PlainReady(tokens) ==> r == ToTokenizedString()
    {
      var plain := "";
      var i := 0;
      while i < |tokens|
        invariant 0 <= i <= |tokens|
        invariant plain == Glue(Texts(tokens)[..i], Flags(tokens)[..i])
      {
        plain := plain + tokens[i].text;
        if tokens[i].whitespaceAfter {
          plain := plain + " ";
        }
        assert Texts(tokens)[..i + 1][..i] == Texts(tokens)[..i];
        assert Flags(tokens)[..i + 1][..i] == Flags(tokens)[..i];
        i := i + 1;
      }
      assert Texts(tokens)[..i] == Texts(tokens) && Flags(tokens)[..i] == Flags(tokens);
      r := RStrip(plain);
      PlainIsTokenized(this);
    }

    /**
     * `to_original_text()`: the tokens laid out from offset 0, gaps filled with
     * spaces. The loop only ends when every token has an offset and offsets never
     * go back, hence the precondition.
     */
    method ToOriginalText() returns (r: string)
      requires Positioned(tokens) && Placed(Pieces(tokens), 0)
      ensures r == Render(Pieces(tokens), 0)
      ensures forall i :: 0 <= i < |tokens| ==> Shows(r, Pieces(tokens)[i], 0)
      ensures SingleSpaced(Pieces(tokens)) && (tokens != [] ==> tokens[0].startPos == Some(0)) ==> r == ToTokenizedString()
    {
      r := LayOut(tokens, 0);
      forall i | 0 <= i < |tokens| ensures Shows(r, Pieces(tokens)[i], 0) {
        RenderShows(Pieces(tokens), 0, i);
      }
      OriginalIsTokenized(this);
    }
  }
}
