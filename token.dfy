/**
 * Tokens and spans of tokens: a token's text, offsets, whitespace flag and tag map,
 * and a span's text and its re-rendering at the original offsets.
 */
module Tokens {
  import opened Results
  import opened Text
  import opened Labels
  import opened Layout

  /** One word of a sentence. Its text and offsets never change; its index, whitespace flag and tags do. */
  class Token {
    const text: string
    /** The character offset of the token in the sentence text, when known. */
    const startPos: Option<int>
    /** The offset just past the token, computed when the token is built. */
    const endPos: Option<int>
    /** The 1-based position in its sentence, set when the token is added to one. */
    var idx: Option<int>
    /** Whether the token is followed by whitespace in the sentence text. */
    var whitespaceAfter: bool
    /** The token's label for each tag type (`'ner'`, `'pos'`, ...). */
    var tags: map<string, Label>

    /** `Token(text, idx, whitespace_after=..., start_position=...)`: no tags, and `end_pos = start_pos + len(text)`. */
    constructor (text: string, idx: Option<int>, whitespaceAfter: bool, startPos: Option<int>)
      ensures this.text == text && this.idx == idx && this.whitespaceAfter == whitespaceAfter
      ensures this.startPos == startPos && tags == map[]
      ensures startPos.Some? ==> endPos == Some(startPos.value + |text|)
      ensures startPos.None? ==> endPos == None
    {
      this.text := text;
      this.idx := idx;
      this.whitespaceAfter := whitespaceAfter;
      this.startPos := startPos;
      this.endPos := if startPos.Some? then Some(startPos.value + |text|) else None;
      this.tags := map[];
    }

    /** `get_tag(tag_type)`: the label stored for the tag type, or `Label('')` when there is none. */
    function GetTag(tagType: string): (r: Label)
      reads this
      ensures tagType in tags ==> r == tags[tagType]
      ensures tagType !in tags ==> r == EmptyLabel && r.value == ""
    {
      if tagType in tags then tags[tagType] else EmptyLabel
    }

    /** `add_tag_label(tag_type, tag)`: stores the label, replacing any earlier one of that type. */
    method AddTagLabel(tagType: string, tag: Label)
      modifies this
      ensures tags == old(tags)[tagType := tag]
      ensures GetTag(tagType) == tag
      ensures forall t :: t != tagType ==> GetTag(t) == old(GetTag(t))
      ensures idx == old(idx) && whitespaceAfter == old(whitespaceAfter)
    {
      tags := tags[tagType := tag];
    }

    /**
     * `add_tag(tag_type, tag_value, confidence)`: builds `Label(tag_value, confidence)`,
     * whose score setter replaces an out-of-range confidence by 1.0, and stores it,
     * replacing any earlier label of that type.
     */
    method AddTag(tagType: string, tagValue: string, confidence: real := 1.0)
      modifies this
      ensures tags == old(tags)[tagType := Label(tagValue, CoerceScore(confidence))]
      ensures GetTag(tagType).value == tagValue && Valid(GetTag(tagType))
      ensures InRange(confidence) ==> GetTag(tagType).score == confidence
      ensures forall t :: t != tagType ==> GetTag(t) == old(GetTag(t))
      ensures idx == old(idx) && whitespaceAfter == old(whitespaceAfter)
    {
      var tag := NewLabel(Some(tagValue), confidence).value;
      tags := tags[tagType := tag];
    }
  }

  /** The texts of the tokens, in order. */
  function Texts(ts: seq<Token>): (r: seq<string>)
    ensures |r| == |ts| && forall i :: 0 <= i < |ts| ==> r[i] == ts[i].text
  {
    seq(|ts|, i requires 0 <= i < |ts| => ts[i].text)
  }

  /** Every token has a start offset. */
  predicate Positioned(ts: seq<Token>) {
    forall i :: 0 <= i < |ts| ==> ts[i].startPos.Some?
  }

  /** The tokens as laid-out pieces: text and start offset. */
  function Pieces(ts: seq<Token>): (r: seq<Piece>)
    requires Positioned(ts)
  {
    seq(|ts|, i requires 0 <= i < |ts| => Piece(ts[i].text, ts[i].startPos.value))
  }

  /** The inner loop of `to_original_text`: append spaces while the offset `at` has not reached `target`. */
  method PadTo(s: string, at: int, target: int) returns (r: string)
    requires at <= target
    ensures r == s + Spaces(target - at)
  {
    r := s;
    var pos := at;
    while pos != target
      invariant at <= pos <= target
      invariant r == s + Spaces(pos - at)
      decreases target - pos
    {
      r := r + " ";
      pos := pos + 1;
    }
  }

  /**
   * The rendering loop of `to_original_text`: from offset `pos`, pad with spaces up
   * to each token's start and append its text. The loop only ends when each token
   * starts at or after the offset reached so far, hence the precondition.
   */
  method LayOut(ts: seq<Token>, pos: int) returns (s: string)
    requires Positioned(ts) && Placed(Pieces(ts), pos)
    ensures s == Render(Pieces(ts), pos)
  {
    ghost var ps := Pieces(ts);
    s := "";
    var at := pos;
    var k := 0;
    while k < |ts|
      invariant 0 <= k <= |ts| && Placed(ps[..k], pos)
      invariant at == EndPos(ps[..k], pos) && s == Render(ps[..k], pos)
    {
      var t := ts[k];
      assert ps[k] == Piece(t.text, t.startPos.value);
      RenderStep(ps, pos, k);
      s := PadTo(s, at, t.startPos.value);
      s := s + t.text;
      at := t.startPos.value + |t.text|;
      k := k + 1;
    }
    assert ps[..k] == ps;
  }

  /** A span of tokens with an optional tag and a score. */
  datatype Span = Span(tokens: seq<Token>, tag: Option<string>, score: real) {

    /** The span's start offset: its first token's, and `None` for an empty span. */
    function StartPos(): (r: Option<int>)
      ensures tokens != [] ==> r == tokens[0].startPos
      ensures tokens == [] ==> r == None
    {
      if tokens == [] then None else tokens[0].startPos
    }

    /** The span's end offset: its last token's, and `None` for an empty span. */
    function EndPos(): (r: Option<int>)
      ensures tokens != [] ==> r == tokens[|tokens| - 1].endPos
      ensures tokens == [] ==> r == None
    {
      if tokens == [] then None else tokens[|tokens| - 1].endPos
    }

    /** `span.text`: the token texts joined by single spaces, i.e. laid out one space apart. */
    function Text(): (r: string)
      ensures Placed(SpacedOut(Texts(tokens), 0), 0) && r == Render(SpacedOut(Texts(tokens), 0), 0)
    {
      RenderJoin(SpacedOut(Texts(tokens), 0), 0);
      Join(Texts(tokens), " ")
    }

    /**
     * `span.to_original_text()`: the tokens laid out from the first token's offset.
     * An empty span raises `IndexError` (it reads `tokens[0]`); a first token without
     * an offset raises `TypeError` (it adds the text's length to `None`). A later
     * token without an offset, or one starting before the offset reached, would keep
     * the padding loop running forever, hence the precondition.
     */
    method ToOriginalText() returns (r: Result<string>)
      requires tokens != [] && tokens[0].startPos.Some? ==> Positioned(tokens) && Placed(Pieces(tokens), tokens[0].startPos.value)
      ensures tokens == [] ==> r == Failure(IndexError)
      ensures tokens != [] && tokens[0].startPos.None? ==> r == Failure(TypeError)
      ensures tokens != [] && tokens[0].startPos.Some? ==>
        r.Success? && r.value == Render(Pieces(tokens), tokens[0].startPos.value)
      ensures tokens != [] && tokens[0].startPos.Some? ==>
        forall i :: 0 <= i < |tokens| ==> Shows(r.value, Pieces(tokens)[i], tokens[0].startPos.value)
      ensures tokens != [] && tokens[0].startPos.Some? && SingleSpaced(Pieces(tokens)) ==> r == Success(Text())
    {
      if tokens == [] {
        return Failure(IndexError);
      }
      if tokens[0].startPos.None? {
        return Failure(TypeError);
      }
      var s := LayOut(tokens, tokens[0].startPos.value);
      forall i | 0 <= i < |tokens|
        ensures Shows(s, Pieces(tokens)[i], tokens[0].startPos.value)
      {
        RenderShows(Pieces(tokens), tokens[0].startPos.value, i);
      }
      TextIsOriginal(this);
      return Success(s);
    }
  }

  /** A span whose tokens stand one space apart lays out, from its first offset, as its `text`. */
  lemma TextIsOriginal(sp: Span)
    requires sp.tokens != [] && Positioned(sp.tokens)
    ensures SingleSpaced(Pieces(sp.tokens)) ==>
      && Placed(Pieces(sp.tokens), sp.tokens[0].startPos.value)
      && Render(Pieces(sp.tokens), sp.tokens[0].startPos.value) == sp.Text()
  {
    var ps := Pieces(sp.tokens);
    if SingleSpaced(ps) {
      RenderJoin(ps, sp.tokens[0].startPos.value);
      assert TextsOf(ps) == Texts(sp.tokens);
    }
  }
}
