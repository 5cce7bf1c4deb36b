/**
 * Where the tokens of a sentence built from raw text start: the whitespace splitter
 * and the offset recovery that follows an external tokenizer.
 */
module Tokenize {
  import opened Results
  import opened Text
  import opened Layout

  // ---------------------------------------------------------------------------
  // Splitting on the space character
  // ---------------------------------------------------------------------------

  /** The splitter's state after some characters: the tokens emitted so far and the word being read. */
  datatype SplitState = SplitState(pieces: seq<Piece>, word: string)

  /** One character of the splitter's loop: a space closes the word being read, any other character extends it. */
  function SplitStep(text: string, index: nat, st: SplitState): (r: SplitState)
    requires index < |text|
  {
    if text[index] == ' ' then
      SplitState(if |st.word| > 0 then st.pieces + [Piece(st.word, index - |st.word|)] else st.pieces, "")
    else
      SplitState(st.pieces, st.word + [text[index]])
  }

  /** The splitter's state after the first `i` characters of `text`. */
  function SplitUpTo(text: string, i: nat): (r: SplitState)
    requires i <= |text|
  {
    if i == 0 then SplitState([], "") else SplitStep(text, i - 1, SplitUpTo(text, i - 1))
  }

  /** The splitter's tokens once `text` has ended in state `st`: the word being read, if any, is the last one. */
  function FinalPieces(text: string, st: SplitState): (r: seq<Piece>) {
    if |st.word| > 0 then st.pieces + [Piece(st.word, |text| - |st.word|)] else st.pieces
  }

  /** The tokens (text and start offset) the whitespace constructor creates for `text`. */
  function WhitespaceTokens(text: string): (r: seq<Piece>) {
    FinalPieces(text, SplitUpTo(text, |text|))
  }

  /** A token text as the splitter produces it: not empty and free of spaces. */
  predicate IsWord(w: string) {
    |w| > 0 && ' ' !in w
  }

  /** Each piece is a word found in `text` at its own offset. */
  predicate WordsOf(text: string, ps: seq<Piece>) {
    forall k :: 0 <= k < |ps| ==> IsWord(ps[k].text) && ps[k].start >= 0 && OccursAt(text, ps[k].text, ps[k].start)
  }

  /** At least one character lies between consecutive pieces. */
  predicate Separated(ps: seq<Piece>) {
    forall k :: 0 <= k < |ps| - 1 ==> End(ps[k]) < ps[k + 1].start
  }

  /** The shape of the splitter's state after `i` characters. */
  predicate SplitShape(text: string, i: nat, st: SplitState)
    requires i <= |text|
  {
    && WordsOf(text, st.pieces)
    && Separated(st.pieces)
    && Placed(st.pieces, 0)
    && |st.word| <= i && ' ' !in st.word
    && st.word == text[i - |st.word|..i]
    && EndPos(st.pieces, 0) <= i - |st.word|
    && (st.pieces != [] ==> EndPos(st.pieces, 0) < i - |st.word|)
  }

  /** The text read so far is the tokens laid out, the padding after them and the word being read. */
  predicate SplitText(text: string, i: nat, st: SplitState)
    requires i <= |text| && SplitShape(text, i, st)
  {
    Render(st.pieces, 0) + Spaces(i - |st.word| - EndPos(st.pieces, 0)) + st.word == text[..i]
  }

  /** What holds of the splitter's state after `i` characters. */
  predicate SplitInv(text: string, i: nat, st: SplitState)
    requires i <= |text|
  {
    SplitShape(text, i, st) && SplitText(text, i, st)
  }

  lemma {:induction false} SpacesSucc(n: nat)
    ensures Spaces(n) + " " == Spaces(n + 1)
  {
  }

  /** A word found in the text is one more piece of it. */
  lemma {:induction false} WordsSnoc(text: string, ps: seq<Piece>, p: Piece)
    requires WordsOf(text, ps) && IsWord(p.text) && p.start >= 0 && OccursAt(text, p.text, p.start)
    ensures WordsOf(text, ps + [p])
  {
    var qs := ps + [p];
    forall k | 0 <= k < |qs|
      ensures IsWord(qs[k].text) && qs[k].start >= 0 && OccursAt(text, qs[k].text, qs[k].start)
    {
      if k < |ps| { assert qs[k] == ps[k]; }
    }
  }

  /** A piece starting past the end of the last one keeps the pieces apart. */
  lemma {:induction false} SeparatedSnoc(ps: seq<Piece>, p: Piece)
    requires Separated(ps) && (ps != [] ==> EndPos(ps, 0) < p.start)
    ensures Separated(ps + [p])
  {
    var qs := ps + [p];
    forall k | 0 <= k < |qs| - 1 ensures End(qs[k]) < qs[k + 1].start {
      if k < |ps| - 1 { assert qs[k] == ps[k] && qs[k + 1] == ps[k + 1]; }
    }
  }

  /** A word found in the text after the last piece keeps the pieces well formed. */
  lemma {:induction false} AppendWord(text: string, ps: seq<Piece>, p: Piece)
    requires WordsOf(text, ps) && Separated(ps) && Placed(ps, 0)
    requires IsWord(p.text) && p.start >= 0 && OccursAt(text, p.text, p.start)
    requires EndPos(ps, 0) <= p.start && (ps != [] ==> EndPos(ps, 0) < p.start)
    ensures WordsOf(text, ps + [p]) && Separated(ps + [p]) && Placed(ps + [p], 0)
    ensures EndPos(ps + [p], 0) == End(p)
    ensures Render(ps + [p], 0) == Render(ps, 0) + Spaces(p.start - EndPos(ps, 0)) + p.text
  {
    RenderSnoc(ps, 0, p);
    WordsSnoc(text, ps, p);
    SeparatedSnoc(ps, p);
  }

  /** Step of the splitter on a space that ends a word: the shape. */
  lemma SplitFlushShape(text: string, i: nat, st: SplitState)
    requires 0 < i <= |text| && text[i - 1] == ' '
    requires SplitShape(text, i - 1, st) && |st.word| > 0
    ensures SplitShape(text, i, SplitStep(text, i - 1, st))
  {
    var p := Piece(st.word, i - 1 - |st.word|);
    var next := SplitStep(text, i - 1, st);
    assert next.pieces == st.pieces + [p] && next.word == "";
    assert OccursAt(text, p.text, p.start);
    AppendWord(text, st.pieces, p);
    assert EndPos(next.pieces, 0) == i - 1;
    assert next.word == text[i - |next.word|..i];
  }

  /** Step of the splitter on a space that ends a word: the rendering equation. */
  lemma {:induction false} SplitFlushText(text: string, i: nat, st: SplitState)
    requires 0 < i <= |text| && text[i - 1] == ' '
    requires |st.word| > 0 && Placed(st.pieces, 0) && EndPos(st.pieces, 0) <= i - 1 - |st.word|
    requires Render(st.pieces, 0) + Spaces(i - 1 - |st.word| - EndPos(st.pieces, 0)) + st.word == text[..i - 1]
    ensures Placed(SplitStep(text, i - 1, st).pieces, 0)
    ensures Render(SplitStep(text, i - 1, st).pieces, 0) + Spaces(1) == text[..i]
  {
    var p := Piece(st.word, i - 1 - |st.word|);
    RenderSnoc(st.pieces, 0, p);
    FlushText(text[..i - 1], Render(st.pieces, 0), i - 1 - |st.word| - EndPos(st.pieces, 0), st.word, Render(st.pieces + [p], 0));
    assert text[..i] == text[..i - 1] + " ";
  }

  /** Step of the splitter on a space that ends a word. */
  lemma SplitFlush(text: string, i: nat, st: SplitState)
    requires 0 < i <= |text| && text[i - 1] == ' '
    requires SplitInv(text, i - 1, st) && |st.word| > 0
    ensures SplitInv(text, i, SplitStep(text, i - 1, st))
  {
    SplitFlushShape(text, i, st);
    SplitFlushText(text, i, st);
  }

  /** The rendering equation after a word is closed by a space. */
  lemma {:induction false} FlushText(prefix: string, head: string, gap: nat, word: string, rendered: string)
    requires prefix == head + Spaces(gap) + word
    requires rendered == head + Spaces(gap) + word
    ensures prefix + " " == rendered + Spaces(1)
  {
    assert Spaces(1) == " ";
  }

  /** Step of the splitter on a space that follows another space (or starts the text). */
  lemma SplitPad(text: string, i: nat, st: SplitState)
    requires 0 < i <= |text| && text[i - 1] == ' '
    requires SplitInv(text, i - 1, st) && |st.word| == 0
    ensures SplitInv(text, i, SplitStep(text, i - 1, st))
  {
    assert text[..i] == text[..i - 1] + " ";
    SpacesSucc(i - 1 - EndPos(st.pieces, 0));
  }

  /** Step of the splitter on a character that extends the word: the rendering equation. */
  lemma SplitGrowText(text: string, i: nat, head: string, word: string)
    requires 0 < i <= |text|
    requires head + word == text[..i - 1]
    ensures head + (word + [text[i - 1]]) == text[..i]
  {
    assert text[..i] == text[..i - 1] + [text[i - 1]];
  }

  /** Step of the splitter on a character that extends the word. */
  lemma SplitGrow(text: string, i: nat, st: SplitState)
    requires 0 < i <= |text| && text[i - 1] != ' '
    requires SplitInv(text, i - 1, st)
    ensures SplitInv(text, i, SplitStep(text, i - 1, st))
  {
    var w := st.word + [text[i - 1]];
    var gap := i - 1 - |st.word| - EndPos(st.pieces, 0);
    assert i - |w| - EndPos(st.pieces, 0) == gap;
    SplitGrowText(text, i, Render(st.pieces, 0) + Spaces(gap), st.word);
    assert w == text[i - |w|..i];
  }

  lemma {:induction false} SplitInvariant(text: string, i: nat)
    requires i <= |text|
    ensures SplitInv(text, i, SplitUpTo(text, i))
  {
    if i > 0 {
      SplitInvariant(text, i - 1);
      var st := SplitUpTo(text, i - 1);
      if text[i - 1] != ' ' {
        SplitGrow(text, i, st);
      } else if |st.word| > 0 {
        SplitFlush(text, i, st);
      } else {
        SplitPad(text, i, st);
      }
    }
  }

  /** Trailing padding is all that `rstrip(' ')` removes from a rendering that ends in a word. */
  lemma {:induction false} DropPadding(s: string, n: nat)
    requires s == [] || s[|s| - 1] != ' '
    ensures DropTrailingSpaces(s + Spaces(n)) == s
  {
    if n > 0 {
      assert s + Spaces(n) == (s + Spaces(n - 1)) + " ";
      assert (s + Spaces(n))[..|s + Spaces(n)| - 1] == s + Spaces(n - 1);
      DropPadding(s, n - 1);
    }
  }

  /**
   * The whitespace constructor's tokens: words found in the text at their offsets,
   * in increasing order with at least one space between them, and laying them out
   * again gives back the text without its trailing spaces.
   */
  lemma {:induction false} WhitespaceTokensSound(text: string)
    ensures WordsOf(text, WhitespaceTokens(text))
    ensures Separated(WhitespaceTokens(text))
    ensures Placed(WhitespaceTokens(text), 0)
    ensures Render(WhitespaceTokens(text), 0) == DropTrailingSpaces(text)
  {
    var st := SplitUpTo(text, |text|);
    SplitInvariant(text, |text|);
    if |st.word| > 0 {
      FinalWord(text, st);
    } else {
      FinalPadding(text, st);
    }
  }

  /** The end of the text closes the word being read, which ends the text. */
  lemma {:induction false} FinalWord(text: string, st: SplitState)
    requires SplitInv(text, |text|, st) && |st.word| > 0
    ensures var ps := st.pieces + [Piece(st.word, |text| - |st.word|)];
      WordsOf(text, ps) && Separated(ps) && Placed(ps, 0) && Render(ps, 0) == DropTrailingSpaces(text)
  {
    var p := Piece(st.word, |text| - |st.word|);
    assert text[..|text|] == text;
    assert OccursAt(text, p.text, p.start);
    AppendWord(text, st.pieces, p);
    assert text[|text| - 1] == st.word[|st.word| - 1];
    DropPadding(text, 0);
    assert text + Spaces(0) == text;
  }

  /** The rendering of placed pieces whose last text ends in a non-space also ends in it. */
  lemma {:induction false} RenderEndsInWord(ps: seq<Piece>)
    requires Placed(ps, 0) && ps != [] && IsWord(ps[|ps| - 1].text)
    ensures var r := Render(ps, 0); r != [] && r[|r| - 1] != ' '
  {
    var last := ps[|ps| - 1];
    RenderShows(ps, 0, |ps| - 1);
    var r := Render(ps, 0);
    assert r[|r| - 1] == r[last.start..End(last)][|last.text| - 1];
  }

  /** When the text ends in spaces (or is empty), only the padding after the last token is dropped. */
  lemma {:induction false} FinalPadding(text: string, st: SplitState)
    requires SplitInv(text, |text|, st) && |st.word| == 0
    ensures Render(st.pieces, 0) == DropTrailingSpaces(text)
  {
    var r := Render(st.pieces, 0);
    var n := |text| - EndPos(st.pieces, 0);
    assert r + Spaces(n) == text by {
      assert text[..|text|] == text;
    }
    if st.pieces != [] {
      assert IsWord(st.pieces[|st.pieces| - 1].text);
      RenderEndsInWord(st.pieces);
    }
    DropPadding(r, n);
  }

  // ---------------------------------------------------------------------------
  // Offsets of externally tokenized words
  // ---------------------------------------------------------------------------

  /**
   * The offset-recovery state: the tokens placed so far with their whitespace-after
   * flags, the running offset and the offset of the last character of the last
   * word, and, per token, whether its word was found verbatim in the text.
   */
  datatype PlaceState = PlaceState(
    pieces: seq<Piece>, spaceAfter: seq<bool>, running: int, lastWordOffset: int, located: seq<bool>)

  /** The lengths and offsets every offset-recovery state has. */
  predicate WellSized(st: PlaceState) {
    && |st.pieces| == |st.spaceAfter| == |st.located|
    && st.running >= 0 && st.lastWordOffset == st.running - 1
  }

  /**
   * One word of the offset-recovery loop: the word is looked up from the running
   * offset; when it is missing, its offset is guessed just after the previous word;
   * the previous token loses its whitespace flag when the word starts right where
   * the previous one ended.
   */
  function PlaceStep(text: string, word: string, st: PlaceState): (r: PlaceState)
    requires WellSized(st)
    ensures WellSized(r) && |r.pieces| == |st.pieces| + 1
  {
    var n := |st.pieces|;
    var found := Find(text, word, st.running);
    var wordOffset := if found.Some? then found.value else st.lastWordOffset + 1;
    var startPosition := if found.Some? then found.value
                         else if st.running > 0 then st.running + 1 else st.running;
    var flags := if wordOffset - 1 == st.lastWordOffset && n > 0
                 then st.spaceAfter[..n - 1] + [false] else st.spaceAfter;
    var running := wordOffset + |word|;
    PlaceState(st.pieces + [Piece(word, startPosition)], flags + [true], running, running - 1,
               st.located + [found.Some?])
  }

  /** The offset-recovery state after the first `k` words. */
  function PlaceUpTo(text: string, words: seq<string>, k: nat): (st: PlaceState)
    requires k <= |words|
    ensures WellSized(st) && |st.pieces| == k
  {
    if k == 0 then PlaceState([], [], 0, -1, []) else PlaceStep(text, words[k - 1], PlaceUpTo(text, words, k - 1))
  }

  /** Every word looked up so far was found verbatim. */
  predicate AllLocated(st: PlaceState) {
    forall j :: 0 <= j < |st.located| ==> st.located[j]
  }

  /** The tokens carry the words, in order. */
  predicate CarriesWords(words: seq<string>, st: PlaceState) {
    |st.pieces| <= |words| && forall j :: 0 <= j < |st.pieces| ==> st.pieces[j].text == words[j]
  }

  /** A token whose word was found starts where that word occurs in the text. */
  predicate FoundAt(text: string, st: PlaceState)
    requires WellSized(st)
  {
    forall j :: 0 <= j < |st.pieces| && st.located[j] ==>
      st.pieces[j].start >= 0 && OccursAt(text, st.pieces[j].text, st.pieces[j].start)
  }

  /**
   * The whitespace flags: the last token keeps its flag; of two consecutive found
   * words, the first is flagged exactly when the second does not start where it
   * ended; a missing word clears its predecessor's flag.
   */
  predicate FlagsAgree(st: PlaceState)
    requires WellSized(st)
  {
    && (st.pieces != [] ==> st.spaceAfter[|st.pieces| - 1])
    && (st.pieces != [] && st.located[|st.pieces| - 1] ==> st.running == End(st.pieces[|st.pieces| - 1]))
    && (forall j :: 0 <= j < |st.pieces| - 1 && st.located[j] && st.located[j + 1] ==>
          (st.spaceAfter[j] <==> st.pieces[j + 1].start != End(st.pieces[j])))
    && (forall j :: 0 <= j < |st.pieces| - 1 && !st.located[j + 1] ==> !st.spaceAfter[j])
  }

  /** When every word was found, the tokens never go back and the running offset is where the last one ends. */
  predicate InOrder(st: PlaceState)
    requires WellSized(st)
  {
    AllLocated(st) ==> Placed(st.pieces, 0) && EndPos(st.pieces, 0) == st.running
  }

  lemma PlaceStepWords(text: string, words: seq<string>, st: PlaceState)
    requires WellSized(st) && CarriesWords(words, st) && |st.pieces| < |words|
    ensures CarriesWords(words, PlaceStep(text, words[|st.pieces|], st))
  {
    var r := PlaceStep(text, words[|st.pieces|], st);
    forall j | 0 <= j < |r.pieces| ensures r.pieces[j].text == words[j] {
      if j < |st.pieces| { assert r.pieces[j] == st.pieces[j]; }
    }
  }

  lemma PlaceStepFound(text: string, word: string, st: PlaceState)
    requires WellSized(st) && FoundAt(text, st)
    ensures FoundAt(text, PlaceStep(text, word, st))
  {
    var r := PlaceStep(text, word, st);
    var n := |st.pieces|;
    forall j | 0 <= j < |r.pieces| && r.located[j]
      ensures r.pieces[j].start >= 0 && OccursAt(text, r.pieces[j].text, r.pieces[j].start)
    {
      if j < n { assert r.pieces[j] == st.pieces[j] && r.located[j] == st.located[j]; }
    }
  }

  lemma PlaceStepFlags(text: string, word: string, st: PlaceState)
    requires WellSized(st) && FlagsAgree(st)
    ensures FlagsAgree(PlaceStep(text, word, st))
  {
    var r := PlaceStep(text, word, st);
    var n := |st.pieces|;
    assert forall j :: 0 <= j < n - 1 ==> r.spaceAfter[j] == st.spaceAfter[j];
    assert forall j :: 0 <= j < n ==> r.pieces[j] == st.pieces[j] && r.located[j] == st.located[j];
  }

  lemma PlaceStepOrder(text: string, word: string, st: PlaceState)
    requires WellSized(st) && FlagsAgree(st) && InOrder(st)
    ensures InOrder(PlaceStep(text, word, st))
  {
    var r := PlaceStep(text, word, st);
    var n := |st.pieces|;
    if AllLocated(r) {
      assert st.located == r.located[..n];
      assert AllLocated(st);
      var p := r.pieces[n];
      assert r.pieces == st.pieces + [p];
      var found := Find(text, word, st.running);
      assert r.located[n] == found.Some?;
      assert p.start == found.value >= st.running;
      PlacedSnoc(st.pieces, 0, p);
    }
  }

  /** What holds of the offset-recovery state after `k` words. */
  predicate PlaceInv(text: string, words: seq<string>, st: PlaceState)
  {
    WellSized(st) && CarriesWords(words, st) && FoundAt(text, st) && FlagsAgree(st) && InOrder(st)
  }

  lemma {:induction false} PlaceInvariant(text: string, words: seq<string>, k: nat)
    requires k <= |words|
    ensures PlaceInv(text, words, PlaceUpTo(text, words, k))
  {
    if k > 0 {
      PlaceInvariant(text, words, k - 1);
      var st := PlaceUpTo(text, words, k - 1);
      PlaceStepWords(text, words, st);
      PlaceStepFound(text, words[k - 1], st);
      PlaceStepFlags(text, words[k - 1], st);
      PlaceStepOrder(text, words[k - 1], st);
    }
  }

  /**
   * The tokenizer path's offsets: a word found verbatim stands at its start offset;
   * of two consecutive found words, the first is followed by whitespace exactly when
   * the second does not start where the first ended; a word that was not found
   * always clears its predecessor's whitespace flag; the last token keeps its flag.
   * When every word is found, the offsets never go back, so the tokens can be laid
   * out again.
   */
  lemma {:induction false} PlacedTokens(text: string, words: seq<string>)
    ensures var st := PlaceUpTo(text, words, |words|);
      && (forall j :: 0 <= j < |words| ==> st.pieces[j].text == words[j])
      && (forall j :: 0 <= j < |words| && st.located[j] ==>
            st.pieces[j].start >= 0 && OccursAt(text, words[j], st.pieces[j].start))
      && (forall j :: 0 <= j < |words| - 1 && st.located[j] && st.located[j + 1] ==>
            (st.spaceAfter[j] <==> st.pieces[j + 1].start != End(st.pieces[j])))
      && (forall j :: 0 <= j < |words| - 1 && !st.located[j + 1] ==> !st.spaceAfter[j])
      && (|words| > 0 ==> st.spaceAfter[|words| - 1])
      && (AllLocated(st) ==> Placed(st.pieces, 0))
  {
    PlaceInvariant(text, words, |words|);
  }
}
