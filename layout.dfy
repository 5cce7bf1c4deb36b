/**
 * Laying tokens out at their character offsets: the string `to_original_text`
 * rebuilds from token texts and start positions.
 */
module Layout {
  import opened Text

  /** A token's text and the character offset it starts at. */
  datatype Piece = Piece(text: string, start: int)

  /** The offset just past a piece. */
  function End(p: Piece): (r: int) {
    p.start + |p.text|
  }

  /** The running position after the pieces `ps` have been laid out from `pos`. */
  function EndPos(ps: seq<Piece>, pos: int): (r: int) {
    if ps == [] then pos else End(ps[|ps| - 1])
  }

  /**
   * Each piece starts at or after the position where the previous one ended (the
   * first at or after `pos`): the condition under which the rendering loop, which
   * pads with spaces until it reaches a piece's start, ever gets there.
   */
  predicate Placed(ps: seq<Piece>, pos: int) {
    && (ps != [] ==> pos <= ps[0].start)
    && (forall k :: 0 < k < |ps| ==> End(ps[k - 1]) <= ps[k].start)
  }

  /** `p`'s text stands at its own offset in `r`, a string that begins at offset `pos`. */
  predicate Shows(r: string, p: Piece, pos: int) {
    pos <= p.start && End(p) - pos <= |r| && r[p.start - pos..End(p) - pos] == p.text
  }

  /** Dropping the last piece keeps the pieces placed. */
  lemma PlacedInit(ps: seq<Piece>, pos: int)
    requires Placed(ps, pos) && ps != []
    ensures Placed(ps[..|ps| - 1], pos)
  {
    var init := ps[..|ps| - 1];
    forall k | 0 < k < |init| ensures End(init[k - 1]) <= init[k].start {
      assert init[k - 1] == ps[k - 1] && init[k] == ps[k];
    }
  }

  /** A piece that starts where the pieces end, or later, keeps them placed. */
  lemma PlacedSnoc(ps: seq<Piece>, pos: int, p: Piece)
    requires Placed(ps, pos) && EndPos(ps, pos) <= p.start
    ensures Placed(ps + [p], pos)
  {
    var qs := ps + [p];
    forall k | 0 < k < |qs| ensures End(qs[k - 1]) <= qs[k].start {
      if k < |ps| { assert qs[k - 1] == ps[k - 1] && qs[k] == ps[k]; }
    }
  }

  /** The pieces laid out from `pos`, gaps filled with spaces. */
  function Render(ps: seq<Piece>, pos: int): (r: string)
    requires Placed(ps, pos)
    ensures |r| == EndPos(ps, pos) - pos
    decreases |ps|
  {
    if ps == [] then ""
    else
      var init, last := ps[..|ps| - 1], ps[|ps| - 1];
      PlacedInit(ps, pos);
      Render(init, pos) + Spaces(last.start - EndPos(init, pos)) + last.text
  }

  /** Laying out one more piece appends its padding and its text. */
  lemma {:induction false} RenderSnoc(ps: seq<Piece>, pos: int, p: Piece)
    requires Placed(ps, pos) && EndPos(ps, pos) <= p.start
    ensures Placed(ps + [p], pos)
    ensures Render(ps + [p], pos) == Render(ps, pos) + Spaces(p.start - EndPos(ps, pos)) + p.text
  {
    PlacedSnoc(ps, pos, p);
    var qs := ps + [p];
    assert qs[..|qs| - 1] == ps;
    assert qs[|qs| - 1] == p;
  }

  /** Rendering the first `k + 1` pieces extends the rendering of the first `k` by the padding and text of piece `k`. */
  lemma {:induction false} RenderStep(ps: seq<Piece>, pos: int, k: nat)
    requires Placed(ps, pos) && k < |ps|
    ensures Placed(ps[..k], pos) && Placed(ps[..k + 1], pos)
    ensures EndPos(ps[..k], pos) <= ps[k].start && EndPos(ps[..k + 1], pos) == End(ps[k])
    ensures Render(ps[..k + 1], pos) == Render(ps[..k], pos) + Spaces(ps[k].start - EndPos(ps[..k], pos)) + ps[k].text
  {
    var init := ps[..k];
    forall j | 0 < j < |init| ensures End(init[j - 1]) <= init[j].start {
      assert init[j - 1] == ps[j - 1] && init[j] == ps[j];
    }
    if k > 0 {
      assert init[k - 1] == ps[k - 1];
    }
    assert ps[..k + 1] == init + [ps[k]];
    RenderSnoc(init, pos, ps[k]);
  }

  /** The pieces' texts, in order. */
  function TextsOf(ps: seq<Piece>): (r: seq<string>)
    ensures |r| == |ps| && forall i :: 0 <= i < |ps| ==> r[i] == ps[i].text
  {
    if ps == [] then [] else TextsOf(ps[..|ps| - 1]) + [ps[|ps| - 1].text]
  }

  /** Each piece starts one character after the previous one ends. */
  predicate SingleSpaced(ps: seq<Piece>) {
    forall k :: 0 < k < |ps| ==> ps[k].start == End(ps[k - 1]) + 1
  }

  /** The texts laid out from `pos`, each one space after the end of the one before. */
  function SpacedOut(texts: seq<string>, pos: int): (ps: seq<Piece>)
    ensures |ps| == |texts| && TextsOf(ps) == texts
    ensures SingleSpaced(ps) && (ps != [] ==> ps[0].start == pos)
  {
    if texts == [] then []
    else
      var init := SpacedOut(texts[..|texts| - 1], pos);
      var last := Piece(texts[|texts| - 1], if init == [] then pos else End(init[|init| - 1]) + 1);
      assert forall i :: 0 <= i < |init| ==> TextsOf(init)[i] == init[i].text;
      init + [last]
  }

  /**
   * Pieces that start at `pos` and stand one space apart render as their texts
   * joined by single spaces: `to_original_text` and `to_tokenized_string` agree then.
   */
  lemma {:induction false} RenderJoin(ps: seq<Piece>, pos: int)
    requires ps != [] ==> ps[0].start == pos
    requires SingleSpaced(ps)
    ensures Placed(ps, pos) && Render(ps, pos) == Join(TextsOf(ps), " ")
    decreases |ps|
  {
    if ps != [] {
      var init, last := ps[..|ps| - 1], ps[|ps| - 1];
      forall k | 0 < k < |init| ensures init[k].start == End(init[k - 1]) + 1 {
        assert init[k] == ps[k] && init[k - 1] == ps[k - 1];
      }
      RenderJoin(init, pos);
      RenderSnoc(init, pos, last);
      var words := TextsOf(init);
      if init != [] {
        assert init[|init| - 1] == ps[|ps| - 2];
        JoinSnoc(words, " ", last.text);
        assert Spaces(last.start - EndPos(init, pos)) == " ";
      }
      assert ps == init + [last];
    }
  }

  /** Text shown in a string is still shown once more text follows it. */
  lemma ShowsExtend(head: string, tail: string, p: Piece, pos: int)
    requires Shows(head, p, pos)
    ensures Shows(head + tail, p, pos)
  {
    assert (head + tail)[p.start - pos..End(p) - pos] == head[p.start - pos..End(p) - pos];
  }

  /** A piece appended right where the string's offsets reach its start is shown. */
  lemma ShowsLast(head: string, p: Piece, pos: int)
    requires pos + |head| == p.start
    ensures Shows(head + p.text, p, pos)
  {
    assert (head + p.text)[|head|..] == p.text;
  }

  /** Every piece's text stands at its own offset in the rendering. */
  lemma {:induction false} RenderShows(ps: seq<Piece>, pos: int, k: nat)
    requires Placed(ps, pos) && k < |ps|
    ensures Shows(Render(ps, pos), ps[k], pos)
    decreases |ps|
  {
    var init, last := ps[..|ps| - 1], ps[|ps| - 1];
    PlacedInit(ps, pos);
    var head := Render(init, pos) + Spaces(last.start - EndPos(init, pos));
    assert Render(ps, pos) == head + last.text;
    if k < |init| {
      RenderShows(init, pos, k);
      assert ps[k] == init[k];
      ShowsExtend(Render(init, pos), Spaces(last.start - EndPos(init, pos)) + last.text, init[k], pos);
      assert Render(init, pos) + (Spaces(last.start - EndPos(init, pos)) + last.text) == head + last.text;
    } else {
      ShowsLast(head, last, pos);
    }
  }
}
