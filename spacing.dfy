/**
 * The whitespace heuristic of `infer_space_after`, over the token texts and their
 * `whitespace_after` flags: which tokens lose their trailing space.
 */
module Spacing {
  import opened Text

  /** Tokens that attach to the token before them: `. : , ; ) n't ! ?`. */
  const Closers: seq<string> := [".", ":", ",", ";", ")", "n't", "!", "?"]

  /** The number of `"` tokens among the first `i` tokens. */
  function Quotes(texts: seq<string>, i: nat): (r: nat)
    requires i <= |texts|
  {
    if i == 0 then 0 else Quotes(texts, i - 1) + (if texts[i - 1] == "\"" then 1 else 0)
  }

  /** The heuristic's state after some tokens: the flags and the number of quotes seen. */
  datatype SpaceState = SpaceState(flags: seq<bool>, quotes: nat)

  /**
   * The quote rule for token `k`: a quote that is the 1st, 3rd, ... loses its own
   * space, any other quote takes the space of the token before it.
   */
  function QuoteStep(texts: seq<string>, k: nat, st: SpaceState): (r: SpaceState)
    requires k < |texts| == |st.flags|
    ensures |r.flags| == |st.flags|
  {
    var quotes := if texts[k] == "\"" then st.quotes + 1 else st.quotes;
    var flags := if texts[k] == "\"" && quotes % 2 != 0 then st.flags[k := false]
                 else if texts[k] == "\"" && k > 0 then st.flags[k - 1 := false]
                 else st.flags;
    SpaceState(flags, quotes)
  }

  /**
   * The other rules for token `k`: a closer or a token starting with `'` takes the
   * space of the token before it, and `(` loses its own space.
   */
  function AttachStep(texts: seq<string>, k: nat, flags: seq<bool>): (r: seq<bool>)
    requires k < |texts| == |flags|
    ensures |r| == |flags|
  {
    var t := texts[k];
    var f1 := if k > 0 && t in Closers then flags[k - 1 := false] else flags;
    var f2 := if k > 0 && StartsWith(t, "'") then f1[k - 1 := false] else f1;
    if t == "(" then f2[k := false] else f2
  }

  /** One token `k` of the loop: the quote rule, then the others. */
  function SpaceStep(texts: seq<string>, k: nat, st: SpaceState): (r: SpaceState)
    requires k < |texts| == |st.flags|
    ensures |r.flags| == |st.flags|
  {
    var q := QuoteStep(texts, k, st);
    SpaceState(AttachStep(texts, k, q.flags), q.quotes)
  }

  /** The state after the first `k` tokens, from the flags `flags`. */
  function SpaceUpTo(texts: seq<string>, flags: seq<bool>, k: nat): (r: SpaceState)
    requires k <= |texts| == |flags|
    ensures |r.flags| == |flags|
  {
    if k == 0 then SpaceState(flags, 0) else SpaceStep(texts, k - 1, SpaceUpTo(texts, flags, k - 1))
  }

  /** The flags `infer_space_after` leaves. */
  function InferredFlags(texts: seq<string>, flags: seq<bool>): (r: seq<bool>)
    requires |texts| == |flags|
    ensures |r| == |flags|
  {
    SpaceUpTo(texts, flags, |texts|).flags
  }

  /** Token `k` loses its own space: it is `(`, or a quote that opens a pair. */
  predicate OwnClear(texts: seq<string>, k: nat)
    requires k < |texts|
  {
    texts[k] == "(" || (texts[k] == "\"" && Quotes(texts, k + 1) % 2 == 1)
  }

  /** Token `j` takes the space of the token before it: a closer, a token starting with `'`, or a quote that closes a pair. */
  predicate Glues(texts: seq<string>, j: nat)
    requires j < |texts|
  {
    texts[j] in Closers || StartsWith(texts[j], "'") || (texts[j] == "\"" && Quotes(texts, j + 1) % 2 == 0)
  }

  /** What the flags are after the first `i` tokens. */
  predicate SpaceInv(texts: seq<string>, flags: seq<bool>, i: nat, st: SpaceState)
    requires i <= |texts| == |flags|
  {
    && |st.flags| == |flags|
    && st.quotes == Quotes(texts, i)
    && forall k :: 0 <= k < |flags| ==>
         (st.flags[k] <==> flags[k] && !(k < i && OwnClear(texts, k)) && !(k + 1 < i && Glues(texts, k + 1)))
  }

  lemma SpaceStepInv(texts: seq<string>, flags: seq<bool>, i: nat, st: SpaceState)
    requires i < |texts| == |flags| && SpaceInv(texts, flags, i, st)
    ensures SpaceInv(texts, flags, i + 1, SpaceStep(texts, i, st))
  {
    var r := SpaceStep(texts, i, st);
    assert r.quotes == Quotes(texts, i + 1);
    forall k | 0 <= k < |flags|
      ensures r.flags[k] <==> flags[k] && !(k < i + 1 && OwnClear(texts, k)) && !(k + 1 < i + 1 && Glues(texts, k + 1))
    {
      if k == i {
        assert r.flags[k] <==> st.flags[k] && !OwnClear(texts, k);
      } else if k + 1 == i {
        assert r.flags[k] <==> st.flags[k] && !Glues(texts, i);
      } else {
        assert r.flags[k] == st.flags[k];
      }
    }
  }

  lemma {:induction false} SpaceUpToInv(texts: seq<string>, flags: seq<bool>, i: nat)
    requires i <= |texts| == |flags|
    ensures SpaceInv(texts, flags, i, SpaceUpTo(texts, flags, i))
  {
    if i > 0 {
      SpaceUpToInv(texts, flags, i - 1);
      SpaceStepInv(texts, flags, i - 1, SpaceUpTo(texts, flags, i - 1));
    }
  }

  /**
   * The heuristic in closed form: a token keeps its space exactly when it had one,
   * it is neither `(` nor an opening quote, and the next token is neither a closer,
   * nor starts with `'`, nor is a closing quote. In particular no flag is ever set.
   */
  lemma InferredFlagsSpec(texts: seq<string>, flags: seq<bool>)
    requires |texts| == |flags|
    ensures forall k :: 0 <= k < |texts| ==>
      (InferredFlags(texts, flags)[k] <==>
        flags[k] && !OwnClear(texts, k) && !(k + 1 < |texts| && Glues(texts, k + 1)))
    ensures forall k :: 0 <= k < |texts| && InferredFlags(texts, flags)[k] ==> flags[k]
  {
    SpaceUpToInv(texts, flags, |texts|);
  }

  /** The heuristic is idempotent: running it again changes no flag. */
  lemma InferredFlagsIdempotent(texts: seq<string>, flags: seq<bool>)
    requires |texts| == |flags|
    ensures InferredFlags(texts, InferredFlags(texts, flags)) == InferredFlags(texts, flags)
  {
    var once := InferredFlags(texts, flags);
    InferredFlagsSpec(texts, flags);
    InferredFlagsSpec(texts, once);
    assert forall k :: 0 <= k < |texts| ==> InferredFlags(texts, once)[k] == once[k];
  }
}
