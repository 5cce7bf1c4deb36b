/**
 * Decoding per-token BIOES/IOB tags into labelled spans: the scan behind
 * `Sentence.get_spans`, stated over the tokens' labels for one tag type.
 */
module SpanDecoding {
  import opened Labels

  // ---------------------------------------------------------------------------
  // Tag values
  // ---------------------------------------------------------------------------

  /** The five tag prefixes the decoder recognises. */
  const Prefixes: seq<string> := ["B-", "I-", "O-", "E-", "S-"]

  /** `v[0:2]`: the first two characters, or all of `v` when it is shorter. */
  function Prefix(v: string): (r: string) {
    if |v| < 2 then v else v[..2]
  }

  /** `v[2:]`: everything after the first two characters. */
  function Suffix(v: string): (r: string) {
    if |v| < 2 then "" else v[2..]
  }

  /** `v[0:2] == c + '-'`. */
  predicate PrefixIs(v: string, c: char) {
    |v| >= 2 && v[0] == c && v[1] == '-'
  }

  /** `v[0:2] in ['B-', 'I-', 'O-', 'E-', 'S-']`. */
  predicate Bioes(v: string) {
    PrefixIs(v, 'B') || PrefixIs(v, 'I') || PrefixIs(v, 'O') || PrefixIs(v, 'E') || PrefixIs(v, 'S')
  }

  /** The character tests above are the slice comparisons they stand for. */
  lemma PrefixChecks(v: string, c: char)
    ensures PrefixIs(v, c) <==> Prefix(v) == [c, '-']
    ensures Bioes(v) <==> Prefix(v) in Prefixes
    ensures Prefix(v) + Suffix(v) == v
  {
    if |v| >= 2 {
      assert Prefix(v) == [v[0], v[1]];
    }
  }

  /** The list-membership tests `get_spans` writes are the prefix predicates above. */
  lemma TagChecks(prev: string, v: string)
    ensures Bioes(v) <==> Prefix(v) in Prefixes
    ensures InSpan(v) <==> Prefix(v) !in ["O-"]
    ensures StartsNew(prev, v) <==>
      (Prefix(v) in ["B-", "S-"] || (Prefix(prev) in ["S-"] && Suffix(prev) != Suffix(v) && InSpan(v)))
  {
    PrefixChecks(v, 'O');
    PrefixChecks(v, 'B');
    PrefixChecks(v, 'S');
    PrefixChecks(prev, 'S');
  }

  /**
   * The tag value as the decoder sees it: an unset tag (`''`) and `'O'` become
   * `'O-'`, and a value without one of the five prefixes is a single-token tag.
   */
  function Normalize(value: string): (r: string) {
    var v := if value == "" || value == "O" then "O-" else value;
    if Bioes(v) then v else "S-" + v
  }

  /**
   * After normalisation every tag has one of the five prefixes; `''` and `'O'` are
   * outside tags, a prefixed value is kept, anything else is a single-token tag.
   */
  lemma NormalizeSpec(value: string)
    ensures Bioes(Normalize(value))
    ensures value == "" || value == "O" ==> Normalize(value) == "O-"
    ensures value != "" && value != "O" && Bioes(value) ==> Normalize(value) == value
    ensures value != "" && value != "O" && !Bioes(value) ==> Normalize(value) == "S-" + value
  {
    assert PrefixIs("O-", 'O');
    var v := if value == "" || value == "O" then "O-" else value;
    assert PrefixIs("S-" + v, 'S');
  }

  /** Everything but an `O-` tag is inside a span. */
  predicate InSpan(v: string) {
    !PrefixIs(v, 'O')
  }

  /**
   * Whether a token tagged `v`, after a token tagged `prev`, opens a new span: a
   * `B-` or `S-` tag does, and so does an in-span tag after an `S-` tag of another type.
   */
  predicate StartsNew(prev: string, v: string) {
    || PrefixIs(v, 'B') || PrefixIs(v, 'S')
    || (PrefixIs(prev, 'S') && Suffix(prev) != Suffix(v) && InSpan(v))
  }

  /**
   * The first half of `get_spans`'s loop body: the tag value normalised, whether it
   * lies inside a span, and whether it opens a new one after the tag `previous`.
   */
  method ReadTag(value: string, previous: string) returns (tagValue: string, inSpan: bool, startsNewSpan: bool)
    ensures tagValue == Normalize(value)
    ensures inSpan == InSpan(tagValue) && startsNewSpan == StartsNew(previous, tagValue)
  {
    tagValue := value;
    if tagValue == "" || tagValue == "O" {
      tagValue := "O-";
    }
    PrefixChecks(tagValue, 'O');
    if Prefix(tagValue) !in Prefixes {
      tagValue := "S-" + tagValue;
    }
    TagChecks(previous, tagValue);
    inSpan := false;
    if Prefix(tagValue) !in ["O-"] {
      inSpan := true;
    }
    startsNewSpan := false;
    if Prefix(tagValue) in ["B-", "S-"] {
      startsNewSpan := true;
    }
    if Prefix(previous) in ["S-"] && Suffix(previous) != Suffix(tagValue) && inSpan {
      startsNewSpan := true;
    }
  }

  /** The normalised tag of token `j`. */
  function Tagged(labels: seq<Label>, j: nat): (r: string)
    requires j < |labels|
  {
    Normalize(labels[j].value)
  }

  /** The tag the scan remembers before token `j`: `'O'` before the first token. */
  function PrevTag(labels: seq<Label>, j: nat): (r: string)
    requires j <= |labels|
  {
    if j == 0 then "O" else Tagged(labels, j - 1)
  }

  /** What the decoder reads of one token: inside a span or not, whether it opens one, its span type. */
  datatype Mark = Mark(inSpan: bool, opens: bool, kind: string)

  /** Token `j`'s mark, from its own tag and the tag before it. */
  function MarkOf(labels: seq<Label>, j: nat): (r: Mark)
    requires j < |labels|
  {
    var v := Tagged(labels, j);
    Mark(InSpan(v), StartsNew(PrevTag(labels, j), v), Suffix(v))
  }

  /** The marks of all tokens. */
  function Marks(labels: seq<Label>): (r: seq<Mark>) {
    seq(|labels|, j requires 0 <= j < |labels| => MarkOf(labels, j))
  }

  /** The weight of a token's vote for its span's type: 1.1 for a token that opens a span, 1.0 otherwise. */
  function Weight(m: Mark): (r: real) {
    if m.opens then 1.1 else 1.0
  }

  // ---------------------------------------------------------------------------
  // The vote tally: a weight per span type, in first-seen order
  // ---------------------------------------------------------------------------

  /** One entry of the `tags` map: a span type and its accumulated weight. */
  datatype Vote = Vote(key: string, weight: real)

  /** The types in the tally, in insertion order. */
  function Keys(votes: seq<Vote>): (r: seq<string>)
    ensures |r| == |votes| && forall i :: 0 <= i < |votes| ==> r[i] == votes[i].key
  {
    if votes == [] then [] else [votes[0].key] + Keys(votes[1..])
  }

  /** No type has two entries. */
  predicate Distinct(keys: seq<string>) {
    forall i, j :: 0 <= i < j < |keys| ==> keys[i] != keys[j]
  }

  /** The weight recorded for type `x` (0 when it has none; `defaultdict(float)`). */
  function TotalFor(votes: seq<Vote>, x: string): (r: real) {
    if votes == [] then 0.0 else (if votes[0].key == x then votes[0].weight else 0.0) + TotalFor(votes[1..], x)
  }

  /** `tags[key] += w`: a type already present gets heavier, a new one is appended. */
  function AddVote(votes: seq<Vote>, key: string, w: real): (r: seq<Vote>) {
    if votes == [] then [Vote(key, w)]
    else if votes[0].key == key then [Vote(key, votes[0].weight + w)] + votes[1..]
    else [votes[0]] + AddVote(votes[1..], key, w)
  }

  /** Adding a vote keeps the types and their order, appending a new type at the end. */
  lemma {:induction false} AddVoteKeys(votes: seq<Vote>, key: string, w: real)
    ensures Keys(AddVote(votes, key, w)) == if key in Keys(votes) then Keys(votes) else Keys(votes) + [key]
  {
    if votes != [] && votes[0].key != key {
      AddVoteKeys(votes[1..], key, w);
      assert Keys(votes) == [votes[0].key] + Keys(votes[1..]);
      assert AddVote(votes, key, w) == [votes[0]] + AddVote(votes[1..], key, w);
    }
  }

  lemma {:induction false} AddVoteTotal(votes: seq<Vote>, key: string, w: real, x: string)
    ensures TotalFor(AddVote(votes, key, w), x) == TotalFor(votes, x) + (if x == key then w else 0.0)
  {
    if votes != [] && votes[0].key != key {
      AddVoteTotal(votes[1..], key, w, x);
      assert AddVote(votes, key, w)[1..] == AddVote(votes[1..], key, w);
    } else if votes != [] {
      assert AddVote(votes, key, w)[1..] == votes[1..];
    }
  }

  /** With distinct types, the weight recorded for an entry's type is that entry's weight. */
  lemma {:induction false} TotalForEntry(votes: seq<Vote>, i: nat)
    requires Distinct(Keys(votes)) && i < |votes|
    ensures TotalFor(votes, votes[i].key) == votes[i].weight
  {
    if i == 0 {
      TotalForAbsent(votes[1..], votes[0].key);
    } else {
      assert Distinct(Keys(votes[1..])) by {
        forall a, b | 0 <= a < b < |votes| - 1 ensures Keys(votes[1..])[a] != Keys(votes[1..])[b] {
          assert Keys(votes)[a + 1] != Keys(votes)[b + 1];
        }
      }
      assert Keys(votes)[0] != Keys(votes)[i];
      TotalForEntry(votes[1..], i - 1);
    }
  }

  /** A type without an entry has weight 0. */
  lemma {:induction false} TotalForAbsent(votes: seq<Vote>, x: string)
    requires x !in Keys(votes)
    ensures TotalFor(votes, x) == 0.0
  {
    if votes != [] {
      assert Keys(votes) == [votes[0].key] + Keys(votes[1..]);
      TotalForAbsent(votes[1..], x);
    }
  }

  /** The position of the winning entry: the first one of greatest weight. */
  function Best(votes: seq<Vote>): (b: nat)
    requires votes != []
    ensures b < |votes|
    ensures forall j :: 0 <= j < |votes| ==> votes[j].weight <= votes[b].weight
    ensures forall j :: 0 <= j < b ==> votes[j].weight < votes[b].weight
  {
    if |votes| == 1 then 0
    else
      var init := votes[..|votes| - 1];
      var b := Best(init);
      assert forall j :: 0 <= j < |init| ==> init[j] == votes[j];
      if votes[|votes| - 1].weight > votes[b].weight then |votes| - 1 else b
  }

  /**
   * `sorted(tags.items(), key=weight, reverse=True)[0][0]`: the type of greatest
   * weight; the sort is stable, so among equal weights the first inserted wins.
   * An empty tally (never consulted by the scan) gives `''`.
   */
  function Winner(votes: seq<Vote>): (r: string) {
    if votes == [] then "" else votes[Best(votes)].key
  }

  // ---------------------------------------------------------------------------
  // Runs of tokens
  // ---------------------------------------------------------------------------

  /** The tally after the votes of tokens `s` to `e - 1`. */
  function VotesOf(ms: seq<Mark>, s: nat, e: nat): (r: seq<Vote>)
    requires s <= e <= |ms|
    decreases e - s
  {
    if s == e then [] else AddVote(VotesOf(ms, s, e - 1), ms[e - 1].kind, Weight(ms[e - 1]))
  }

  /** The total weight of the votes of tokens `s` to `e - 1` whose type is `x`. */
  function WeightFor(ms: seq<Mark>, s: nat, e: nat, x: string): (r: real)
    requires s <= e <= |ms|
    decreases e - s
  {
    if s == e then 0.0
    else WeightFor(ms, s, e - 1, x) + (if ms[e - 1].kind == x then Weight(ms[e - 1]) else 0.0)
  }

  /** Sum of the scores of tokens `s` to `e - 1`, added left to right. */
  function Sum(labels: seq<Label>, s: nat, e: nat): (r: real)
    requires s <= e <= |labels|
    decreases e - s
  {
    if s == e then 0.0 else Sum(labels, s, e - 1) + labels[e - 1].score
  }

  /** The mean score of tokens `s` to `e - 1`. */
  function Mean(labels: seq<Label>, s: nat, e: nat): (r: real)
    requires s < e <= |labels|
  {
    Sum(labels, s, e) / (e - s) as real
  }

  /** Tokens `s` to `e - 1` are all inside a span and none but the first opens one. */
  predicate Run(ms: seq<Mark>, s: nat, e: nat)
    requires s <= e <= |ms|
  {
    forall k :: s <= k < e ==> ms[k].inSpan && (s < k ==> !ms[k].opens)
  }

  /** No run can extend to the left of `s`. */
  predicate LeftEdge(ms: seq<Mark>, s: nat)
    requires s < |ms|
  {
    s == 0 || !ms[s - 1].inSpan || ms[s].opens
  }

  /** No run can extend to the right past `e - 1`. */
  predicate RightEdge(ms: seq<Mark>, e: nat)
    requires e <= |ms|
  {
    e == |ms| || !ms[e].inSpan || ms[e].opens
  }

  /** Tokens `s` to `e - 1` form one maximal span: non-empty, inside, opened at `s` only, closed after `e - 1`. */
  predicate Segment(ms: seq<Mark>, s: nat, e: nat) {
    s < e <= |ms| && Run(ms, s, e) && LeftEdge(ms, s) && RightEdge(ms, e)
  }

  /** Two runs that end together and cannot extend leftwards start together. */
  lemma SameStart(ms: seq<Mark>, s: nat, t: nat, e: nat)
    requires s < e <= |ms| && t < e
    requires Run(ms, s, e) && LeftEdge(ms, s)
    requires Run(ms, t, e) && LeftEdge(ms, t)
    ensures s == t
  {
  }

  // ---------------------------------------------------------------------------
  // What the tally of a run records
  // ---------------------------------------------------------------------------

  /** The span types of tokens `s` to `e - 1`, each once, in the order they first appear. */
  function Types(ms: seq<Mark>, s: nat, e: nat): (r: seq<string>)
    requires s <= e <= |ms|
    decreases e - s
  {
    if s == e then []
    else
      var t := Types(ms, s, e - 1);
      if ms[e - 1].kind in t then t else t + [ms[e - 1].kind]
  }

  /** The tally lists the run's types in first-seen order. */
  lemma {:induction false} VotesOfKeys(ms: seq<Mark>, s: nat, e: nat)
    requires s <= e <= |ms|
    ensures Keys(VotesOf(ms, s, e)) == Types(ms, s, e)
    decreases e - s
  {
    if s < e {
      VotesOfKeys(ms, s, e - 1);
      AddVoteKeys(VotesOf(ms, s, e - 1), ms[e - 1].kind, Weight(ms[e - 1]));
    }
  }
  /** Each type is listed once. */
  lemma {:induction false} TypesDistinct(ms: seq<Mark>, s: nat, e: nat)
    requires s <= e <= |ms|
    ensures Distinct(Types(ms, s, e))
    decreases e - s
  {
    if s < e {
      TypesDistinct(ms, s, e - 1);
    }
  }
  /** The tally records for each type the total weight of its votes. */
  lemma {:induction false} VotesOfTotal(ms: seq<Mark>, s: nat, e: nat, x: string)
    requires s <= e <= |ms|
    ensures TotalFor(VotesOf(ms, s, e), x) == WeightFor(ms, s, e, x)
    decreases e - s
  {
    if s < e {
      VotesOfTotal(ms, s, e - 1, x);
      var vs, k, w := VotesOf(ms, s, e - 1), ms[e - 1].kind, Weight(ms[e - 1]);
      assert VotesOf(ms, s, e) == AddVote(vs, k, w);
      AddVoteTotal(vs, k, w, x);
      assert WeightFor(ms, s, e, x) == WeightFor(ms, s, e - 1, x) + (if k == x then w else 0.0);
    }
  }

  /** Every type of the run is listed, and only those. */
  lemma {:induction false} TypesOf(ms: seq<Mark>, s: nat, e: nat, x: string)
    requires s <= e <= |ms|
    ensures x in Types(ms, s, e) <==> exists j :: s <= j < e && ms[j].kind == x
    decreases e - s
  {
    if s < e {
      TypesOf(ms, s, e - 1, x);
    }
  }

  /**
   * The span's type: of the run's types in first-seen order, the first whose votes
   * weigh the most.
   */
  lemma {:induction false} WinnerOfRun(ms: seq<Mark>, s: nat, e: nat)
    requires s < e <= |ms|
    ensures var ts, w := Types(ms, s, e), Winner(VotesOf(ms, s, e));
      exists b :: 0 <= b < |ts| && ts[b] == w
        && (forall i :: 0 <= i < |ts| ==> WeightFor(ms, s, e, ts[i]) <= WeightFor(ms, s, e, w))
        && (forall i :: 0 <= i < b ==> WeightFor(ms, s, e, ts[i]) < WeightFor(ms, s, e, w))
  {
    var vs := VotesOf(ms, s, e);
    VotesOfKeys(ms, s, e); TypesDistinct(ms, s, e); forall x { VotesOfTotal(ms, s, e, x); }
    var ts := Types(ms, s, e);
    assert vs != [];
    var b := Best(vs);
    forall i | 0 <= i < |ts| ensures WeightFor(ms, s, e, ts[i]) == vs[i].weight {
      TotalForEntry(vs, i);
    }
    assert ts[b] == vs[b].key;
  }

  // ---------------------------------------------------------------------------
  // The scan
  // ---------------------------------------------------------------------------

  /** A decoded span: tokens `start` to `end - 1`, its type and its mean score. */
  datatype SpanInfo = SpanInfo(start: nat, end: nat, tag: string, score: real)

  /**
   * The scan's state after some tokens: the spans emitted so far, the first token
   * of the current span (the current span is empty when it is the next token to
   * read), the tally of the current span and the previous normalised tag.
   */
  datatype Scan = Scan(spans: seq<SpanInfo>, start: nat, votes: seq<Vote>, prev: string)

  /** Closing the current span, tokens `s` to `e - 1`: it is kept when its mean score exceeds `minScore`. */
  function Close(labels: seq<Label>, minScore: real, spans: seq<SpanInfo>, s: nat, e: nat, votes: seq<Vote>): (r: seq<SpanInfo>)
    requires s < e <= |labels|
  {
    var score := Mean(labels, s, e);
    if score > minScore then spans + [SpanInfo(s, e, Winner(votes), score)] else spans
  }

  /**
   * One token of the scan: a token that opens a span, or one outside every span,
   * closes the current span; a token inside a span joins the current one and votes
   * for its type.
   */
  function ScanStep(labels: seq<Label>, minScore: real, k: nat, st: Scan): (r: Scan)
    requires k < |labels| && st.start <= k
    ensures r.start <= k + 1
  {
    var v := Tagged(labels, k);
    var starts := StartsNew(st.prev, v);
    var flush := (starts || !InSpan(v)) && st.start < k;
    var spans := if flush then Close(labels, minScore, st.spans, st.start, k, st.votes) else st.spans;
    var votes := if flush then [] else st.votes;
    if InSpan(v) then
      Scan(spans, if flush then k else st.start, AddVote(votes, Suffix(v), if starts then 1.1 else 1.0), v)
    else
      Scan(spans, k + 1, votes, v)
  }

  /** The scan from token `k` on, from state `st`. */
  function ScanFrom(labels: seq<Label>, minScore: real, k: nat, st: Scan): (r: Scan)
    requires k <= |labels| && st.start <= k
    ensures r.start <= |labels|
    decreases |labels| - k
  {
    if k == |labels| then st else ScanFrom(labels, minScore, k + 1, ScanStep(labels, minScore, k, st))
  }

  /** The state before the first token: no spans, an empty current span, previous tag `'O'`. */
  const Initial: Scan := Scan([], 0, [], "O")

  /** `get_spans(tag_type, min_score)` over the tokens' labels: the scan, then the last span closed. */
  function DecodeSpans(labels: seq<Label>, minScore: real): (r: seq<SpanInfo>) {
    var st := ScanFrom(labels, minScore, 0, Initial);
    if st.start < |labels| then Close(labels, minScore, st.spans, st.start, |labels|, st.votes) else st.spans
  }

  /** A span the decoder may emit: a maximal run, its mean score above `minScore`, its type the vote's winner. */
  predicate Emitted(labels: seq<Label>, ms: seq<Mark>, minScore: real, sp: SpanInfo)
    requires |ms| == |labels|
  {
    && Segment(ms, sp.start, sp.end)
    && sp.score == Mean(labels, sp.start, sp.end)
    && sp.score > minScore
    && sp.tag == Winner(VotesOf(ms, sp.start, sp.end))
  }

  /** Spans in sentence order, none overlapping the next. */
  predicate Ordered(spans: seq<SpanInfo>) {
    forall i :: 0 < i < |spans| ==> spans[i - 1].end <= spans[i].start
  }

  /** The span of tokens `s` to `e - 1` is in the list. */
  predicate Listed(spans: seq<SpanInfo>, s: nat, e: nat) {
    exists i :: 0 <= i < |spans| && spans[i].start == s && spans[i].end == e
  }

  /** Every span in the list may be emitted, and all lie before token `bound`. */
  predicate AllEmitted(labels: seq<Label>, ms: seq<Mark>, minScore: real, spans: seq<SpanInfo>, bound: nat)
    requires |ms| == |labels|
  {
    forall i :: 0 <= i < |spans| ==> Emitted(labels, ms, minScore, spans[i]) && spans[i].end <= bound
  }

  /** Every maximal run ending before token `k - 1` whose mean score exceeds `minScore` is in the list. */
  ghost predicate NoneMissed(labels: seq<Label>, ms: seq<Mark>, minScore: real, spans: seq<SpanInfo>, k: nat)
    requires |ms| == |labels|
  {
    forall s: nat, e: nat :: Segment(ms, s, e) && e < k && Mean(labels, s, e) > minScore ==> Listed(spans, s, e)
  }

  /**
   * The current span after `k` tokens: a run that cannot extend leftwards, non-empty
   * exactly when token `k - 1` is inside a span, with its tally; and the tag before token `k`.
   */
  predicate OpenRun(labels: seq<Label>, ms: seq<Mark>, k: nat, st: Scan)
    requires k <= |labels| == |ms|
  {
    && st.start <= k
    && Run(ms, st.start, k)
    && (st.start < k ==> LeftEdge(ms, st.start))
    && (st.start < k <==> k > 0 && ms[k - 1].inSpan)
    && st.votes == VotesOf(ms, st.start, k)
    && st.prev == PrevTag(labels, k)
  }

  /** What holds of the scan's state after `k` tokens. */
  ghost predicate ScanInv(labels: seq<Label>, ms: seq<Mark>, minScore: real, k: nat, st: Scan)
    requires k <= |labels| == |ms|
  {
    && OpenRun(labels, ms, k, st)
    && AllEmitted(labels, ms, minScore, st.spans, st.start)
    && Ordered(st.spans)
    && NoneMissed(labels, ms, minScore, st.spans, k)
  }

  /** The scan's step in terms of the token's mark. */
  function MarkStep(labels: seq<Label>, ms: seq<Mark>, minScore: real, k: nat, st: Scan): (r: Scan)
    requires k < |labels| == |ms| && st.start <= k
  {
    var m := ms[k];
    var flush := (m.opens || !m.inSpan) && st.start < k;
    var spans := if flush then Close(labels, minScore, st.spans, st.start, k, st.votes) else st.spans;
    var votes := if flush then [] else st.votes;
    if m.inSpan then Scan(spans, if flush then k else st.start, AddVote(votes, m.kind, Weight(m)), PrevTag(labels, k + 1))
    else Scan(spans, k + 1, votes, PrevTag(labels, k + 1))
  }

  /** What the scan reads of token `k` is its mark. */
  lemma StepReads(labels: seq<Label>, ms: seq<Mark>, minScore: real, k: nat, st: Scan)
    requires ms == Marks(labels) && k < |labels| && st.start <= k && st.prev == PrevTag(labels, k)
    ensures ScanStep(labels, minScore, k, st) == MarkStep(labels, ms, minScore, k, st)
  {
    assert ms[k] == MarkOf(labels, k);
  }

  lemma StepOpen(labels: seq<Label>, ms: seq<Mark>, minScore: real, k: nat, st: Scan)
    requires k < |labels| == |ms| && OpenRun(labels, ms, k, st)
    ensures OpenRun(labels, ms, k + 1, MarkStep(labels, ms, minScore, k, st))
  {
    var r := MarkStep(labels, ms, minScore, k, st);
    if ms[k].inSpan && r.start == st.start {
      assert Run(ms, st.start, k + 1);
    }
  }

  /** Closing the current span appends a span that may be emitted, after all earlier ones. */
  lemma {:induction false} CloseSound(labels: seq<Label>, ms: seq<Mark>, minScore: real, k: nat, st: Scan)
    requires |ms| == |labels| && k <= |labels| && st.start < k
    requires Run(ms, st.start, k) && LeftEdge(ms, st.start) && RightEdge(ms, k) && st.votes == VotesOf(ms, st.start, k)
    requires AllEmitted(labels, ms, minScore, st.spans, st.start) && Ordered(st.spans)
    ensures var spans := Close(labels, minScore, st.spans, st.start, k, st.votes);
      AllEmitted(labels, ms, minScore, spans, k) && Ordered(spans)
  {
    var spans := Close(labels, minScore, st.spans, st.start, k, st.votes);
    if |spans| > |st.spans| {
      assert spans == st.spans + [spans[|st.spans|]];
      forall i | 0 <= i < |spans| ensures Emitted(labels, ms, minScore, spans[i]) && spans[i].end <= k {
        if i < |st.spans| { assert spans[i] == st.spans[i]; }
      }
      forall i | 0 < i < |spans| ensures spans[i - 1].end <= spans[i].start {
        if i < |st.spans| { assert spans[i - 1] == st.spans[i - 1] && spans[i] == st.spans[i]; }
      }
    }
  }

  lemma StepSound(labels: seq<Label>, ms: seq<Mark>, minScore: real, k: nat, st: Scan)
    requires k < |labels| == |ms| && OpenRun(labels, ms, k, st)
    requires AllEmitted(labels, ms, minScore, st.spans, st.start) && Ordered(st.spans)
    ensures var r := MarkStep(labels, ms, minScore, k, st);
      AllEmitted(labels, ms, minScore, r.spans, r.start) && Ordered(r.spans)
  {
    if (ms[k].opens || !ms[k].inSpan) && st.start < k {
      CloseSound(labels, ms, minScore, k, st);
    }
  }

  /** A span in the list stays listed when more are appended. */
  lemma ListedGrow(spans: seq<SpanInfo>, more: seq<SpanInfo>, s: nat, e: nat)
    requires Listed(spans, s, e)
    ensures Listed(spans + more, s, e)
  {
    var i :| 0 <= i < |spans| && spans[i].start == s && spans[i].end == e;
    assert (spans + more)[i] == spans[i];
  }

  lemma StepComplete(labels: seq<Label>, ms: seq<Mark>, minScore: real, k: nat, st: Scan)
    requires k < |labels| == |ms| && OpenRun(labels, ms, k, st)
    requires NoneMissed(labels, ms, minScore, st.spans, k)
    ensures NoneMissed(labels, ms, minScore, MarkStep(labels, ms, minScore, k, st).spans, k + 1)
  {
    var r := MarkStep(labels, ms, minScore, k, st);
    var flush := (ms[k].opens || !ms[k].inSpan) && st.start < k;
    var sp := SpanInfo(st.start, k, Winner(st.votes), if st.start < k then Mean(labels, st.start, k) else 0.0);
    assert r.spans == if flush && sp.score > minScore then st.spans + [sp] else st.spans;
    forall s: nat, e: nat | Segment(ms, s, e) && e < k + 1 && Mean(labels, s, e) > minScore
      ensures Listed(r.spans, s, e)
    {
      if e < k {
        if flush && sp.score > minScore {
          ListedGrow(st.spans, [sp], s, e);
        }
      } else {
        SameStart(ms, s, st.start, k);
        assert (st.spans + [sp])[|st.spans|] == sp;
      }
    }
  }

  lemma StepInvariant(labels: seq<Label>, ms: seq<Mark>, minScore: real, k: nat, st: Scan)
    requires ms == Marks(labels) && k < |labels| && ScanInv(labels, ms, minScore, k, st)
    ensures ScanInv(labels, ms, minScore, k + 1, ScanStep(labels, minScore, k, st))
  {
    StepReads(labels, ms, minScore, k, st);
    StepOpen(labels, ms, minScore, k, st);
    StepSound(labels, ms, minScore, k, st);
    StepComplete(labels, ms, minScore, k, st);
  }

  lemma {:induction false} ScanInvariant(labels: seq<Label>, minScore: real, k: nat, st: Scan)
    requires k <= |labels| && ScanInv(labels, Marks(labels), minScore, k, st)
    ensures ScanInv(labels, Marks(labels), minScore, |labels|, ScanFrom(labels, minScore, k, st))
    decreases |labels| - k
  {
    if k < |labels| {
      StepInvariant(labels, Marks(labels), minScore, k, st);
      ScanInvariant(labels, minScore, k + 1, ScanStep(labels, minScore, k, st));
    }
  }

  /** The state before the first token satisfies the scan's invariant. */
  lemma InitialInv(labels: seq<Label>, minScore: real)
    ensures ScanInv(labels, Marks(labels), minScore, 0, Initial)
  {
  }

  /** The last span closed at the end of the sentence keeps the spans sound and complete. */
  lemma FinalClose(labels: seq<Label>, ms: seq<Mark>, minScore: real, st: Scan)
    requires |ms| == |labels| && ScanInv(labels, ms, minScore, |labels|, st)
    ensures var r := if st.start < |labels| then Close(labels, minScore, st.spans, st.start, |labels|, st.votes) else st.spans;
      && AllEmitted(labels, ms, minScore, r, |labels|) && Ordered(r)
      && NoneMissed(labels, ms, minScore, r, |labels| + 1)
  {
    var n := |labels|;
    var r := if st.start < n then Close(labels, minScore, st.spans, st.start, n, st.votes) else st.spans;
    if st.start < n {
      CloseSound(labels, ms, minScore, n, st);
    }
    forall s: nat, e: nat | Segment(ms, s, e) && e < n + 1 && Mean(labels, s, e) > minScore
      ensures Listed(r, s, e)
    {
      if e < n {
        if |r| > |st.spans| {
          ListedGrow(st.spans, [r[|st.spans|]], s, e);
          assert r == st.spans + [r[|st.spans|]];
        }
      } else {
        SameStart(ms, s, st.start, n);
        assert r[|st.spans|].start == s && r[|st.spans|].end == e;
      }
    }
  }

  /**
   * `get_spans` emits only maximal runs of in-span tokens, in sentence order and
   * disjoint, each with the mean of its tokens' scores, above `minScore`, and typed
   * by the vote's winner; and it emits every such run.
   */
  lemma DecodeSpansExact(labels: seq<Label>, minScore: real)
    ensures var r, ms := DecodeSpans(labels, minScore), Marks(labels);
      && Ordered(r)
      && (forall i :: 0 <= i < |r| ==> Emitted(labels, ms, minScore, r[i]))
      && (forall s: nat, e: nat :: Segment(ms, s, e) && Mean(labels, s, e) > minScore ==> Listed(r, s, e))
  {
    InitialInv(labels, minScore);
    ScanInvariant(labels, minScore, 0, Initial);
    FinalClose(labels, Marks(labels), minScore, ScanFrom(labels, minScore, 0, Initial));
  }

  /** A token lies inside a span exactly when its tag is neither unset, nor `'O'`, nor `O-`-prefixed. */
  lemma InSpanTag(value: string)
    ensures InSpan(Normalize(value)) <==> value != "" && value != "O" && !PrefixIs(value, 'O')
  {
    NormalizeSpec(value);
    if value != "" && value != "O" && !Bioes(value) {
      assert !PrefixIs("S-" + value, 'O');
    }
  }

  /**
   * A token opens a new span exactly when its tag is `B-` or `S-` prefixed, or has
   * no BIOES prefix at all (and is set and not `'O'`), or it lies inside a span and
   * follows an `S-` tag of another type.
   */
  lemma OpensTag(prev: string, value: string)
    ensures var v := Normalize(value);
      StartsNew(prev, v) <==>
        || PrefixIs(value, 'B') || PrefixIs(value, 'S')
        || (value != "" && value != "O" && !Bioes(value))
        || (PrefixIs(prev, 'S') && Suffix(prev) != Suffix(v) && InSpan(v))
  {
    NormalizeSpec(value);
    if value == "" || value == "O" {
      assert !PrefixIs("O-", 'B') && !PrefixIs("O-", 'S');
    } else if !Bioes(value) {
      assert PrefixIs("S-" + value, 'S');
    }
  }

  /** The tokens of every decoded span are all tagged inside a span. */
  lemma SpanTokensTagged(labels: seq<Label>, minScore: real)
    ensures var r := DecodeSpans(labels, minScore);
      forall i, j :: 0 <= i < |r| && r[i].start <= j < r[i].end ==>
        r[i].end <= |labels| && labels[j].value != "" && labels[j].value != "O" && !PrefixIs(labels[j].value, 'O')
  {
    var r, ms := DecodeSpans(labels, minScore), Marks(labels);
    DecodeSpansExact(labels, minScore);
    forall i, j | 0 <= i < |r| && r[i].start <= j < r[i].end
      ensures r[i].end <= |labels| && labels[j].value != "" && labels[j].value != "O" && !PrefixIs(labels[j].value, 'O')
    {
      assert Emitted(labels, ms, minScore, r[i]);
      assert ms[j] == MarkOf(labels, j);
      InSpanTag(labels[j].value);
    }
  }

  /** Scores in [0, 1] add up to a non-negative sum. */
  lemma {:induction false} SumNonNegative(labels: seq<Label>, s: nat, e: nat)
    requires s <= e <= |labels| && forall j :: 0 <= j < |labels| ==> Valid(labels[j])
    ensures Sum(labels, s, e) >= 0.0
    decreases e - s
  {
    if s < e {
      SumNonNegative(labels, s, e - 1);
      assert Valid(labels[e - 1]);
    }
  }

  /**
   * With the default threshold (any negative `min_score`) and valid scores, no run
   * is dropped: the spans are exactly the maximal runs.
   */
  lemma DefaultThresholdKeepsAll(labels: seq<Label>, minScore: real)
    requires minScore < 0.0 && forall j :: 0 <= j < |labels| ==> Valid(labels[j])
    ensures forall s: nat, e: nat :: Segment(Marks(labels), s, e) ==> Listed(DecodeSpans(labels, minScore), s, e)
  {
    var ms := Marks(labels);
    DecodeSpansExact(labels, minScore);
    forall s: nat, e: nat | Segment(ms, s, e) ensures Listed(DecodeSpans(labels, minScore), s, e) {
      MeanNonNegative(labels, s, e);
    }
  }

  /** Scores in [0, 1] have a non-negative mean. */
  lemma MeanNonNegative(labels: seq<Label>, s: nat, e: nat)
    requires s < e <= |labels| && forall j :: 0 <= j < |labels| ==> Valid(labels[j])
    ensures Mean(labels, s, e) >= 0.0
  {
    SumNonNegative(labels, s, e);
    var d := (e - s) as real;
    assert d > 0.0;
    assert Sum(labels, s, e) / d >= 0.0;
  }

  // ---------------------------------------------------------------------------
  // Examples
  // ---------------------------------------------------------------------------

  /** A label with full confidence. */
  function Tag(value: string): (r: Label) {
    Label(value, 1.0)
  }

  /** `B-PER I-PER O B-LOC`: two spans, the outside token between them. */
  lemma ExampleBio()
    ensures DecodeSpans([Tag("B-PER"), Tag("I-PER"), Tag("O"), Tag("B-LOC")], -1.0)
         == [SpanInfo(0, 2, "PER", 1.0), SpanInfo(3, 4, "LOC", 1.0)]
  {
    var ls := [Tag("B-PER"), Tag("I-PER"), Tag("O"), Tag("B-LOC")];
    assert PrefixIs("B-PER", 'B') && PrefixIs("I-PER", 'I') && PrefixIs("B-LOC", 'B');
    assert Suffix("B-PER") == "PER" && Suffix("I-PER") == "PER" && Suffix("B-LOC") == "LOC";
    var s1 := ScanStep(ls, -1.0, 0, Initial);
    assert s1 == Scan([], 0, [Vote("PER", 1.1)], "B-PER");
    var s2 := ScanStep(ls, -1.0, 1, s1);
    assert s2 == Scan([], 0, [Vote("PER", 2.1)], "I-PER");
    var s3 := ScanStep(ls, -1.0, 2, s2);
    assert Mean(ls, 0, 2) == 1.0;
    assert s3 == Scan([SpanInfo(0, 2, "PER", 1.0)], 3, [], "O-");
    var s4 := ScanStep(ls, -1.0, 3, s3);
    assert s4 == Scan([SpanInfo(0, 2, "PER", 1.0)], 3, [Vote("LOC", 1.1)], "B-LOC");
    assert ScanFrom(ls, -1.0, 0, Initial) == s4;
    assert Mean(ls, 3, 4) == 1.0;
  }

  /** `S-PER S-LOC`: an `S-` tag always opens a span, so two spans. */
  lemma ExampleSingles()
    ensures DecodeSpans([Tag("S-PER"), Tag("S-LOC")], -1.0)
         == [SpanInfo(0, 1, "PER", 1.0), SpanInfo(1, 2, "LOC", 1.0)]
  {
    var ls := [Tag("S-PER"), Tag("S-LOC")];
    assert PrefixIs("S-PER", 'S') && PrefixIs("S-LOC", 'S');
    assert Suffix("S-PER") == "PER" && Suffix("S-LOC") == "LOC";
    var s1 := ScanStep(ls, -1.0, 0, Initial);
    assert s1 == Scan([], 0, [Vote("PER", 1.1)], "S-PER");
    var s2 := ScanStep(ls, -1.0, 1, s1);
    assert Mean(ls, 0, 1) == 1.0;
    assert s2 == Scan([SpanInfo(0, 1, "PER", 1.0)], 1, [Vote("LOC", 1.1)], "S-LOC");
    assert ScanFrom(ls, -1.0, 0, Initial) == s2;
    assert Mean(ls, 1, 2) == 1.0;
  }

  /** `I-PER I-LOC`: nothing opens a second span, the two types tie and the first one seen wins. */
  lemma ExampleTie()
    ensures DecodeSpans([Tag("I-PER"), Tag("I-LOC")], -1.0) == [SpanInfo(0, 2, "PER", 1.0)]
  {
    var ls := [Tag("I-PER"), Tag("I-LOC")];
    assert PrefixIs("I-PER", 'I') && PrefixIs("I-LOC", 'I');
    assert Suffix("I-PER") == "PER" && Suffix("I-LOC") == "LOC";
    var s1 := ScanStep(ls, -1.0, 0, Initial);
    assert s1 == Scan([], 0, [Vote("PER", 1.0)], "I-PER");
    var s2 := ScanStep(ls, -1.0, 1, s1);
    assert s2 == Scan([], 0, [Vote("PER", 1.0), Vote("LOC", 1.0)], "I-LOC");
    assert ScanFrom(ls, -1.0, 0, Initial) == s2;
    assert Mean(ls, 0, 2) == 1.0;
  }

  /** `B-PER I-LOC I-LOC`: one span; two votes of 1.0 outweigh the opening vote of 1.1. */
  lemma ExampleMajority()
    ensures DecodeSpans([Tag("B-PER"), Tag("I-LOC"), Tag("I-LOC")], -1.0) == [SpanInfo(0, 3, "LOC", 1.0)]
  {
    var ls := [Tag("B-PER"), Tag("I-LOC"), Tag("I-LOC")];
    assert PrefixIs("B-PER", 'B') && PrefixIs("I-LOC", 'I');
    assert Suffix("B-PER") == "PER" && Suffix("I-LOC") == "LOC";
    var s1 := ScanStep(ls, -1.0, 0, Initial);
    assert s1 == Scan([], 0, [Vote("PER", 1.1)], "B-PER");
    var s2 := ScanStep(ls, -1.0, 1, s1);
    assert s2 == Scan([], 0, [Vote("PER", 1.1), Vote("LOC", 1.0)], "I-LOC");
    var s3 := ScanStep(ls, -1.0, 2, s2);
    assert s3 == Scan([], 0, [Vote("PER", 1.1), Vote("LOC", 2.0)], "I-LOC");
    assert ScanFrom(ls, -1.0, 0, Initial) == s3;
    assert Mean(ls, 0, 3) == 1.0;
  }

  /** The threshold is strict: a span whose mean equals `min_score` is dropped. */
  lemma ExampleThreshold()
    ensures DecodeSpans([Label("B-PER", 0.25), Label("I-PER", 0.25)], 0.25) == []
  {
    var ls := [Label("B-PER", 0.25), Label("I-PER", 0.25)];
    assert PrefixIs("B-PER", 'B') && PrefixIs("I-PER", 'I');
    assert Suffix("B-PER") == "PER" && Suffix("I-PER") == "PER";
    var s1 := ScanStep(ls, 0.25, 0, Initial);
    assert s1 == Scan([], 0, [Vote("PER", 1.1)], "B-PER");
    var s2 := ScanStep(ls, 0.25, 1, s1);
    assert s2 == Scan([], 0, [Vote("PER", 2.1)], "I-PER");
    assert ScanFrom(ls, 0.25, 0, Initial) == s2;
    assert Mean(ls, 0, 2) == 0.25;
  }
}
