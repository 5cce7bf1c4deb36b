/**
 * Converting token tags between the IOB1, IOB2 and IOBES chunk-tagging schemes:
 * `iob2` (which also checks the input) and `iob_iobes`.
 */
module TagSchemes {
  import opened Results
  import opened Text
  import opened Labels

  // ---------------------------------------------------------------------------
  // Tag shapes
  // ---------------------------------------------------------------------------

  /** `v.split('-')[0]`: the chunk prefix of a tag value. */
  function Head(v: string): (r: string) {
    BeforeFirst(v, '-')
  }

  /** `len(v.split('-')) == 2 and v.split('-')[0] == h`: the test `iob2` applies to a non-`O` tag. */
  predicate SplitsAs(v: string, h: string) {
    Count(v, '-') == 1 && Head(v) == h
  }

  /** `v` is `h-X` with a type `X` free of dashes. */
  predicate Shaped(v: string, h: char) {
    |v| >= 2 && v[0] == h && v[1] == '-' && '-' !in v[2..]
  }

  /** The type of a shaped tag: what follows the dash. */
  function Type(v: string): (r: string) {
    if |v| < 2 then "" else v[2..]
  }

  lemma {:induction false} CountZero(s: string, c: char)
    ensures Count(s, c) == 0 <==> c !in s
  {
    if s != [] {
      CountZero(s[1..], c);
      assert s == [s[0]] + s[1..];
    }
  }

  /** A tag that starts `h-` has chunk prefix `h` and one dash more than its remainder. */
  lemma {:induction false} DashAfterLetter(v: string, h: char)
    requires h != '-' && |v| >= 2 && v[0] == h && v[1] == '-'
    ensures Head(v) == [h] && Count(v, '-') == 1 + Count(v[2..], '-')
  {
    assert BeforeFirst(v[1..], '-') == "";
    assert v[1..][1..] == v[2..];
  }

  /** A tag whose split test names `h` starts `h-`. */
  lemma SplitsAsStarts(v: string, h: char)
    requires h != '-' && SplitsAs(v, [h])
    ensures |v| >= 2 && v[0] == h && v[1] == '-'
  {
    CountZero(v, '-');
    var r := Head(v);
    assert |r| == 1 && r <= v;
    assert v[0] == h;
    assert '-' in v;
    assert |v| >= 2;
  }

  /** The split test of `iob2` accepts exactly the tags `h-X` with a dash-free type `X`. */
  lemma SplitsAsShaped(v: string, h: char)
    requires h != '-'
    ensures SplitsAs(v, [h]) <==> Shaped(v, h)
  {
    if SplitsAs(v, [h]) {
      SplitsAsStarts(v, h);
    }
    if |v| >= 2 && v[0] == h && v[1] == '-' {
      DashAfterLetter(v, h);
      CountZero(v[2..], '-');
    }
  }

  /** Replacing the letter of a shaped tag gives a tag of the same type and the new letter. */
  lemma Retag(v: string, h: char, g: char)
    requires Shaped(v, h) && g != '-'
    ensures Shaped([g] + Drop1(v), g) && Type([g] + Drop1(v)) == Type(v) && Drop1([g] + Drop1(v)) == Drop1(v)
  {
    var w := [g] + Drop1(v);
    assert Drop1(v) == v[1..];
    assert w[0] == g && w[1] == '-';
    assert w[1..] == v[1..];
    assert w[2..] == v[2..];
  }

  /** The chunk prefix of a shaped tag is its letter. */
  lemma HeadOfShaped(v: string, h: char)
    requires Shaped(v, h) && h != '-'
    ensures Head(v) == [h]
  {
    assert BeforeFirst(v[1..], '-') == "";
  }

  // ---------------------------------------------------------------------------
  // iob2: IOB1 to IOB2, in place
  // ---------------------------------------------------------------------------

  /** A tag `iob2` accepts: `O`, or `I-X` / `B-X` with exactly one dash. */
  predicate Accepted(v: string) {
    v == "O" || SplitsAs(v, "I") || SplitsAs(v, "B")
  }

  /** The position of the first tag `iob2` rejects, or the length when there is none. */
  function FirstRejected(ls: seq<Label>, i: nat): (r: nat)
    requires i <= |ls|
    ensures i <= r <= |ls|
    ensures forall j :: i <= j < r ==> Accepted(ls[j].value)
    ensures r < |ls| ==> !Accepted(ls[r].value)
    decreases |ls| - i
  {
    if i == |ls| || !Accepted(ls[i].value) then i else FirstRejected(ls, i + 1)
  }

  /**
   * The IOB2 value of an accepted tag at position `i`: `O` and `B-` tags are kept;
   * an `I-X` tag is kept when the tag before it is not `O` and has the same `-X`
   * ending, and otherwise begins a chunk, `B-X`.
   */
  function Iob2Value(ls: seq<Label>, i: nat): (r: string)
    requires i < |ls|
  {
    var v := ls[i].value;
    if v == "O" || Head(v) == "B" then v
    else if i > 0 && ls[i - 1].value != "O" && Drop1(ls[i - 1].value) == Drop1(v) then v
    else "B" + Drop1(v)
  }

  /** The tags after `iob2`: the tags before the first rejected one rewritten, the rest untouched. */
  function Iob2Result(ls: seq<Label>): (r: seq<Label>)
    ensures |r| == |ls|
  {
    var bad := FirstRejected(ls, 0);
    seq(|ls|, j requires 0 <= j < |ls| => if j < bad then ls[j].(value := Iob2Value(ls, j)) else ls[j])
  }

  /** A rewritten tag is `O` exactly when it was, and keeps everything after its first letter. */
  lemma Iob2ValueKeeps(ls: seq<Label>, i: nat)
    requires i < |ls|
    ensures Iob2Value(ls, i) == "O" <==> ls[i].value == "O"
    ensures Drop1(Iob2Value(ls, i)) == Drop1(ls[i].value)
  {
    var v := ls[i].value;
    if !(v == "O" || Head(v) == "B") {
      var w := "B" + Drop1(v);
      assert w[0] == 'B' && w[1..] == Drop1(v);
      assert Drop1(w) == Drop1(v);
    }
  }

  /**
   * `iob2(tags)`: rewrites the tags in place from IOB1 to IOB2 and answers whether
   * every tag was acceptable; at the first unacceptable tag it stops, keeping the
   * rewrites made so far. Scores are never touched.
   */
  method Iob2(tags: array<Label>) returns (valid: bool)
    modifies tags
    ensures valid <==> FirstRejected(old(tags[..]), 0) == tags.Length
    ensures tags[..] == Iob2Result(old(tags[..]))
  {
    ghost var orig := tags[..];
    ghost var bad := FirstRejected(orig, 0);
    var i := 0;
    while i < tags.Length
      invariant 0 <= i <= tags.Length && i <= bad
      invariant forall j {:trigger tags[j]} :: 0 <= j < i ==> tags[j] == orig[j].(value := Iob2Value(orig, j))
      invariant forall j {:trigger tags[j]} :: i <= j < tags.Length ==> tags[j] == orig[j]
    {
      var v := tags[i].value;
      if i > 0 {
        Iob2ValueKeeps(orig, i - 1);
      }
      if v != "O" {
        if !(Count(v, '-') == 1 && (Head(v) == "I" || Head(v) == "B")) {
          assert !Accepted(orig[i].value);
          assert tags[..] == Iob2Result(orig);
          return false;
        }
        if Head(v) != "B" {
          if i == 0 || tags[i - 1].value == "O" {
            tags[i] := tags[i].(value := "B" + Drop1(v));
          } else if Drop1(tags[i - 1].value) == Drop1(v) {
          } else {
            tags[i] := tags[i].(value := "B" + Drop1(v));
          }
        }
      }
      assert tags[i] == orig[i].(value := Iob2Value(orig, i));
      i := i + 1;
    }
    assert tags[..] == Iob2Result(orig);
    return true;
  }

  // ---------------------------------------------------------------------------
  // What iob2 produces
  // ---------------------------------------------------------------------------

  /** A well-formed IOB2 tag value: `O`, `B-X` or `I-X` with a dash-free type `X`. */
  predicate IsIob2Tag(v: string) {
    v == "O" || Shaped(v, 'B') || Shaped(v, 'I')
  }

  /**
   * A well-formed IOB2 tag sequence: every tag is well formed, and an `I-X` tag
   * continues a chunk: it is not first and follows a non-`O` tag of the same type `X`.
   */
  predicate IsIob2(ls: seq<Label>) {
    && (forall j :: 0 <= j < |ls| ==> IsIob2Tag(ls[j].value))
    && (forall j :: 0 <= j < |ls| && Shaped(ls[j].value, 'I') ==>
          j > 0 && ls[j - 1].value != "O" && Type(ls[j - 1].value) == Type(ls[j].value))
  }

  /** The tags `iob2` accepts are exactly the well-formed IOB2 tag values. */
  lemma AcceptedShaped(v: string)
    ensures Accepted(v) <==> IsIob2Tag(v)
  {
    SplitsAsShaped(v, 'I');
    SplitsAsShaped(v, 'B');
  }

  /** After its letter, a shaped tag is a dash and its type. */
  lemma ShapedDrop1(v: string, h: char)
    requires Shaped(v, h)
    ensures Drop1(v) == "-" + Type(v)
  {
    assert v[1..] == [v[1]] + v[2..];
  }

  /**
   * The rewrite of one well-formed tag: the result is well formed, of the same
   * type, `O` exactly when the tag was, and an `I-` result is the tag itself,
   * kept because the tag before it is a non-`O` tag with the same ending.
   */
  lemma Iob2ValueShape(ls: seq<Label>, j: nat)
    requires j < |ls| && IsIob2Tag(ls[j].value)
    ensures var w := Iob2Value(ls, j);
      && IsIob2Tag(w) && Type(w) == Type(ls[j].value)
      && (w == "O" <==> ls[j].value == "O")
      && (Shaped(w, 'I') ==> w == ls[j].value && j > 0 && ls[j - 1].value != "O" && Drop1(ls[j - 1].value) == Drop1(w))
  {
    var v := ls[j].value;
    if Shaped(v, 'B') {
      HeadOfShaped(v, 'B');
    } else if Shaped(v, 'I') {
      HeadOfShaped(v, 'I');
      Retag(v, 'I', 'B');
      assert "B" + Drop1(v) == ['B'] + Drop1(v);
    }
  }

  /** An `I-` tag in the rewrite of accepted tags continues a chunk of its own type. */
  lemma Iob2Continues(ls: seq<Label>, j: nat)
    requires j < |ls| && IsIob2Tag(ls[j].value) && Shaped(Iob2Value(ls, j), 'I')
    requires j > 0 ==> IsIob2Tag(ls[j - 1].value)
    ensures j > 0 && Iob2Value(ls, j - 1) != "O" && Type(Iob2Value(ls, j - 1)) == Type(Iob2Value(ls, j))
  {
    Iob2ValueShape(ls, j);
    var w := Iob2Value(ls, j);
    var p := ls[j - 1].value;
    Iob2ValueShape(ls, j - 1);
    var h := if Shaped(p, 'B') then 'B' else 'I';
    ShapedDrop1(p, h);
    ShapedDrop1(w, 'I');
    assert Type(p) == ("-" + Type(p))[1..];
    assert Type(w) == ("-" + Type(w))[1..];
  }

  /** When every tag is accepted, `iob2` leaves a well-formed IOB2 sequence. */
  lemma {:induction false} Iob2Valid(ls: seq<Label>)
    requires FirstRejected(ls, 0) == |ls|
    ensures IsIob2(Iob2Result(ls))
  {
    var r := Iob2Result(ls);
    forall j | 0 <= j < |ls|
      ensures IsIob2Tag(ls[j].value) && r[j].value == Iob2Value(ls, j)
    {
      AcceptedShaped(ls[j].value);
    }
    forall j | 0 <= j < |ls|
      ensures IsIob2Tag(r[j].value)
    {
      Iob2ValueShape(ls, j);
    }
    forall j | 0 <= j < |ls| && Shaped(r[j].value, 'I')
      ensures j > 0 && r[j - 1].value != "O" && Type(r[j - 1].value) == Type(r[j].value)
    {
      Iob2Continues(ls, j);
    }
  }

  /** A sequence that is already well-formed IOB2 is accepted and left as it is. */
  lemma {:induction false} Iob2Fixes(ls: seq<Label>)
    ensures IsIob2(ls) ==> FirstRejected(ls, 0) == |ls| && Iob2Result(ls) == ls
  {
    if IsIob2(ls) {
      forall j | 0 <= j < |ls|
        ensures Accepted(ls[j].value) && Iob2Value(ls, j) == ls[j].value
      {
        var v := ls[j].value;
        AcceptedShaped(v);
        if Shaped(v, 'B') {
          HeadOfShaped(v, 'B');
        } else if Shaped(v, 'I') {
          HeadOfShaped(v, 'I');
          var p := ls[j - 1].value;
          var h := if Shaped(p, 'B') then 'B' else 'I';
          ShapedDrop1(p, h);
          ShapedDrop1(v, 'I');
        }
      }
      assert Iob2Result(ls) == ls;
    }
  }

  /** `iob2` is idempotent on the inputs it accepts. */
  lemma {:induction false} Iob2Idempotent(ls: seq<Label>)
    requires FirstRejected(ls, 0) == |ls|
    ensures FirstRejected(Iob2Result(ls), 0) == |ls|
    ensures Iob2Result(Iob2Result(ls)) == Iob2Result(ls)
  {
    Iob2Valid(ls);
    Iob2Fixes(Iob2Result(ls));
  }

  /** `iob2` changes only tag letters: types, scores and the rejected tail stay as they were. */
  lemma {:induction false} Iob2KeepsTypes(ls: seq<Label>)
    ensures forall j :: 0 <= j < |ls| ==>
      Type(Iob2Result(ls)[j].value) == Type(ls[j].value) && Iob2Result(ls)[j].score == ls[j].score
    ensures forall j :: FirstRejected(ls, 0) <= j < |ls| ==> Iob2Result(ls)[j] == ls[j]
  {
    forall j | 0 <= j < FirstRejected(ls, 0)
      ensures Type(Iob2Result(ls)[j].value) == Type(ls[j].value)
    {
      AcceptedShaped(ls[j].value);
      Iob2ValueShape(ls, j);
    }
  }

  // ---------------------------------------------------------------------------
  // iob_iobes: IOB2 to IOBES, into a new list
  // ---------------------------------------------------------------------------

  /** A tag `iob_iobes` knows how to convert: `O`, or a tag whose prefix is `B` or `I`. */
  predicate Recognized(v: string) {
    v == "O" || Head(v) == "B" || Head(v) == "I"
  }

  /** The position of the first tag `iob_iobes` cannot convert, or the length when there is none. */
  function FirstUnrecognized(ls: seq<Label>, i: nat): (r: nat)
    requires i <= |ls|
    ensures i <= r <= |ls|
    ensures forall j :: i <= j < r ==> Recognized(ls[j].value)
    ensures r < |ls| ==> !Recognized(ls[r].value)
    decreases |ls| - i
  {
    if i == |ls| || !Recognized(ls[i].value) then i else FirstUnrecognized(ls, i + 1)
  }

  /** The tag after position `i` exists and has prefix `I`: the chunk goes on. */
  predicate NextIsI(ls: seq<Label>, i: nat) {
    i + 1 < |ls| && Head(ls[i + 1].value) == "I"
  }

  /**
   * The IOBES value of a tag `v` given whether the next tag has prefix `I`: `O` stays;
   * a `B`- or `I`-prefixed tag stays when the next tag has prefix `I`, and otherwise
   * has every `B-` turned into `S-` (respectively every `I-` into `E-`).
   */
  function IobesOf(v: string, nextIsI: bool): (r: string) {
    if v == "O" then v
    else if Head(v) == "B" then (if nextIsI then v else ReplaceAll(v, "B-", "S-"))
    else if nextIsI then v
    else ReplaceAll(v, "I-", "E-")
  }

  /** The IOBES value of the tag at position `i`. */
  function IobesValue(ls: seq<Label>, i: nat): (r: string)
    requires i < |ls|
  {
    IobesOf(ls[i].value, NextIsI(ls, i))
  }

  /** The result of `iob_iobes`: the converted values, or the error it raises on an unknown prefix. */
  function IobIobesResult(ls: seq<Label>): (r: Result<seq<string>>) {
    if FirstUnrecognized(ls, 0) < |ls| then Failure(FormatError("Invalid IOB format!"))
    else Success(seq(|ls|, j requires 0 <= j < |ls| => IobesValue(ls, j)))
  }

  /** `iob_iobes(tags)`: builds the list of IOBES values, leaving the tags untouched. */
  method IobIobes(tags: seq<Label>) returns (r: Result<seq<string>>)
    ensures r == IobIobesResult(tags)
  {
    var newTags: seq<string> := [];
    var i := 0;
    while i < |tags|
      invariant i <= FirstUnrecognized(tags, 0)
      invariant |newTags| == i
      invariant forall j :: 0 <= j < i ==> newTags[j] == IobesValue(tags, j)
    {
      var v := tags[i].value;
      var t;
      if v == "O" {
        t := v;
      } else if Head(v) == "B" {
        if i + 1 != |tags| && Head(tags[i + 1].value) == "I" {
          t := v;
        } else {
          t := ReplaceAll(v, "B-", "S-");
        }
      } else if Head(v) == "I" {
        if i + 1 < |tags| && Head(tags[i + 1].value) == "I" {
          t := v;
        } else {
          t := ReplaceAll(v, "I-", "E-");
        }
      } else {
        return Failure(FormatError("Invalid IOB format!"));
      }
      assert t == IobesValue(tags, i);
      newTags := newTags + [t];
      i := i + 1;
    }
    assert newTags == seq(|tags|, j requires 0 <= j < |tags| => IobesValue(tags, j));
    return Success(newTags);
  }

  /** `iob_iobes` raises exactly when some tag is neither `O` nor `B`- or `I`-prefixed. */
  lemma IobIobesFails(ls: seq<Label>)
    ensures IobIobesResult(ls).Failure? <==> exists j :: 0 <= j < |ls| && !Recognized(ls[j].value)
  {
    var k := FirstUnrecognized(ls, 0);
    if k < |ls| {
      assert !Recognized(ls[k].value);
    }
  }

  // ---------------------------------------------------------------------------
  // What iob_iobes produces
  // ---------------------------------------------------------------------------

  /** A well-formed IOBES tag value: `O` or `B-X`, `I-X`, `E-X`, `S-X` with a dash-free type `X`. */
  predicate IsIobesTag(v: string) {
    v == "O" || Shaped(v, 'B') || Shaped(v, 'I') || Shaped(v, 'E') || Shaped(v, 'S')
  }

  /** A tag after which the chunk must go on. */
  predicate Opens(v: string) {
    Shaped(v, 'B') || Shaped(v, 'I')
  }

  /** A tag that continues the chunk before it. */
  predicate Continues(v: string) {
    Shaped(v, 'I') || Shaped(v, 'E')
  }

  /**
   * A well-formed IOBES sequence: every tag is well formed, a `B`/`I` tag is followed
   * by an `I`/`E` tag of its type, and an `I`/`E` tag follows a `B`/`I` tag of its type.
   */
  predicate IsIobes(ts: seq<string>) {
    && (forall j :: 0 <= j < |ts| ==> IsIobesTag(ts[j]))
    && (forall j :: 0 <= j < |ts| && Opens(ts[j]) ==>
          j + 1 < |ts| && Continues(ts[j + 1]) && Type(ts[j + 1]) == Type(ts[j]))
    && (forall j :: 0 <= j < |ts| && Continues(ts[j]) ==>
          j > 0 && Opens(ts[j - 1]) && Type(ts[j - 1]) == Type(ts[j]))
  }

  /** Reading an IOBES tag back as IOB2: `S-X` is `B-X`, `E-X` is `I-X`, the rest is unchanged. */
  function FromIobes(v: string): (r: string) {
    if Shaped(v, 'S') then "B" + Drop1(v)
    else if Shaped(v, 'E') then "I" + Drop1(v)
    else v
  }

  /** Replacing the prefix letter of a shaped tag touches only that letter. */
  lemma {:induction false} ReplaceShaped(v: string, h: char, g: char)
    requires Shaped(v, h)
    ensures ReplaceAll(v, [h, '-'], [g, '-']) == [g, '-'] + Type(v)
  {
    assert v[..2] == [h, '-'];
    ReplaceAllAbsent(v[2..], [h, '-'], [g, '-'], '-');
  }

  /** The tag `g-X` built from a dash-free type `X` is shaped, with type `X`. */
  lemma MakeShaped(t: string, g: char)
    requires '-' !in t
    ensures Shaped([g, '-'] + t, g) && Type([g, '-'] + t) == t && Drop1([g, '-'] + t) == "-" + t
  {
    assert ([g, '-'] + t)[2..] == t;
    assert ([g, '-'] + t)[1..] == "-" + t;
  }

  /** Replacing `h-` by `g-` in a shaped tag `h-X` gives the shaped tag `g-X`. */
  lemma {:induction false} Reletter(v: string, h: char, g: char)
    requires Shaped(v, h)
    ensures var w := ReplaceAll(v, [h, '-'], [g, '-']);
      Shaped(w, g) && Type(w) == Type(v) && Drop1(w) == "-" + Type(v) && v == [h, '-'] + Type(v)
  {
    ReplaceShaped(v, h, g);
    MakeShaped(Type(v), g);
  }

  /** On well-formed IOB2 tags the prefix `split` test reads off the letter. */
  lemma HeadOfIob2Tag(v: string)
    requires IsIob2Tag(v)
    ensures Head(v) == "I" <==> Shaped(v, 'I')
    ensures Head(v) == "B" <==> Shaped(v, 'B')
  {
    if Shaped(v, 'I') {
      HeadOfShaped(v, 'I');
    } else if Shaped(v, 'B') {
      HeadOfShaped(v, 'B');
    } else {
      assert v == "O";
      assert Head(v) == "O";
    }
  }

  /**
   * The conversion of one well-formed IOB2 tag `v` of type `X`: `O` stays `O`;
   * `B-X` stays when the next tag has prefix `I` and is otherwise `S-X`;
   * `I-X` stays when the next tag has prefix `I` and is otherwise `E-X`.
   */
  lemma IobesOfShape(v: string, nextIsI: bool)
    requires IsIob2Tag(v)
    ensures var w := IobesOf(v, nextIsI);
      && (v == "O" ==> w == "O")
      && (Shaped(v, 'B') ==> w == (if nextIsI then v else "S-" + Type(v)))
      && (Shaped(v, 'I') ==> w == (if nextIsI then v else "E-" + Type(v)))
  {
    HeadOfIob2Tag(v);
    if Shaped(v, 'B') {
      ReplaceShaped(v, 'B', 'S');
    } else if Shaped(v, 'I') {
      ReplaceShaped(v, 'I', 'E');
    }
  }

  /** One converted tag: well formed, of the same type, and read back as the tag it came from. */
  lemma IobesOfFacts(v: string, nextIsI: bool)
    requires IsIob2Tag(v)
    ensures var w := IobesOf(v, nextIsI);
      && IsIobesTag(w) && Type(w) == Type(v) && FromIobes(w) == v
      && (Opens(w) <==> Opens(v) && nextIsI)
      && (Continues(w) <==> Shaped(v, 'I'))
  {
    HeadOfIob2Tag(v);
    if Shaped(v, 'B') && !nextIsI {
      Reletter(v, 'B', 'S');
      assert "B" + ("-" + Type(v)) == v;
    } else if Shaped(v, 'I') && !nextIsI {
      Reletter(v, 'I', 'E');
      assert "I" + ("-" + Type(v)) == v;
    }
  }

  /** On a well-formed IOB2 sequence `iob_iobes` succeeds, keeps the length, and keeps `O` as `O`. */
  lemma IobIobesSucceeds(ls: seq<Label>)
    requires IsIob2(ls)
    ensures IobIobesResult(ls).Success? && |IobIobesResult(ls).value| == |ls|
    ensures forall j :: 0 <= j < |ls| && ls[j].value == "O" ==> IobIobesResult(ls).value[j] == "O"
  {
    forall j | 0 <= j < |ls|
      ensures Recognized(ls[j].value)
    {
      HeadOfIob2Tag(ls[j].value);
    }
  }

  /** A well-formed IOB2 sequence becomes a well-formed IOBES sequence. */
  lemma IobIobesValid(ls: seq<Label>)
    requires IsIob2(ls)
    ensures IobIobesResult(ls).Success? && IsIobes(IobIobesResult(ls).value)
  {
    IobIobesSucceeds(ls);
    var ts := IobIobesResult(ls).value;
    forall j | 0 <= j < |ls|
      ensures IsIobesTag(ts[j])
    {
      IobesOfFacts(ls[j].value, NextIsI(ls, j));
    }
    forall j | 0 <= j < |ts| && Opens(ts[j])
      ensures j + 1 < |ts| && Continues(ts[j + 1]) && Type(ts[j + 1]) == Type(ts[j])
    {
      IobesOpens(ls, j);
    }
    forall j | 0 <= j < |ts| && Continues(ts[j])
      ensures j > 0 && Opens(ts[j - 1]) && Type(ts[j - 1]) == Type(ts[j])
    {
      IobesContinues(ls, j);
    }
  }

  /** In the conversion of a well-formed IOB2 sequence, a `B`/`I` tag is followed by an `I`/`E` tag of its type. */
  lemma IobesOpens(ls: seq<Label>, j: nat)
    requires IsIob2(ls) && j < |ls| && Opens(IobesValue(ls, j))
    ensures j + 1 < |ls| && Continues(IobesValue(ls, j + 1))
    ensures Type(IobesValue(ls, j + 1)) == Type(IobesValue(ls, j))
  {
    IobesOfFacts(ls[j].value, NextIsI(ls, j));
    HeadOfIob2Tag(ls[j + 1].value);
    IobesOfFacts(ls[j + 1].value, NextIsI(ls, j + 1));
  }

  /** In the conversion of a well-formed IOB2 sequence, an `I`/`E` tag follows a `B`/`I` tag of its type. */
  lemma IobesContinues(ls: seq<Label>, j: nat)
    requires IsIob2(ls) && j < |ls| && Continues(IobesValue(ls, j))
    ensures j > 0 && Opens(IobesValue(ls, j - 1))
    ensures Type(IobesValue(ls, j - 1)) == Type(IobesValue(ls, j))
  {
    IobesOfFacts(ls[j].value, NextIsI(ls, j));
    HeadOfIob2Tag(ls[j].value);
    IobesOfFacts(ls[j - 1].value, NextIsI(ls, j - 1));
  }

  /** Reading the IOBES tags back gives the IOB2 values that went in. */
  lemma IobIobesRoundTrip(ls: seq<Label>)
    requires IsIob2(ls)
    ensures IobIobesResult(ls).Success?
    ensures forall j :: 0 <= j < |ls| ==> FromIobes(IobIobesResult(ls).value[j]) == ls[j].value
  {
    IobIobesSucceeds(ls);
    forall j | 0 <= j < |ls|
      ensures FromIobes(IobIobesResult(ls).value[j]) == ls[j].value
    {
      IobesOfFacts(ls[j].value, NextIsI(ls, j));
    }
  }

  /** Tags `iob2` accepts in full are converted to IOBES without error after `iob2`. */
  lemma {:induction false} Iob2ThenIobes(ls: seq<Label>)
    requires FirstRejected(ls, 0) == |ls|
    ensures IobIobesResult(Iob2Result(ls)).Success?
    ensures IsIobes(IobIobesResult(Iob2Result(ls)).value)
  {
    Iob2Valid(ls);
    IobIobesValid(Iob2Result(ls));
  }

  // ---------------------------------------------------------------------------
  // Examples
  // ---------------------------------------------------------------------------

  /** IOB1 chunks are given their `B-` tag: `I-PER I-PER O I-LOC` becomes `B-PER I-PER O B-LOC`. */
  lemma ExampleIob2()
    ensures var ls := [Label("I-PER", 1.0), Label("I-PER", 1.0), Label("O", 1.0), Label("I-LOC", 1.0)];
      FirstRejected(ls, 0) == 4 &&
      Iob2Result(ls) == [Label("B-PER", 1.0), Label("I-PER", 1.0), Label("O", 1.0), Label("B-LOC", 1.0)]
  {
    var ls := [Label("I-PER", 1.0), Label("I-PER", 1.0), Label("O", 1.0), Label("I-LOC", 1.0)];
    assert Head("I-PER") == "I" && Count("I-PER", '-') == 1;
    assert Head("I-LOC") == "I" && Count("I-LOC", '-') == 1;
    assert Iob2Value(ls, 0) == "B-PER";
    assert Iob2Value(ls, 1) == "I-PER";
    assert Iob2Value(ls, 3) == "B-LOC";
  }

  /** A tag with two dashes stops `iob2` at once, leaving the tags before it rewritten. */
  lemma ExampleIob2Rejects()
    ensures var ls := [Label("I-PER", 1.0), Label("B-X-Y", 1.0), Label("I-LOC", 1.0)];
      FirstRejected(ls, 0) == 1 &&
      Iob2Result(ls) == [Label("B-PER", 1.0), Label("B-X-Y", 1.0), Label("I-LOC", 1.0)]
  {
    var ls := [Label("I-PER", 1.0), Label("B-X-Y", 1.0), Label("I-LOC", 1.0)];
    assert Head("I-PER") == "I" && Count("I-PER", '-') == 1;
    assert Count("B-X-Y", '-') == 2;
    assert Iob2Value(ls, 0) == "B-PER";
  }

  /** The converted values of `B-PER I-PER B-LOC`, one position at a time. */
  lemma {:induction false} ExampleIobesValues(ls: seq<Label>)
    requires ls == [Label("B-PER", 1.0), Label("I-PER", 1.0), Label("B-LOC", 1.0)]
    ensures FirstUnrecognized(ls, 0) == 3
    ensures IobesValue(ls, 0) == "B-PER" && IobesValue(ls, 1) == "E-PER" && IobesValue(ls, 2) == "S-LOC"
  {
    HeadOfShaped("B-PER", 'B');
    HeadOfShaped("I-PER", 'I');
    HeadOfShaped("B-LOC", 'B');
    ReplaceShaped("I-PER", 'I', 'E');
    ReplaceShaped("B-LOC", 'B', 'S');
  }

  /** `B-PER I-PER B-LOC` becomes `B-PER E-PER S-LOC`. */
  lemma ExampleIobes()
    ensures var ls := [Label("B-PER", 1.0), Label("I-PER", 1.0), Label("B-LOC", 1.0)];
      IobIobesResult(ls) == Success(["B-PER", "E-PER", "S-LOC"])
  {
    var ls := [Label("B-PER", 1.0), Label("I-PER", 1.0), Label("B-LOC", 1.0)];
    ExampleIobesValues(ls);
    assert seq(3, j requires 0 <= j < 3 => IobesValue(ls, j)) == ["B-PER", "E-PER", "S-LOC"];
  }

  /** Only the prefix of the next tag is looked at: `B-PER I-LOC` keeps `B-PER`. */
  lemma ExampleIobesNextPrefixOnly()
    ensures IobIobesResult([Label("B-PER", 1.0), Label("I-LOC", 1.0)]) == Success(["B-PER", "E-LOC"])
  {
    var ls := [Label("B-PER", 1.0), Label("I-LOC", 1.0)];
    assert Head("B-PER") == "B" && Head("I-LOC") == "I";
    assert FirstUnrecognized(ls, 0) == 2;
    ReplaceShaped("I-LOC", 'I', 'E');
    assert IobesValue(ls, 0) == "B-PER";
    assert IobesValue(ls, 1) == "E-LOC";
    assert seq(2, j requires 0 <= j < 2 => IobesValue(ls, j)) == ["B-PER", "E-LOC"];
  }

  /** An `E-` prefix in the input raises. */
  lemma ExampleIobesRaises()
    ensures IobIobesResult([Label("E-PER", 1.0)]) == Failure(FormatError("Invalid IOB format!"))
  {
    assert Head("E-PER") == "E";
  }
}
