/**
 * The tagged corpus and the two dictionaries built from it: the tag dictionary (every
 * token tag of one type, over all splits) and the label dictionary (every sentence
 * label of the training split).
 */
module Corpora {
  import opened Tokens
  import opened Sentences
  import opened Dictionaries

  /** The values of `get_tag(tag_type)` over a token list, in token order. */
  function TagValues(ts: seq<Token>, tagType: string): (r: seq<string>)
    reads ts
    ensures |r| == |ts| && forall i :: 0 <= i < |ts| ==> r[i] == ts[i].GetTag(tagType).value
  {
    seq(|ts|, i requires 0 <= i < |ts| reads ts => ts[i].GetTag(tagType).value)
  }

  /** The token list of each sentence, as `sentence.tokens` reads it. */
  function TokenLists(sentences: seq<Sentence>): (r: seq<seq<Token>>)
    reads sentences
    ensures |r| == |sentences| && forall j :: 0 <= j < |sentences| ==> r[j] == sentences[j].tokens
  {
    seq(|sentences|, j requires 0 <= j < |sentences| reads sentences => sentences[j].tokens)
  }

  /** The lists one after the other. */
  function Flatten<T>(lists: seq<seq<T>>): (r: seq<T>) {
    if lists == [] then [] else Flatten(lists[..|lists| - 1]) + lists[|lists| - 1]
  }

  /** Every token of every sentence, sentence after sentence. */
  function CorpusTokens(sentences: seq<Sentence>): (r: seq<Token>)
    reads sentences
  {
    Flatten(TokenLists(sentences))
  }

  /** Reading the tags of two token lists one after the other. */
  lemma TagValuesConcat(a: seq<Token>, b: seq<Token>, tagType: string)
    ensures TagValues(a + b, tagType) == TagValues(a, tagType) + TagValues(b, tagType)
  {
  }

  /** Reading the tags of the concatenated lists is concatenating the tags read from each. */
  lemma {:induction false} TagValuesFlatten(lists: seq<seq<Token>>, tagLists: seq<seq<string>>, tagType: string)
    requires |tagLists| == |lists|
    requires forall j :: 0 <= j < |lists| ==> tagLists[j] == TagValues(lists[j], tagType)
    ensures TagValues(Flatten(lists), tagType) == Flatten(tagLists)
    decreases |lists|
  {
    if lists != [] {
      var n := |lists| - 1;
      TagValuesFlatten(lists[..n], tagLists[..n], tagType);
      TagValuesConcat(Flatten(lists[..n]), lists[n], tagType);
    }
  }

  /** Every element of every list is in their concatenation. */
  lemma {:induction false} FlattenHas<T>(lists: seq<seq<T>>, j: nat, k: nat)
    requires j < |lists| && k < |lists[j]|
    ensures lists[j][k] in Flatten(lists)
    decreases |lists|
  {
    if j < |lists| - 1 {
      FlattenHas(lists[..|lists| - 1], j, k);
    }
  }

  /** The tag of every token of every sentence is among the corpus tags. */
  lemma CorpusTagListed(sentences: seq<Sentence>, tagType: string, j: nat, k: nat)
    requires j < |sentences| && k < |sentences[j].tokens|
    ensures sentences[j].tokens[k].GetTag(tagType).value in TagValues(CorpusTokens(sentences), tagType)
  {
    var lists := TokenLists(sentences);
    FlattenHas(lists, j, k);
    var i :| 0 <= i < |Flatten(lists)| && Flatten(lists)[i] == lists[j][k];
  }

  /** Interning one more list extends the fold over the earlier lists. */
  lemma FlattenStep(items: seq<string>, lists: seq<seq<string>>, i: nat)
    requires i < |lists|
    ensures AddedAll(items, Flatten(lists[..i + 1])) == AddedAll(AddedAll(items, Flatten(lists[..i])), lists[i])
  {
    assert lists[..i + 1][..i] == lists[..i];
    AddedAllConcat(items, Flatten(lists[..i]), lists[i]);
  }

  /** The values of the sentence labels of every sentence, sentence after sentence. */
  function LabelNamesOf(sentences: seq<Sentence>): (r: seq<string>)
    reads sentences
    ensures forall s, i :: s in sentences && 0 <= i < |s.labels| ==> s.labels[i].value in r
  {
    if sentences == [] then []
    else LabelNamesOf(sentences[..|sentences| - 1]) + sentences[|sentences| - 1].LabelNames()
  }

  /**
   * The tag dictionary's layout: `<unk>` has id 0 and `O` id 1, the corpus tags follow
   * in the order they are first seen, and `<START>` and `<STOP>` come after all of
   * them; every tag is listed exactly once and nothing else is listed.
   */
  lemma TagLayout(tags: seq<string>)
    ensures var r := AddedAll([Unk, "O"], tags + ["<START>", "<STOP>"]);
      && |r| >= 2 && r[0] == Unk && r[1] == "O"
      && AddedAll([Unk, "O"], tags) <= r
      && Unique(r)
      && forall y :: y in r <==> y in tags || y in [Unk, "O", "<START>", "<STOP>"]
  {
    var stops := ["<START>", "<STOP>"];
    AddedAllConcat([Unk, "O"], tags, stops);
    AddedAllSpec([Unk, "O"], tags);
    AddedAllSpec(AddedAll([Unk, "O"], tags), stops);
    AddedAllSpec([Unk, "O"], tags + stops);
  }

  /** `TaggedCorpus`: the three splits, held as lists. */
  class TaggedCorpus {
    var train: seq<Sentence>
    var dev: seq<Sentence>
    var test: seq<Sentence>

    /** `TaggedCorpus(train, dev, test)`. */
    constructor (train: seq<Sentence>, dev: seq<Sentence>, test: seq<Sentence>)
      ensures this.train == train && this.dev == dev && this.test == test
    {
      this.train := train;
      this.dev := dev;
      this.test := test;
    }

    /** `get_all_sentences()`: the training, then the development, then the test sentences. */
    function AllSentences(): (r: seq<Sentence>)
      reads this
      ensures |r| == |train| + |dev| + |test|
      ensures r[..|train|] == train && r[|train|..|train| + |dev|] == dev && r[|train| + |dev|..] == test
    {
      train + dev + test
    }

    /**
     * `make_tag_dictionary(tag_type)`: a fresh dictionary holding `<unk>` and `O`, then
     * the tag of every token of every sentence in corpus order, then `<START>` and
     * `<STOP>`, each interned once (`TagLayout` gives the resulting ids).
     */
    method MakeTagDictionary(tagType: string) returns (d: Dictionary)
      ensures fresh(d) && d.Valid()
      ensures d.idx2item == AddedAll([Unk, "O"], old(TagValues(CorpusTokens(AllSentences()), tagType)) + ["<START>", "<STOP>"])
    {
      var sentences := AllSentences();
      ghost var tags := TagValues(CorpusTokens(sentences), tagType);
      d := NewTagDictionary();
      AddCorpusTags(d, sentences, tagType, tags);
      AddBoundaryTags(d);
      AddedAllConcat([Unk, "O"], tags, ["<START>", "<STOP>"]);
    }

    /** The start of `make_tag_dictionary`: a dictionary with `<unk>`, then `O` interned. */
    static method NewTagDictionary() returns (d: Dictionary)
      ensures fresh(d) && d.Valid() && d.idx2item == [Unk, "O"]
    {
      d := new Dictionary(true);
      var _ := d.AddItem("O");
    }

    /** The end of `make_tag_dictionary`: interns `<START>` and then `<STOP>`. */
    static method AddBoundaryTags(d: Dictionary)
      requires d.Valid()
      modifies d
      ensures d.Valid()
      ensures d.idx2item == AddedAll(old(d.idx2item), ["<START>", "<STOP>"])
    {
      var _ := d.AddItem("<START>");
      var _ := d.AddItem("<STOP>");
      assert ["<START>", "<STOP>"][..1] == ["<START>"];
    }

    /** The sentence loop of `make_tag_dictionary`: interns the tags of each sentence in turn. */
    static method AddCorpusTags(d: Dictionary, sentences: seq<Sentence>, tagType: string, ghost tags: seq<string>)
      requires d.Valid() && tags == TagValues(CorpusTokens(sentences), tagType)
      modifies d
      ensures d.Valid()
      ensures d.idx2item == AddedAll(old(d.idx2item), tags)
    {
      ghost var lists := TokenLists(sentences);
      ghost var tagLists :=
        seq(|lists|, j requires 0 <= j < |lists| reads if 0 <= j < |lists| then lists[j] else [] => TagValues(lists[j], tagType));
      TagValuesFlatten(lists, tagLists, tagType);
      var i := 0;
      while i < |sentences|
        invariant i <= |sentences| == |tagLists| && d.Valid()
        invariant d.idx2item == AddedAll(old(d.idx2item), Flatten(tagLists[..i]))
      {
        FlattenStep(old(d.idx2item), tagLists, i);
        AddTags(d, sentences[i].tokens, tagType, tagLists[i]);
        i := i + 1;
      }
      assert tagLists[..i] == tagLists;
    }

    /** The token loop of `make_tag_dictionary`: interns the tag of each token in turn. */
    static method AddTags(d: Dictionary, ts: seq<Token>, tagType: string, ghost tags: seq<string>)
      requires d.Valid() && tags == TagValues(ts, tagType)
      modifies d
      ensures d.Valid()
      ensures d.idx2item == AddedAll(old(d.idx2item), tags)
    {
      var i := 0;
      while i < |ts|
        invariant i <= |ts| && d.Valid()
        invariant d.idx2item == AddedAll(old(d.idx2item), tags[..i])
      {
        var tag := ts[i].GetTag(tagType).value;
        AddedAllSnoc(old(d.idx2item), tags, i);
        var _ := d.AddItem(tag);
        i := i + 1;
      }
      assert tags[..i] == tags;
    }

    /**
     * `make_label_dictionary()`: a fresh dictionary without `<unk>` holding each label
     * value of the training sentences exactly once. The source interns them in the
     * iteration order of a Python set, so the ids are fixed only as a bijection.
     */
    method MakeLabelDictionary() returns (d: Dictionary)
      ensures fresh(d) && d.Valid()
      ensures Unique(d.idx2item)
      ensures forall y :: y in d.idx2item <==> y in LabelNamesOf(train)
    {
      var labels := set y | y in LabelNamesOf(train);
      d := new Dictionary(false);
      var remaining := labels;
      while remaining != {}
        invariant d.Valid() && Unique(d.idx2item) && remaining <= labels
        invariant forall y :: y in d.idx2item <==> y in labels && y !in remaining
        decreases remaining
      {
        var name :| name in remaining;
        var _ := d.AddItem(name);
        remaining := remaining - {name};
      }
    }
  }
}
