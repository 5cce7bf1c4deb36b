/**
 * The string interner that maps items (tags, labels, characters) to dense ids and back.
 * The source stores the UTF-8 encoding of each item; encoding is injective, so the
 * model stores the strings themselves.
 */
module Dictionaries {
  import opened Results

  /** The item `Dictionary(add_unk=True)` puts at id 0. */
  const Unk: string := "<unk>"

  /** The item list after interning `x`: unchanged when `x` is listed, `x` appended otherwise. */
  function Added(items: seq<string>, x: string): (r: seq<string>)
    ensures x in r && forall y :: y in r <==> y in items || y == x
  {
    if x in items then items else items + [x]
  }

  /** The item list after interning each of `xs` in turn: a fold of `add_item`. */
  function AddedAll(items: seq<string>, xs: seq<string>): (r: seq<string>)
    decreases |xs|
  {
    if xs == [] then items else Added(AddedAll(items, xs[..|xs| - 1]), xs[|xs| - 1])
  }

  /** No item is listed twice. */
  predicate Unique(items: seq<string>) {
    forall i, j :: 0 <= i < j < |items| ==> items[i] != items[j]
  }

  /**
   * Interning keeps what was listed, in place, and adds exactly the new items, each
   * once: the list holds the old items and the `xs`, without repetition.
   */
  lemma {:induction false} AddedAllSpec(items: seq<string>, xs: seq<string>)
    requires Unique(items)
    ensures var r := AddedAll(items, xs);
      && Unique(r) && items <= r
      && forall y :: y in r <==> y in items || y in xs
    decreases |xs|
  {
    if xs != [] {
      var init, x := xs[..|xs| - 1], xs[|xs| - 1];
      AddedAllSpec(items, init);
      assert xs == init + [x];
    }
  }

  /** Interning the items up to `i` and then item `i` is interning the items up to `i + 1`. */
  lemma AddedAllSnoc(items: seq<string>, xs: seq<string>, i: nat)
    requires i < |xs|
    ensures AddedAll(items, xs[..i + 1]) == Added(AddedAll(items, xs[..i]), xs[i])
  {
    assert xs[..i + 1][..i] == xs[..i];
  }

  /** Interning `a` and then `b` is interning `a + b`. */
  lemma {:induction false} AddedAllConcat(items: seq<string>, a: seq<string>, b: seq<string>)
    ensures AddedAll(items, a + b) == AddedAll(AddedAll(items, a), b)
    decreases |b|
  {
    if b == [] {
      assert a + b == a;
    } else {
      AddedAllConcat(items, a, b[..|b| - 1]);
      assert (a + b)[..|a + b| - 1] == a + b[..|b| - 1];
    }
  }

  class Dictionary {
    /** The items in id order. */
    var idx2item: seq<string>
    /** The id of every item. */
    var item2idx: map<string, nat>

    /**
     * The interner invariant: the list and the map are mutual inverses, so ids are
     * dense (exactly 0 .. n-1), every listed item is mapped to its position, and no
     * item is listed twice.
     */
    ghost predicate Valid()
      reads this
    {
      && (forall i :: 0 <= i < |idx2item| ==> idx2item[i] in item2idx && item2idx[idx2item[i]] == i)
      && (forall x :: x in item2idx ==> item2idx[x] < |idx2item| && idx2item[item2idx[x]] == x)
      && |item2idx| == |idx2item|
    }

    /** `Dictionary(add_unk)`: empty, or holding `<unk>` at id 0. */
    constructor (addUnk: bool)
      ensures Valid()
      ensures idx2item == (if addUnk then [Unk] else [])
      ensures item2idx == (if addUnk then map[Unk := 0] else map[])
    {
      idx2item := [];
      item2idx := map[];
      new;
      if addUnk {
        var _ := AddItem(Unk);
      }
    }

    /**
     * `add_item(item)`: the id of `item`, interning it first when it is new. A known
     * item leaves the dictionary as it was; a new one is appended and gets the next id.
     */
    method AddItem(item: string) returns (id: nat)
      requires Valid()
      modifies this
      ensures Valid()
      ensures item in old(item2idx) ==> id == old(item2idx)[item] && idx2item == old(idx2item) && item2idx == old(item2idx)
      ensures item !in old(item2idx) ==>
        && id == |old(idx2item)|
        && idx2item == old(idx2item) + [item]
        && item2idx == old(item2idx)[item := id]
      ensures id < |idx2item| && idx2item[id] == item && item2idx[item] == id
      ensures idx2item == Added(old(idx2item), item)
    {
      if item !in item2idx {
        idx2item := idx2item + [item];
        item2idx := item2idx[item := |idx2item| - 1];
      }
      id := item2idx[item];
    }

    /** `get_idx_for_item(item)`: the id of a known item, and 0 for an unknown one. */
    function GetIdxForItem(item: string): (r: nat)
      reads this
      requires Valid()
      ensures item in item2idx <==> item in idx2item
      ensures item in idx2item ==> r < |idx2item| && idx2item[r] == item
      ensures item !in idx2item ==> r == 0
    {
      if item in item2idx then item2idx[item] else 0
    }

    /**
     * `get_item_for_index(idx)`: Python list indexing, so `-n <= idx < 0` counts from
     * the end; any other index outside the list raises `IndexError`.
     */
    function GetItemForIndex(idx: int): (r: Result<string>)
      reads this
      requires Valid()
      ensures r.Success? <==> -|idx2item| <= idx < |idx2item|
      ensures r.Failure? ==> r.error == IndexError
      ensures r.Success? ==> r.value in item2idx
      ensures r.Success? ==> item2idx[r.value] == (if idx < 0 then idx + |idx2item| else idx)
    {
      if 0 <= idx < |idx2item| then Success(idx2item[idx])
      else if -|idx2item| <= idx < 0 then Success(idx2item[idx + |idx2item|])
      else Failure(IndexError)
    }

    /** `len(dictionary)`: the number of interned items, which is also the next id. */
    function Len(): (r: nat)
      reads this
      requires Valid()
      ensures r == |item2idx|
      ensures forall x :: x in item2idx ==> item2idx[x] < r
    {
      |idx2item|
    }

    /** `get_items()`: the items in id order, collected one by one. */
    method GetItems() returns (items: seq<string>)
      requires Valid()
      ensures items == idx2item
      ensures |items| == |item2idx|
      ensures forall i :: 0 <= i < |items| ==> items[i] in item2idx && item2idx[items[i]] == i
    {
      items := [];
      var i := 0;
      while i < |idx2item|
        invariant 0 <= i <= |idx2item|
        invariant items == idx2item[..i]
      {
        items := items + [idx2item[i]];
        i := i + 1;
      }
    }
  }
}
