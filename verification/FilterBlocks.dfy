/** Filter blocks: one filter for the keys of the data blocks that start in each 2 KiB of the file. */
module FilterBlocks {
  import opened InternalKeys
  import opened Coding
  import opened BlockFormat
  import opened Bloom

  const BASE_LG: Byte := 11
  const BASE: nat := 2048

  lemma BaseIs()
    ensures PowerOfTwo(BASE_LG) == BASE
  {
    assert PowerOfTwo(5) == 32;
    assert PowerOfTwo(11) == 64 * PowerOfTwo(5);
  }

  /** Where the filter after the i-th begins. */
  function EndOf(offsets: seq<nat>, size: nat, i: nat): nat
    requires i < |offsets|
  {
    if i + 1 < |offsets| then offsets[i + 1] else size
  }

  /** The i-th filter is that of the i-th list of keys; no keys, no filter. */
  ghost predicate FilterHolds(policy: BloomFilterPolicy, result: Bytes, offsets: seq<nat>, keys: seq<Bytes>, i: nat)
    requires i < |offsets|
  {
    && offsets[i] <= EndOf(offsets, |result|, i) <= |result|
    && var filter := result[offsets[i]..EndOf(offsets, |result|, i)];
       if keys == [] then filter == [] else policy.IsFilterOf(filter, keys)
  }

  ghost predicate FiltersHold(policy: BloomFilterPolicy, result: Bytes, offsets: seq<nat>, lists: seq<seq<Bytes>>) {
    && |offsets| == |lists|
    && (forall i :: 0 <= i < |offsets| ==> FilterHolds(policy, result, offsets, lists[i], i))
  }

  lemma OneMoreFilter(policy: BloomFilterPolicy, result: Bytes, offsets: seq<nat>, lists: seq<seq<Bytes>>,
      filter: Bytes, keys: seq<Bytes>)
    requires FiltersHold(policy, result, offsets, lists)
    requires if keys == [] then filter == [] else policy.IsFilterOf(filter, keys)
    ensures FiltersHold(policy, result + filter, offsets + [|result|], lists + [keys])
  {
    hide BloomFilterPolicy.IsFilterOf;
    var result', offsets', lists' := result + filter, offsets + [|result|], lists + [keys];
    forall i | 0 <= i < |offsets'|
      ensures FilterHolds(policy, result', offsets', lists'[i], i)
    {
      if i < |offsets| {
        assert FilterHolds(policy, result, offsets, lists[i], i);
        assert EndOf(offsets', |result'|, i) == EndOf(offsets, |result|, i);
        assert result'[offsets'[i]..EndOf(offsets', |result'|, i)] == result[offsets[i]..EndOf(offsets, |result|, i)];
        assert lists'[i] == lists[i];
      } else {
        assert result'[offsets'[i]..EndOf(offsets', |result'|, i)] == filter;
        assert lists'[i] == keys;
      }
    }
  }

  /** The finished block: the filters, where each starts, where that array starts, and the shift. */
  ghost predicate IsFilterBlock(contents: Bytes, result: Bytes, offsets: seq<Word>) {
    |result| < TWO_32 && contents == result + Words(offsets) + Fixed32(|result|) + [BASE_LG]
  }

  class FilterBlockBuilder {
    const policy: BloomFilterPolicy
    var pending: seq<Bytes>
    var offsets: seq<nat>
    var result: Bytes
    /** The keys of each filter generated so far. */
    ghost var lists: seq<seq<Bytes>>

    ghost predicate Valid()
      reads this
    {
      policy.Valid() && FiltersHold(policy, result, offsets, lists)
    }

    /** The key is in the i-th filter, or will be. */
    ghost predicate Covered(i: nat, key: Bytes)
      reads this
    {
      (i < |lists| && key in lists[i]) || (i == |lists| && key in pending)
    }

    constructor (policy: BloomFilterPolicy)
      requires policy.Valid()
      ensures Valid() && this.policy == policy && offsets == [] && lists == [] && pending == []
    {
      this.policy := policy;
      pending, offsets, result, lists := [], [], [], [];
    }

    method GenerateFilter()
      requires Valid()
      modifies this
      ensures Valid() && |offsets| == old(|offsets|) + 1 && pending == []
      ensures lists == old(lists) + [old(pending)]
    {
      hide FiltersHold;
      OneMoreFilter(policy, result, offsets, lists, [], []);
      if pending == [] {
        assert result + [] == result;
        offsets := offsets + [|result|];
        lists := lists + [[]];
      } else {
        var filter := policy.CreateFilter(pending);
        OneMoreFilter(policy, result, offsets, lists, filter, pending);
        offsets := offsets + [|result|];
        result := result + filter;
        lists := lists + [pending];
        pending := [];
      }
    }

    method StartBlock(blockOffset: nat)
      requires Valid() && blockOffset / BASE >= |offsets|
      modifies this
      ensures Valid() && |offsets| == |lists| == blockOffset / BASE
      ensures forall i, key :: old(Covered(i, key)) ==> Covered(i, key)
    {
      var filterIndex := blockOffset / BASE;
      SizesAgree();
      hide FiltersHold;
      while filterIndex > |offsets|
        invariant Valid() && |offsets| == |lists| && filterIndex >= |offsets|
        invariant forall i, key :: old(Covered(i, key)) ==> Covered(i, key)
        decreases filterIndex - |offsets|
      {
        GenerateFilter();
        SizesAgree();
      }
    }

    lemma SizesAgree()
      requires Valid()
      ensures |offsets| == |lists|
    {
    }

    method AddKey(key: Bytes)
      requires Valid()
      modifies this
      ensures Valid() && offsets == old(offsets) && lists == old(lists) && pending == old(pending) + [key]
      ensures Covered(|lists|, key)
      ensures forall i, k :: old(Covered(i, k)) ==> Covered(i, k)
    {
      pending := pending + [key];
    }

    /** Offsets are written as 32-bit words; a block that needs more is outside the format. */
    method Finish() returns (contents: Bytes)
      requires Valid()
      modifies this
      ensures Valid() && contents == result + Words(WordsOf(offsets)) + Fixed32(|result| % TWO_32) + [BASE_LG]
      ensures forall i: nat, key :: old(Covered(i, key)) ==> i < |lists| && key in lists[i]
      ensures lists == old(lists) + if old(pending) == [] then [] else [old(pending)]
    {
      SizesAgree();
      hide FiltersHold;
      if pending != [] {
        GenerateFilter();
      }
      contents := WithOffsets(result, offsets);
      contents := contents + Fixed32(|result| % TWO_32);
      contents := contents + [BASE_LG];
    }
  }

  method WithOffsets(result: Bytes, offsets: seq<nat>) returns (contents: Bytes)
    ensures contents == result + Words(WordsOf(offsets))
  {
    contents := result;
    assert WordsOf(offsets[..0]) == [];
    for i := 0 to |offsets|
      invariant contents == result + Words(WordsOf(offsets[..i]))
    {
      WordsOfNext(offsets, i);
      contents := contents + Fixed32(offsets[i] % TWO_32);
    }
    assert offsets[..|offsets|] == offsets;
  }

  function WordsOf(ns: seq<nat>): (ws: seq<Word>)
    ensures |ws| == |ns| && forall i :: 0 <= i < |ns| ==> ws[i] == ns[i] % TWO_32
  {
    seq(|ns|, i requires 0 <= i < |ns| => ns[i] % TWO_32)
  }

  lemma WordsOfNext(ns: seq<nat>, i: nat)
    requires i < |ns|
    ensures Words(WordsOf(ns[..i + 1])) == Words(WordsOf(ns[..i])) + Fixed32(ns[i] % TWO_32)
  {
    hide Fixed32;
    var ws := WordsOf(ns[..i + 1]);
    assert ws[..i] == WordsOf(ns[..i]);
  }

  lemma {:induction false} WordsUnchanged(policy: BloomFilterPolicy, result: Bytes, offsets: seq<nat>,
      lists: seq<seq<Bytes>>)
    requires FiltersHold(policy, result, offsets, lists) && |result| < TWO_32
    ensures WordsOf(offsets) == offsets
  {
    forall i | 0 <= i < |offsets|
      ensures offsets[i] % TWO_32 == offsets[i]
    {
      assert FilterHolds(policy, result, offsets, lists[i], i);
    }
  }

  // ------------------------------------------------------------------ the reader

  lemma BlockParts(contents: Bytes, result: Bytes, offsets: seq<Word>)
    requires IsFilterBlock(contents, result, offsets)
    ensures var n := |contents|;
            && n >= 5 && contents[n - 1] == BASE_LG && DecodeFixed32(contents[n - 5..n - 1]) == |result|
            && |result| + 4 * |offsets| + 5 == n && contents[..|result|] == result
    ensures forall i :: 0 <= i < |offsets| ==> WordAtIs(contents, |result| + 4 * i, offsets[i])
    ensures WordAtIs(contents, |result| + 4 * |offsets|, |result|)
  {
    hide Fixed32, DecodeFixed32, Words;
    var n := |contents|;
    Fixed32RoundTrip(|result|);
    assert contents[n - 5..n - 1] == Fixed32(|result|);
    forall i | 0 <= i < |offsets|
      ensures WordAtIs(contents, |result| + 4 * i, offsets[i])
    {
      WordAt(offsets, i);
      Fixed32RoundTrip(offsets[i]);
      assert contents[|result| + 4 * i..|result| + 4 * i + 4] == Words(offsets)[4 * i..4 * i + 4];
    }
  }

  ghost predicate WordAtIs(contents: Bytes, at: nat, value: nat) {
    at + 4 <= |contents| && DecodeFixed32(contents[at..at + 4]) == value
  }

  class FilterBlockReader {
    const policy: BloomFilterPolicy
    const contents: Bytes
    const num: nat
    const offset: nat
    const baseLg: nat

    /** A block too short, or whose array would start beyond it, holds no filters. */
    constructor (policy: BloomFilterPolicy, contents: Bytes)
      requires policy.Valid()
      ensures this.policy == policy && this.contents == contents && Valid()
    {
      this.policy, this.contents := policy, contents;
      var n := |contents|;
      num, offset, baseLg := 0, 0, 0;
      if n >= 5 {
        baseLg := contents[n - 1];
        var lastWord := DecodeFixed32(contents[n - 5..n - 1]);
        if lastWord <= n - 5 {
          num, offset := (n - 5 - lastWord) / 4, lastWord;
        }
      }
    }

    ghost predicate Valid() {
      && policy.Valid()
      && var n := |contents|;
         var last := if n >= 5 then DecodeFixed32(contents[n - 5..n - 1]) else 0;
         && baseLg == (if n >= 5 then contents[n - 1] else 0)
         && (if n >= 5 && last <= n - 5 then num == (n - 5 - last) / 4 && offset == last else num == 0 && offset == 0)
    }

    lemma ReadsBlock(result: Bytes, offsets: seq<Word>)
      requires Valid() && IsFilterBlock(contents, result, offsets)
      ensures num == |offsets| && offset == |result| && baseLg == BASE_LG
    {
      BlockParts(contents, result, offsets);
    }

    /** The block was made from these lists of keys. */
    ghost predicate MadeOf(result: Bytes, offsets: seq<Word>, lists: seq<seq<Bytes>>) {
      IsFilterBlock(contents, result, offsets) && FiltersHold(policy, result, offsets, lists)
    }

    /** What a block made from these lists says of a key: no, unless all its probes fall on bits that the
        keys of that list set.  Past the last list the key may be there. */
    ghost predicate MayBeIn(lists: seq<seq<Bytes>>, blockOffset: nat, key: Bytes)
    {
      var i := blockOffset / BASE;
      i < |lists| ==> lists[i] != [] && policy.MayHold(lists[i], key)
    }

    /** When in doubt the key may be there. */
    method KeyMayMatch(blockOffset: nat, key: Bytes) returns (may: bool)
      requires Valid()
      ensures !may ==> blockOffset / PowerOfTwo(baseLg) < num
      ensures forall result, offsets, lists :: MadeOf(result, offsets, lists) ==>
                (may <==> MayBeIn(lists, blockOffset, key))
    {
      hide DecodeFixed32, PowerOfTwo, Valid, MadeOf, MayBeIn;
      var index := blockOffset / PowerOfTwo(baseLg);
      may := true;
      if index < num {
        InArray(index);
        var start := DecodeFixed32(contents[offset + index * 4..offset + index * 4 + 4]);
        var limit := DecodeFixed32(contents[offset + index * 4 + 4..offset + index * 4 + 8]);
        if start <= limit && limit <= offset {
          may := policy.KeyMayMatch(key, contents[start..limit]);
        } else if start == limit {
          may := false;
        }
      }
      forall result, offsets, lists | MadeOf(result, offsets, lists)
        ensures may <==> MayBeIn(lists, blockOffset, key)
      {
        SpansAreLists(result, offsets, lists, blockOffset, key);
        if blockOffset / BASE < |lists| {
          ConsultsItsFilter(result, offsets, lists, blockOffset, key);
        }
      }
    }

    lemma InArray(index: nat)
      requires Valid() && index < num
      ensures offset + index * 4 + 8 <= |contents| && policy.Valid()
    {
    }

    lemma SpansAreLists(result: Bytes, offsets: seq<Word>, lists: seq<seq<Bytes>>, blockOffset: nat, key: Bytes)
      requires Valid() && MadeOf(result, offsets, lists)
      ensures blockOffset / PowerOfTwo(baseLg) == blockOffset / BASE && num == |lists|
      ensures blockOffset / BASE >= |lists| ==> MayBeIn(lists, blockOffset, key)
    {
      hide DecodeFixed32, PowerOfTwo, Words, Fixed32, Valid;
      BaseIs();
      ReadsBlock(result, offsets);
    }

    /** The filter consulted for a block is the one its keys went into. */
    lemma ConsultsItsFilter(result: Bytes, offsets: seq<Word>, lists: seq<seq<Bytes>>, blockOffset: nat, key: Bytes)
      requires Valid() && MadeOf(result, offsets, lists) && blockOffset / BASE < |lists|
      ensures var index := blockOffset / BASE;
              && offset + index * 4 + 8 <= |contents|
              && var start := DecodeFixed32(contents[offset + index * 4..offset + index * 4 + 4]);
                 var limit := DecodeFixed32(contents[offset + index * 4 + 4..offset + index * 4 + 8]);
                 && start <= limit <= offset <= |contents|
                 && (policy.Matches(contents[start..limit], key) <==> MayBeIn(lists, blockOffset, key))
    {
      hide DecodeFixed32, PowerOfTwo, Words, Fixed32, BloomFilterPolicy.IsFilterOf,
           BloomFilterPolicy.MayHold;
      ReadsBlock(result, offsets);
      BlockParts(contents, result, offsets);
      var index := blockOffset / BASE;
      assert FilterHolds(policy, result, offsets, lists[index], index);
      assert WordAtIs(contents, |result| + 4 * index, offsets[index]);
      ghost var next := index + 1;
      assert next < |offsets| ==> WordAtIs(contents, |result| + 4 * next, offsets[next]);
      var start, limit := offsets[index], EndOf(offsets, |result|, index);
      assert contents[start..limit] == result[start..limit] by {
        assert contents[..|result|] == result;
        assert contents[start..limit] == contents[..|result|][start..limit];
      }
      if lists[index] != [] {
        policy.MatchesExactly(contents[start..limit], lists[index], key);
      }
    }
  }
}
