/** The filter block: one filter for every 2 KB of data blocks (table/filter_block.cc). */
module Filters {
  import opened Keys
  import opened Coding
  import opened Blooms

  const BASE_LG: nat := 11
  const BASE: nat := 2048

  class FilterBlockBuilder {
    const policy: BloomFilterPolicy
    var keys: Bytes
    var start: seq<nat>
    var result: Bytes
    var filterOffsets: seq<nat>
    /** The keys of every filter so far, and those waiting for the next one. */
    ghost var filters: seq<seq<Bytes>>
    ghost var pending: seq<Bytes>
    /** Every key ever added, with the number of the filter of its data block. */
    ghost var added: set<(nat, Bytes)>

    ghost predicate Valid()
      reads this
    {
      && policy.Valid()
      && Flat(keys, start, pending)
      && Filtered(policy, result, filterOffsets, filters)
      && Kept(added, filters + [pending])
    }

    constructor (policy: BloomFilterPolicy)
      requires policy.Valid()
      ensures Valid() && filters == [] && added == {} && this.policy == policy
    {
      this.policy := policy;
      keys, start, result, filterOffsets, filters, pending, added := [], [], [], [], [], [], {};
    }

    /** Keys added from now on belong to the filter of this offset. */
    method StartBlock(blockOffset: nat)
      requires Valid() && blockOffset / BASE >= |filters|
      modifies this
      ensures Valid() && |filters| == blockOffset / BASE && added == old(added)
    {
      hide Filtered, Flat, Kept;
      FilteredCounts(policy, result, filterOffsets, filters);
      var index := blockOffset / BASE;
      while index > |filterOffsets|
        invariant Valid() && |filters| == |filterOffsets| <= index && added == old(added)
      {
        GenerateFilter();
        FilteredCounts(policy, result, filterOffsets, filters);
      }
    }

    method AddKey(key: Bytes)
      requires Valid()
      modifies this
      ensures
        && Valid()
        && filters == old(filters)
        && added == old(added) + {(|filters|, key)}
    {
      hide Filtered;
      FlatGrows(keys, start, pending, key);
      KeptAdds(added, filters, pending, key);
      start := start + [|keys|];
      keys := keys + key;
      pending := pending + [key];
      added := added + {(|filters|, key)};
    }

    /** Without keys the filter is empty: it takes an offset and no bytes. */
    method GenerateFilter()
      requires Valid()
      modifies this
      ensures
        && Valid()
        && filters == old(filters) + [old(pending)]
        && pending == []
        && added == old(added)
    {
      hide Filtered, Flat, Kept;
      FlatCounts(keys, start, pending);
      KeptMoves(added, filters, pending);
      var before := result;
      if |start| == 0 {
        FilteredGrows(policy, result, filterOffsets, filters, [], result);
        filterOffsets := filterOffsets + [|result|];
        filters, pending := filters + [pending], [];
        return;
      }
      var tmpKeys := Unflatten();
      filterOffsets := filterOffsets + [|result|];
      result := policy.CreateFilter(tmpKeys, result);
      FilteredGrows(policy, before, old(filterOffsets), filters, pending, result);
      FlatEmpty();
      keys, start := [], [];
      filters, pending := filters + [pending], [];
    }

    /** The list of keys from the flattened key structure. */
    method Unflatten() returns (tmpKeys: seq<Bytes>)
      requires Valid()
      ensures tmpKeys == pending
    {
      hide Filtered;
      tmpKeys := [];
      for i := 0 to |start|
        invariant |start| == |pending| && tmpKeys == pending[..i]
      {
        assert Piece(keys, start, pending, i);
        tmpKeys := tmpKeys + [keys[start[i]..PieceEnd(keys, start, i)]];
      }
    }

    method Finish() returns (block: Bytes)
      requires Valid()
      modifies this
      ensures Valid() && added == old(added)
      ensures |block| < WORD32 ==> AllMatch(policy, block, added)
    {
      hide Filtered, Flat, FixedAll, Fixed, Kept, AllMatch;
      FlatCounts(keys, start, pending);
      if |start| != 0 {
        GenerateFilter();
      }
      KeptInFilters(added, filters);
      block := result;
      ghost var generated, sums := filterOffsets, result;
      ghost var all := filters;
      ghost var rest := pending;
      FixedNone();
      assert filterOffsets[..0] == [] && result + [] == result;
      for i := 0 to |filterOffsets|
        invariant Valid() && filterOffsets == generated && result == sums
        invariant filters == all && pending == rest && added == old(added)
        invariant block == sums + FixedAll(generated[..i])
      {
        FixedOneMore(filterOffsets[..i], filterOffsets[i]);
        assert filterOffsets[..i + 1] == filterOffsets[..i] + [filterOffsets[i]];
        block := block + Fixed(filterOffsets[i], 4);
      }
      FixedOneMore(filterOffsets, |result|);
      assert filterOffsets[..|filterOffsets|] == filterOffsets;
      block := block + Fixed(|result|, 4);
      block := block + [BASE_LG];
      if |block| < WORD32 {
        FinishedMatches(policy, result, filterOffsets, filters, added, block);
      }
    }
  }

  /** `keys` holds the strings back to back, each from its start to the next one's. */
  ghost predicate Flat(keys: Bytes, start: seq<nat>, pending: seq<Bytes>) {
    |start| == |pending| && forall i | 0 <= i < |start| :: Piece(keys, start, pending, i)
  }

  function PieceEnd(keys: Bytes, start: seq<nat>, i: nat): nat {
    if i + 1 < |start| then start[i + 1] else |keys|
  }

  ghost predicate Piece(keys: Bytes, start: seq<nat>, pending: seq<Bytes>, i: nat)
    requires i < |start| == |pending|
  {
    start[i] <= PieceEnd(keys, start, i) <= |keys| && keys[start[i]..PieceEnd(keys, start, i)] == pending[i]
  }

  lemma FlatGrows(keys: Bytes, start: seq<nat>, pending: seq<Bytes>, key: Bytes)
    requires Flat(keys, start, pending)
    ensures Flat(keys + key, start + [|keys|], pending + [key])
  {
    var keys', start', pending' := keys + key, start + [|keys|], pending + [key];
    forall i | 0 <= i < |start'|
      ensures Piece(keys', start', pending', i)
    {
      if i < |start| {
        assert Piece(keys, start, pending, i);
        var limit := PieceEnd(keys, start, i);
        assert PieceEnd(keys', start', i) == limit;
        assert keys'[start[i]..limit] == keys[start[i]..limit];
      } else {
        assert keys'[|keys|..] == key;
      }
    }
  }

  lemma FlatEmpty()
    ensures Flat([], [], [])
  {
  }

  lemma FlatCounts(keys: Bytes, start: seq<nat>, pending: seq<Bytes>)
    requires Flat(keys, start, pending)
    ensures |start| == |pending|
  {
  }

  /** Filter i of `result` starts at its offset and is the filter of its keys, or empty without keys. */
  ghost predicate Filtered(policy: BloomFilterPolicy, result: Bytes, offsets: seq<nat>, filters: seq<seq<Bytes>>) {
    && |offsets| == |filters|
    && forall i | 0 <= i < |offsets| :: FilterAt(policy, result, offsets, filters, i)
  }

  lemma FilteredCounts(policy: BloomFilterPolicy, result: Bytes, offsets: seq<nat>, filters: seq<seq<Bytes>>)
    requires Filtered(policy, result, offsets, filters)
    ensures |offsets| == |filters|
  {
  }

  ghost function Limit(result: Bytes, offsets: seq<nat>, i: nat): nat {
    if i + 1 < |offsets| then offsets[i + 1] else |result|
  }

  ghost predicate FilterAt(policy: BloomFilterPolicy, result: Bytes, offsets: seq<nat>, filters: seq<seq<Bytes>>, i: nat)
    requires i < |offsets| == |filters|
  {
    var limit := Limit(result, offsets, i);
    && offsets[i] <= limit <= |result|
    && (filters[i] != [] ==> policy.IsFilter(filters[i], result[offsets[i]..limit]))
    && (filters[i] == [] ==> offsets[i] == limit)
  }

  lemma FilteredGrows(policy: BloomFilterPolicy, result: Bytes, offsets: seq<nat>, filters: seq<seq<Bytes>>,
                      keys: seq<Bytes>, result': Bytes)
    requires Filtered(policy, result, offsets, filters) && |result| <= |result'| && result'[..|result|] == result
    requires if keys == [] then result' == result else policy.IsFilter(keys, result'[|result|..])
    ensures Filtered(policy, result', offsets + [|result|], filters + [keys])
    ensures |offsets| == |filters|
  {
    var offsets', filters' := offsets + [|result|], filters + [keys];
    forall i | 0 <= i < |offsets'|
      ensures FilterAt(policy, result', offsets', filters', i)
    {
      if i < |offsets| {
        FilterKept(policy, result, offsets, filters, keys, result', i);
      } else {
        assert result'[|result|..] == result'[|result|..|result'|];
      }
    }
  }

  lemma FilterKept(policy: BloomFilterPolicy, result: Bytes, offsets: seq<nat>, filters: seq<seq<Bytes>>,
                   keys: seq<Bytes>, result': Bytes, i: nat)
    requires i < |offsets| == |filters| && FilterAt(policy, result, offsets, filters, i)
    requires |result| <= |result'| && result'[..|result|] == result
    ensures FilterAt(policy, result', offsets + [|result|], filters + [keys], i)
  {
    var limit := Limit(result, offsets, i);
    assert forall k | 0 <= k < |result| :: result'[k] == result'[..|result|][k];
    assert result'[offsets[i]..limit] == result[offsets[i]..limit];
  }

  // The reader.

  /** The filter the reader takes for a block offset, if the contents make sense. */
  function KeyMayMatchIn(policy: BloomFilterPolicy, contents: Bytes, blockOffset: nat, key: Bytes): bool {
    var n := |contents|;
    if n < 5 then true
    else
      var lastWord := ReadFixed(contents[n - 5..], 4);
      if lastWord > n - 5 then true
      else
        var index, num := blockOffset / Pow(2, contents[n - 1]), (n - 5 - lastWord) / 4;
        if index >= num then true
        else
          var start := ReadFixed(contents[lastWord + index * 4..], 4);
          var limit := ReadFixed(contents[lastWord + index * 4 + 4..], 4);
          if start <= limit <= lastWord then policy.Matches(key, contents[start..limit])
          else start != limit
  }

  ghost predicate Kept(added: set<(nat, Bytes)>, filters: seq<seq<Bytes>>) {
    forall i, key | (i, key) in added :: i < |filters| && key in filters[i]
  }

  lemma KeptAdds(added: set<(nat, Bytes)>, filters: seq<seq<Bytes>>, pending: seq<Bytes>, key: Bytes)
    requires Kept(added, filters + [pending])
    ensures Kept(added + {(|filters|, key)}, filters + [pending + [key]])
  {
  }

  lemma KeptMoves(added: set<(nat, Bytes)>, filters: seq<seq<Bytes>>, pending: seq<Bytes>)
    requires Kept(added, filters + [pending])
    ensures Kept(added, filters + [pending] + [[]])
  {
  }

  lemma KeptInFilters(added: set<(nat, Bytes)>, filters: seq<seq<Bytes>>)
    requires Kept(added, filters + [[]])
    ensures Kept(added, filters)
  {
  }

  /** No false negatives: a key matches at every offset its filter stands for. */
  ghost predicate AllMatch(policy: BloomFilterPolicy, block: Bytes, added: set<(nat, Bytes)>) {
    forall i, key, o: nat | (i, key) in added && o / BASE == i :: KeyMayMatchIn(policy, block, o, key)
  }

  lemma FinishedMatches(policy: BloomFilterPolicy, result: Bytes, offsets: seq<nat>, filters: seq<seq<Bytes>>,
                        added: set<(nat, Bytes)>, block: Bytes)
    requires policy.Valid() && Filtered(policy, result, offsets, filters) && Kept(added, filters)
    requires block == result + FixedAll(offsets + [|result|]) + [BASE_LG] && |block| < WORD32
    ensures AllMatch(policy, block, added)
  {
    hide Filtered;
    forall i, key, o: nat | (i, key) in added && o / BASE == i
      ensures KeyMayMatchIn(policy, block, o, key)
    {
      FilterMatches(policy, result, offsets, filters, o, key, block);
    }
  }

  /** The reader takes the filter of the block's stretch of offsets and asks it. */
  lemma FilterReads(policy: BloomFilterPolicy, result: Bytes, offsets: seq<nat>, filters: seq<seq<Bytes>>,
                    o: nat, key: Bytes, block: Bytes) returns (filter: Bytes)
    requires Filtered(policy, result, offsets, filters) && o / BASE < |filters|
    requires block == result + FixedAll(offsets + [|result|]) + [BASE_LG] && |block| < WORD32
    ensures KeyMayMatchIn(policy, block, o, key) <==> policy.Matches(key, filter)
    ensures if filters[o / BASE] == [] then filter == [] else policy.IsFilter(filters[o / BASE], filter)
  {
    hide FixedAll, ReadFixed;
    var i, n := o / BASE, |offsets|;
    var xs := offsets + [|result|];
    assert FilterAt(policy, result, offsets, filters, i);
    FixedAllSize(xs);
    ReadsFixed(result, xs, [BASE_LG], n);
    ReadsFixed(result, xs, [BASE_LG], i);
    assert FilterAt(policy, result, offsets, filters, i) && xs[i + 1] == Limit(result, offsets, i);
    ReadsFixed(result, xs, [BASE_LG], i + 1);
    filter := result[offsets[i]..xs[i + 1]];
    assert block[offsets[i]..xs[i + 1]] == filter;
    assert Pow(2, 11) == BASE;
  }

  lemma FilterMatches(policy: BloomFilterPolicy, result: Bytes, offsets: seq<nat>, filters: seq<seq<Bytes>>,
                      o: nat, key: Bytes, block: Bytes)
    requires policy.Valid() && Filtered(policy, result, offsets, filters) && o / BASE < |filters| && key in filters[o / BASE]
    requires block == result + FixedAll(offsets + [|result|]) + [BASE_LG] && |block| < WORD32
    ensures KeyMayMatchIn(policy, block, o, key)
  {
    hide Filtered, KeyMayMatchIn, FixedAll;
    var filter := FilterReads(policy, result, offsets, filters, o, key, block);
    policy.AddedKeysMatch(filters[o / BASE], filter, key);
  }

  /** And it turns away every key that has a probe at a bit no added key asked for; a block without keys, all keys. */
  lemma FilterRejects(policy: BloomFilterPolicy, result: Bytes, offsets: seq<nat>, filters: seq<seq<Bytes>>,
                      o: nat, key: Bytes, block: Bytes) returns (bits: nat)
    requires policy.Valid() && Filtered(policy, result, offsets, filters) && o / BASE < |filters|
    requires block == result + FixedAll(offsets + [|result|]) + [BASE_LG] && |block| < WORD32
    ensures bits >= 64 && bits >= |filters[o / BASE]| * policy.bitsPerKey
    ensures KeyMayMatchIn(policy, block, o, key) <==>
      filters[o / BASE] != [] && forall j | 0 <= j < policy.k :: policy.ProbeWanted(filters[o / BASE], bits, key, j)
  {
    hide Filtered, KeyMayMatchIn, FixedAll;
    var filter := FilterReads(policy, result, offsets, filters, o, key, block);
    bits := 64;
    if filters[o / BASE] != [] {
      bits := 8 * (|filter| - 1);
      policy.MatchesWanted(filters[o / BASE], filter, key, bits);
    }
  }
}
