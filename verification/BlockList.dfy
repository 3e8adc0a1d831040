/**
 The list of content blocks of one kind in the record cache. A block read at position `p` of its
 record first clears the list when the list already holds `p` blocks or more; this is how a second
 pass over the record (made for video) is meant to replace the blocks of the first.
 */
module BlockList {
  function SetBlock<T>(list: seq<T>, position: nat, block: T): seq<T> {
    (if |list| >= position then [] else list) + [block]
  }

  /** One pass over the blocks of this kind, from the `m`-th on. */
  function Pass<T>(list: seq<T>, positions: seq<nat>, blocks: seq<T>, m: nat): seq<T>
    requires |positions| == |blocks| && m <= |blocks|
    decreases |blocks| - m
  {
    if m == |blocks| then list
    else Pass(SetBlock(list, positions[m], blocks[m]), positions, blocks, m + 1)
  }

  /** Successive passes, the list starting empty; each pass reads its own blocks. */
  function Passes<T>(positions: seq<nat>, passes: seq<seq<T>>): seq<T>
    requires forall p | p in passes :: |p| == |positions|
  {
    if passes == [] then []
    else Pass(Passes(positions, passes[..|passes| - 1]), positions, passes[|passes| - 1], 0)
  }

  predicate Increasing(positions: seq<nat>) {
    forall i, j | 0 <= i < j < |positions| :: positions[i] < positions[j]
  }

  /** The layouts whose blocks survive: what a caller can read off the record's format. */
  predicate Replaceable(positions: seq<nat>)
    requires |positions| > 0
  {
    || 1 <= positions[0] <= |positions|
    || (positions[0] == 0 && (|positions| == 1 || positions[1] >= 2))
  }

  lemma {:induction false} IncreasingBound(positions: seq<nat>, a: nat, m: nat)
    requires Increasing(positions) && a <= m < |positions|
    ensures positions[m] >= positions[a] + m - a
  {
    if m > a {
      IncreasingBound(positions, a, m - 1);
    }
  }

  /** With nothing left to clear, the rest of a pass only appends. */
  lemma {:induction false} PassAppends<T>(list: seq<T>, positions: seq<nat>, blocks: seq<T>, m: nat)
    requires |positions| == |blocks| && m <= |blocks|
    requires forall j | m <= j < |blocks| :: |list| + j - m < positions[j]
    ensures Pass(list, positions, blocks, m) == list + blocks[m..]
    decreases |blocks| - m
  {
    if m < |blocks| {
      PassAppends(list + [blocks[m]], positions, blocks, m + 1);
      assert list + [blocks[m]] + blocks[m + 1..] == list + blocks[m..];
    }
  }

  /** A pass over a replaceable layout discards whatever a previous pass left and keeps its own blocks. */
  lemma PassReplaces<T>(list: seq<T>, positions: seq<nat>, blocks: seq<T>)
    requires 0 < |positions| == |blocks| && Increasing(positions) && Replaceable(positions)
    requires list == [] || |list| == |blocks|
    ensures Pass(list, positions, blocks, 0) == blocks
  {
    forall j | 1 <= j < |blocks| ensures j < positions[j] {
      IncreasingBound(positions, if positions[0] == 0 then 1 else 0, j);
    }
    assert SetBlock(list, positions[0], blocks[0]) == [blocks[0]];
    PassAppends([blocks[0]], positions, blocks, 1);
    assert [blocks[0]] + blocks[1..] == blocks;
  }

  lemma {:induction false} PassesKeepLast<T>(positions: seq<nat>, passes: seq<seq<T>>)
    requires |positions| > 0 && Increasing(positions) && Replaceable(positions)
    requires passes != [] && forall p | p in passes :: |p| == |positions|
    ensures Passes(positions, passes) == passes[|passes| - 1]
  {
    var front := passes[..|passes| - 1];
    if front != [] {
      PassesKeepLast(positions, front);
    }
    PassReplaces(Passes(positions, front), positions, passes[|passes| - 1]);
  }

  /** Two blocks of a kind at the start of a record: the second clears the first, on every pass. */
  lemma FirstBlockLost<T>(positions: seq<nat>, list: seq<T>, blocks: seq<T>)
    requires 2 <= |positions| == |blocks| && Increasing(positions)
    requires positions[0] == 0 && positions[1] == 1
    ensures Pass(list, positions, blocks, 0) == blocks[1..]
  {
    assert SetBlock(list, 0, blocks[0]) == [blocks[0]];
    assert SetBlock([blocks[0]], 1, blocks[1]) == [blocks[1]];
    forall j | 2 <= j < |blocks| ensures j - 1 < positions[j] {
      IncreasingBound(positions, 0, j);
    }
    PassAppends([blocks[1]], positions, blocks, 2);
    assert Pass(list, positions, blocks, 0) == Pass([blocks[1]], positions, blocks, 2);
    assert [blocks[1]] + blocks[2..] == blocks[1..];
  }

  /** Blocks further into the record than there are blocks of the kind: a second pass keeps the first's. */
  lemma StaleBlocksKept<T>(positions: seq<nat>, first: seq<T>, second: seq<T>)
    requires 0 < |positions| == |first| == |second| && Increasing(positions)
    requires positions[0] > |positions|
    ensures Passes(positions, [first, second]) == first + second
  {
    forall j | 0 <= j < |first| ensures |first| + j < positions[j] {
      IncreasingBound(positions, 0, j);
    }
    PassAppends([], positions, first, 0);
    PassAppends(first, positions, second, 0);
    var one: seq<seq<T>> := [first];
    assert one[..0] == [];
    assert Passes(positions, one) == first;
    assert [first, second][..1] == one;
  }

  /** Any number of passes leaves exactly the last pass's blocks. */
  ghost predicate KeepsLastPass(positions: seq<nat>) {
    forall passes: seq<seq<int>> | passes != [] && (forall p | p in passes :: |p| == |positions|) ::
      Passes(positions, passes) == passes[|passes| - 1]
  }

  /** Re-reading is safe for exactly the replaceable layouts. */
  lemma KeepsLastPassIff(positions: seq<nat>)
    requires |positions| > 0 && Increasing(positions)
    ensures KeepsLastPass(positions) <==> Replaceable(positions)
  {
    if Replaceable(positions) {
      forall passes: seq<seq<int>> | passes != [] && (forall p | p in passes :: |p| == |positions|)
        ensures Passes(positions, passes) == passes[|passes| - 1]
      {
        PassesKeepLast(positions, passes);
      }
    } else {
      var blocks: seq<int> := seq(|positions|, _ => 0);
      if positions[0] == 0 {
        FirstBlockLost(positions, [], blocks);
        var one: seq<seq<int>> := [blocks];
        assert one[..0] == [];
        assert Passes(positions, one) == blocks[1..];
        assert one[|one| - 1] == blocks;
      } else {
        StaleBlocksKept(positions, blocks, blocks);
        assert |Passes(positions, [blocks, blocks])| != |blocks|;
      }
    }
  }
}
