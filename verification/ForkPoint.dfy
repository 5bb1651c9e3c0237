/** Where two chains part: the search down from the cursor, and the helper that compares block lists. */
module ForkPoint {
  import opened Outcomes
  import opened ChainData

  /** The chains agree on exactly their first `kept` blocks. */
  ghost predicate IsForkPoint(chain: seq<Hash>, remote: seq<Hash>, kept: nat) {
    && kept <= |chain| && kept <= |remote| && chain[..kept] == remote[..kept]
    && (kept < |chain| && kept < |remote| ==> chain[kept] != remote[kept])
  }

  /** The first agreement met on the way down is the top of the longest common prefix. */
  lemma SearchFindsForkPoint(w: World, base: nat, chain: seq<Hash>, remote: seq<Hash>, kept: nat)
    requires Linked(w, base, chain) && Linked(w, base, remote)
    requires 0 < kept <= |chain| <= |remote| && chain[kept - 1] == remote[kept - 1]
    requires forall i :: kept <= i < |chain| ==> chain[i] != remote[i]
    ensures IsForkPoint(chain, remote, kept)
    ensures forall h :: h in chain[kept..] ==> h !in remote
  {
    HashLinking(w, base, chain, remote, kept - 1);
    forall h | h in chain[kept..] ensures h !in remote {
      var i :| kept <= i < |chain| && chain[i] == h;
      forall j | 0 <= j < |remote| ensures remote[j] != h {
        assert w.blockOf(chain[i]).number == base + i && w.blockOf(remote[j]).number == base + j;
      }
    }
  }

  /** The search down to height `base + oldest` fails exactly when the chains already differ there. */
  lemma SearchFailsOnlyBeyondHistory(w: World, base: nat, chain: seq<Hash>, remote: seq<Hash>, oldest: nat)
    requires Linked(w, base, chain) && Linked(w, base, remote) && oldest < |chain| <= |remote|
    ensures (forall i :: oldest <= i < |chain| ==> chain[i] != remote[i]) <==> chain[oldest] != remote[oldest]
  {
    forall i | oldest <= i < |chain| && chain[i] == remote[i] ensures chain[oldest] == remote[oldest] {
      HashLinking(w, base, chain, remote, i);
      assert chain[..i + 1][oldest] == remote[..i + 1][oldest];
    }
  }

  // ---------------------------------------------------------------------------
  // Comparing block lists
  // ---------------------------------------------------------------------------

  function LastWithHash(blocks: seq<Block>, hash: Hash): Option<Block> {
    if blocks == [] then None
    else if blocks[|blocks| - 1].hash == hash then Some(blocks[|blocks| - 1])
    else LastWithHash(blocks[..|blocks| - 1], hash)
  }

  predicate Matched(canonical: seq<Block>, block: Block) {
    var match_ := LastWithHash(canonical, block.hash);
    match_.Some? && match_.value.number == block.number
  }

  ghost predicate IsCommonAncestor(canonical: seq<Block>, replacement: seq<Block>, r: Option<Block>) {
    match r
    case None => forall block :: block in replacement ==> !Matched(canonical, block)
    case Some(found) =>
      && (exists block :: block in replacement && Matched(canonical, block)
                          && LastWithHash(canonical, block.hash) == Some(found))
      && (forall block :: block in replacement && Matched(canonical, block) ==> block.number <= found.number)
  }

  function InsertByHeight(sorted: seq<Block>, block: Block): seq<Block> {
    if sorted == [] || sorted[0].number <= block.number then [block] + sorted
    else [sorted[0]] + InsertByHeight(sorted[1..], block)
  }

  /** Highest block first. */
  function ByHeight(blocks: seq<Block>): seq<Block> {
    if blocks == [] then [] else InsertByHeight(ByHeight(blocks[1..]), blocks[0])
  }

  predicate Descending(blocks: seq<Block>) {
    forall i, j :: 0 <= i < j < |blocks| ==> blocks[i].number >= blocks[j].number
  }

  lemma {:induction false} InsertByHeightSorts(sorted: seq<Block>, block: Block)
    requires Descending(sorted)
    ensures Descending(InsertByHeight(sorted, block))
    ensures forall b :: b in InsertByHeight(sorted, block) <==> b in sorted || b == block
  {
    if sorted != [] && sorted[0].number > block.number {
      InsertByHeightSorts(sorted[1..], block);
      assert sorted == [sorted[0]] + sorted[1..];
      var rest := InsertByHeight(sorted[1..], block);
      forall i | 0 <= i < |rest| ensures rest[i].number <= sorted[0].number {
        assert rest[i] in rest;
      }
    }
  }

  lemma {:induction false} ByHeightSorts(blocks: seq<Block>)
    ensures Descending(ByHeight(blocks)) && forall b :: b in ByHeight(blocks) <==> b in blocks
  {
    if blocks != [] {
      ByHeightSorts(blocks[1..]);
      InsertByHeightSorts(ByHeight(blocks[1..]), blocks[0]);
      assert blocks == [blocks[0]] + blocks[1..];
    }
  }

  method FindCommonAncestor(canonical: seq<Block>, replacement: seq<Block>) returns (r: Option<Block>)
    ensures IsCommonAncestor(canonical, replacement, r)
  {
    var byHash: map<Hash, Block> := map[];
    for i := 0 to |canonical|
      invariant forall h :: (if h in byHash then Some(byHash[h]) else None) == LastWithHash(canonical[..i], h)
    {
      assert canonical[..i + 1][..i] == canonical[..i];
      byHash := byHash[canonical[i].hash := canonical[i]];
    }
    assert canonical[..|canonical|] == canonical;
    ByHeightSorts(replacement);
    var ordered := ByHeight(replacement);
    for i := 0 to |ordered|
      invariant forall j :: 0 <= j < i ==> !Matched(canonical, ordered[j])
    {
      var block := ordered[i];
      assert block in ordered;
      if block.hash in byHash && byHash[block.hash].number == block.number {
        assert Matched(canonical, block);
        forall b | b in replacement && Matched(canonical, b) ensures b.number <= block.number {
          assert b in ordered;
          var j :| 0 <= j < |ordered| && ordered[j] == b;
        }
        return Some(byHash[block.hash]);
      }
    }
    forall block | block in replacement ensures !Matched(canonical, block) {
      assert block in ordered;
    }
    return None;
  }

  ghost predicate ListsChain(w: World, chain: seq<Hash>, blocks: seq<Block>) {
    forall block :: block in blocks <==> exists i :: 0 <= i < |chain| && block == w.blockOf(chain[i])
  }

  lemma {:induction false} LastWithHashFinds(blocks: seq<Block>, block: Block)
    requires block in blocks && forall b :: b in blocks && b.hash == block.hash ==> b == block
    ensures LastWithHash(blocks, block.hash) == Some(block)
  {
    var n := |blocks| - 1;
    assert blocks == blocks[..n] + [blocks[n]];
    if blocks[n].hash != block.hash {
      LastWithHashFinds(blocks[..n], block);
    }
  }

  lemma {:induction false} LastWithHashIsListed(blocks: seq<Block>, hash: Hash)
    ensures LastWithHash(blocks, hash).Some?
            ==> LastWithHash(blocks, hash).value in blocks && LastWithHash(blocks, hash).value.hash == hash
  {
    if blocks != [] && blocks[|blocks| - 1].hash != hash {
      LastWithHashIsListed(blocks[..|blocks| - 1], hash);
    }
  }

  /** On two linked chains, listed in any order, the helper finds the block below which the search stops. */
  lemma CommonAncestorIsForkPoint(
    w: World, base: nat, chain: seq<Hash>, remote: seq<Hash>, canonical: seq<Block>, replacement: seq<Block>,
    kept: nat, r: Option<Block>)
    requires ValidWorld(w) && Linked(w, base, chain) && Linked(w, base, remote)
    requires ListsChain(w, chain, canonical) && ListsChain(w, remote, replacement)
    requires IsForkPoint(chain, remote, kept) && IsCommonAncestor(canonical, replacement, r)
    ensures r == if kept == 0 then None else Some(w.blockOf(chain[kept - 1]))
  {
    hide StrictlyOrdered;
    forall i, block | 0 <= i < |remote| && block == w.blockOf(remote[i]) && Matched(canonical, block)
      ensures i < kept
    {
      LastWithHashIsListed(canonical, block.hash);
      var found := LastWithHash(canonical, block.hash).value;
      var j :| 0 <= j < |chain| && found == w.blockOf(chain[j]);
      assert w.blockOf(chain[j]).hash == chain[j] && w.blockOf(remote[i]).hash == remote[i];
      assert i == j;
      HashLinking(w, base, chain, remote, i);
      PrefixEndsAtFork(chain, remote, i + 1, kept);
    }
    if kept > 0 {
      var top := w.blockOf(chain[kept - 1]);
      assert chain[..kept][kept - 1] == remote[..kept][kept - 1];
      assert top in canonical && top in replacement;
      forall b | b in canonical && b.hash == top.hash ensures b == top {
        var j :| 0 <= j < |chain| && b == w.blockOf(chain[j]);
      }
      LastWithHashFinds(canonical, top);
      assert Matched(canonical, top);
      TopIsFound(w, base, chain, remote, canonical, replacement, kept, r.value);
    }
  }

  lemma SharedPrefix(left: seq<Hash>, right: seq<Hash>, n: nat, k: nat)
    requires k < n <= |left| && n <= |right| && left[..n] == right[..n]
    ensures left[k] == right[k]
  {
    assert left[..n][k] == right[..n][k];
  }

  lemma PrefixEndsAtFork(left: seq<Hash>, right: seq<Hash>, n: nat, kept: nat)
    requires IsForkPoint(left, right, kept) && n <= |left| && n <= |right| && left[..n] == right[..n]
    ensures n <= kept
  {
    if kept < n {
      SharedPrefix(left, right, n, kept);
    }
  }

  lemma TopIsFound(
    w: World, base: nat, chain: seq<Hash>, remote: seq<Hash>, canonical: seq<Block>, replacement: seq<Block>,
    kept: nat, found: Block)
    requires ValidWorld(w) && Linked(w, base, chain) && Linked(w, base, remote)
    requires ListsChain(w, chain, canonical) && ListsChain(w, remote, replacement)
    requires IsForkPoint(chain, remote, kept) && kept > 0 && IsCommonAncestor(canonical, replacement, Some(found))
    requires w.blockOf(chain[kept - 1]) in replacement && Matched(canonical, w.blockOf(chain[kept - 1]))
    requires forall i :: 0 <= i < |remote| && Matched(canonical, w.blockOf(remote[i])) ==> i < kept
    ensures found == w.blockOf(chain[kept - 1])
  {
    hide StrictlyOrdered;
    var block :| block in replacement && Matched(canonical, block) && LastWithHash(canonical, block.hash) == Some(found);
    var i :| 0 <= i < |remote| && block == w.blockOf(remote[i]);
    assert w.blockOf(chain[kept - 1]).number == base + (kept - 1);
    assert w.blockOf(remote[i]).number == base + i;
    LastWithHashIsListed(canonical, block.hash);
    var j :| 0 <= j < |chain| && found == w.blockOf(chain[j]);
    assert w.blockOf(chain[j]).number == base + j;
  }

  // ---------------------------------------------------------------------------
  // Contiguous block lists
  // ---------------------------------------------------------------------------

  /** Lowest block first, each on the one before, the first on `expectedParent` if that is given. */
  predicate Contiguous(blocks: seq<Block>, expectedParent: Option<Hash>) {
    && (forall i :: 0 < i < |blocks| ==> blocks[i].number == blocks[i - 1].number + 1
                                         && blocks[i].parentHash == blocks[i - 1].hash)
    && (blocks != [] && expectedParent.Some? ==> blocks[0].parentHash == expectedParent.value)
  }

  function InsertAscending(sorted: seq<Block>, block: Block): seq<Block> {
    if sorted == [] || sorted[|sorted| - 1].number <= block.number then sorted + [block]
    else InsertAscending(sorted[..|sorted| - 1], block) + [sorted[|sorted| - 1]]
  }

  function Ascending(blocks: seq<Block>): seq<Block> {
    if blocks == [] then [] else InsertAscending(Ascending(blocks[..|blocks| - 1]), blocks[|blocks| - 1])
  }

  predicate SortedByHeight(blocks: seq<Block>) {
    forall i, j :: 0 <= i < j < |blocks| ==> blocks[i].number <= blocks[j].number
  }

  lemma {:induction false} InsertAscendingSorts(sorted: seq<Block>, block: Block)
    requires SortedByHeight(sorted)
    ensures SortedByHeight(InsertAscending(sorted, block))
    ensures multiset(InsertAscending(sorted, block)) == multiset(sorted) + multiset{block}
  {
    if sorted != [] {
      var n := |sorted| - 1;
      assert sorted == sorted[..n] + [sorted[n]];
      if sorted[n].number > block.number {
        InsertAscendingSorts(sorted[..n], block);
        var r := InsertAscending(sorted[..n], block);
        hide InsertAscending;
        forall i | 0 <= i < |r| ensures r[i].number <= sorted[n].number {
          assert r[i] in multiset(r);
          assert r[i] == block || r[i] in sorted[..n];
        }
      }
    }
  }

  lemma {:induction false} AscendingSorts(blocks: seq<Block>)
    ensures SortedByHeight(Ascending(blocks)) && multiset(Ascending(blocks)) == multiset(blocks)
  {
    if blocks != [] {
      hide InsertAscending, SortedByHeight;
      var n := |blocks| - 1;
      assert blocks == blocks[..n] + [blocks[n]];
      AscendingSorts(blocks[..n]);
      InsertAscendingSorts(Ascending(blocks[..n]), blocks[n]);
    } else {
      assert Ascending(blocks) == blocks;
    }
  }

  lemma {:induction false} ContiguousHeights(blocks: seq<Block>, expectedParent: Option<Hash>, i: nat, j: nat)
    requires Contiguous(blocks, expectedParent) && i <= j < |blocks|
    ensures blocks[j].number == blocks[i].number + (j - i)
    decreases j
  {
    if i < j {
      ContiguousHeights(blocks, expectedParent, i, j - 1);
    }
  }

  lemma WithoutLast(left: seq<Block>, right: seq<Block>)
    requires left != [] && right != [] && multiset(left) == multiset(right)
    requires left[|left| - 1] == right[|right| - 1]
    ensures multiset(left[..|left| - 1]) == multiset(right[..|right| - 1])
  {
    LastTaken(left);
    LastTaken(right);
  }

  lemma LastTaken(blocks: seq<Block>)
    requires blocks != []
    ensures multiset(blocks[..|blocks| - 1]) == multiset(blocks) - multiset{blocks[|blocks| - 1]}
  {
    assert blocks == blocks[..|blocks| - 1] + [blocks[|blocks| - 1]];
  }

  lemma SameLength(left: seq<Block>, right: seq<Block>)
    requires multiset(left) == multiset(right)
    ensures |left| == |right|
  {
    assert |left| == |multiset(left)| == |multiset(right)| == |right|;
  }

  lemma Prefixes(sorted: seq<Block>, other: seq<Block>, expectedParent: Option<Hash>, n: nat)
    requires SortedByHeight(sorted) && Contiguous(other, expectedParent) && n <= |sorted| && n <= |other|
    ensures SortedByHeight(sorted[..n]) && Contiguous(other[..n], expectedParent)
  {
  }

  /** A contiguous arrangement is the only way to sort its blocks by height. */
  lemma {:induction false} ContiguousIsSorted(sorted: seq<Block>, other: seq<Block>, expectedParent: Option<Hash>)
    requires SortedByHeight(sorted) && Contiguous(other, expectedParent) && multiset(sorted) == multiset(other)
    ensures sorted == other
    decreases |other|
  {
    hide SortedByHeight, Contiguous;
    SameLength(sorted, other);
    if other != [] {
      var n := |other| - 1;
      LastIsHighest(sorted, other, expectedParent);
      WithoutLast(sorted, other);
      Prefixes(sorted, other, expectedParent, n);
      var left, right := sorted[..n], other[..n];
      ContiguousIsSorted(left, right, expectedParent);
      SameWithLast(sorted, other, n);
    }
  }

  lemma SameWithLast(left: seq<Block>, right: seq<Block>, n: nat)
    requires |left| == |right| == n + 1 && left[..n] == right[..n] && left[n] == right[n]
    ensures left == right
  {
    assert left == left[..n] + [left[n]] && right == right[..n] + [right[n]];
  }

  lemma LastIsHighest(sorted: seq<Block>, other: seq<Block>, expectedParent: Option<Hash>)
    requires SortedByHeight(sorted) && Contiguous(other, expectedParent) && multiset(sorted) == multiset(other)
    requires |sorted| == |other| > 0
    ensures sorted[|sorted| - 1] == other[|other| - 1]
  {
    var n := |other| - 1;
    assert sorted[n] in multiset(sorted) && other[n] in multiset(other);
    var i :| 0 <= i < |other| && other[i] == sorted[n];
    var j :| 0 <= j < |sorted| && sorted[j] == other[n];
    ContiguousHeights(other, expectedParent, i, n);
  }

  lemma OnlyItsOrder(ordered: seq<Block>, blocks: seq<Block>, expectedParent: Option<Hash>)
    requires SortedByHeight(ordered) && multiset(ordered) == multiset(blocks) && !Contiguous(ordered, expectedParent)
    ensures forall other :: multiset(other) == multiset(blocks) ==> !Contiguous(other, expectedParent)
  {
    hide SortedByHeight, Contiguous;
    forall other | multiset(other) == multiset(blocks) ensures !Contiguous(other, expectedParent) {
      if Contiguous(other, expectedParent) {
        ContiguousIsSorted(ordered, other, expectedParent);
      }
    }
  }

  /** A lowest block of the list has the expected parent, if one is expected; or it has another one. */
  ghost predicate LowestNames(blocks: seq<Block>, expectedParent: Option<Hash>, expected: bool) {
    exists b :: b in blocks && (forall other :: other in blocks ==> b.number <= other.number)
                && (expected <==> expectedParent.None? || b.parentHash == expectedParent.value)
  }

  lemma FirstIsLowest(ordered: seq<Block>, blocks: seq<Block>, expectedParent: Option<Hash>)
    requires ordered != [] && SortedByHeight(ordered) && multiset(ordered) == multiset(blocks)
    ensures LowestNames(blocks, expectedParent, expectedParent.None? || ordered[0].parentHash == expectedParent.value)
  {
    assert ordered[0] in multiset(blocks);
    forall other | other in blocks ensures ordered[0].number <= other.number {
      assert other in multiset(ordered);
    }
  }

  /** Accepts a list exactly when some arrangement of it is contiguous, and returns that arrangement. */
  method AssertContiguous(blocks: seq<Block>, expectedParent: Option<Hash>) returns (r: Outcome<seq<Block>>)
    ensures r.Ok? ==> Contiguous(r.value, expectedParent) && multiset(r.value) == multiset(blocks)
    ensures r.Fail? ==> forall other :: multiset(other) == multiset(blocks) ==> !Contiguous(other, expectedParent)
    ensures r.Fail? ==> if r.error == "unexpected_parent" then LowestNames(blocks, expectedParent, false)
                        else r.error == "non_contiguous_chain" && LowestNames(blocks, expectedParent, true)
  {
    hide SortedByHeight, Ascending, LowestNames;
    var ordered := Ascending(blocks);
    AscendingSorts(blocks);
    if ordered != [] {
      FirstIsLowest(ordered, blocks, expectedParent);
    }
    for i := 0 to |ordered|
      invariant Contiguous(ordered[..i], expectedParent)
    {
      var bad := i > 0 && (ordered[i].number != ordered[i - 1].number + 1 || ordered[i].parentHash != ordered[i - 1].hash);
      var foreign := i == 0 && expectedParent.Some? && ordered[0].parentHash != expectedParent.value;
      if bad || foreign {
        assert !Contiguous(ordered, expectedParent);
        OnlyItsOrder(ordered, blocks, expectedParent);
        return Fail(if bad then "non_contiguous_chain" else "unexpected_parent");
      }
    }
    assert ordered[..|ordered|] == ordered;
    return Ok(ordered);
  }
}
