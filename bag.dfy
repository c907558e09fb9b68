/** The bag randomizer shared by the three engines: `bag = list(keys)`,
    `random.shuffle(bag)`, then `bag.pop()` from the END of the list until it is empty.
    The shuffle is not modelled as a generator: the caller supplies its result, a
    permutation of the keys. */
module Bag {

  /** `p` is a rearrangement of `keys` (what `random.shuffle` may produce). */
  predicate IsShuffleOf(p: seq<char>, keys: seq<char>)
  {
    multiset(p) == multiset(keys)
  }

  /** The order in which `bag.pop()` hands out the ids of `s`: last first. */
  function Rev(s: seq<char>): (r: seq<char>)
    ensures |r| == |s|
    ensures forall i :: 0 <= i < |s| ==> r[i] == s[|s| - 1 - i]
  {
    if s == [] then [] else Rev(s[1..]) + [s[0]]
  }

  /** The bag after `if not bag: bag = shuffled`. */
  function Refill(bag: seq<char>, perm: seq<char>): seq<char>
  {
    if bag == [] then perm else bag
  }

  /** `s` is a concatenation of blocks, each a permutation of `keys`. */
  predicate PermBlocks(s: seq<char>, keys: seq<char>)
    requires |keys| > 0
    decreases |s|
  {
    s == [] || (|keys| <= |s| && IsShuffleOf(s[..|keys|], keys) && PermBlocks(s[|keys|..], keys))
  }

  lemma {:induction false} RevAppendOne(s: seq<char>, x: char)
    ensures Rev(s + [x]) == [x] + Rev(s)
  {
    if s != [] {
      assert (s + [x])[1..] == s[1..] + [x];
      RevAppendOne(s[1..], x);
    }
  }

  /** Reversing puts the last two elements first, the last one leading. */
  lemma {:induction false} RevLastTwo(s: seq<char>)
    requires |s| >= 2
    ensures Rev(s) == [s[|s| - 1], s[|s| - 2]] + Rev(s[..|s| - 2])
  {
    var n := |s|;
    var front, init := s[..n - 2], s[..n - 1];
    assert init == front + [s[n - 2]];
    assert s == init + [s[n - 1]];
    RevAppendOne(init, s[n - 1]);
    RevAppendOne(front, s[n - 2]);
    assert Rev(s) == [s[n - 1]] + ([s[n - 2]] + Rev(front));
  }

  lemma {:induction false} RevMultiset(s: seq<char>)
    ensures multiset(Rev(s)) == multiset(s)
  {
    if s != [] {
      RevMultiset(s[1..]);
      assert s == [s[0]] + s[1..];
    }
  }

  lemma {:induction false} PermBlocksAppend(a: seq<char>, b: seq<char>, keys: seq<char>)
    requires |keys| > 0
    requires PermBlocks(a, keys) && PermBlocks(b, keys)
    ensures PermBlocks(a + b, keys)
    decreases |a|
  {
    if a == [] {
      assert a + b == b;
    } else {
      var n := |keys|;
      assert (a + b)[..n] == a[..n];
      assert (a + b)[n..] == a[n..] + b;
      PermBlocksAppend(a[n..], b, keys);
    }
  }

  /** Every element of a block sequence is one of the keys. */
  lemma {:induction false} PermBlocksElements(s: seq<char>, keys: seq<char>, i: nat)
    requires |keys| > 0 && PermBlocks(s, keys) && i < |s|
    ensures s[i] in keys
    decreases |s|
  {
    var n := |keys|;
    if i < n {
      assert s[i] in multiset(s[..n]);
    } else {
      assert s[i] == s[n..][i - n];
      PermBlocksElements(s[n..], keys, i - n);
    }
  }

  /** Proof helper for `BlockIsShuffle`: where block `k - 1` of the tail and block `k`
      of the whole sequence begin and end. */
  lemma BlockBounds(k: nat, n: nat)
    requires k > 0
    ensures 0 <= (k - 1) * n && n + (k - 1) * n == k * n && n + k * n == (k + 1) * n
  {
  }

  /** Fairness: block `k` of a block sequence (its `|keys|` entries from index
      `k * |keys|`) is a permutation of the keys. */
  lemma {:induction false} BlockIsShuffle(s: seq<char>, keys: seq<char>, k: nat)
    requires |keys| > 0 && PermBlocks(s, keys)
    requires (k + 1) * |keys| <= |s|
    ensures IsShuffleOf(s[k * |keys|..(k + 1) * |keys|], keys)
    decreases k
  {
    var n := |keys|;
    if k > 0 {
      var lo, hi := (k - 1) * n, k * n;
      BlockBounds(k, n);
      assert PermBlocks(s[n..], keys);
      BlockIsShuffle(s[n..], keys, k - 1);
      assert s[n..][lo..hi] == s[hi..(k + 1) * n];
    }
  }

  /** The bag state keeps `drawn + Rev(bag)` a block sequence: refilling an empty bag
      with a shuffle appends one block, popping moves the last element to `drawn`. */
  lemma {:induction false} RefillKeepsBlocks(drawn: seq<char>, bag: seq<char>, perm: seq<char>, keys: seq<char>)
    requires |keys| > 0 && IsShuffleOf(perm, keys)
    requires PermBlocks(drawn + Rev(bag), keys)
    ensures PermBlocks(drawn + Rev(Refill(bag, perm)), keys)
  {
    if bag == [] {
      RevMultiset(perm);
      ShuffleIsBlock(Rev(perm), keys);
      PermBlocksAppend(drawn + Rev(bag), Rev(perm), keys);
      assert drawn + Rev(bag) + Rev(perm) == drawn + Rev(Refill(bag, perm));
    }
  }

  lemma {:induction false} PopKeepsBlocks(drawn: seq<char>, bag: seq<char>)
    requires bag != []
    ensures drawn + Rev(bag) == (drawn + [bag[|bag| - 1]]) + Rev(bag[..|bag| - 1])
  {
    var last := bag[|bag| - 1];
    assert bag == bag[..|bag| - 1] + [last];
    RevAppendOne(bag[..|bag| - 1], last);
  }

  /** A draw (refill if empty, then pop the last id) keeps the block structure of the
      ids drawn so far followed by the bag in `pop` order. */
  lemma DrawKeepsBlocks(drawn: seq<char>, bag: seq<char>, perm: seq<char>, keys: seq<char>)
    requires |keys| > 0 && IsShuffleOf(perm, keys)
    requires PermBlocks(drawn + Rev(bag), keys)
    ensures var r := Refill(bag, perm);
            r != [] && PermBlocks(drawn + [r[|r| - 1]] + Rev(r[..|r| - 1]), keys)
  {
    var r := Refill(bag, perm);
    assert |perm| == |multiset(perm)| == |keys|;
    RefillKeepsBlocks(drawn, bag, perm, keys);
    PopKeepsBlocks(drawn, r);
  }

  /** Proof helper: a prefix of a prefix is a prefix (the bag after two pops from a
      fresh shuffle is that shuffle without its last two ids). */
  lemma PrefixOfPrefix(s: seq<char>, i: nat, j: nat)
    requires j <= i <= |s|
    ensures s[..i][..j] == s[..j]
  {
  }

  /** One shuffle on its own is a block sequence. */
  lemma ShuffleIsBlock(p: seq<char>, keys: seq<char>)
    requires |keys| > 0 && IsShuffleOf(p, keys)
    ensures PermBlocks(p, keys)
  {
    assert |p| == |multiset(p)| == |keys|;
    assert p[..|keys|] == p && p[|keys|..] == [];
  }

  /** A sliding window of draws need not be a permutation: a shuffle whose first and
      last ids differ, followed by the same shuffle rotated so that its last id leads, is
      two whole blocks, yet the window from index 1 holds that last id twice. */
  lemma {:induction false} SlidingWindowNotFair(keys: seq<char>, a: seq<char>)
    requires |keys| > 0 && IsShuffleOf(a, keys)
    requires |a| >= 2 && a[0] != a[|a| - 1]
    ensures var n := |a|;
            var s := a + ([a[n - 1]] + a[..n - 1]);
            PermBlocks(s, keys) && !IsShuffleOf(s[1..n + 1], keys)
  {
    var n := |a|;
    var last := a[n - 1];
    var b := [last] + a[..n - 1];
    var s := a + b;
    assert a == a[..n - 1] + [last];
    assert multiset(b) == multiset(a);
    ShuffleIsBlock(a, keys);
    ShuffleIsBlock(b, keys);
    PermBlocksAppend(a, b, keys);
    var w := s[1..n + 1];
    assert w == a[1..] + [last];
    assert a == [a[0]] + a[1..];
    assert multiset(w)[last] == multiset(a[1..])[last] + 1;
    assert multiset(a)[last] == multiset(a[1..])[last];
  }
}
