/**
 * The list operations the deck is changed with: Swift's `remove(at:)`, the
 * remove-then-insert-at-0 requeue of a missed card, and `shuffle()` with its
 * random choices made an explicit parameter.
 *
 * Index 0 is the bottom of the visual stack; the card the user answers is the
 * last one, at index |deck| - 1.
 */
module Deck {
  import opened Cards

  /** The deck after `remove(at: i)`: the card at i is gone, the rest keep their order. */
  function RemoveAt(s: seq<Card>, i: int): (r: seq<Card>)
    requires 0 <= i < |s|
    ensures |r| == |s| - 1
    ensures forall k :: 0 <= k < i ==> r[k] == s[k]
    ensures forall k :: i <= k < |r| ==> r[k] == s[k + 1]
    ensures multiset(r) == multiset(s) - multiset{s[i]}
  {
    assert s == s[..i] + [s[i]] + s[i + 1..];
    s[..i] + s[i + 1..]
  }

  /**
   * The deck after `moveToBack(at: i)` and its deferred `insert(card, at: 0)`:
   * the same cards, with the missed one now at the bottom.
   */
  function Requeued(s: seq<Card>, i: int): (r: seq<Card>)
    requires 0 <= i < |s|
    ensures |r| == |s| && multiset(r) == multiset(s)
    ensures r[0] == s[i]
  {
    var rest := RemoveAt(s, i);
    assert s[i] in multiset(s);
    [s[i]] + rest
  }

  /**
   * Requeueing keeps the relative order of the other cards: every card that
   * was below the missed one moves one place up, every card above it stays put.
   */
  lemma RequeuedKeepsOrder(s: seq<Card>, i: int)
    requires 0 <= i < |s|
    ensures forall k :: 0 <= k < i ==> Requeued(s, i)[k + 1] == s[k]
    ensures forall k :: i < k < |s| ==> Requeued(s, i)[k] == s[k]
  {
    var r, rest := Requeued(s, i), RemoveAt(s, i);
    assert r == [s[i]] + rest;
    forall k | 0 <= k < i ensures r[k + 1] == s[k] {
      assert r[k + 1] == rest[k];
    }
    forall k | i < k < |s| ensures r[k] == s[k] {
      assert r[k] == rest[k - 1];
    }
  }

  /**
   * A requeue leaves the deck as it was exactly when the card is already at the
   * bottom, or every card from the bottom up to it equals it.
   */
  lemma RequeuedBottomOnly(s: seq<Card>, i: int)
    requires 0 <= i < |s|
    ensures Requeued(s, i) == s <==> (i == 0 || forall k :: 0 <= k <= i ==> s[k] == s[i])
  {
    var r := Requeued(s, i);
    if forall k :: 0 <= k <= i ==> s[k] == s[i] {
      RequeuedKeepsOrder(s, i);
      forall k | 0 <= k < |s| ensures r[k] == s[k] {
        if k == 0 {
        } else if k <= i {
          assert r[k] == s[k - 1];
        }
      }
    } else if r == s {
      assert i != 0;
      var k :| 0 <= k <= i && s[k] != s[i];
      ShiftedEqualIsConstant(s, i, k);
    }
  }

  /** If [s[i]] + s[..i] agrees with s[..i+1], every one of s[0..i] equals s[i]. */
  lemma {:induction false} ShiftedEqualIsConstant(s: seq<Card>, i: int, k: int)
    requires 0 <= k <= i < |s|
    requires Requeued(s, i) == s
    ensures s[k] == s[i]
    decreases k
  {
    if k > 0 {
      ShiftedEqualIsConstant(s, i, k - 1);
      RequeuedKeepsOrder(s, i);
      assert Requeued(s, i)[k] == s[k - 1];
    }
  }

  /**
   * `shuffle()` with its random choices given as `picks`: the next card of the
   * result is the one at index picks[0] among the cards still unplaced, or at
   * index 0 when the picks have run out or picks[0] is out of range. The result
   * is a permutation of the input.
   */
  function Shuffled(s: seq<Card>, picks: seq<nat>): (r: seq<Card>)
    ensures |r| == |s|
    ensures multiset(r) == multiset(s)
    decreases |s|
  {
    if s == [] then []
    else
      var j := if picks != [] && picks[0] < |s| then picks[0] else 0;
      var rest := Shuffled(RemoveAt(s, j), if picks == [] then [] else picks[1..]);
      assert multiset(s) == multiset{s[j]} + multiset(RemoveAt(s, j));
      [s[j]] + rest
  }

  /** An index of x in s. */
  function IndexOf(s: seq<Card>, x: Card): (j: nat)
    requires x in s
    ensures j < |s| && s[j] == x
  {
    if s[0] == x then 0 else 1 + IndexOf(s[1..], x)
  }

  /** Unfolds one pick of the shuffle. */
  lemma ShuffledFirstPick(s: seq<Card>, j: nat, more: seq<nat>)
    requires j < |s|
    ensures Shuffled(s, [j] + more) == [s[j]] + Shuffled(RemoveAt(s, j), more)
  {
    assert ([j] + more)[0] == j;
    assert ([j] + more)[1..] == more;
  }

  /** What is left to place after the first card of t has been taken out of s. */
  lemma RemainderAgrees(s: seq<Card>, t: seq<Card>, j: int)
    requires multiset(s) == multiset(t) && t != [] && 0 <= j < |s| && s[j] == t[0]
    ensures multiset(RemoveAt(s, j)) == multiset(t[1..])
  {
    assert t == [t[0]] + t[1..];
  }

  /** Every ordering of the deck is a possible outcome of the shuffle: `picks` produces it. */
  lemma {:induction false} ShuffledReachesEveryPermutation(s: seq<Card>, t: seq<Card>) returns (picks: seq<nat>)
    requires multiset(s) == multiset(t)
    ensures Shuffled(s, picks) == t
    decreases |s|
  {
    if s == [] {
      assert |multiset(t)| == 0;
      picks := [];
    } else {
      assert t != [] && t[0] in multiset(s) by {
        assert |multiset(t)| == |multiset(s)| > 0;
      }
      var j := IndexOf(s, t[0]);
      var rest := RemoveAt(s, j);
      assert multiset(rest) == multiset(t[1..]) by {
        RemainderAgrees(s, t, j);
      }
      var more := ShuffledReachesEveryPermutation(rest, t[1..]);
      picks := [j] + more;
      assert Shuffled(s, picks) == t by {
        ShuffledFirstPick(s, j, more);
        assert t == [t[0]] + t[1..];
      }
    }
  }
}
