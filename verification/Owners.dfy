/** Ball lists as sequences: what each owner owns, and what the list operations of
    src/server/localballmanager.c and src/server/localball_list.c compute. */
module Owners {
  import opened Arith
  import opened Ball
  import opened Seqs

  type Balls = seq<LogicalBall>

  function Owned(s: Balls, p: int): Balls {
    if s == [] then [] else
    var n := |s| - 1;
    if s[n].owner == p then Owned(s[..n], p) + [s[n]] else Owned(s[..n], p)
  }

  function Without(s: Balls, p: int): Balls {
    if s == [] then [] else
    var n := |s| - 1;
    if s[n].owner == p then Without(s[..n], p) else Without(s[..n], p) + [s[n]]
  }

  /** The positions of owner `p`'s balls, increasing. */
  function OwnedAt(s: Balls, p: int): seq<nat> {
    if s == [] then [] else
    var n := |s| - 1;
    if s[n].owner == p then OwnedAt(s[..n], p) + [n] else OwnedAt(s[..n], p)
  }

  lemma OwnedAtSorted(s: Balls, p: int)
    ensures |OwnedAt(s, p)| == |Owned(s, p)|
    ensures forall i :: 0 <= i < |OwnedAt(s, p)| ==> OwnedAt(s, p)[i] < |s| && s[OwnedAt(s, p)[i]].owner == p
    ensures forall i, j :: 0 <= i < j < |OwnedAt(s, p)| ==> OwnedAt(s, p)[i] < OwnedAt(s, p)[j]
  {
  }

  /** The three collections of a prefix, one ball further. */
  lemma OnPrefix(s: Balls, i: nat, p: int)
    requires i < |s|
    ensures Owned(s[..i + 1], p) == if s[i].owner == p then Owned(s[..i], p) + [s[i]] else Owned(s[..i], p)
    ensures Without(s[..i + 1], p) == if s[i].owner == p then Without(s[..i], p) else Without(s[..i], p) + [s[i]]
    ensures OwnedAt(s[..i + 1], p) == if s[i].owner == p then OwnedAt(s[..i], p) + [i] else OwnedAt(s[..i], p)
  {
    assert s[..i + 1][..i] == s[..i];
  }

  /** Drops the last `k` balls of owner `p`. */
  function RemoveLast(s: Balls, p: int, k: nat): Balls {
    if k == 0 || s == [] then s else
    var n := |s| - 1;
    if s[n].owner == p then RemoveLast(s[..n], p, k - 1) else RemoveLast(s[..n], p, k) + [s[n]]
  }

  function AddBalls(s: Balls, count: int, radius: int, owner: int, rand: nat -> Draws): (r: Balls)
    requires radius != 500
    ensures |r| == |s| + Max(count, 0)
    decreases count
  {
    if count <= 0 then s else
    var r := AddBalls(s, count - 1, radius, owner, rand);
    r + [Create(|r|, radius, owner, rand(count - 1))]
  }

  function MoveAll(s: Balls): (r: Balls)
    ensures |r| == |s|
  {
    seq(|s|, i requires 0 <= i < |s| => MoveBall(s[i]))
  }

  function SpeedUpAll(s: Balls, p: int): (r: Balls)
    ensures |r| == |s|
  {
    seq(|s|, i requires 0 <= i < |s| => if s[i].owner == p then SpeedUpBall(s[i]) else s[i])
  }

  function SpeedDownAll(s: Balls, p: int): (r: Balls)
    ensures |r| == |s|
  {
    seq(|s|, i requires 0 <= i < |s| => if s[i].owner == p then SpeedDownBall(s[i]) else s[i])
  }

  // ---------- What the collections are ----------

  lemma {:induction false} OwnedAndWithout(s: Balls, p: int)
    ensures |Owned(s, p)| + |Without(s, p)| == |s|
  {
    if s != [] {
      OwnedAndWithout(s[..|s| - 1], p);
    }
  }

  /** Every ball of a list is in exactly one of the two collections, as often as in the list. */
  lemma {:induction false} Separated(s: Balls, p: int)
    ensures multiset(Owned(s, p)) + multiset(Without(s, p)) == multiset(s)
    ensures (forall b :: b in Owned(s, p) ==> b.owner == p) && (forall b :: b in Without(s, p) ==> b.owner != p)
  {
    if s != [] {
      var n := |s| - 1;
      Separated(s[..n], p);
      assert s == s[..n] + [s[n]];
    }
  }

  lemma {:induction false} WithoutMembers(s: Balls, p: int)
    ensures forall b :: b in Without(s, p) <==> b in s && b.owner != p
  {
    if s != [] {
      var n := |s| - 1;
      WithoutMembers(s[..n], p);
      assert s == s[..n] + [s[n]];
    }
  }

  /** The order is that of the list: ball i of an owner stands at position OwnedAt(s, p)[i], and no
      other position holds a ball of that owner. */
  lemma {:induction false} OwnedInOrder(s: Balls, p: int)
    ensures |OwnedAt(s, p)| == |Owned(s, p)|
    ensures forall i :: 0 <= i < |Owned(s, p)| ==> OwnedAt(s, p)[i] < |s| && Owned(s, p)[i] == s[OwnedAt(s, p)[i]]
    ensures forall k: nat :: k < |s| && s[k].owner == p ==> k in OwnedAt(s, p)
  {
    if s != [] {
      var n := |s| - 1;
      OwnedInOrder(s[..n], p);
      assert forall k: nat :: k < n ==> s[..n][k] == s[k];
    }
  }

  /** Adding keeps the old balls; ball i of the new ones has the next free id and its own draws. */
  lemma {:induction false} AddedBalls(s: Balls, count: int, radius: int, owner: int, rand: nat -> Draws)
    requires radius != 500
    ensures var t := AddBalls(s, count, radius, owner, rand);
            && |t| == |s| + Max(count, 0) && t[..|s|] == s
            && forall i :: 0 <= i < count ==> t[|s| + i] == Create(|s| + i, radius, owner, rand(i))
    decreases count
  {
    if count > 0 {
      AddedBalls(s, count - 1, radius, owner, rand);
    }
  }

  // ---------- What RemoveLast does ----------

  lemma OnAppend(s: Balls, b: LogicalBall, p: int)
    ensures Owned(s + [b], p) == if b.owner == p then Owned(s, p) + [b] else Owned(s, p)
    ensures Without(s + [b], p) == if b.owner == p then Without(s, p) else Without(s, p) + [b]
  {
  }

  /** Owner `p` keeps all balls but the last min(k, owned); everybody else keeps every ball; the
      order of the survivors is the old order. */
  lemma {:induction false} RemoveLastOwned(s: Balls, p: int, k: nat)
    ensures var m := Min(k, |Owned(s, p)|);
            && Owned(RemoveLast(s, p, k), p) == Owned(s, p)[..|Owned(s, p)| - m]
            && |RemoveLast(s, p, k)| == |s| - m
  {
    if k > 0 && s != [] {
      var n := |s| - 1;
      if s[n].owner == p {
        RemoveLastOwned(s[..n], p, k - 1);
      } else {
        RemoveLastOwned(s[..n], p, k);
        OnAppend(RemoveLast(s[..n], p, k), s[n], p);
      }
    }
  }

  lemma {:induction false} RemoveLastOthers(s: Balls, p: int, k: nat, q: int)
    requires q != p
    ensures Without(RemoveLast(s, p, k), p) == Without(s, p)
    ensures Owned(RemoveLast(s, p, k), q) == Owned(s, q)
  {
    if k > 0 && s != [] {
      var n := |s| - 1;
      if s[n].owner == p {
        RemoveLastOthers(s[..n], p, k - 1, q);
      } else {
        RemoveLastOthers(s[..n], p, k, q);
        var r := RemoveLast(s[..n], p, k);
        assert RemoveLast(s, p, k) == r + [s[n]];
        OnAppend(r, s[n], p);
        OnAppend(r, s[n], q);
      }
    }
  }

  /** Removing one more ball cuts at the next owned position from the back, before which the list
      is still untouched. */
  lemma {:induction false} RemoveLastStep(s: Balls, p: int, j: nat)
    requires j < |OwnedAt(s, p)|
    ensures var k := OwnedAt(s, p)[|OwnedAt(s, p)| - 1 - j];
            && k < |s| && k < |RemoveLast(s, p, j)|
            && RemoveLast(s, p, j)[..k + 1] == s[..k + 1]
            && RemoveLast(s, p, j + 1) == Cut(RemoveLast(s, p, j), k)
  {
    var n := |s| - 1;
    var k := OwnedAt(s, p)[|OwnedAt(s, p)| - 1 - j];
    if s[n].owner == p {
      if j > 0 {
        RemoveLastStep(s[..n], p, j - 1);
        assert s[..n][..k + 1] == s[..k + 1];
      }
    } else {
      RemoveLastStep(s[..n], p, j);
      assert s[..n][..k + 1] == s[..k + 1];
      var r := RemoveLast(s[..n], p, j);
      assert RemoveLast(s, p, j) == r + [s[n]];
      CutAppend(r, k, s[n]);
    }
  }

  lemma {:induction false} RemoveLastAll(s: Balls, p: int, k: nat)
    requires k >= |Owned(s, p)|
    ensures RemoveLast(s, p, k) == Without(s, p)
  {
    if s != [] {
      var n := |s| - 1;
      if s[n].owner == p {
        RemoveLastAll(s[..n], p, k - 1);
      } else {
        RemoveLastAll(s[..n], p, k);
        assert k == 0 ==> s == s[..n] + [s[n]];
      }
    }
  }

  // ---------- Counting ----------

  function SumOwned(s: Balls, owners: seq<int>): nat {
    if owners == [] then 0 else |Owned(s, owners[0])| + SumOwned(s, owners[1..])
  }

  /** The per-owner counts add up to the length of the list. */
  lemma {:induction false} CountsAddUp(s: Balls, owners: seq<int>)
    requires Distinct(owners) && forall b :: b in s ==> b.owner in owners
    ensures SumOwned(s, owners) == |s|
  {
    if s == [] {
      SumEmpty(owners);
    } else {
      var n := |s| - 1;
      assert s[n] in s;
      var i :| 0 <= i < |owners| && owners[i] == s[n].owner;
      SumOneMore(s, owners, i);
      CountsAddUp(s[..n], owners);
    }
  }

  lemma SumEmpty(owners: seq<int>)
    ensures SumOwned([], owners) == 0
  {
  }

  lemma {:induction false} SumWithoutLast(s: Balls, owners: seq<int>)
    requires s != [] && s[|s| - 1].owner !in owners
    ensures SumOwned(s, owners) == SumOwned(s[..|s| - 1], owners)
  {
    if owners != [] {
      SumWithoutLast(s, owners[1..]);
    }
  }

  lemma {:induction false} SumOneMore(s: Balls, owners: seq<int>, i: nat)
    requires s != [] && Distinct(owners) && i < |owners| && owners[i] == s[|s| - 1].owner
    ensures SumOwned(s, owners) == SumOwned(s[..|s| - 1], owners) + 1
  {
    if i == 0 {
      SumWithoutLast(s, owners[1..]);
    } else {
      SumOneMore(s, owners[1..], i - 1);
    }
  }
}
