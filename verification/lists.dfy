/** Removal from a t_list, the way the kernel's loops do it. */
module Lists {

  /** list_remove. */
  function RemoveAt<T>(s: seq<T>, i: nat): (r: seq<T>)
    requires i < |s|
    ensures |r| == |s| - 1
  {
    s[..i] + s[i + 1..]
  }

  /** The list after a loop that removes by index and still advances: the element that
      slides into the place of a removed one is never looked at. */
  function DropSkipping<T>(ps: seq<T>, mine: T -> bool): (qs: seq<T>)
    ensures forall g <- qs :: g in ps
  {
    if ps == [] then []
    else if !mine(ps[0]) then [ps[0]] + DropSkipping(ps[1..], mine)
    else if |ps| == 1 then []
    else [ps[1]] + DropSkipping(ps[2..], mine)
  }

  /** Such a loop removes every element it should iff no two of them are neighbours. */
  lemma {:induction false} DropsAllIff<T>(ps: seq<T>, mine: T -> bool)
    ensures (forall g <- DropSkipping(ps, mine) :: !mine(g))
       <==> (forall i :: 0 <= i < |ps| - 1 ==> !(mine(ps[i]) && mine(ps[i + 1])))
  {
    if ps == [] {
    } else if !mine(ps[0]) {
      DropsAllIff(ps[1..], mine);
      var r := DropSkipping(ps[1..], mine);
      assert forall g <- r :: g in [ps[0]] + r;
      if forall i :: 0 <= i < |ps| - 1 ==> !(mine(ps[i]) && mine(ps[i + 1])) {
        forall i | 0 <= i < |ps| - 2
          ensures !(mine(ps[1..][i]) && mine(ps[1..][i + 1]))
        {
          assert !(mine(ps[i + 1]) && mine(ps[i + 1 + 1]));
        }
      }
      if forall i :: 0 <= i < |ps[1..]| - 1 ==> !(mine(ps[1..][i]) && mine(ps[1..][i + 1])) {
        forall i | 0 <= i < |ps| - 1
          ensures !(mine(ps[i]) && mine(ps[i + 1]))
        {
          if i > 0 {
            assert !(mine(ps[1..][i - 1]) && mine(ps[1..][i - 1 + 1]));
          }
        }
      }
    } else if |ps| > 1 {
      DropsAllIff(ps[2..], mine);
      var r := DropSkipping(ps[2..], mine);
      assert forall g <- r :: g in [ps[1]] + r;
      assert ps[1] in [ps[1]] + r;
      if forall i :: 0 <= i < |ps| - 1 ==> !(mine(ps[i]) && mine(ps[i + 1])) {
        assert !(mine(ps[0]) && mine(ps[0 + 1]));
        forall i | 0 <= i < |ps[2..]| - 1
          ensures !(mine(ps[2..][i]) && mine(ps[2..][i + 1]))
        {
          assert !(mine(ps[i + 2]) && mine(ps[i + 2 + 1]));
        }
      }
      if !mine(ps[1]) && forall i :: 0 <= i < |ps[2..]| - 1 ==> !(mine(ps[2..][i]) && mine(ps[2..][i + 1])) {
        forall i | 0 <= i < |ps| - 1
          ensures !(mine(ps[i]) && mine(ps[i + 1]))
        {
          if i > 1 {
            assert !(mine(ps[2..][i - 2]) && mine(ps[2..][i - 2 + 1]));
          }
        }
      }
    }
  }

  /** Whether the element at i outlives the loop: it is not one to remove, or slid into the
      place of one that was. */
  function Outlives<T>(ps: seq<T>, mine: T -> bool, i: nat): bool
    requires i < |ps|
  {
    !mine(ps[i]) || (i > 0 && mine(ps[i - 1]) && !Outlives(ps, mine, i - 1))
  }

  function Outliving<T>(ps: seq<T>, mine: T -> bool, n: nat): seq<T>
    requires n <= |ps|
  {
    if n == 0 then []
    else Outliving(ps, mine, n - 1) + if Outlives(ps, mine, n - 1) then [ps[n - 1]] else []
  }

  /** Of elements to remove that stand in a row the loop removes the first, the third and so
      on; everything else it leaves, in order. */
  lemma {:induction false} DropsEveryOther<T>(ps: seq<T>, mine: T -> bool)
    ensures DropSkipping(ps, mine) == Outliving(ps, mine, |ps|)
    decreases |ps|
  {
    if ps == [] {
    } else if !mine(ps[0]) {
      DropsEveryOther(ps[1..], mine);
      Shifted(ps, mine, 1, |ps|);
    } else if |ps| > 1 {
      DropsEveryOther(ps[2..], mine);
      Shifted(ps, mine, 2, |ps|);
      assert Outliving(ps, mine, 1) == [] && Outliving(ps, mine, 2) == [ps[1]];
    }
  }

  /** After an element that was kept, or slid into the place of a removed one, the rest goes
      as if it stood alone. */
  lemma {:induction false} Shifted<T>(ps: seq<T>, mine: T -> bool, k: nat, n: nat)
    requires 0 < k <= n <= |ps| && Outlives(ps, mine, k - 1)
    ensures Outliving(ps, mine, n) == Outliving(ps, mine, k) + Outliving(ps[k..], mine, n - k)
    ensures n > k ==> (Outlives(ps, mine, n - 1) <==> Outlives(ps[k..], mine, n - k - 1))
    decreases n
  {
    if n > k {
      Shifted(ps, mine, k, n - 1);
    }
  }

  /** One turn of the removal loop is one unfolding of DropSkipping. */
  lemma DropTurn<T>(s: seq<T>, i: nat, mine: T -> bool)
    requires i < |s|
    ensures if !mine(s[i]) then s[..i + 1] + DropSkipping(s[i + 1..], mine) == s[..i] + DropSkipping(s[i..], mine)
            else if i + 1 == |s| then s[..i] + s[i + 1..] == s[..i] + DropSkipping(s[i..], mine)
            else var r := s[..i] + s[i + 1..];
              r[..i + 1] + DropSkipping(r[i + 1..], mine) == s[..i] + DropSkipping(s[i..], mine)
  {
    assert s[i..][1..] == s[i + 1..];
    assert s[..i + 1] == s[..i] + [s[i]];
    if mine(s[i]) && i + 1 < |s| {
      var r := s[..i] + s[i + 1..];
      assert s[i..][2..] == s[i + 2..] == r[i + 1..];
      assert r[..i + 1] == s[..i] + [s[i + 1]];
    }
  }
}
