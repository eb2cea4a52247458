/** Finding the common ancestor with a peer (commu/sync.go): a doubling seek, then bisection. */
module CommonAncestor {
  import opened Hex
  import opened Blocks
  import opened Chains
  import opened ChainReader
  import opened BlockReading

  const Two32: nat := 0x1_0000_0000
  const Two31: nat := 0x8000_0000

  /** Chains that agree at a height agree below it, and at genesis. */
  ghost predicate Chainlike(agree: nat -> bool) {
    agree(0) && forall h: nat, l: nat :: l <= h && agree(h) ==> agree(l)
  }

  ghost predicate Greatest(agree: nat -> bool, g: nat, top: nat) {
    g <= top && agree(g) && forall h: nat :: g < h <= top ==> !agree(h)
  }

  /** A probe compares the two chains at a height, or fails. */
  ghost predicate Truthful(probe: nat -> Option<bool>, agree: nat -> bool) {
    forall h: nat :: probe(h).Some? ==> probe(h).value == agree(h)
  }

  /** The number of binary digits. */
  function Bits(n: nat): (b: nat) {
    if n == 0 then 0 else 1 + Bits(n / 2)
  }

  function Pow2(k: nat): (p: nat)
    ensures p >= 1
  {
    if k == 0 then 1 else 2 * Pow2(k - 1)
  }

  lemma {:induction false} BitsAbove(k: nat, n: nat)
    requires Pow2(k) <= n
    ensures Bits(n) > k
    decreases k
  {
    if k > 0 {
      assert Pow2(k - 1) <= n / 2;
      BitsAbove(k - 1, n / 2);
    }
  }

  lemma {:induction false} BitsGrow(m: nat, n: nat)
    requires m <= n
    ensures Bits(m) <= Bits(n)
    decreases n
  {
    if m > 0 { BitsGrow(m / 2, n / 2); }
  }

  // ----- the search, probe by probe -----

  /** Seeking back from the head by a distance, bisecting with the best height known so far, or done. */
  datatype Search = Seeking(backward: nat) | Bisecting(start: nat, end: nat, ancestor: nat) | Done(ancestor: nat)

  function Start(headNum: nat): Search {
    if headNum == 0 then Done(0) else Seeking(0)
  }

  /** How far the next probe goes back, in 32 bits. */
  function Backward(backward: nat): nat {
    if backward == 0 then 1 else backward * 2 % Two32
  }

  /** The height probed next, in 32 bits. */
  function Mid(start: nat, end: nat): nat {
    (start + end) % Two32 / 2
  }

  function Next(s: Search, headNum: nat, agree: nat -> bool): Search {
    match s
    case Seeking(b) =>
      if b >= headNum then Bisecting(0, headNum, 0)
      else if !agree(headNum - b) then Seeking(Backward(b))
      else if b == 0 then Done(headNum)
      else Bisecting(headNum - b, headNum, 0)
    case Bisecting(start, end, ancestor) =>
      if start == end then Done(if agree(start) then start else ancestor)
      else
        var mid := Mid(start, end);
        if agree(mid) then Bisecting(mid + 1, end, mid)
        else if mid > start then Bisecting(start, mid - 1, ancestor)
        else Done(ancestor)
    case Done(_) => s
  }

  function After(s: Search, k: nat, headNum: nat, agree: nat -> bool): Search
    decreases k
  {
    if k == 0 then s else After(Next(s, headNum, agree), k - 1, headNum, agree)
  }

  ghost predicate Ends(s: Search, headNum: nat, agree: nat -> bool) {
    exists k: nat :: After(s, k, headNum, agree).Done?
  }

  // ----- whatever it ends with is right -----

  /** What the search knows: nothing above end agrees, and all heights below start do. */
  ghost predicate Sound(s: Search, headNum: nat, agree: nat -> bool) {
    match s
    case Seeking(b) => headNum > 0
    case Bisecting(start, end, ancestor) =>
      && start <= end <= headNum && (forall h: nat :: end < h <= headNum ==> !agree(h))
      && (agree(start) || (agree(ancestor) && ancestor + 1 == start))
    case Done(r) => Greatest(agree, r, headNum)
  }

  lemma NextSound(s: Search, headNum: nat, agree: nat -> bool)
    requires Chainlike(agree) && headNum < Two32 && Sound(s, headNum, agree)
    ensures Sound(Next(s, headNum, agree), headNum, agree)
  {
    if s.Bisecting? && s.start < s.end {
      MidBelowEnd(s.start, s.end);
      Decides(agree, Mid(s.start, s.end));
    }
  }

  lemma MidBelowEnd(start: nat, end: nat)
    requires start < end < Two32
    ensures Mid(start, end) < end && (start + end < Two32 ==> start <= Mid(start, end))
  {
  }

  /** Agreement below and disagreement above decide every height. */
  lemma Decides(agree: nat -> bool, mid: nat)
    requires Chainlike(agree)
    ensures agree(mid) ==> forall h: nat :: h <= mid ==> agree(h)
    ensures !agree(mid) ==> forall h: nat :: mid <= h ==> !agree(h)
  {
  }

  /** Whenever the search ends, for any head, it has the greatest height at which the chains agree. */
  lemma {:induction false} EndsRight(s: Search, k: nat, headNum: nat, agree: nat -> bool)
    requires Chainlike(agree) && headNum < Two32 && Sound(s, headNum, agree)
    ensures Sound(After(s, k, headNum, agree), headNum, agree)
    decreases k
  {
    if k > 0 {
      NextSound(s, headNum, agree);
      EndsRight(Next(s, headNum, agree), k - 1, headNum, agree);
    }
  }

  // ----- when it ends -----

  lemma {:induction false} Halves(start: nat, end: nat, mid: nat)
    requires start < end <= Two31 && mid == Mid(start, end)
    ensures start <= mid < end && 1 + Bits(end - (mid + 1) + 1) <= Bits(end - start + 1)
    ensures mid > start ==> 1 + Bits(mid - 1 - start + 1) <= Bits(end - start + 1)
  {
    assert mid == (start + end) / 2;
    BitsGrow(end - mid, (end - start + 1) / 2);
    BitsGrow(mid - start, (end - start + 1) / 2);
  }

  /** A range within 2^31 that is bisected in at most k probes. */
  ghost predicate Narrow(s: Search, k: nat) {
    s.Bisecting? && s.start <= s.end <= Two31 && Bits(s.end - s.start + 1) <= k
  }

  lemma {:induction false} NarrowRight(start: nat, end: nat, k: nat)
    requires start < end <= Two31 && Bits(end - start + 1) <= k + 1
    ensures Narrow(Bisecting(Mid(start, end) + 1, end, Mid(start, end)), k)
  {
    Halves(start, end, Mid(start, end));
  }

  lemma {:induction false} NarrowLeft(start: nat, end: nat, ancestor: nat, k: nat)
    requires start < end <= Two31 && Bits(end - start + 1) <= k + 1 && Mid(start, end) > start
    ensures Narrow(Bisecting(start, Mid(start, end) - 1, ancestor), k)
  {
    Halves(start, end, Mid(start, end));
  }

  /** Up to 2^31 no sum wraps, and the range halves. */
  lemma {:induction false} NarrowNext(s: Search, k: nat, headNum: nat, agree: nat -> bool)
    requires Narrow(s, k + 1)
    ensures Next(s, headNum, agree).Done? || Narrow(Next(s, headNum, agree), k)
  {
    if s.start < s.end {
      var mid := Mid(s.start, s.end);
      if agree(mid) {
        NarrowRight(s.start, s.end, k);
      } else if mid > s.start {
        NarrowLeft(s.start, s.end, s.ancestor, k);
      }
    }
  }

  lemma SomeProbe(s: Search, k: nat)
    requires Narrow(s, k)
    ensures k > 0
  {
  }

  lemma {:induction false} BisectionEnds(s: Search, k: nat, headNum: nat, agree: nat -> bool)
    requires s.Done? || Narrow(s, k)
    ensures After(s, k, headNum, agree).Done?
    decreases k
  {
    if s.Done? {
      StaysDone(s, k, headNum, agree);
    } else {
      SomeProbe(s, k);
      NarrowNext(s, k - 1, headNum, agree);
      BisectionEnds(Next(s, headNum, agree), k - 1, headNum, agree);
    }
  }

  lemma {:induction false} StaysDone(s: Search, k: nat, headNum: nat, agree: nat -> bool)
    requires s.Done?
    ensures After(s, k, headNum, agree) == s
    decreases k
  {
    if k > 0 { StaysDone(s, k - 1, headNum, agree); }
  }

  /** After n probes the distance is the (n - 1)th power of two. */
  ghost predicate Doubling(backward: nat, probes: nat, headNum: nat) {
    probes <= Bits(headNum) + 1 && backward == if probes == 0 then 0 else Pow2(probes - 1)
  }

  lemma {:induction false} DoublingNext(backward: nat, probes: nat, headNum: nat)
    requires Doubling(backward, probes, headNum) && backward < headNum <= Two31
    ensures Doubling(Backward(backward), probes + 1, headNum)
  {
    if probes > 0 { BitsAbove(probes - 1, headNum); }
  }

  lemma {:induction false} NarrowBelow(start: nat, k: nat, headNum: nat)
    requires start <= headNum <= Two31 && Bits(headNum + 1) <= k
    ensures Narrow(Bisecting(start, headNum, 0), k)
  {
    BitsGrow(headNum - start + 1, headNum + 1);
  }

  lemma {:induction false} SeekNext(backward: nat, probes: nat, k: nat, headNum: nat, agree: nat -> bool)
    requires 0 < headNum <= Two31 && Doubling(backward, probes, headNum) && Bits(headNum + 1) <= k
    ensures var s' := Next(Seeking(backward), headNum, agree);
            s'.Done? || Narrow(s', k) || (s'.Seeking? && probes <= Bits(headNum) && Doubling(s'.backward, probes + 1, headNum))
  {
    var s' := Next(Seeking(backward), headNum, agree);
    if s'.Bisecting? { NarrowBelow(s'.start, k, headNum); }
    if s'.Seeking? { DoublingNext(backward, probes, headNum); }
  }

  /** Up to 2^31 the distance doubles until it reaches past genesis. */
  lemma {:induction false} SeekEnds(backward: nat, probes: nat, n: nat, k: nat, headNum: nat, agree: nat -> bool)
    requires 0 < headNum <= Two31 && Doubling(backward, probes, headNum) && n == Bits(headNum) + 1 - probes && Bits(headNum + 1) <= k
    ensures After(Seeking(backward), n + 1 + k, headNum, agree).Done?
    decreases n
  {
    var s' := Next(Seeking(backward), headNum, agree);
    SeekNext(backward, probes, k, headNum, agree);
    if s'.Seeking? {
      SeekEnds(s'.backward, probes + 1, n - 1, k, headNum, agree);
    } else {
      if s'.Bisecting? { assert Narrow(s', n + k); }
      BisectionEnds(s', n + k, headNum, agree);
    }
  }

  lemma {:induction false} SearchEnds(headNum: nat, n: nat, k: nat, agree: nat -> bool)
    requires headNum <= Two31 && n == Bits(headNum) + 1 && k == Bits(headNum + 1)
    ensures After(Start(headNum), n + 1 + k, headNum, agree).Done?
  {
    if headNum == 0 { StaysDone(Done(0), n + 1 + k, headNum, agree); } else { SeekEnds(0, 0, n, k, headNum, agree); }
  }

  /** For heads up to 2^31 the search ends, after logarithmically many probes. */
  lemma {:induction false} SearchIsLogarithmic(headNum: nat, agree: nat -> bool)
    requires headNum <= Two31
    ensures After(Start(headNum), Bits(headNum) + Bits(headNum + 1) + 2, headNum, agree).Done?
  {
    SearchEnds(headNum, Bits(headNum) + 1, Bits(headNum + 1), agree);
  }

  /** Above 2^31 a range that agrees up to 2^31 is bisected for ever: no midpoint gets that high. */
  ghost predicate Stuck(s: Search, agree: nat -> bool) {
    s.Bisecting? && s.start != s.end && Two31 < s.end < Two32 && forall h: nat :: h < Two31 ==> agree(h)
  }

  lemma {:induction false} StaysStuck(s: Search, k: nat, headNum: nat, agree: nat -> bool)
    requires Stuck(s, agree)
    ensures !After(s, k, headNum, agree).Done?
    decreases k
  {
    if k > 0 {
      assert Mid(s.start, s.end) < Two31;
      StaysStuck(Next(s, headNum, agree), k - 1, headNum, agree);
    }
  }

  function UpTo(top: nat): nat -> bool {
    (h: nat) => h <= top
  }

  /** A peer that lacks only the head block keeps the search busy for ever. */
  lemma OneBlockBehind(headNum: nat)
    requires Two31 < headNum < Two32
    ensures Chainlike(UpTo(headNum - 1)) && !Ends(Start(headNum), headNum, UpTo(headNum - 1))
  {
    var agree := UpTo(headNum - 1);
    var s := Bisecting(headNum - 1, headNum, 0);
    assert Next(Seeking(0), headNum, agree) == Seeking(1) && Next(Seeking(1), headNum, agree) == s;
    forall k: nat ensures !After(Seeking(0), k, headNum, agree).Done? {
      if k >= 2 {
        assert After(Seeking(0), k, headNum, agree) == After(Seeking(1), k - 1, headNum, agree);
        StaysStuck(s, k - 2, headNum, agree);
      } else if k == 1 {
        assert After(Seeking(0), 1, headNum, agree) == After(Seeking(1), 0, headNum, agree);
      }
    }
  }

  /** The search ends with every peer exactly for heads up to 2^31. */
  lemma SearchEndsIff(headNum: nat)
    requires headNum < Two32
    ensures (forall agree: nat -> bool :: Chainlike(agree) ==> Ends(Start(headNum), headNum, agree)) <==> headNum <= Two31
  {
    if headNum <= Two31 {
      forall agree: nat -> bool ensures Ends(Start(headNum), headNum, agree) { SearchIsLogarithmic(headNum, agree); }
    } else {
      OneBlockBehind(headNum);
    }
  }

  // ----- when the seek alone ends -----

  function BackwardAfter(k: nat): nat {
    if k == 0 then 0 else Backward(BackwardAfter(k - 1))
  }

  /** The distance gets to 2^31, and no further. */
  lemma Farthest() returns (k: nat)
    ensures BackwardAfter(k) == Two31
  {
    Pow31();
    k := 32;
    Around(k);
  }

  /** The seek stops at some distance exactly if the head is not above 2^31, or the chains agree 2^31 below it. */
  lemma SeekEndsIff(headNum: nat, agree: nat -> bool)
    requires Chainlike(agree) && 0 < headNum < Two32
    ensures (exists k: nat :: BackwardAfter(k) >= headNum || agree(headNum - BackwardAfter(k)))
            <==> headNum <= Two31 || agree(headNum - Two31)
  {
    var top := Farthest();
    if k: nat :| BackwardAfter(k) >= headNum || agree(headNum - BackwardAfter(k)) {
      BackwardSmall(k);
    }
  }

  /** Otherwise the whole search goes on for ever. */
  lemma SeekForever(headNum: nat, agree: nat -> bool)
    requires Chainlike(agree) && Two31 < headNum < Two32 && !agree(headNum - Two31)
    ensures !Ends(Start(headNum), headNum, agree)
  {
    SeekEndsIff(headNum, agree);
    forall k: nat ensures !After(Seeking(0), k, headNum, agree).Done? { StillSeeking(0, k, headNum, agree); }
  }

  lemma {:induction false} StillSeeking(i: nat, k: nat, headNum: nat, agree: nat -> bool)
    requires forall j: nat :: BackwardAfter(j) < headNum && !agree(headNum - BackwardAfter(j))
    ensures After(Seeking(BackwardAfter(i)), k, headNum, agree) == Seeking(BackwardAfter(i + k))
    decreases k
  {
    if k > 0 { StillSeeking(i + 1, k - 1, headNum, agree); }
  }

  /** Such as with a peer that shares the genesis block alone. */
  lemma SharedGenesisOnly(headNum: nat)
    requires Two31 < headNum < Two32
    ensures Chainlike(UpTo(0)) && !Ends(Start(headNum), headNum, UpTo(0))
  {
    SeekForever(headNum, UpTo(0));
  }

  lemma Pow31()
    ensures Pow2(31) == Two31
  {
    assert Pow2(8) == 256;
    assert Pow2(16) == 256 * Pow2(8);
    assert Pow2(24) == 256 * Pow2(16);
    assert Pow2(31) == 128 * Pow2(24);
  }

  predicate PowerOrZero(b: nat) {
    b == 0 || exists j :: 0 <= j <= 31 && b == Pow2(j)
  }

  lemma {:induction false} PowerNext(j: nat)
    requires j <= 31
    ensures PowerOrZero(Backward(Pow2(j))) && Pow2(j) <= Two31
  {
    Pow31();
    PowersGrow(j, 31);
    if j < 31 {
      PowersGrow(j + 1, 31);
      DoublesTo(Pow2(j), Pow2(j));
      assert Pow2(j + 1) == 2 * Pow2(j);
    }
  }

  lemma {:induction false} BackwardSmall(i: nat)
    ensures PowerOrZero(BackwardAfter(i)) && BackwardAfter(i) <= Two31
  {
    if i > 0 {
      BackwardSmall(i - 1);
      var b := BackwardAfter(i - 1);
      if b == 0 {
        assert Pow2(0) == 1;
      } else {
        var j :| 0 <= j <= 31 && b == Pow2(j);
        PowerNext(j);
      }
      AtMost(BackwardAfter(i));
    }
  }

  lemma {:induction false} AtMost(b: nat)
    requires PowerOrZero(b)
    ensures b <= Two31
  {
    if b != 0 {
      var j :| 0 <= j <= 31 && b == Pow2(j);
      PowerNext(j);
    }
  }

  lemma {:induction false} PowersGrow(j: nat, k: nat)
    requires j <= k
    ensures Pow2(j) <= Pow2(k)
    decreases k
  {
    if j < k { PowersGrow(j, k - 1); }
  }

  lemma DoublesTo(b: nat, p: nat)
    requires b == p > 0 && 2 * p < Two32
    ensures Backward(b) == 2 * p
  {
  }

  lemma {:induction false} Around(n: nat)
    requires 0 < n <= 32
    ensures BackwardAfter(n) == Pow2(n - 1)
    decreases n
  {
    if n > 1 {
      Around(n - 1);
      PowersGrow(n - 1, 31);
      Pow31();
      assert Pow2(n - 1) == 2 * Pow2(n - 2);
      DoublesTo(BackwardAfter(n - 1), Pow2(n - 2));
    }
  }

  // ----- the methods -----

  /** Bisection between start and end; no failing probe keeps it from the result of the search. */
  method Find(probe: nat -> Option<bool>, start: nat, end: nat, ancestor: nat, ghost agree: nat -> bool, ghost headNum: nat, ghost k: nat)
    returns (r: Option<nat>, ghost probes: nat)
    requires Truthful(probe, agree) && start <= end <= headNum < Two32
    requires After(Bisecting(start, end, ancestor), k, headNum, agree).Done?
    ensures r.Some? ==> After(Bisecting(start, end, ancestor), k, headNum, agree) == Done(r.value)
    ensures (forall h: nat :: h <= headNum ==> probe(h).Some?) ==> r.Some?
    ensures probes <= k
    decreases k
  {
    ghost var next := Next(Bisecting(start, end, ancestor), headNum, agree);
    if next.Done? { StaysDone(next, k - 1, headNum, agree); }
    if start == end {
      var overlapped := probe(start);
      if overlapped.None? { return None, 1; }
      if overlapped.value { return Some(start), 1; }
      return Some(ancestor), 1;
    }
    var mid := Mid(start, end);
    MidBelowEnd(start, end);
    var overlapped := probe(mid);
    if overlapped.None? { return None, 1; }
    if overlapped.value {
      r, probes := Find(probe, mid + 1, end, mid, agree, headNum, k - 1);
      probes := probes + 1;
    } else if mid > start {
      r, probes := Find(probe, start, mid - 1, ancestor, agree, headNum, k - 1);
      probes := probes + 1;
    } else {
      return Some(ancestor), 1;
    }
  }

  /** Back from the head by doubling distances; `left` is what remains of the k probes. */
  method FastSeek(probe: nat -> Option<bool>, headNum: nat, ghost agree: nat -> bool, ghost k: nat)
    returns (r: Option<nat>, ghost probes: nat, ghost left: nat)
    requires agree(0) && Truthful(probe, agree) && 0 < headNum < Two32
    requires After(Seeking(0), k, headNum, agree).Done?
    ensures r.Some? ==> r.value <= headNum && agree(r.value)
    ensures r.Some? && r.value < headNum ==>
              After(Bisecting(r.value, headNum, 0), left, headNum, agree) == After(Seeking(0), k, headNum, agree)
    ensures (forall h: nat :: h <= headNum ==> probe(h).Some?) ==> r.Some?
    ensures probes + left <= k
  {
    var backward: nat := 0;
    probes, left := 0, k;
    while backward < headNum
      invariant After(Seeking(backward), left, headNum, agree) == After(Seeking(0), k, headNum, agree) && probes + left <= k
      decreases left
    {
      probes, left := probes + 1, left - 1;
      var overlapped := probe(headNum - backward);
      if overlapped.None? { return None, probes, left; }
      if overlapped.value { return Some(headNum - backward), probes, left; }
      backward := Backward(backward);
    }
    return Some(0), probes, left - 1;
  }

  /** The greatest height at which the chains agree, whenever the search ends, in as many probes as that takes. */
  method FindCommonAncestor(probe: nat -> Option<bool>, headNum: nat, ghost agree: nat -> bool, ghost k: nat)
    returns (r: Option<nat>, ghost probes: nat)
    requires Chainlike(agree) && Truthful(probe, agree) && headNum < Two32
    requires After(Start(headNum), k, headNum, agree).Done?
    ensures r.Some? ==> Greatest(agree, r.value, headNum)
    ensures (forall h: nat :: h <= headNum ==> probe(h).Some?) ==> r.Some?
    ensures probes <= k
  {
    if headNum == 0 { return Some(0), 0; }
    EndsRight(Seeking(0), k, headNum, agree);
    var seekNum;
    ghost var left;
    seekNum, probes, left := FastSeek(probe, headNum, agree, k);
    if seekNum.None? || seekNum.value == headNum { return seekNum, probes; }
    ghost var probes2;
    r, probes2 := Find(probe, seekNum.value, headNum, 0, agree, headNum, left);
    probes := probes + probes2;
  }

  // ----- two branches of one tree -----

  function Agree(xs: seq<Id>, ys: seq<Id>): nat -> bool {
    (h: nat) => h < |xs| && h < |ys| && xs[h] == ys[h]
  }

  /** Branches agree downwards, and what is found is where they part. */
  lemma BranchesAreChainlike(repo: Repo, genesis: Id, a: Id, b: Id)
    requires Rooted(repo, genesis) && a in repo && b in repo
    ensures var xs, ys := Ancestry(repo, genesis, a), Ancestry(repo, genesis, b);
            && Chainlike(Agree(xs, ys)) && Common(xs, ys) > 0
            && forall g: nat :: Greatest(Agree(xs, ys), g, Number(a)) ==> g == Common(xs, ys) - 1
  {
    var xs, ys := Ancestry(repo, genesis, a), Ancestry(repo, genesis, b);
    var agree := Agree(xs, ys);
    StartsAtGenesis(repo, genesis, a);
    StartsAtGenesis(repo, genesis, b);
    forall h: nat, l: nat | l <= h && agree(h) ensures agree(l) {
      SharedPrefix(repo, genesis, a, b, h);
      SamePrefix(xs, ys, h + 1);
    }
    WhereTheyPart(xs, ys, Number(a));
  }

  lemma WhereTheyPart(xs: seq<Id>, ys: seq<Id>, top: nat)
    requires |xs| == top + 1 && ys != [] && xs[0] == ys[0] && Chainlike(Agree(xs, ys))
    ensures Common(xs, ys) > 0
    ensures forall g: nat :: Greatest(Agree(xs, ys), g, top) ==> g == Common(xs, ys) - 1
  {
    var agree, n := Agree(xs, ys), Common(xs, ys);
    SamePrefix(xs, ys, n);
    assert agree(n - 1) && !agree(n);
  }
}
