/** `estimate_contract_age_secs` of `target.rs`: the deployment block found by bisection over
    whether the address had code. Any read may fail, which is `None`. */
module DeploymentSearch {
  import opened Basics

  datatype Chain = Chain(latest: Option<nat>, code: nat -> Option<bool>, timestamp: nat -> Option<nat>)

  datatype Outcome = Outcome(block: Option<nat>, probes: seq<nat>)

  /** The bisection of blocks `lo` to `hi`, with the blocks it reads, in order. */
  function Bisect(lo: nat, hi: nat, code: nat -> Option<bool>): Outcome
    requires lo <= hi
    decreases hi - lo
  {
    if lo == hi then Outcome(Some(lo), [])
    else
      var mid := lo + (hi - lo) / 2;
      match code(mid)
      case None => Outcome(None, [mid])
      case Some(true) => var o := Bisect(lo, mid, code); Outcome(o.block, [mid] + o.probes)
      case Some(false) => var o := Bisect(mid + 1, hi, code); Outcome(o.block, [mid] + o.probes)
  }

  /** What remains of a bisection after the reads in `done` is the bisection of `lo` to `hi`. */
  predicate Remains(whole: Outcome, done: seq<nat>, lo: nat, hi: nat, code: nat -> Option<bool>) {
    lo <= hi && var rest := Bisect(lo, hi, code); whole.block == rest.block && whole.probes == done + rest.probes
  }

  lemma Onward(whole: Outcome, done: seq<nat>, lo: nat, hi: nat, code: nat -> Option<bool>)
    requires lo < hi && Remains(whole, done, lo, hi, code)
    ensures var mid := lo + (hi - lo) / 2;
            match code(mid)
            case None => whole == Outcome(None, done + [mid])
            case Some(true) => Remains(whole, done + [mid], lo, mid, code)
            case Some(false) => Remains(whole, done + [mid], mid + 1, hi, code)
  {
  }

  method FindDeploymentBlock(latest: nat, code: nat -> Option<bool>) returns (block: Option<nat>, probes: seq<nat>)
    ensures Outcome(block, probes) == Bisect(0, latest, code)
  {
    probes := [];
    var lo: nat, hi: nat := 0, latest;
    ghost var whole := Bisect(lo, hi, code);
    while lo < hi
      invariant Remains(whole, probes, lo, hi, code)
    {
      Onward(whole, probes, lo, hi, code);
      var mid := lo + (hi - lo) / 2;
      probes := probes + [mid];
      var hasCode := code(mid);
      if hasCode.None? {
        return None, probes;
      }
      if hasCode.value {
        hi := mid;
      } else {
        lo := mid + 1;
      }
    }
    block := Some(lo);
  }

  method EstimateContractAgeSecs(chain: Chain, now: Option<nat>) returns (age: Option<nat>)
    ensures age == Age(chain, now)
  {
    if chain.latest.None? || chain.code(chain.latest.value) != Some(true) {
      return None;
    }
    var block, _ := FindDeploymentBlock(chain.latest.value, chain.code);
    if block.None? {
      return None;
    }
    var deployedAt := chain.timestamp(block.value);
    if deployedAt.None? || now.None? {
      return None;
    }
    age := Some(if now.value >= deployedAt.value then now.value - deployedAt.value else 0);
  }

  predicate CodeAtLatest(chain: Chain) { chain.latest.Some? && chain.code(chain.latest.value) == Some(true) }

  function Age(chain: Chain, now: Option<nat>): Option<nat> {
    if !CodeAtLatest(chain) then None
    else
      match Bisect(0, chain.latest.value, chain.code).block
      case None => None
      case Some(block) =>
        if chain.timestamp(block).None? || now.None? then None
        else Some(Max(now.value - chain.timestamp(block).value, 0))
  }

  // ---------------------------------------------------------------- what is found

  /** Code appears here: the block before, if there is one, has none. */
  predicate Appears(code: nat -> Option<bool>, block: nat) {
    code(block) == Some(true) && (block == 0 || code(block - 1) == Some(false))
  }

  /** Some of the reads failed. */
  predicate ReadFailed(code: nat -> Option<bool>, probes: seq<nat>) {
    exists i :: 0 <= i < |probes| && code(probes[i]).None?
  }

  lemma ReadFailedAhead(code: nat -> Option<bool>, mid: nat, rest: seq<nat>)
    ensures ReadFailed(code, [mid] + rest) <==> code(mid).None? || ReadFailed(code, rest)
  {
    var all := [mid] + rest;
    assert all[0] == mid;
    assert forall i :: 0 <= i < |rest| ==> all[i + 1] == rest[i];
    assert forall i :: 0 < i < |all| ==> all[i] == rest[i - 1];
  }

  lemma {:induction false} BisectFinds(lo: nat, hi: nat, code: nat -> Option<bool>)
    requires lo <= hi && code(hi) == Some(true) && (lo == 0 || code(lo - 1) == Some(false))
    ensures var o := Bisect(lo, hi, code);
            && (o.block.Some? ==> lo <= o.block.value <= hi && Appears(code, o.block.value))
            && (o.block.None? <==> ReadFailed(code, o.probes))
    decreases hi - lo
  {
    if lo < hi {
      var mid := lo + (hi - lo) / 2;
      if code(mid) == Some(true) {
        BisectFinds(lo, mid, code);
        ReadFailedAhead(code, mid, Bisect(lo, mid, code).probes);
      } else if code(mid) == Some(false) {
        BisectFinds(mid + 1, hi, code);
        ReadFailedAhead(code, mid, Bisect(mid + 1, hi, code).probes);
      } else {
        ReadFailedAhead(code, mid, []);
        assert [mid] + [] == [mid];
      }
    }
  }

  /** Whatever the history of the address, so long as it has code now and no read fails, the
      block found is one at which code appears; a failed read gives nothing. */
  lemma FindsAnAppearance(latest: nat, code: nat -> Option<bool>)
    requires code(latest) == Some(true)
    ensures var o := Bisect(0, latest, code);
            if ReadFailed(code, o.probes) then o.block.None?
            else o.block.Some? && o.block.value <= latest && Appears(code, o.block.value)
  {
    BisectFinds(0, latest, code);
  }

  /** Once there is code, there is code. */
  ghost predicate Monotone(code: nat -> Option<bool>, latest: nat) {
    forall i, j :: 0 <= i <= j <= latest && code(i) == Some(true) ==> code(j) == Some(true)
  }

  /** If code never disappears, what is found is the deployment: every block read as having code
      is at or after it, and it is the only block at which code appears. */
  lemma FindsTheDeployment(latest: nat, code: nat -> Option<bool>)
    requires code(latest) == Some(true) && Monotone(code, latest)
    ensures var found := Bisect(0, latest, code).block;
            found.Some? ==>
              && (forall i :: 0 <= i <= latest ==> (code(i) == Some(true) <==> found.value <= i))
              && (forall i :: 0 <= i <= latest && Appears(code, i) ==> i == found.value)
  {
    FindsAnAppearance(latest, code);
    var found := Bisect(0, latest, code).block;
    if found.Some? {
      forall i | 0 <= i <= latest && Appears(code, i) ensures i == found.value {
        assert i > 0 ==> !(found.value <= i - 1);
      }
    }
  }

  // ---------------------------------------------------------------- how many reads

  /** Binary digits of `n`; none for zero. */
  function BitLength(n: nat): nat { if n == 0 then 0 else 1 + BitLength(n / 2) }

  lemma {:induction false} BitLengthMonotone(m: nat, n: nat)
    requires m <= n
    ensures BitLength(m) <= BitLength(n)
  {
    if m > 0 { BitLengthMonotone(m / 2, n / 2); }
  }

  lemma {:induction false} ProbesBound(lo: nat, hi: nat, code: nat -> Option<bool>)
    requires lo <= hi
    ensures |Bisect(lo, hi, code).probes| <= BitLength(hi - lo)
    decreases hi - lo
  {
    if lo < hi {
      var mid := lo + (hi - lo) / 2;
      if code(mid) == Some(true) {
        ProbesBound(lo, mid, code);
      } else if code(mid) == Some(false) {
        ProbesBound(mid + 1, hi, code);
        BitLengthMonotone(hi - mid - 1, (hi - lo) / 2);
      }
    }
  }

  /** An address with code in every block takes the most reads. */
  lemma {:induction false} WorstCase(lo: nat, hi: nat)
    requires lo <= hi
    ensures |Bisect(lo, hi, _ => Some(true)).probes| == BitLength(hi - lo)
    decreases hi - lo
  {
    if lo < hi {
      var always: nat -> Option<bool> := _ => Some(true);
      var mid := lo + (hi - lo) / 2;
      WorstCase(lo, mid);
      assert Bisect(lo, hi, always).probes == [mid] + Bisect(lo, mid, always).probes;
    }
  }

  /** The number of bits of the latest block is the exact bound on the reads of the bisection. */
  lemma ExactBound(latest: nat, code: nat -> Option<bool>)
    ensures |Bisect(0, latest, code).probes| <= BitLength(latest)
    ensures exists worst: nat -> Option<bool> :: |Bisect(0, latest, worst).probes| == BitLength(latest)
  {
    ProbesBound(0, latest, code);
    WorstCase(0, latest);
  }

  /** The least `k` with `n <= 2^k`. */
  function CeilLog2(n: nat): nat
    requires n > 0
  {
    BitLength(n - 1)
  }

  function Pow2(k: nat): nat { if k == 0 then 1 else 2 * Pow2(k - 1) }

  lemma {:induction false} BitLengthMeaning(n: nat)
    ensures n < Pow2(BitLength(n)) && (n > 0 ==> Pow2(BitLength(n) - 1) <= n)
  {
    if n > 0 { BitLengthMeaning(n / 2); }
  }

  lemma CeilLog2Meaning(n: nat)
    requires n > 0
    ensures n <= Pow2(CeilLog2(n)) && (n > 1 ==> Pow2(CeilLog2(n) - 1) < n)
  {
    BitLengthMeaning(n - 1);
  }

  predicate PowerOfTwo(n: nat) { n > 0 && n == Pow2(BitLength(n) - 1) }

  lemma {:induction false} PowMonotone(j: nat, k: nat)
    requires j <= k
    ensures Pow2(j) <= Pow2(k)
    decreases k
  {
    if j < k { PowMonotone(j, k - 1); }
  }

  lemma TwoLengths(n: nat, shorter: nat, longer: nat)
    requires n > 0 && longer > 0 && shorter <= longer && (n == 1 ==> shorter == 0 && longer == 1)
    requires Pow2(longer - 1) <= n && n - 1 < Pow2(shorter) && (n > 1 ==> shorter > 0 && Pow2(shorter - 1) <= n - 1)
    ensures shorter < longer <==> n == Pow2(longer - 1)
  {
    if shorter < longer { PowMonotone(shorter, longer - 1); }
  }

  lemma OneMoreBit(n: nat)
    requires n > 0
    ensures BitLength(n - 1) < BitLength(n) <==> PowerOfTwo(n)
  {
    BitLengthMeaning(n);
    BitLengthMeaning(n - 1);
    BitLengthMonotone(n - 1, n);
    TwoLengths(n, BitLength(n - 1), BitLength(n));
  }

  /** Some history of the address takes more reads than the ceiling of the logarithm. */
  ghost predicate ExceedsCeilLog2(latest: nat)
    requires latest > 0
  {
    exists code: nat -> Option<bool> :: |Bisect(0, latest, code).probes| > CeilLog2(latest)
  }

  /** The documented bound, the least `k` with `latest <= 2^k`, fails exactly at powers of two. */
  lemma DocumentedBoundFailsExactly(latest: nat)
    requires latest > 0
    ensures latest <= Pow2(CeilLog2(latest)) && (latest > 1 ==> Pow2(CeilLog2(latest) - 1) < latest)
    ensures ExceedsCeilLog2(latest) <==> PowerOfTwo(latest)
  {
    CeilLog2Meaning(latest);
    OneMoreBit(latest);
    WorstCase(0, latest);
    forall code: nat -> Option<bool> ensures |Bisect(0, latest, code).probes| <= BitLength(latest) {
      ProbesBound(0, latest, code);
    }
  }

  // ---------------------------------------------------------------- the age

  lemma {:induction false} ProbesInside(lo: nat, hi: nat, code: nat -> Option<bool>)
    requires lo <= hi
    ensures forall i :: 0 <= i < |Bisect(lo, hi, code).probes| ==> lo <= Bisect(lo, hi, code).probes[i] < hi
    decreases hi - lo
  {
    if lo < hi {
      var mid := lo + (hi - lo) / 2;
      if code(mid) == Some(true) {
        ProbesInside(lo, mid, code);
      } else if code(mid) == Some(false) {
        ProbesInside(mid + 1, hi, code);
      }
    }
  }

  /** What is estimated is the time since a block at which code appeared, never negative; and
      nothing for an address without code now. */
  lemma AgeMeaning(chain: Chain, now: Option<nat>)
    ensures !CodeAtLatest(chain) ==> Age(chain, now).None?
    ensures Age(chain, now).Some? ==>
              exists block :: 0 <= block <= chain.latest.value && Appears(chain.code, block) && now.Some?
                              && chain.timestamp(block).Some?
                              && Age(chain, now).value == Max(now.value - chain.timestamp(block).value, 0)
  {
    if CodeAtLatest(chain) { FindsAnAppearance(chain.latest.value, chain.code); }
  }

  /** Every read up to the latest block would succeed. */
  ghost predicate Readable(chain: Chain) {
    chain.latest.Some? && forall b :: 0 <= b <= chain.latest.value ==> chain.code(b).Some? && chain.timestamp(b).Some?
  }

  /** With code at the latest block, the time given and no failing read there is an age: the time since
      a block at which code appears, and with code that never disappears the time since the one and
      only such block. */
  lemma AgeExists(chain: Chain, now: nat)
    requires chain.latest.Some? && chain.code(chain.latest.value) == Some(true) && Readable(chain)
    ensures exists b :: 0 <= b <= chain.latest.value && Appears(chain.code, b)
                        && Age(chain, Some(now)) == Some(Max(now - chain.timestamp(b).value, 0))
    ensures Monotone(chain.code, chain.latest.value) ==>
              forall b :: 0 <= b <= chain.latest.value && Appears(chain.code, b) ==>
                            Age(chain, Some(now)) == Some(Max(now - chain.timestamp(b).value, 0))
  {
    var latest, code := chain.latest.value, chain.code;
    ProbesInside(0, latest, code);
    FindsAnAppearance(latest, code);
    if Monotone(code, latest) { FindsTheDeployment(latest, code); }
  }

  /** There is an age exactly if there is code at the latest block, no read of the search failed, and
      the time of the block found and the time now are known. */
  lemma AgeExactly(chain: Chain, now: Option<nat>)
    ensures Age(chain, now).Some? <==>
              && chain.latest.Some? && chain.code(chain.latest.value) == Some(true) && now.Some?
              && var o := Bisect(0, chain.latest.value, chain.code);
                 !ReadFailed(chain.code, o.probes) && o.block.Some? && chain.timestamp(o.block.value).Some?
  {
    if CodeAtLatest(chain) { FindsAnAppearance(chain.latest.value, chain.code); }
  }
}
