/** The block reward: how it falls over time, and how it is shared among the miners of a block. */
module Rewards {
  import opened ChainState
  import opened MiniBlocks
  import opened Totals

  // Bitcoin's interval (210000 * 600 seconds) and reward (41 * 100000 for 600 seconds), for this block time.
  const REDUCTION_INTERVAL := 7000000
  const BASE_REWARD := 123000

  function Halvings(v: nat, n: nat): nat {
    if n == 0 then v else Halvings(v, n - 1) / 2
  }

  /** The subsidy of a block: the base reward, halved once, and once more in every interval. */
  function CalcBlockReward(height: nat): nat {
    Halvings(BASE_REWARD, (height + REDUCTION_INTERVAL) / REDUCTION_INTERVAL)
  }

  /** The subsidies of the blocks up to height n; the genesis block pays none. */
  function Issued(n: nat): nat {
    if n == 0 then 0 else Issued(n - 1) + CalcBlockReward(n)
  }

  /** The subsidies of one block in each of the first q intervals. */
  function PerInterval(q: nat): nat {
    if q == 0 then 0 else PerInterval(q - 1) + Halvings(BASE_REWARD, q)
  }

  lemma {:induction false} RewardIn(q: nat, r: nat)
    requires r < REDUCTION_INTERVAL
    ensures CalcBlockReward(q * REDUCTION_INTERVAL + r) == Halvings(BASE_REWARD, q + 1)
  {
    assert (q * REDUCTION_INTERVAL + r + REDUCTION_INTERVAL) / REDUCTION_INTERVAL == q + 1;
  }

  /** Height 0 belongs to the first interval, but its subsidy is not issued. */
  lemma {:induction false} IssuedIs(q: nat, r: nat)
    requires r <= REDUCTION_INTERVAL && q * REDUCTION_INTERVAL + r > 0
    ensures Issued(q * REDUCTION_INTERVAL + r - 1) + CalcBlockReward(0)
      == REDUCTION_INTERVAL * PerInterval(q) + r * Halvings(BASE_REWARD, q + 1)
    decreases q, r
  {
    hide Halvings, CalcBlockReward;
    var n := q * REDUCTION_INTERVAL + r;
    if r > 0 {
      RewardIn(q, r - 1);
      if n > 1 {
        assert Issued(n - 1) == Issued(n - 2) + CalcBlockReward(n - 1);
        IssuedIs(q, r - 1);
      } else {
        assert q == 0 && r == 1;
        assert PerInterval(0) == 0;
      }
    } else {
      IssuedIs(q - 1, REDUCTION_INTERVAL);
    }
  }

  const ALL_INTERVALS := 122992

  lemma {:induction false} HalvingsSmall()
    ensures Halvings(BASE_REWARD, 17) == 0 && PerInterval(16) == ALL_INTERVALS
  {
    assert BASE_REWARD == 123000;
    assert Halvings(123000, 4) == 7687 && PerInterval(4) == 61500 + 30750 + 15375 + 7687;
    assert Halvings(123000, 8) == 480 && PerInterval(8) == PerInterval(4) + 3843 + 1921 + 960 + 480;
    assert Halvings(123000, 12) == 30 && PerInterval(12) == PerInterval(8) + 240 + 120 + 60 + 30;
    assert Halvings(123000, 16) == 1 && PerInterval(16) == PerInterval(12) + 15 + 7 + 3 + 1;
  }

  lemma {:induction false} NoneLeft(q: nat)
    requires q >= 17
    ensures Halvings(BASE_REWARD, q) == 0
  {
    hide Halvings;
    HalvingsSmall();
    ZeroStays(BASE_REWARD, 17, q);
  }

  lemma {:induction false} ZeroStays(v: nat, n: nat, m: nat)
    requires n <= m && Halvings(v, n) == 0
    ensures Halvings(v, m) == 0
  {
    if n < m { ZeroStays(v, n, m - 1); }
  }

  lemma {:induction false} PerIntervalGrows(p: nat, q: nat)
    requires p <= q
    ensures PerInterval(p) <= PerInterval(q)
  {
    if p < q { PerIntervalGrows(p, q - 1); }
  }

  lemma {:induction false} PerIntervalFlat(q: nat)
    requires q >= 16
    ensures PerInterval(q) == ALL_INTERVALS
  {
    hide Halvings, PerInterval;
    if q > 16 {
      PerIntervalFlat(q - 1);
      NoneLeft(q);
      PerIntervalNext(q - 1);
    } else {
      HalvingsSmall();
    }
  }

  lemma {:induction false} PerIntervalBound(q: nat)
    ensures PerInterval(q) <= ALL_INTERVALS
    ensures q >= 17 ==> Halvings(BASE_REWARD, q) == 0
    ensures q >= 16 ==> PerInterval(q) == ALL_INTERVALS
  {
    hide Halvings, PerInterval;
    if q >= 16 { PerIntervalFlat(q); } else { PerIntervalGrows(q, 16); PerIntervalFlat(16); }
    if q >= 17 { NoneLeft(q); }
  }

  const NOT_ISSUED := 61500

  /** However many blocks there are, no more than this is ever issued, and this much in the end: the subsidies of
      all intervals but for that of height 0. */
  lemma {:induction false} TotalIssue(n: nat)
    ensures CalcBlockReward(0) == NOT_ISSUED
    ensures Issued(n) <= 7000000 * 122992 - 61500
    ensures n + 1 >= 16 * 7000000 ==> Issued(n) == 7000000 * 122992 - 61500
  {
    hide Issued, PerInterval;
    assert CalcBlockReward(0) == Halvings(BASE_REWARD, 0) / 2;
    var q, r := (n + 1) / REDUCTION_INTERVAL, (n + 1) % REDUCTION_INTERVAL;
    IssuedAll(n, q, r);
  }

  lemma {:induction false} IssuedAll(n: nat, q: nat, r: nat)
    requires n + 1 == q * REDUCTION_INTERVAL + r && r < REDUCTION_INTERVAL
    ensures Issued(n) + CalcBlockReward(0) <= REDUCTION_INTERVAL * ALL_INTERVALS
    ensures q >= 16 ==> Issued(n) + CalcBlockReward(0) == REDUCTION_INTERVAL * ALL_INTERVALS
  {
    hide Issued, PerInterval, Halvings, CalcBlockReward;
    IssuedIs(q, r);
    RestOfInterval(r, Halvings(BASE_REWARD, q + 1));
    PerIntervalBound(q);
    PerIntervalBound(q + 1);
    PerIntervalNext(q);
  }

  lemma RestOfInterval(r: nat, v: nat)
    requires r < REDUCTION_INTERVAL
    ensures r * v <= REDUCTION_INTERVAL * v && (v == 0 ==> r * v == 0)
  {
  }

  lemma PerIntervalNext(q: nat)
    ensures PerInterval(q + 1) == PerInterval(q) + Halvings(BASE_REWARD, q + 1)
  {
  }

  // ---------- sharing ----------

  function Added(balances: map<nat, nat>, k: nat, amount: nat): map<nat, nat>
    requires k in balances
  {
    balances[k := balances[k] + amount]
  }

  lemma {:induction false} TotalAdded(balances: map<nat, nat>, k: nat, amount: nat)
    requires k in balances
    ensures Total(Added(balances, k, amount)) == Total(balances) + amount
  {
    TotalRaised(balances, k, amount);
  }

  /** A miniblock of a block, as far as it is paid: its miner's account, and whether it is final. */
  datatype Payee = Payee(account: nat, final: bool)

  function Others(ps: seq<Payee>): (n: nat)
    ensures n <= |ps|
  {
    if ps == [] then 0 else Others(ps[..|ps| - 1]) + if ps[|ps| - 1].final then 0 else 1
  }

  /** How many of the other miniblocks belong to an account. */
  function Mined(ps: seq<Payee>, a: nat): nat {
    if ps == [] then 0
    else
      var p := ps[|ps| - 1];
      Mined(ps[..|ps| - 1], a) + if !p.final && p.account == a then 1 else 0
  }

  /** Everyone who is paid has an account. */
  predicate Payable(balances: map<nat, nat>, integrator: nat, ps: seq<Payee>) {
    integrator in balances && forall i :: 0 <= i < |ps| && !ps[i].final ==> ps[i].account in balances
  }

  /** A share for every other miniblock and one for the integrator, who also gets the remainder. */
  function RewardPaid(height: nat, fees: nat, ps: seq<Payee>): nat
    requires |ps| > 0
  {
    Share(height, fees, |ps|) * (Others(ps) + 1) + FullReward(height, fees) % |ps|
  }

  /** What an account gets: a share for each of its miniblocks, and the integrator's share and remainder. */
  function Due(height: nat, fees: nat, integrator: nat, ps: seq<Payee>, a: nat): nat
    requires |ps| > 0
  {
    Share(height, fees, |ps|) * Mined(ps, a)
    + if a == integrator then Share(height, fees, |ps|) + FullReward(height, fees) % |ps| else 0
  }

  /** In numbers: of 61507 and ten miniblocks, a miner of one gets 6150, and so does the integrator, who also gets
      6150 and the 7 that are left. */
  lemma {:induction false} DueOfTen(ps: seq<Payee>, a: nat, b: nat)
    requires |ps| == 10 && Mined(ps, a) == Mined(ps, b) == 1 && a != b
    ensures FullReward(1, 7) == 61507 && Due(1, 7, b, ps, a) == 6150 && Due(1, 7, b, ps, b) == 6150 + 6150 + 7
  {
    hide Mined;
    assert Halvings(BASE_REWARD, 1) == 61500;
    assert CalcBlockReward(1) == 61500;
    assert Share(1, 7, 10) == 6150;
  }

  /** Subsidy and fees, added up in 64 bits. */
  function FullReward(height: nat, fees: nat): (r: nat)
    ensures CalcBlockReward(height) + fees < UINT64 ==> r == CalcBlockReward(height) + fees
  {
    (CalcBlockReward(height) + fees) % UINT64
  }

  /** Every account has got its shares for the first miniblocks, and the integrator his part. */
  ghost predicate Credited(was: map<nat, nat>, now: map<nat, nat>, integrator: nat, share: nat, rest: nat, ps: seq<Payee>) {
    now.Keys == was.Keys
    && forall a :: a in was ==> now[a] == was[a] + share * Mined(ps, a) + if a == integrator then share + rest else 0
  }

  lemma {:induction false} CreditedFirst(was: map<nat, nat>, integrator: nat, share: nat, rest: nat)
    requires integrator in was
    ensures Credited(was, Added(was, integrator, share + rest), integrator, share, rest, [])
  {
    assert share * 0 == 0;
  }

  lemma {:induction false} CreditedSame(was: map<nat, nat>, now: map<nat, nat>, integrator: nat, share: nat, rest: nat, ps: seq<Payee>, i: nat)
    requires i < |ps| && ps[i].final && Credited(was, now, integrator, share, rest, ps[..i])
    ensures Credited(was, now, integrator, share, rest, ps[..i + 1])
  {
    assert ps[..i + 1][..i] == ps[..i];
  }

  lemma {:induction false} CreditedNext(was: map<nat, nat>, now: map<nat, nat>, integrator: nat, share: nat, rest: nat, ps: seq<Payee>, i: nat)
    requires i < |ps| && !ps[i].final && ps[i].account in now && Credited(was, now, integrator, share, rest, ps[..i])
    ensures Credited(was, Added(now, ps[i].account, share), integrator, share, rest, ps[..i + 1])
  {
    assert ps[..i + 1][..i] == ps[..i];
    OneMore(share, Mined(ps[..i], ps[i].account));
  }

  lemma {:induction false} CreditedAll(was: map<nat, nat>, now: map<nat, nat>, integrator: nat, ps: seq<Payee>, fees: nat, height: nat)
    requires |ps| > 0 && Credited(was, now, integrator, Share(height, fees, |ps|), FullReward(height, fees) % |ps|, ps)
    ensures forall a :: a in was ==> now[a] == was[a] + Due(height, fees, integrator, ps, a)
  {
  }

  /** Pays subsidy and fees out in equal shares: one for every miniblock that is not final, and one with the
      remainder for the integrator. None if an account is missing, or if there are no miniblocks. */
  method ProcessMinerTransaction(balances: map<nat, nat>, integrator: nat, ps: seq<Payee>, fees: nat, height: nat)
    returns (r: Option<map<nat, nat>>)
    ensures r.Some? <==> |ps| > 0 && Payable(balances, integrator, ps)
    ensures r.Some? ==> r.value.Keys == balances.Keys
    ensures r.Some? ==> forall a :: a in balances ==> r.value[a] == balances[a] + Due(height, fees, integrator, ps, a)
    ensures r.Some? ==> Total(r.value) == Total(balances) + RewardPaid(height, fees, ps)
  {
    hide Total, FullReward, Share, Credited, Mined;
    if |ps| == 0 { return None; }
    var full := FullReward(height, fees);
    var share := full / |ps|;
    ShareIs(height, fees, |ps|);
    var leftover := full - share * |ps|;
    if integrator !in balances { return None; }
    TotalAdded(balances, integrator, share + leftover);
    var b := Added(balances, integrator, share + leftover);
    var i := 0;
    assert ps[..0] == [];
    assert share * 0 == 0;
    CreditedFirst(balances, integrator, share, leftover);
    while i < |ps|
      invariant 0 <= i <= |ps| && b.Keys == balances.Keys
      invariant Payable(balances, integrator, ps[..i])
      invariant Total(b) == Total(balances) + share + leftover + share * Others(ps[..i])
      invariant Credited(balances, b, integrator, share, leftover, ps[..i])
    {
      assert ps[..i + 1] == ps[..i] + [ps[i]];
      assert ps[..i + 1][..i] == ps[..i];
      if ps[i].final {
        CreditedSame(balances, b, integrator, share, leftover, ps, i);
      } else {
        if ps[i].account !in b { return None; }
        TotalAdded(b, ps[i].account, share);
        OneMore(share, Others(ps[..i]));
        CreditedNext(balances, b, integrator, share, leftover, ps, i);
        b := Added(b, ps[i].account, share);
      }
      i := i + 1;
    }
    assert ps[..i] == ps;
    OneMore(share, Others(ps));
    CreditedAll(balances, b, integrator, ps, fees, height);
    return Some(b);
  }

  function Share(height: nat, fees: nat, n: nat): nat
    requires n > 0
  {
    FullReward(height, fees) / n
  }

  lemma ShareIs(height: nat, fees: nat, n: nat)
    requires n > 0
    ensures var full := FullReward(height, fees);
      Share(height, fees, n) == full / n && full - (full / n) * n == full % n
  {
  }

  lemma OneMore(share: nat, n: nat)
    ensures share * (n + 1) == share * n + share
  {
  }

  lemma {:induction false} OthersOf(ps: seq<Payee>, ms: seq<MiniBlock>)
    requires |ps| == |ms| && forall i :: 0 <= i < |ps| ==> ps[i].final == ms[i].final
    ensures Others(ps) + Finals(ms) == |ps|
  {
    if ps != [] { OthersOf(ps[..|ps| - 1], ms[..|ms| - 1]); }
  }

  /** What a block adds to all balances is at most subsidy and fees, and exactly that if and only if it has
      one final miniblock, or too little to share. */
  lemma {:induction false} RewardConserved(height: nat, fees: nat, tips: seq<nat>, ms: seq<MiniBlock>, ps: seq<Payee>)
    requires height > 0 && Acceptable(height, tips, ms)
    requires |ps| == |ms| && forall i :: 0 <= i < |ps| ==> ps[i].final == ms[i].final
    ensures |ps| > 0
    ensures var full := FullReward(height, fees);
      && RewardPaid(height, fees, ps) <= full
      && (RewardPaid(height, fees, ps) == full <==> Finals(ms) == 1 || full < OTHERS + 1)
      && (height >= SOFT_FORK_HEIGHT ==> RewardPaid(height, fees, ps) == full)
  {
    hide FullReward, Others, Finals, Share;
    OthersOf(ps, ms);
    if height >= SOFT_FORK_HEIGHT { SoftForkRule(height, tips, ms); }
    ShareIs(height, fees, |ps|);
    var share := Share(height, fees, |ps|);
    var missing := Finals(ms) - 1;
    assert share * |ps| == share * (Others(ps) + 1) + share * missing by { assert |ps| == Others(ps) + 1 + missing; }
    Positive(share, missing);
    assert share == 0 <==> FullReward(height, fees) < |ps|;
  }

  /** Below the soft fork, a block with two final miniblocks pays out 6150 units less than it could. */
  lemma {:induction false} TwoFinals(ms: seq<MiniBlock>, ps: seq<Payee>, m: MiniBlock)
    requires m == MiniBlock(1, false, false, 1, 0, 1, (7, 0), [], 0, (0, 0, 0))
    requires ms == [m, m, m, m, m, m, m, m, m.(final := true), m.(final := true)]
    requires |ps| == 10 && forall i :: 0 <= i < 10 ==> ps[i].final == ms[i].final
    ensures Acceptable(1, [7], ms)
    ensures FullReward(1, 0) == 61500 && RewardPaid(1, 0, ps) == 55350
  {
    FinalsOfTen(ms);
    OthersOf(ps, ms);
    assert Halvings(BASE_REWARD, 1) == 61500;
    assert CalcBlockReward(1) == 61500;
    assert Share(1, 0, 10) == 6150;
  }

  lemma {:induction false} FinalsOfTen(ms: seq<MiniBlock>)
    requires |ms| == 10 && ms[8].final && ms[9].final && forall i :: 0 <= i < 8 ==> !ms[i].final
    ensures Finals(ms) == 2
  {
    NoFinals(ms[..8]);
    assert ms[..9][..8] == ms[..8];
    assert Finals(ms[..9]) == 1;
  }

  lemma {:induction false} NoFinals(ms: seq<MiniBlock>)
    requires forall i :: 0 <= i < |ms| ==> !ms[i].final
    ensures Finals(ms) == 0
  {
    if ms != [] { NoFinals(ms[..|ms| - 1]); }
  }

  lemma Positive(a: nat, b: nat)
    ensures a * b >= 0 && (a * b == 0 <==> a == 0 || b == 0)
  {
  }

  // ---------- the genesis block ----------

  /** Accounts that are put into the tree, with their amounts; a later one overwrites an earlier one. */
  function Premined(balances: map<nat, nat>, ps: seq<(nat, nat)>): map<nat, nat> {
    if ps == [] then balances else Premined(balances, ps[..|ps| - 1])[ps[|ps| - 1].0 := ps[|ps| - 1].1]
  }

  function SumOf(ps: seq<(nat, nat)>): nat {
    if ps == [] then 0 else SumOf(ps[..|ps| - 1]) + ps[|ps| - 1].1
  }

  /** The genesis block pays no reward: it creates the account of its miner with the premine, and outside the
      main network the accounts of a list. */
  method ProcessGenesisTransaction(balances: map<nat, nat>, miner: nat, value: nat, mainnet: bool, list: seq<(nat, nat)>)
    returns (r: map<nat, nat>)
    ensures r == Premined(balances, [(miner, value)] + if mainnet then [] else list)
  {
    hide Premined;
    r := balances[miner := value];
    PreminedNone(balances);
    PreminedNext(balances, [], (miner, value));
    assert [] + [(miner, value)] == [(miner, value)] == [(miner, value)] + list[..0];
    if mainnet {
      assert [(miner, value)] + [] == [(miner, value)];
      return;
    }
    var i := 0;
    while i < |list|
      invariant 0 <= i <= |list| && r == Premined(balances, [(miner, value)] + list[..i])
    {
      PreminedNext(balances, [(miner, value)] + list[..i], list[i]);
      assert [(miner, value)] + list[..i] + [list[i]] == [(miner, value)] + list[..i + 1];
      r := r[list[i].0 := list[i].1];
      i := i + 1;
    }
    assert list[..i] == list;
  }

  lemma PreminedNone(balances: map<nat, nat>)
    ensures Premined(balances, []) == balances
  {
  }

  lemma PreminedNext(balances: map<nat, nat>, ps: seq<(nat, nat)>, p: (nat, nat))
    ensures Premined(balances, ps + [p]) == Premined(balances, ps)[p.0 := p.1]
  {
    assert (ps + [p])[..|ps|] == ps;
  }

  /** All accounts being new and different, what is added is the sum of the amounts. */
  lemma {:induction false} PremineTotal(balances: map<nat, nat>, ps: seq<(nat, nat)>)
    requires forall i :: 0 <= i < |ps| ==> ps[i].0 !in balances
    requires forall i, j :: 0 <= i < j < |ps| ==> ps[i].0 != ps[j].0
    ensures Total(Premined(balances, ps)) == Total(balances) + SumOf(ps)
    ensures forall k :: k in Premined(balances, ps) <==> k in balances || exists i :: 0 <= i < |ps| && ps[i].0 == k
  {
    hide Total;
    if ps != [] {
      var n := |ps| - 1;
      var front := ps[..n];
      assert forall i :: 0 <= i < n ==> front[i] == ps[i];
      PremineTotal(balances, front);
      var b := Premined(balances, front);
      assert ps[n].0 !in b;
      TotalWithout(b[ps[n].0 := ps[n].1], ps[n].0);
      assert b[ps[n].0 := ps[n].1] - {ps[n].0} == b;
      forall k ensures k in Premined(balances, ps) <==> k in balances || exists i :: 0 <= i < |ps| && ps[i].0 == k {
        if k == ps[n].0 { assert ps[n].0 == k; }
        if i :| 0 <= i < |ps| && ps[i].0 == k { if i < n { assert front[i].0 == k; } }
      }
    }
  }
}
