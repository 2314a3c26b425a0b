/** The stored balances of one contract over all transactions of a block. */
module BlockLedger {
  import opened ChainState
  import opened Variables
  import opened Ledger

  // Every transaction that names the contract's token loads the contract's tree again from the snapshot of the
  // block below, and drops what earlier calls in the block have done to it; what those have paid stays paid.

  /** What a transaction does to the contract: a call that goes through, or loading its tree again. */
  datatype Step = Called(incoming: map<Bytes, nat>, raw: View, ts: seq<Transfer>) | Reloaded

  function TreeAfter(start: View, scid: Bytes, steps: seq<Step>): View {
    if steps == [] then start
    else
      match steps[|steps| - 1]
      case Reloaded => start
      case Called(incoming, raw, ts) => Settled(TreeAfter(start, scid, steps[..|steps| - 1]), map[], scid, incoming, raw, ts)
  }

  /** Every call has passed the checks on the tree it found. */
  ghost predicate Sound(start: View, scid: Bytes, steps: seq<Step>) {
    steps == [] ||
    (Sound(start, scid, steps[..|steps| - 1]) &&
     match steps[|steps| - 1]
     case Reloaded => true
     case Called(incoming, raw, ts) =>
       var tree := TreeAfter(start, scid, steps[..|steps| - 1]);
       VariableKeys(raw) && Covered(tree, Written(Deposited(tree, map[], scid, incoming), scid, raw), scid, ts))
  }

  /** What came in, and what was sent, in all calls. */
  function AllIn(steps: seq<Step>, asset: Bytes): nat {
    if steps == [] then 0
    else
      var s := steps[|steps| - 1];
      AllIn(steps[..|steps| - 1], asset) + if s.Called? then Incoming(s.incoming, asset) else 0
  }

  function AllOut(steps: seq<Step>, asset: Bytes): nat {
    if steps == [] then 0
    else
      var s := steps[|steps| - 1];
      AllOut(steps[..|steps| - 1], asset) + if s.Called? then Sent(s.ts, asset) else 0
  }

  /** The steps before the last reload, which it drops. */
  function Dropped(steps: seq<Step>): (d: seq<Step>)
    ensures |d| <= |steps| && d == steps[..|d|]
    ensures forall i :: |d| <= i < |steps| ==> steps[i].Called?
  {
    if steps == [] then []
    else if steps[|steps| - 1].Reloaded? then steps
    else Dropped(steps[..|steps| - 1])
  }

  lemma WrapAgain(x: int, y: int)
    ensures Wrap64(Wrap64(x) + y) == Wrap64(x + y)
  {
  }

  lemma {:induction false} OneCall(v: int, w: int, sent: int, inc: int, out: int, sum: int)
    requires w + sent == Wrap64(v + inc) && Wrap64(v + out) == Wrap64(sum)
    ensures Wrap64(w + out + sent) == Wrap64(sum + inc)
  {
    hide Wrap64;
    WrapAgain(v + inc, out);
    WrapAgain(v + out, inc);
    WrapAgain(sum, inc);
    assert w + out + sent == Wrap64(v + inc) + out;
    assert v + inc + out == v + out + inc;
  }

  /** Modulo 2^64, what is stored at the end has grown by what came in less what was sent since the last reload. */
  lemma {:induction false} StoredAfter(start: View, scid: Bytes, steps: seq<Step>, asset: Bytes)
    requires Sound(start, scid, steps) && IsAssetId(asset) && asset != scid
    ensures var d := Dropped(steps);
      Wrap64(AssetValue(TreeAfter(start, scid, steps), map[], asset) + AllOut(steps, asset) - AllOut(d, asset))
      == Wrap64(AssetValue(start, map[], asset) + AllIn(steps, asset) - AllIn(d, asset))
    decreases |steps|
  {
    hide Settled, Covered, Written, Deposited, AssetValue, Sent, Incoming, VariableKeys, IsAssetId, Wrap64;
    if steps != [] && steps[|steps| - 1].Called? {
      var front, s := steps[..|steps| - 1], steps[|steps| - 1];
      StoredAfter(start, scid, front, asset);
      var tree, d := TreeAfter(start, scid, front), Dropped(front);
      LedgerConserved(tree, map[], scid, s.incoming, s.raw, s.ts, asset);
      var v, w := AssetValue(tree, map[], asset), AssetValue(TreeAfter(start, scid, steps), map[], asset);
      var out, income := AllOut(front, asset) - AllOut(d, asset), AllIn(front, asset) - AllIn(d, asset);
      OneCall(v, w, Sent(s.ts, asset), Incoming(s.incoming, asset), out, AssetValue(start, map[], asset) + income);
    }
  }

  /** Over the whole block, what is stored and what was sent add up to what was stored and what came in, modulo
      2^64, if and only if what the dropped calls took in is what they sent. */
  lemma {:induction false} BlockConserved(start: View, scid: Bytes, steps: seq<Step>, asset: Bytes)
    requires Sound(start, scid, steps) && IsAssetId(asset) && asset != scid
    ensures Wrap64(AssetValue(TreeAfter(start, scid, steps), map[], asset) + AllOut(steps, asset))
        == Wrap64(AssetValue(start, map[], asset) + AllIn(steps, asset))
      <==> Wrap64(AllIn(Dropped(steps), asset) - AllOut(Dropped(steps), asset)) == 0
  {
    hide Sound, TreeAfter, AssetValue, AllIn, AllOut, IsAssetId;
    StoredAfter(start, scid, steps, asset);
    Shifted(AssetValue(TreeAfter(start, scid, steps), map[], asset) + AllOut(steps, asset),
            AssetValue(start, map[], asset) + AllIn(steps, asset),
            AllOut(Dropped(steps), asset), AllIn(Dropped(steps), asset));
  }

  lemma Shifted(x: int, y: int, a: int, b: int)
    requires Wrap64(x - a) == Wrap64(y - b)
    ensures Wrap64(x) == Wrap64(y) <==> Wrap64(b - a) == 0
  {
  }

  /** If no reload follows a call, nothing is dropped. */
  lemma {:induction false} NothingDropped(steps: seq<Step>, asset: Bytes)
    requires forall i, j :: 0 <= i < j < |steps| ==> !(steps[i].Called? && steps[j].Reloaded?)
    ensures AllIn(Dropped(steps), asset) == 0 && AllOut(Dropped(steps), asset) == 0
    decreases |steps|
  {
    hide Incoming, Sent;
    if steps != [] {
      if steps[|steps| - 1].Reloaded? {
        OnlyReloads(steps, asset);
      } else {
        NothingDropped(steps[..|steps| - 1], asset);
      }
    }
  }

  lemma {:induction false} OnlyReloads(steps: seq<Step>, asset: Bytes)
    requires forall i :: 0 <= i < |steps| ==> steps[i].Reloaded?
    ensures AllIn(steps, asset) == 0 && AllOut(steps, asset) == 0
  {
    if steps != [] { OnlyReloads(steps[..|steps| - 1], asset); }
  }

  /** A deposit of 5 that a later transaction of the block drops. */
  lemma {:induction false} DepositDropped(scid: Bytes)
    requires IsAssetId(scid) && scid != ZERO_ID
    ensures var steps := [Called(map[ZERO_ID := 5], map[], []), Reloaded];
      && Sound(map[], scid, steps) && AllIn(steps, ZERO_ID) == 5 && AllOut(steps, ZERO_ID) == 0
      && AssetValue(TreeAfter(map[], scid, steps[..1]), map[], ZERO_ID) == 5
      && AssetValue(TreeAfter(map[], scid, steps), map[], ZERO_ID) == 0
  {
    hide Settled, Deposited, Written, Amount, IsAssetId;
    var steps := [Called(map[ZERO_ID := 5], map[], []), Reloaded];
    assert steps[..1] == [Called(map[ZERO_ID := 5], map[], [])] && steps[..1][..0] == [];
    assert TreeAfter(map[], scid, steps[..1][..0]) == map[] && AllIn(steps[..1][..0], ZERO_ID) == 0 && AllOut(steps[..1][..0], ZERO_ID) == 0;
    assert Covered(map[], Written(Deposited(map[], map[], scid, map[ZERO_ID := 5]), scid, map[]), scid, []);
    assert Sound(map[], scid, steps[..1]);
    assert Sent([], ZERO_ID) == 0;
    assert IsAssetId(ZERO_ID) by { ZeroIsAsset(); }
    LedgerConserved(map[], map[], scid, map[ZERO_ID := 5], map[], [], ZERO_ID);
    assert AllIn(steps[..1], ZERO_ID) == 5;
    assert AssetValue(map[], map[], ZERO_ID) == 0 by { NothingStored(); }
  }

  lemma ZeroIsAsset()
    ensures IsAssetId(ZERO_ID)
  {
  }

  lemma NothingStored()
    ensures AssetValue(map[], map[], ZERO_ID) == 0
  {
  }
}
