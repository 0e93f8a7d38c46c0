/** How a payment is split between creator and seeder, in basis points, and what rounding does to many splits. */
module Split {
  import opened Seqs

  const BPS := 10000

  /** Division of the language's big integers: towards zero. */
  function Quotient(a: int, b: int): int
    requires b > 0
  {
    if a >= 0 then a / b else -(-a / b)
  }

  /** What is cut off is less than one unit, and never changes the sign. */
  lemma QuotientCutsTowardsZero(a: int, b: int)
    requires b > 0
    ensures var q := Quotient(a, b);
      if a >= 0 then 0 <= q * b <= a < q * b + b else q * b - b < a <= q * b <= 0
  {
    var size := if a >= 0 then a else -a;
    DivisionLeavesLess(size, b);
    assert -(size / b) * b == -((size / b) * b);
  }

  lemma DivisionLeavesLess(n: nat, b: nat)
    requires b > 0
    ensures 0 <= (n / b) * b <= n < (n / b) * b + b
  {
    assert n == (n / b) * b + n % b;
    assert n / b >= 0;
  }

  datatype Amounts = Amounts(creatorAmount: int, seederAmount: int)

  function CalculateSplit(totalWei: int, creatorShareBps: int): Amounts {
    var creatorAmount := Quotient(totalWei * creatorShareBps, BPS);
    Amounts(creatorAmount, totalWei - creatorAmount)
  }

  function CreatorCut(wei: int, bps: int): int {
    CalculateSplit(wei, bps).creatorAmount
  }

  /** No wei is made or lost, and with a share within bounds neither side gets less than nothing. */
  lemma SplitConserves(wei: nat, bps: nat)
    ensures var s := CalculateSplit(wei, bps);
      s.creatorAmount + s.seederAmount == wei && (bps <= BPS ==> 0 <= s.creatorAmount <= wei && 0 <= s.seederAmount <= wei)
  {
    if bps <= BPS {
      TimesIsMonotone(wei, bps, BPS);
      assert 0 <= wei * bps <= wei * BPS;
    }
  }

  /** Rounding is against the creator, by less than one wei. */
  lemma CutIsRoundedDown(wei: nat, bps: nat)
    ensures CreatorCut(wei, bps) * BPS <= wei * bps < (CreatorCut(wei, bps) + 1) * BPS
  {
    assert wei * bps >= 0;
  }

  function Sum(xs: seq<nat>): nat {
    if xs == [] then 0 else Sum(xs[..|xs| - 1]) + xs[|xs| - 1]
  }

  /** What the creator gets of many payments, split one by one. */
  function Cuts(payments: seq<nat>, bps: nat): int {
    if payments == [] then 0
    else Cuts(payments[..|payments| - 1], bps) + CreatorCut(payments[|payments| - 1], bps)
  }

  lemma CutOfTwo(a: nat, b: nat, bps: nat)
    ensures CreatorCut(a, bps) + CreatorCut(b, bps) <= CreatorCut(a + b, bps) <= CreatorCut(a, bps) + CreatorCut(b, bps) + 1
  {
    CutIsRoundedDown(a, bps);
    CutIsRoundedDown(b, bps);
    CutIsRoundedDown(a + b, bps);
    assert (a + b) * bps == a * bps + b * bps;
  }

  /** Split one by one, n payments give the creator at most what one split of their sum would, and at most n - 1 wei less. */
  lemma {:induction false} SplittingLosesLessThanAWeiEach(payments: seq<nat>, bps: nat)
    requires payments != []
    ensures Cuts(payments, bps) <= CreatorCut(Sum(payments), bps) <= Cuts(payments, bps) + |payments| - 1
  {
    var n := |payments| - 1;
    if n == 0 {
      assert Cuts(payments[..0], bps) == 0 && Sum(payments[..0]) == 0;
    } else {
      SplittingLosesLessThanAWeiEach(payments[..n], bps);
      CutOfTwo(Sum(payments[..n]), payments[n], bps);
    }
  }

  lemma {:induction false} Repeated(wei: nat, n: nat, bps: nat)
    ensures Cuts(seq(n, _ => wei), bps) == n * CreatorCut(wei, bps) && Sum(seq(n, _ => wei)) == n * wei
  {
    if n > 0 {
      Repeated(wei, n - 1, bps);
      assert seq(n, _ => wei)[..n - 1] == seq(n - 1, _ => wei);
    }
  }

  /** The bound is reached: up to ten thousand payments of one wei, at a share of 9999, give the creator nothing, n - 1 wei
      short of the split of their sum. */
  lemma LossIsReached(n: nat)
    requires 0 < n <= BPS
    ensures CreatorCut(Sum(seq(n, _ => 1)), 9999) == Cuts(seq(n, _ => 1), 9999) + n - 1
  {
    Repeated(1, n, 9999);
    assert CreatorCut(1, 9999) == 0;
    CutIsRoundedDown(n, 9999);
  }

  // ----- a creator's earnings -----

  datatype IndexedModel = IndexedModel(
    chunkPrice: nat, creatorShareBps: nat, chunkCount: nat, totalDownloads: nat, seederCount: nat)

  datatype Earnings = Earnings(totalEarningsWei: int, totalDownloads: nat, totalActiveSeeders: nat, totalModels: nat)

  /** A model listed with no chunk count is taken to have one chunk. */
  function ChunksOf(m: IndexedModel): nat {
    if m.chunkCount == 0 then 1 else m.chunkCount
  }

  /** Every chunk of every download, paid for by itself. */
  function PaymentsFor(m: IndexedModel, downloads: nat): seq<nat> {
    if downloads == 0 then [] else PaymentsFor(m, downloads - 1) + seq(ChunksOf(m), _ => m.chunkPrice)
  }

  function EarnedByChunks(models: seq<IndexedModel>): int {
    if models == [] then 0
    else
      var m := models[|models| - 1];
      EarnedByChunks(models[..|models| - 1]) + Cuts(PaymentsFor(m, m.totalDownloads), m.creatorShareBps)
  }

  function Total(models: seq<IndexedModel>, f: IndexedModel -> nat): nat {
    if models == [] then 0 else Total(models[..|models| - 1], f) + f(models[|models| - 1])
  }

  lemma {:induction false} CutsJoin(a: seq<nat>, b: seq<nat>, bps: nat)
    ensures Cuts(a + b, bps) == Cuts(a, bps) + Cuts(b, bps)
    decreases |b|
  {
    if b == [] {
      assert a + b == a;
    } else {
      CutsJoin(a, b[..|b| - 1], bps);
      assert (a + b)[..|a + b| - 1] == a + b[..|b| - 1];
    }
  }

  lemma {:induction false} ProductIsSumOfCuts(m: IndexedModel, downloads: nat)
    ensures Cuts(PaymentsFor(m, downloads), m.creatorShareBps) == CreatorCut(m.chunkPrice, m.creatorShareBps) * ChunksOf(m) * downloads
  {
    if downloads > 0 {
      var cut, chunks := CreatorCut(m.chunkPrice, m.creatorShareBps), ChunksOf(m);
      ProductIsSumOfCuts(m, downloads - 1);
      CutsJoin(PaymentsFor(m, downloads - 1), seq(chunks, _ => m.chunkPrice), m.creatorShareBps);
      Repeated(m.chunkPrice, chunks, m.creatorShareBps);
      assert cut * chunks * downloads == cut * chunks * (downloads - 1) + chunks * cut;
    }
  }

  /** The payments of a model are as many as its chunks in all its downloads, each of the chunk price. */
  lemma {:induction false} PaymentsCounted(m: IndexedModel, downloads: nat)
    ensures |PaymentsFor(m, downloads)| == downloads * if m.chunkCount == 0 then 1 else m.chunkCount
    ensures forall p <- PaymentsFor(m, downloads) :: p == m.chunkPrice
  {
    if downloads > 0 {
      PaymentsCounted(m, downloads - 1);
    }
  }

  /** One more model adds the creator's cut of its chunk price for each of its chunks in each of its downloads. */
  lemma OneMoreModelEarns(models: seq<IndexedModel>, m: IndexedModel)
    ensures
      var chunks := if m.chunkCount == 0 then 1 else m.chunkCount;
      EarnedByChunks(models + [m]) == EarnedByChunks(models) + CreatorCut(m.chunkPrice, m.creatorShareBps) * chunks * m.totalDownloads
    ensures EarnedByChunks([]) == 0
  {
    assert (models + [m])[..|models|] == models;
    ProductIsSumOfCuts(m, m.totalDownloads);
  }

  lemma OneMoreModelCounts(models: seq<IndexedModel>, m: IndexedModel, f: IndexedModel -> nat)
    ensures Total(models + [m], f) == Total(models, f) + f(m) && Total([], f) == 0
  {
    assert (models + [m])[..|models|] == models;
  }

  /** The earnings shown are the sum of the creator's cut of every chunk of every download of every model. */
  method CreatorEarnings(models: seq<IndexedModel>) returns (e: Earnings)
    ensures e.totalEarningsWei == EarnedByChunks(models) && e.totalModels == |models|
    ensures e.totalDownloads == Total(models, (m: IndexedModel) => m.totalDownloads)
    ensures e.totalActiveSeeders == Total(models, (m: IndexedModel) => m.seederCount)
  {
    var totalEarningsWei, totalDownloads, totalActiveSeeders := 0, 0, 0;
    for i := 0 to |models|
      invariant totalEarningsWei == EarnedByChunks(models[..i])
      invariant totalDownloads == Total(models[..i], (m: IndexedModel) => m.totalDownloads)
      invariant totalActiveSeeders == Total(models[..i], (m: IndexedModel) => m.seederCount)
    {
      var m := models[i];
      var chunkCount := if m.chunkCount == 0 then 1 else m.chunkCount;
      var creatorRoyaltyPerChunk := Quotient(m.chunkPrice * m.creatorShareBps, BPS);
      ProductIsSumOfCuts(m, m.totalDownloads);
      assert models[..i + 1][..i] == models[..i];
      totalEarningsWei := totalEarningsWei + creatorRoyaltyPerChunk * chunkCount * m.totalDownloads;
      totalDownloads := totalDownloads + m.totalDownloads;
      totalActiveSeeders := totalActiveSeeders + m.seederCount;
    }
    assert models[..|models|] == models;
    return Earnings(totalEarningsWei, totalDownloads, totalActiveSeeders, |models|);
  }
}
