/** Any number of seeder replicas selling chunks against one shared claim store. A run lists the visits in the order
    in which they reach the store; the receipts come from one chain that does not change. */
module PaymentRuns {
  import opened Wrappers
  import opened Text
  import opened Clock
  import opened Payments
  import Claims
  import Maps

  type Run = seq<Visit>

  type Chain = map<string, Receipt>

  ghost function ClaimsOf(run: Run): (trace: Claims.Trace)
    ensures |trace| == |run| && forall i | 0 <= i < |run| :: trace[i] == ClaimOf(run[i])
  {
    seq(|run|, i requires 0 <= i < |run| => ClaimOf(run[i]))
  }

  ghost predicate Ordered(run: Run) {
    forall i, j | 0 <= i <= j < |run| :: run[i].now <= run[j].now
  }

  ghost predicate AcceptedAt(run: Run, i: nat)
    requires i < |run|
  {
    Claims.GrantedAt(ClaimsOf(run), i)
  }

  ghost function Tx(v: Visit): string {
    Clean(v.request.payment)
  }

  // ----- when a payment is accepted -----

  ghost predicate RedeemedInDayBefore(run: Run, i: nat)
    requires i < |run|
  {
    exists j: nat | j < i :: RedeemedAt(run, j, Tx(run[i]), run[i].now)
  }

  ghost predicate RedeemedAt(run: Run, j: nat, tx: string, now: nat)
    requires j < |run|
  {
    AcceptedAt(run, j) && Tx(run[j]) == tx && now < run[j].now + CLAIM_TTL
  }

  /** A visit is accepted exactly when its payment is valid for it and no visit of any replica redeemed the same
      transaction in the 24 hours before. */
  lemma AcceptedExactlyWhenUnredeemed(run: Run, i: nat)
    requires Ordered(run) && i < |run|
    ensures AcceptedAt(run, i) <==> PaidFor(run[i]) && !RedeemedInDayBefore(run, i)
  {
    var trace := ClaimsOf(run);
    var before := trace[..i];
    assert before != [] ==> before[i - 1] == trace[i - 1];
    Claims.TakenExactlyWhileHeld(before, Tx(run[i]), run[i].now);
    HeldExactlyWhenRedeemed(run, i);
  }

  lemma HeldExactlyWhenRedeemed(run: Run, i: nat)
    requires i < |run|
    ensures Claims.Held(ClaimsOf(run)[..i], Tx(run[i]), run[i].now) <==> RedeemedInDayBefore(run, i)
  {
    var before := ClaimsOf(run)[..i];
    forall j: nat | j < i {
      HoldsExactlyWhenRedeemedAt(run, i, j);
    }
    if Claims.Held(before, Tx(run[i]), run[i].now) {
      var j: nat :| j < i && Claims.HoldsAt(before, j, Tx(run[i]), run[i].now);
      assert RedeemedAt(run, j, Tx(run[i]), run[i].now);
    }
    if RedeemedInDayBefore(run, i) {
      var j: nat :| j < i && RedeemedAt(run, j, Tx(run[i]), run[i].now);
      assert Claims.HoldsAt(before, j, Tx(run[i]), run[i].now);
    }
  }

  lemma HoldsExactlyWhenRedeemedAt(run: Run, i: nat, j: nat)
    requires j < i < |run|
    ensures Claims.HoldsAt(ClaimsOf(run)[..i], j, Tx(run[i]), run[i].now) <==> RedeemedAt(run, j, Tx(run[i]), run[i].now)
  {
    assert ClaimsOf(run)[..i][..j] == ClaimsOf(run)[..j];
  }

  /** Two accepted visits that bring one transaction, however it is spelled, are at least 24 hours apart. */
  lemma RedemptionsAreADayApart(run: Run, i: nat, j: nat)
    requires Ordered(run) && i < j < |run|
    requires AcceptedAt(run, i) && AcceptedAt(run, j) && Tx(run[i]) == Tx(run[j])
    ensures run[i].now + CLAIM_TTL <= run[j].now
  {
    Claims.GrantsAreSpaced(ClaimsOf(run), i, j);
  }

  lemma ClaimsJoin(a: Run, b: Run)
    ensures ClaimsOf(a + b) == ClaimsOf(a) + ClaimsOf(b)
  {
  }

  /** A visit that is turned down changes no later answer: each visit after it is accepted as if it had not happened. */
  lemma RefusedVisitChangesNoAnswer(before: Run, v: Visit, later: Run, k: nat)
    requires k < |later| && !AcceptedAt(before + [v], |before|)
    ensures AcceptedAt(before + [v] + later, |before| + 1 + k) <==> AcceptedAt(before + later, |before| + k)
  {
    ClaimsJoin(before, [v]);
    ClaimsJoin(before + [v], later);
    ClaimsJoin(before, later);
    assert ClaimsOf([v]) == [ClaimOf(v)];
    assert (ClaimsOf(before) + [ClaimOf(v)])[..|before|] == ClaimsOf(before);
    Claims.RefusalChangesNoAnswer(ClaimsOf(before), ClaimOf(v), ClaimsOf(later), k);
  }

  // ----- what is released for what is paid -----

  /** What the RPC endpoint finds is what the chain holds. */
  ghost predicate FromChain(run: Run, chain: Chain) {
    forall v <- run | v.reply.Found? :: Tx(v) in chain && chain[Tx(v)] == v.reply.receipt
  }

  function Worth(log: TxLog): nat {
    if Amounts(log).Some? then TotalPaid(log) else 0
  }

  /** The visit was accepted by this seller for this model, however spelled, within a day of the start. */
  ghost predicate SaleAt(run: Run, i: nat, seller: Seller, model: string, start: nat)
    requires i < |run|
  {
    && AcceptedAt(run, i) && run[i].seller == seller && SeederForm(run[i].request.path[1]) == SeederForm(model)
    && start <= run[i].now < start + CLAIM_TTL
  }

  datatype Sale = Sale(tx: string, log: TxLog, released: bool)

  /** What a visit bought: the redeemed transaction, the log that paid, and whether a chunk went out. */
  ghost function Bought(run: Run, i: nat, seller: Seller, model: string, start: nat): Option<Sale>
    requires i < |run|
  {
    var v := run[i];
    if SaleAt(run, i, seller, model, start)
    then Some(Sale(Tx(v), FirstSplit(v.reply.receipt.logs, seller.contract).value, v.request.m == Get && v.opens))
    else None
  }

  ghost function PurchasesOf(run: Run, seller: Seller, model: string, start: nat): (purchases: seq<Option<Sale>>)
    ensures |purchases| == |run| && forall i | 0 <= i < |run| :: purchases[i] == Bought(run, i, seller, model, start)
  {
    seq(|run|, i requires 0 <= i < |run| => Bought(run, i, seller, model, start))
  }

  function Sold(purchases: seq<Option<Sale>>): seq<Sale> {
    if purchases == [] then []
    else
      var n := |purchases| - 1;
      Sold(purchases[..n]) + if purchases[n].Some? then [purchases[n].value] else []
  }

  ghost function SalesOf(run: Run, seller: Seller, model: string, start: nat): seq<Sale> {
    Sold(PurchasesOf(run, seller, model, start))
  }

  function ReleasedChunks(sales: seq<Sale>): nat {
    if sales == [] then 0
    else ReleasedChunks(sales[..|sales| - 1]) + if sales[|sales| - 1].released then 1 else 0
  }

  function Payers(sales: seq<Sale>): map<string, TxLog> {
    if sales == [] then map[]
    else Payers(sales[..|sales| - 1])[sales[|sales| - 1].tx := sales[|sales| - 1].log]
  }

  predicate Fresh(sales: seq<Sale>, tx: string) {
    forall s <- sales :: s.tx != tx
  }

  predicate DistinctTx(sales: seq<Sale>) {
    sales != [] ==> DistinctTx(sales[..|sales| - 1]) && Fresh(sales[..|sales| - 1], sales[|sales| - 1].tx)
  }

  lemma {:induction false} FreshIsNoPayer(sales: seq<Sale>, tx: string)
    requires Fresh(sales, tx)
    ensures tx !in Payers(sales)
  {
    if sales != [] {
      FreshIsNoPayer(sales[..|sales| - 1], tx);
      assert sales[|sales| - 1] in sales;
    }
  }

  lemma OneMorePaid(price: nat, count: nat, sum: nat, worth: nat)
    requires price * count <= sum && price <= worth
    ensures price * (count + 1) <= sum + worth && price * count <= sum + worth
  {
  }

  lemma {:induction false} DistinctSalesArePaidFor(sales: seq<Sale>, price: nat, worth: TxLog -> nat)
    requires DistinctTx(sales) && forall s <- sales :: price <= worth(s.log)
    ensures price * ReleasedChunks(sales) <= Maps.SumOver(Payers(sales), worth)
  {
    if sales != [] {
      var rest, last := sales[..|sales| - 1], sales[|sales| - 1];
      DistinctSalesArePaidFor(rest, price, worth);
      FreshIsNoPayer(rest, last.tx);
      Maps.SumAfterPut(Payers(rest), last.tx, last.log, worth);
      assert last in sales;
      OneMorePaid(price, ReleasedChunks(rest), Maps.SumOver(Payers(rest), worth), worth(last.log));
    }
  }

  // ----- what is sold -----

  lemma {:induction false} SoldWasPurchased(purchases: seq<Option<Sale>>, s: Sale)
    requires s in Sold(purchases)
    ensures Some(s) in purchases
  {
    var n := |purchases| - 1;
    if s in Sold(purchases[..n]) {
      SoldWasPurchased(purchases[..n], s);
    }
  }

  /** No two purchases bring one transaction. */
  predicate DistinctPurchases(purchases: seq<Option<Sale>>) {
    forall i, j | 0 <= i < j < |purchases| && purchases[i].Some? && purchases[j].Some? :: purchases[i].value.tx != purchases[j].value.tx
  }

  lemma {:induction false} SoldAreDistinct(purchases: seq<Option<Sale>>)
    requires DistinctPurchases(purchases)
    ensures DistinctTx(Sold(purchases))
  {
    if purchases != [] {
      var n := |purchases| - 1;
      var rest, last := purchases[..n], purchases[n];
      SoldAreDistinct(rest);
      if last.Some? {
        forall s | s in Sold(rest) ensures s.tx != last.value.tx {
          SoldWasPurchased(rest, s);
        }
        assert Sold(purchases)[..|Sold(rest)|] == Sold(rest);
      } else {
        assert Sold(purchases) == Sold(rest);
      }
    }
  }

  function CountTrue(flags: seq<bool>): nat {
    if flags == [] then 0 else CountTrue(flags[..|flags| - 1]) + if flags[|flags| - 1] then 1 else 0
  }

  lemma OneMoreSold(sales: seq<Sale>, sale: Sale)
    ensures ReleasedChunks(sales + [sale]) == ReleasedChunks(sales) + if sale.released then 1 else 0
  {
    assert (sales + [sale])[..|sales|] == sales;
  }

  lemma {:induction false} ReleasesAreSold(purchases: seq<Option<Sale>>, flags: seq<bool>)
    requires |flags| == |purchases|
    requires forall i | 0 <= i < |flags| :: flags[i] <==> purchases[i].Some? && purchases[i].value.released
    ensures ReleasedChunks(Sold(purchases)) == CountTrue(flags)
  {
    if purchases == [] {
    } else {
      var n := |purchases| - 1;
      var rest, last := Sold(purchases[..n]), purchases[n];
      ReleasesAreSold(purchases[..n], flags[..n]);
      if last.Some? {
        OneMoreSold(rest, last.value);
        assert Sold(purchases) == rest + [last.value];
      } else {
        assert Sold(purchases) == rest + [] == rest;
      }
    }
  }

  // ----- releases and payments -----

  /** The visit got its chunk: accepted by this seller for this model, however spelled, within a day of the start, and a GET
      whose file opened. */
  ghost predicate ReleasedAt(run: Run, i: nat, seller: Seller, model: string, start: nat)
    requires i < |run|
  {
    && AcceptedAt(run, i) && run[i].request.m == Get && run[i].opens && run[i].seller == seller
    && SeederForm(run[i].request.path[1]) == SeederForm(model) && start <= run[i].now < start + 24 * HOUR
  }

  /** How many visits did. */
  ghost function Releases(run: Run, seller: Seller, model: string, start: nat): nat {
    CountTrue(seq(|run|, i requires 0 <= i < |run| => ReleasedAt(run, i, seller, model, start)))
  }

  lemma AllReleasesAreCounted(run: Run, seller: Seller, model: string, start: nat)
    ensures ReleasedChunks(SalesOf(run, seller, model, start)) == Releases(run, seller, model, start)
  {
    var flags := seq(|run|, i requires 0 <= i < |run| => ReleasedAt(run, i, seller, model, start));
    ReleasesAreSold(PurchasesOf(run, seller, model, start), flags);
  }

  lemma SalesAreDistinct(run: Run, seller: Seller, model: string, start: nat)
    requires Ordered(run)
    ensures DistinctTx(SalesOf(run, seller, model, start))
  {
    var purchases := PurchasesOf(run, seller, model, start);
    forall i: nat, j: nat | i < j < |run| && purchases[i].Some? && purchases[j].Some?
      ensures purchases[i].value.tx != purchases[j].value.tx
    {
      SalesDiffer(run, i, j, seller, model, start);
    }
    SoldAreDistinct(purchases);
  }

  lemma SalesDiffer(run: Run, i: nat, j: nat, seller: Seller, model: string, start: nat)
    requires Ordered(run) && i < j < |run| && SaleAt(run, i, seller, model, start) && SaleAt(run, j, seller, model, start)
    ensures Tx(run[i]) != Tx(run[j])
  {
    if Tx(run[i]) == Tx(run[j]) {
      RedemptionsAreADayApart(run, i, j);
    }
  }

  /** Every transaction counted is a successful one on the chain, and the log counted is its first payment log of the
      contract, which names the model and the seeder and pays at least the price. */
  ghost predicate PaysOnChain(sale: Sale, chain: Chain, seller: Seller, model: string) {
    && sale.tx in chain && PaysEnough(chain[sale.tx], seller.contract, seller.seeder, model, Some(seller.price))
    && FirstSplit(chain[sale.tx].logs, seller.contract) == Some(sale.log)
  }

  lemma BoughtPaysOnChain(run: Run, i: nat, chain: Chain, seller: Seller, model: string, start: nat)
    requires i < |run| && FromChain(run, chain) && Bought(run, i, seller, model, start).Some?
    ensures PaysOnChain(Bought(run, i, seller, model, start).value, chain, seller, model)
  {
    assert run[i] in run;
  }

  lemma SalesPayOnChain(run: Run, chain: Chain, seller: Seller, model: string, start: nat)
    requires FromChain(run, chain)
    ensures forall s <- SalesOf(run, seller, model, start) :: PaysOnChain(s, chain, seller, model)
  {
    var purchases := PurchasesOf(run, seller, model, start);
    forall s | s in SalesOf(run, seller, model, start) ensures PaysOnChain(s, chain, seller, model) {
      SoldWasPurchased(purchases, s);
      var i: nat :| i < |run| && purchases[i] == Some(s);
      BoughtPaysOnChain(run, i, chain, seller, model, start);
    }
  }

  lemma {:induction false} PayersAreSales(sales: seq<Sale>, tx: string) returns (s: Sale)
    requires tx in Payers(sales)
    ensures s in sales && s.tx == tx && s.log == Payers(sales)[tx]
  {
    var n := |sales| - 1;
    if sales[n].tx == tx {
      s := sales[n];
    } else {
      s := PayersAreSales(sales[..n], tx);
    }
  }

  /** In any 24 hours, price times the chunks a seller releases of a model is at most what the distinct transactions
      redeemed for them paid, each a successful payment on the chain for this model and seeder. */
  lemma ReleasesArePaidFor(run: Run, chain: Chain, seller: Seller, model: string, start: nat)
    requires Ordered(run) && FromChain(run, chain)
    ensures
      var sales := SalesOf(run, seller, model, start);
      && seller.price * Releases(run, seller, model, start) <= Maps.SumOver(Payers(sales), Worth)
      && forall tx <- Payers(sales) :: tx in chain && FirstSplit(chain[tx].logs, seller.contract) == Some(Payers(sales)[tx])
           && PaysEnough(chain[tx], seller.contract, seller.seeder, model, Some(seller.price))
  {
    var sales := SalesOf(run, seller, model, start);
    SalesAreDistinct(run, seller, model, start);
    SalesPayOnChain(run, chain, seller, model, start);
    AllReleasesAreCounted(run, seller, model, start);
    forall s | s in sales ensures seller.price <= Worth(s.log) {
      assert PaysOnChain(s, chain, seller, model);
    }
    DistinctSalesArePaidFor(sales, seller.price, Worth);
    forall tx | tx in Payers(sales) ensures tx in chain && FirstSplit(chain[tx].logs, seller.contract) == Some(Payers(sales)[tx])
      && PaysEnough(chain[tx], seller.contract, seller.seeder, model, Some(seller.price))
    {
      var s := PayersAreSales(sales, tx);
      assert PaysOnChain(s, chain, seller, model);
    }
  }
}
