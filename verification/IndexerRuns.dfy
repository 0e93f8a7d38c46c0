/** The indexer's counters against a recomputation from the whole event log. */
module IndexerRuns {
  import opened Text
  import opened Maps
  import opened Indexer

  type Log = seq<Event>

  ghost function Before(log: Log): Log
    requires log != []
  {
    log[..|log| - 1]
  }

  ghost function Last(log: Log): Event
    requires log != []
  {
    log[|log| - 1]
  }

  /** The tables after the whole log. */
  ghost function Indexed(log: Log): Tables {
    if log == [] then NO_TABLES else After(Indexed(Before(log)), Last(log))
  }

  // ----- recomputing from the log -----

  ghost function SumLog(log: Log, f: Event -> nat): nat {
    if log == [] then 0 else SumLog(Before(log), f) + f(Last(log))
  }

  function PaymentOne(e: Event): nat { if e.PaymentSplit? then 1 else 0 }
  function PaymentTotal(e: Event): nat { if e.PaymentSplit? then e.totalPaid else 0 }
  function PaymentToSeeder(e: Event): nat { if e.PaymentSplit? then e.seederAmount else 0 }
  function RegistrationOne(e: Event): nat { if e.ModelRegistered? then 1 else 0 }

  function Served(seeder: string): Event -> nat {
    (e: Event) => if e.PaymentSplit? && ToLower(e.seeder) == seeder then 1 else 0
  }

  function Earned(seeder: string): Event -> nat {
    (e: Event) => if e.PaymentSplit? && ToLower(e.seeder) == seeder then e.seederAmount else 0
  }

  function RegisteredBy(creator: string): Event -> nat {
    (e: Event) => if e.ModelRegistered? && ToLower(e.creator) == creator then 1 else 0
  }

  ghost function SeedersIn(log: Log): set<string> {
    set e | e in log && e.PaymentSplit? :: ToLower(e.seeder)
  }

  ghost function CreatorsIn(log: Log): set<string> {
    set e | e in log && e.ModelRegistered? :: ToLower(e.creator)
  }

  function ChunksServed(s: SeederStat): nat { s.totalChunksServed }
  function SeederEarnings(s: SeederStat): nat { s.totalEarnings }
  function ModelsRegisteredBy(c: CreatorStat): nat { c.totalModelsRegistered }
  function ActiveModelsOf(c: CreatorStat): nat { c.activeModelsCount }

  // ----- what holds of every log -----

  ghost predicate PaymentTotals(o: Overview, seeders: map<string, SeederStat>, log: Log) {
    && o.totalPaymentsSettled == SumLog(log, PaymentOne) == SumOver(seeders, ChunksServed)
    && o.totalVolume == SumLog(log, PaymentTotal)
    && SumLog(log, PaymentToSeeder) == SumOver(seeders, SeederEarnings)
    && o.totalUniqueSeeders == |seeders|
  }

  ghost predicate SeederTable(seeders: map<string, SeederStat>, log: Log) {
    && seeders.Keys == SeedersIn(log)
    && (forall s <- seeders :: seeders[s] == SeederStat(SumLog(log, Served(s)), SumLog(log, Earned(s))))
  }

  lemma {:induction false} NoOneServed(log: Log, s: string)
    requires s !in SeedersIn(log)
    ensures SumLog(log, Served(s)) == 0 && SumLog(log, Earned(s)) == 0
  {
    if log != [] {
      assert Last(log) in log;
      assert forall e <- Before(log) :: e in log;
      assert s !in SeedersIn(Before(log));
      NoOneServed(Before(log), s);
    }
  }

  lemma SeedersInMore(log: Log)
    requires log != []
    ensures SeedersIn(log) == SeedersIn(Before(log)) + if Last(log).PaymentSplit? then {ToLower(Last(log).seeder)} else {}
  {
    assert log == Before(log) + [Last(log)];
  }

  /** On every log whatever: payments settled, volume and unique seeders equal their recomputation, and so do the
      sums over the seeder table. */
  lemma {:induction false} PaymentTotalsAlwaysHold(log: Log)
    ensures PaymentTotals(OverviewOf(Indexed(log)), Indexed(log).seeders, log)
  {
    if log != [] {
      var t, e := Indexed(Before(log)), Last(log);
      PaymentTotalsAlwaysHold(Before(log));
      if e.PaymentSplit? {
        var s := ToLower(e.seeder);
        SumAfterPut(t.seeders, s, SeedersAfter(t, e)[s], ChunksServed);
        SumAfterPut(t.seeders, s, SeedersAfter(t, e)[s], SeederEarnings);
      }
    }
  }

  lemma SeederRowStep(t: Tables, log: Log, s: string)
    requires log != [] && SeederTable(t.seeders, Before(log)) && s in SeedersAfter(t, Last(log))
    ensures SeedersAfter(t, Last(log))[s] == SeederStat(SumLog(log, Served(s)), SumLog(log, Earned(s)))
  {
    if s !in t.seeders {
      NoOneServed(Before(log), s);
    }
  }

  lemma SeederTableStep(t: Tables, log: Log)
    requires log != [] && SeederTable(t.seeders, Before(log))
    ensures SeederTable(SeedersAfter(t, Last(log)), log)
  {
    SeedersInMore(log);
    forall s | s in SeedersAfter(t, Last(log)) {
      SeederRowStep(t, log, s);
    }
  }

  /** On every log whatever the seeder table holds, for each seeder ever paid, the payments it received. */
  lemma {:induction false} SeederTableAlwaysHolds(log: Log)
    ensures SeederTable(Indexed(log).seeders, log)
  {
    if log != [] {
      SeederTableAlwaysHolds(Before(log));
      SeederTableStep(Indexed(Before(log)), log);
    }
  }

  // ----- creators -----

  ghost predicate CreatorTotals(o: Overview, creators: map<string, CreatorStat>, log: Log) {
    && o.totalUniqueCreators == |creators|
    && o.totalModelsRegistered == SumLog(log, RegistrationOne) == SumOver(creators, ModelsRegisteredBy)
  }

  ghost predicate CreatorTable(creators: map<string, CreatorStat>, log: Log) {
    && creators.Keys == CreatorsIn(log)
    && (forall c <- creators :: creators[c].totalModelsRegistered == SumLog(log, RegisteredBy(c)))
  }

  lemma CreatorsInMore(log: Log)
    requires log != []
    ensures CreatorsIn(log) == CreatorsIn(Before(log)) + if Last(log).ModelRegistered? then {ToLower(Last(log).creator)} else {}
  {
    assert log == Before(log) + [Last(log)];
  }

  lemma {:induction false} NothingRegistered(log: Log, c: string)
    requires c !in CreatorsIn(log)
    ensures SumLog(log, RegisteredBy(c)) == 0
  {
    if log != [] {
      assert Last(log) in log;
      assert forall e <- Before(log) :: e in log;
      assert c !in CreatorsIn(Before(log));
      NothingRegistered(Before(log), c);
    }
  }

  lemma CreatorCountStep(t: Tables, log: Log, c: string)
    requires log != [] && CreatorTable(t.creators, Before(log)) && c in CreatorsAfter(t, Last(log))
    ensures CreatorsAfter(t, Last(log))[c].totalModelsRegistered == SumLog(log, RegisteredBy(c))
  {
    if c !in t.creators {
      NothingRegistered(Before(log), c);
    }
  }

  lemma CreatorTableStep(t: Tables, log: Log)
    requires log != [] && CreatorTable(t.creators, Before(log))
    ensures CreatorTable(CreatorsAfter(t, Last(log)), log)
  {
    CreatorsInMore(log);
    forall c | c in CreatorsAfter(t, Last(log)) {
      CreatorCountStep(t, log, c);
    }
  }

  /** On every log whatever the creator table has a row for each creator that ever registered, with its registrations counted. */
  lemma {:induction false} CreatorTableAlwaysHolds(log: Log)
    ensures CreatorTable(Indexed(log).creators, log)
  {
    if log != [] {
      CreatorTableAlwaysHolds(Before(log));
      CreatorTableStep(Indexed(Before(log)), log);
    }
  }

  /** The one row of the creator table an event may touch. */
  ghost function TouchedCreator(t: Tables, e: Event): string {
    if e.ModelDeactivated? then (if e.modelId in t.models then t.models[e.modelId].creator else "") else ToLower(e.creator)
  }

  lemma CreatorSum(t: Tables, e: Event, f: CreatorStat -> nat)
    ensures var c := TouchedCreator(t, e);
      var next := CreatorsAfter(t, e);
      SumOver(next, f) + (if c in t.creators then f(t.creators[c]) else 0) == SumOver(t.creators, f) + (if c in next then f(next[c]) else 0)
  {
    var c := TouchedCreator(t, e);
    if CreatorsAfter(t, e) != t.creators {
      SumAfterPut(t.creators, c, CreatorsAfter(t, e)[c], f);
    }
  }

  /** On every log whatever: unique creators and models registered equal their recomputation and the sum over the creator table. */
  lemma {:induction false} CreatorTotalsAlwaysHold(log: Log)
    ensures CreatorTotals(OverviewOf(Indexed(log)), Indexed(log).creators, log)
  {
    if log != [] {
      CreatorTotalsAlwaysHold(Before(log));
      CreatorSum(Indexed(Before(log)), Last(log), ModelsRegisteredBy);
    }
  }

  // ----- the sums over the models -----

  /** What a payment adds to a model: one chunk, its amount, the creator's part, the seeder's part. */
  datatype Measure = ByChunk | ByAmount | ToCreator | ToSeeder

  function Weight(e: Event, per: Measure): nat {
    if !e.PaymentSplit? then 0
    else
      match per
      case ByChunk => 1
      case ByAmount => e.totalPaid
      case ToCreator => e.creatorAmount
      case ToSeeder => e.seederAmount
  }

  function WeightBy(per: Measure): Event -> nat {
    (e: Event) => Weight(e, per)
  }

  function Total(m: Model, per: Measure): nat {
    match per
    case ByChunk => m.totalPaidChunks
    case ByAmount => m.totalVolume
    case ToCreator => m.totalCreatorEarnings
    case ToSeeder => m.totalSeederEarnings
  }

  function TotalBy(per: Measure): Model -> nat {
    (m: Model) => Total(m, per)
  }

  /** What was paid for the model since it was last registered. */
  ghost function Pending(log: Log, model: string, per: Measure): nat {
    if log == [] then 0
    else if Last(log).modelId != model || Last(log).ModelDeactivated? then Pending(Before(log), model, per)
    else if Last(log).ModelRegistered? then 0
    else Pending(Before(log), model, per) + Weight(Last(log), per)
  }

  /** What registrations wiped out: a registration starts the model's totals from zero. */
  ghost function Wiped(log: Log, per: Measure): nat {
    if log == [] then 0
    else Wiped(Before(log), per) + if Last(log).ModelRegistered? then Pending(Before(log), Last(log).modelId, per) else 0
  }

  ghost predicate PendingTable(models: map<string, Model>, log: Log, per: Measure) {
    forall m :: Pending(log, m, per) == if m in models then Total(models[m], per) else 0
  }

  ghost predicate ModelTotals(models: map<string, Model>, log: Log, per: Measure) {
    SumLog(log, WeightBy(per)) == SumOver(models, TotalBy(per)) + Wiped(log, per) && PendingTable(models, log, per)
  }

  lemma PendingStep(t: Tables, log: Log, per: Measure)
    requires log != [] && PendingTable(t.models, Before(log), per)
    ensures PendingTable(ModelsAfter(t, Last(log)), log, per)
  {
  }

  lemma ModelTotalsStep(t: Tables, log: Log, per: Measure)
    requires log != [] && ModelTotals(t.models, Before(log), per)
    ensures ModelTotals(ModelsAfter(t, Last(log)), log, per)
  {
    var e := Last(log);
    PendingStep(t, log, per);
    ModelSum(t, e, TotalBy(per));
    assert Pending(Before(log), e.modelId, per) == if e.modelId in t.models then Total(t.models[e.modelId], per) else 0;
  }

  /** On every log each model's chunks, volume and earnings are what was paid since its last registration, and what was
      paid in all is their sum plus what registrations wiped out. */
  lemma {:induction false} ModelTotalsAlwaysHold(log: Log, per: Measure)
    ensures ModelTotals(Indexed(log).models, log, per)
  {
    if log != [] {
      ModelTotalsAlwaysHold(Before(log), per);
      ModelTotalsStep(Indexed(Before(log)), log, per);
    }
  }

  ghost predicate PaysFor(e: Event, model: string, per: Measure) {
    e.PaymentSplit? && e.modelId == model && Weight(e, per) > 0
  }

  ghost predicate PaidIn(log: Log, model: string, per: Measure) {
    exists e <- log :: PaysFor(e, model, per)
  }

  /** No model is registered after a payment for it. */
  ghost predicate NoneRegisteredAfterPayment(log: Log, per: Measure) {
    forall j | 0 <= j < |log| :: log[j].ModelRegistered? ==> !PaidIn(log[..j], log[j].modelId, per)
  }

  lemma PaidInMore(log: Log, model: string, per: Measure)
    requires log != []
    ensures PaidIn(log, model, per) <==> PaidIn(Before(log), model, per) || PaysFor(Last(log), model, per)
  {
    assert log == Before(log) + [Last(log)];
    if PaidIn(Before(log), model, per) {
      var e :| e in Before(log) && PaysFor(e, model, per);
      assert e in log;
    }
    assert Last(log) in log;
  }

  lemma NoneRegisteredMore(log: Log, per: Measure)
    requires log != []
    ensures NoneRegisteredAfterPayment(log, per) <==>
      NoneRegisteredAfterPayment(Before(log), per) && (Last(log).ModelRegistered? ==> !PaidIn(Before(log), Last(log).modelId, per))
  {
    var n := |log| - 1;
    forall j | 0 <= j < n ensures log[..j] == Before(log)[..j] && log[j] == Before(log)[j] {
    }
    assert log[..n] == Before(log);
  }

  lemma {:induction false} PendingIffPaid(log: Log, model: string, per: Measure)
    requires NoneRegisteredAfterPayment(log, per)
    ensures Pending(log, model, per) > 0 <==> PaidIn(log, model, per)
  {
    if log != [] {
      NoneRegisteredMore(log, per);
      PaidInMore(log, model, per);
      PendingIffPaid(Before(log), model, per);
    }
  }

  lemma {:induction false} NothingWipedIff(log: Log, per: Measure)
    ensures Wiped(log, per) == 0 <==> NoneRegisteredAfterPayment(log, per)
  {
    if log != [] {
      NothingWipedIff(Before(log), per);
      NoneRegisteredMore(log, per);
      if NoneRegisteredAfterPayment(Before(log), per) {
        PendingIffPaid(Before(log), Last(log).modelId, per);
      }
    }
  }

  lemma {:induction false} SameSums(log: Log, f: Event -> nat, g: Event -> nat)
    requires forall e :: f(e) == g(e)
    ensures SumLog(log, f) == SumLog(log, g)
  {
    if log != [] {
      SameSums(Before(log), f, g);
    }
  }

  /** What was paid in all, which for chunks and amounts the network's totals say, is the sum over the models exactly on the
      logs that register no model after a payment for it. */
  lemma TotalsAreSumsOverModelsExactlyWhen(log: Log, per: Measure)
    ensures
      var paid := SumLog(log, WeightBy(per));
      && (paid == SumOver(Indexed(log).models, TotalBy(per)) <==> NoneRegisteredAfterPayment(log, per))
      && (per == ByChunk ==> paid == OverviewOf(Indexed(log)).totalPaymentsSettled)
      && (per == ByAmount ==> paid == OverviewOf(Indexed(log)).totalVolume)
  {
    ModelTotalsAlwaysHold(log, per);
    NothingWipedIff(log, per);
    PaymentTotalsAlwaysHold(log);
    SameSums(log, WeightBy(ByChunk), PaymentOne);
    SameSums(log, WeightBy(ByAmount), PaymentTotal);
  }

  // ----- what creators are credited with -----

  /** A payment credits its creator with one delivered chunk and with the creator's part. */
  datatype Credit = Deliveries | Royalties

  function CreditOf(e: Event, c: Credit): nat {
    Weight(e, if c == Deliveries then ByChunk else ToCreator)
  }

  function CreditBy(c: Credit): Event -> nat {
    (e: Event) => CreditOf(e, c)
  }

  function Credited(stat: CreatorStat, c: Credit): nat {
    if c == Deliveries then stat.totalChunksDelivered else stat.totalRoyaltiesEarned
  }

  function CreditedBy(c: Credit): CreatorStat -> nat {
    (stat: CreatorStat) => Credited(stat, c)
  }

  /** What payments that name the creator add up to from its first registration on. */
  ghost function SinceRegistered(log: Log, creator: string, c: Credit): nat {
    if log == [] then 0
    else
      var counts := Last(log).PaymentSplit? && ToLower(Last(log).creator) == creator && creator in CreatorsIn(Before(log));
      SinceRegistered(Before(log), creator, c) + if counts then CreditOf(Last(log), c) else 0
  }

  ghost predicate CreditTable(creators: map<string, CreatorStat>, log: Log, c: Credit) {
    forall k <- creators :: Credited(creators[k], c) == SinceRegistered(log, k, c)
  }

  lemma {:induction false} NothingSince(log: Log, creator: string, c: Credit)
    requires creator !in CreatorsIn(log)
    ensures SinceRegistered(log, creator, c) == 0
  {
    if log != [] {
      CreatorsInMore(log);
      NothingSince(Before(log), creator, c);
    }
  }

  lemma CreditTableStep(t: Tables, log: Log, c: Credit)
    requires log != [] && t.creators.Keys == CreatorsIn(Before(log)) && CreditTable(t.creators, Before(log), c)
    ensures CreditTable(CreatorsAfter(t, Last(log)), log, c)
  {
    var next := CreatorsAfter(t, Last(log));
    forall k | k in next ensures Credited(next[k], c) == SinceRegistered(log, k, c) {
      if k !in t.creators {
        NothingSince(Before(log), k, c);
      }
    }
  }

  /** On every log each creator's royalties and delivered chunks are those of the payments that name it since it first
      registered a model. */
  lemma {:induction false} CreditsAlwaysHold(log: Log, c: Credit)
    ensures CreditTable(Indexed(log).creators, log, c)
  {
    if log != [] {
      CreditsAlwaysHold(Before(log), c);
      CreatorTableAlwaysHolds(Before(log));
      CreditTableStep(Indexed(Before(log)), log, c);
    }
  }

  /** What goes to creators who have not registered a model by then. */
  ghost function Unattributed(log: Log, c: Credit): nat {
    if log == [] then 0
    else
      var lost := Last(log).PaymentSplit? && ToLower(Last(log).creator) !in CreatorsIn(Before(log));
      Unattributed(Before(log), c) + if lost then CreditOf(Last(log), c) else 0
  }

  lemma {:induction false} CreditedPlusUnattributed(log: Log, c: Credit)
    ensures SumLog(log, CreditBy(c)) == SumOver(Indexed(log).creators, CreditedBy(c)) + Unattributed(log, c)
  {
    if log != [] {
      CreditedPlusUnattributed(Before(log), c);
      CreatorTableAlwaysHolds(Before(log));
      CreatorSum(Indexed(Before(log)), Last(log), CreditedBy(c));
    }
  }

  ghost predicate PaymentsNameCreators(log: Log, c: Credit) {
    forall j | 0 <= j < |log| :: CreditOf(log[j], c) > 0 ==> ToLower(log[j].creator) in CreatorsIn(log[..j])
  }

  lemma NamedMore(log: Log, c: Credit)
    requires log != []
    ensures PaymentsNameCreators(log, c) <==>
      PaymentsNameCreators(Before(log), c) && (CreditOf(Last(log), c) > 0 ==> ToLower(Last(log).creator) in CreatorsIn(Before(log)))
  {
    var n := |log| - 1;
    forall j | 0 <= j < n ensures log[..j] == Before(log)[..j] && log[j] == Before(log)[j] {
    }
    assert log[..n] == Before(log);
  }

  lemma {:induction false} NoneUnattributedIff(log: Log, c: Credit)
    ensures Unattributed(log, c) == 0 <==> PaymentsNameCreators(log, c)
  {
    if log != [] {
      NoneUnattributedIff(Before(log), c);
      NamedMore(log, c);
    }
  }

  /** The payments settled are the sum of the creators' delivered chunks, and what was paid to creators the sum of their
      royalties, exactly when every such payment names a creator registered before it. */
  lemma CreditsAreSumsOverCreatorsExactlyWhen(log: Log, c: Credit)
    ensures SumLog(log, CreditBy(c)) == SumOver(Indexed(log).creators, CreditedBy(c)) <==> PaymentsNameCreators(log, c)
    ensures SumLog(log, CreditBy(Deliveries)) == OverviewOf(Indexed(log)).totalPaymentsSettled
  {
    CreditedPlusUnattributed(log, c);
    NoneUnattributedIff(log, c);
    PaymentTotalsAlwaysHold(log);
    SameSums(log, CreditBy(Deliveries), PaymentOne);
  }

  /** The network's block is that of the last registration, payment or deactivation of an active model. */
  lemma LastBlockIsKept(log: Log)
    requires log != []
    ensures
      var before, e := Indexed(Before(log)), Last(log);
      var counts := !e.ModelDeactivated? || (e.modelId in before.models && before.models[e.modelId].active);
      OverviewOf(Indexed(log)).lastIndexedBlock == if counts then e.block else OverviewOf(before).lastIndexedBlock
    ensures OverviewOf(Indexed([])).lastIndexedBlock == 0
  {
  }

  // ----- what a model's row says -----

  /** The terms of a model: creator, price, chunks, size and share. */
  ghost predicate HasTerms(m: Model, creator: string, price: nat, chunks: nat, size: nat, bps: nat) {
    m.creator == creator && m.chunkPrice == price && m.chunkCount == chunks && m.totalSize == size && m.creatorShareBps == bps
  }

  ghost predicate NoRegistration(log: Log, model: string) {
    forall e <- log | e.ModelRegistered? :: e.modelId != model
  }

  ghost predicate Unmentioned(log: Log, model: string) {
    forall e <- log | !e.ModelDeactivated? :: e.modelId != model
  }

  lemma {:induction false} TermsStay(before: Log, later: Log, m: string, creator: string, price: nat, chunks: nat, size: nat, bps: nat)
    requires NoRegistration(later, m)
    requires m in Indexed(before).models && HasTerms(Indexed(before).models[m], creator, price, chunks, size, bps)
    ensures m in Indexed(before + later).models && HasTerms(Indexed(before + later).models[m], creator, price, chunks, size, bps)
    decreases |later|
  {
    if later == [] {
      assert before + later == before;
    } else {
      var log := before + later;
      assert Before(log) == before + Before(later) && Last(log) == Last(later) && Last(later) in later;
      assert forall e <- Before(later) :: e in later;
      TermsStay(before, Before(later), m, creator, price, chunks, size, bps);
    }
  }

  /** On every log a model's terms are those of its last registration. */
  lemma TermsAreThoseRegistered(before: Log, e: Event, later: Log)
    requires e.ModelRegistered? && NoRegistration(later, e.modelId)
    ensures
      var models := Indexed(before + [e] + later).models;
      && e.modelId in models
      && HasTerms(models[e.modelId], ToLower(e.creator), e.chunkPrice, e.chunkCount, e.chunkCount * 1048576, e.creatorShareBps)
  {
    var log := before + [e];
    assert Before(log) == before && Last(log) == e;
    TermsStay(log, later, e.modelId, ToLower(e.creator), e.chunkPrice, e.chunkCount, e.chunkCount * 1048576, e.creatorShareBps);
  }

  lemma {:induction false} UnmentionedHasNoRow(log: Log, m: string)
    requires Unmentioned(log, m)
    ensures m !in Indexed(log).models
  {
    if log != [] {
      assert Last(log) in log && forall e <- Before(log) :: e in log;
      UnmentionedHasNoRow(Before(log), m);
    }
  }

  /** Those of a model that was paid for before it was registered are made up from the first payment, until it is. */
  lemma TermsAreMadeUpFromFirstPayment(before: Log, e: Event, later: Log)
    requires e.PaymentSplit? && Unmentioned(before, e.modelId) && NoRegistration(later, e.modelId)
    ensures
      var models := Indexed(before + [e] + later).models;
      && e.modelId in models && HasTerms(models[e.modelId], ToLower(e.creator), e.totalPaid, 1, 1048576, 7000)
  {
    var log := before + [e];
    assert Before(log) == before && Last(log) == e;
    UnmentionedHasNoRow(before, e.modelId);
    TermsStay(log, later, e.modelId, ToLower(e.creator), e.totalPaid, 1, 1048576, 7000);
  }

  // ----- active models -----

  ghost function RegisteredIn(log: Log): set<string> {
    set e | e in log && e.ModelRegistered? :: e.modelId
  }

  /** Registered, and not deactivated since. */
  ghost predicate ActiveIn(log: Log, model: string) {
    log != [] && (
      if Last(log).modelId == model && Last(log).ModelRegistered? then true
      else if Last(log).modelId == model && Last(log).ModelDeactivated? then false
      else ActiveIn(Before(log), model))
  }

  /** A registration finds the model not active, and a payment finds it registered. */
  ghost predicate Fits(log: Log, e: Event) {
    && (e.ModelRegistered? ==> !ActiveIn(log, e.modelId))
    && (e.PaymentSplit? ==> e.modelId in RegisteredIn(log))
  }

  ghost predicate EventsFit(log: Log) {
    log != [] ==> EventsFit(Before(log)) && Fits(Before(log), Last(log))
  }

  function ActiveBit(m: Model): nat { if m.active then 1 else 0 }

  function ActiveFor(creator: string): Model -> nat {
    (m: Model) => if m.active && m.creator == creator then 1 else 0
  }

  ghost function ActiveSet(models: map<string, Model>): set<string> {
    set m | m in models && models[m].active
  }

  ghost predicate ModelRows(models: map<string, Model>, creators: set<string>, log: Log) {
    && models.Keys == RegisteredIn(log)
    && (forall m <- models :: models[m].active == ActiveIn(log, m) && models[m].creator in creators)
  }

  ghost predicate CreatorRows(models: map<string, Model>, creators: map<string, CreatorStat>) {
    forall c <- creators :: creators[c].activeModelsCount == SumOver(models, ActiveFor(c))
  }

  ghost predicate ActiveTotals(o: Overview, models: map<string, Model>, creators: map<string, CreatorStat>) {
    o.totalActiveModels == SumOver(models, ActiveBit) == SumOver(creators, ActiveModelsOf)
  }

  lemma RegisteredInMore(log: Log)
    requires log != []
    ensures RegisteredIn(log) == RegisteredIn(Before(log)) + if Last(log).ModelRegistered? then {Last(log).modelId} else {}
  {
    assert log == Before(log) + [Last(log)];
  }

  /** The models table moves at one key; its sums move by what that key contributes. */
  lemma ModelSum(t: Tables, e: Event, f: Model -> nat)
    ensures var next := ModelsAfter(t, e);
      SumOver(next, f) + (if e.modelId in t.models then f(t.models[e.modelId]) else 0)
        == SumOver(t.models, f) + (if e.modelId in next then f(next[e.modelId]) else 0)
  {
    if ModelsAfter(t, e) != t.models {
      SumAfterPut(t.models, e.modelId, ModelsAfter(t, e)[e.modelId], f);
    }
  }

  /** An active model is counted with its creator: the guard before the decrement is true. */
  lemma ActiveModelIsCounted(models: map<string, Model>, m: string)
    requires m in models && models[m].active
    ensures SumOver(models, ActiveFor(models[m].creator)) > 0 && SumOver(models, ActiveBit) > 0
  {
    SumTakesOut(models, m, ActiveFor(models[m].creator));
    SumTakesOut(models, m, ActiveBit);
  }

  lemma {:induction false} NoneActiveFor(models: map<string, Model>, c: string)
    requires forall m <- models :: models[m].creator != c
    ensures SumOver(models, ActiveFor(c)) == 0
    decreases |models|
  {
    if models != map[] {
      var k :| k in models;
      SumTakesOut(models, k, ActiveFor(c));
      NoneActiveFor(models - {k}, c);
    }
  }

  lemma ModelRowsStep(t: Tables, log: Log)
    requires log != [] && EventsFit(log) && ModelRows(t.models, t.creators.Keys, Before(log))
    ensures ModelRows(ModelsAfter(t, Last(log)), CreatorsAfter(t, Last(log)).Keys, log)
  {
    RegisteredInMore(log);
  }

  lemma CreatorRowStep(t: Tables, e: Event, c: string)
    requires CreatorRows(t.models, t.creators) && (forall m <- t.models :: t.models[m].creator in t.creators)
    requires e.ModelRegistered? && e.modelId in t.models ==> !t.models[e.modelId].active
    requires e.PaymentSplit? ==> e.modelId in t.models
    requires c in CreatorsAfter(t, e)
    ensures CreatorsAfter(t, e)[c].activeModelsCount == SumOver(ModelsAfter(t, e), ActiveFor(c))
  {
    ModelSum(t, e, ActiveFor(c));
    match e {
      case ModelRegistered(_, creator, _, _, _, _) => RegistrationCounts(t, e, c);
      case ModelDeactivated(_, _) =>
        if Deactivates(t, e) {
          ActiveModelIsCounted(t.models, e.modelId);
        }
      case PaymentSplit(_, _, _, _, _, _, _) =>
    }
  }

  lemma RegistrationCounts(t: Tables, e: Event, c: string)
    requires CreatorRows(t.models, t.creators) && (forall m <- t.models :: t.models[m].creator in t.creators)
    requires e.ModelRegistered? && c in CreatorsAfter(t, e)
    ensures CreatorsAfter(t, e)[c].activeModelsCount == SumOver(t.models, ActiveFor(c)) + if c == ToLower(e.creator) then 1 else 0
  {
    if c !in t.creators {
      NoneActiveFor(t.models, c);
    }
  }

  lemma {:induction false} ActiveRowsHold(log: Log)
    requires EventsFit(log)
    ensures ModelRows(Indexed(log).models, Indexed(log).creators.Keys, log)
    ensures CreatorRows(Indexed(log).models, Indexed(log).creators)
  {
    if log != [] {
      var t, e := Indexed(Before(log)), Last(log);
      ActiveRowsHold(Before(log));
      ModelRowsStep(t, log);
      forall c | c in CreatorsAfter(t, e)
        ensures CreatorsAfter(t, e)[c].activeModelsCount == SumOver(ModelsAfter(t, e), ActiveFor(c))
      {
        CreatorRowStep(t, e, c);
      }
    }
  }

  lemma {:induction false} ActiveTotalsHold(log: Log)
    requires EventsFit(log)
    ensures ActiveTotals(OverviewOf(Indexed(log)), Indexed(log).models, Indexed(log).creators)
  {
    if log != [] {
      var t, e := Indexed(Before(log)), Last(log);
      ActiveTotalsHold(Before(log));
      ActiveRowsHold(Before(log));
      ModelSum(t, e, ActiveBit);
      CreatorSum(t, e, ActiveModelsOf);
      if Deactivates(t, e) {
        ActiveModelIsCounted(t.models, e.modelId);
      }
    }
  }

  lemma {:induction false} ActiveBitsCount(models: map<string, Model>)
    ensures SumOver(models, ActiveBit) == |ActiveSet(models)|
    decreases |models|
  {
    if models != map[] {
      var k :| k in models;
      SumTakesOut(models, k, ActiveBit);
      ActiveBitsCount(models - {k});
      ActiveSetWithout(models, k);
    }
  }

  lemma ActiveSetWithout(models: map<string, Model>, k: string)
    requires k in models
    ensures |ActiveSet(models)| == |ActiveSet(models - {k})| + ActiveBit(models[k])
  {
    if models[k].active {
      assert ActiveSet(models) - {k} == ActiveSet(models - {k});
    } else {
      assert ActiveSet(models) == ActiveSet(models - {k});
    }
  }

  /** Active models of the network, of the models table and of the creators are the same after this many events. */
  ghost predicate CountsAgree(t: Tables) {
    OverviewOf(t).totalActiveModels == |ActiveSet(t.models)| == SumOver(t.creators, ActiveModelsOf)
  }

  ghost predicate CountsAlwaysAgree(log: Log) {
    CountsAgree(Indexed(log)) && (log != [] ==> CountsAlwaysAgree(Before(log)))
  }

  /** On a log whose events fit, the network's active models are those registered and not deactivated since, and they
      are the sum of the creators' active models. */
  lemma ActiveCountsAreExact(log: Log)
    requires EventsFit(log)
    ensures CountsAgree(Indexed(log))
    ensures forall m :: m in ActiveSet(Indexed(log).models) <==> ActiveIn(log, m)
  {
    ActiveTotalsHold(log);
    ActiveRowsHold(log);
    ActiveBitsCount(Indexed(log).models);
    NoneActiveUnregistered(log);
  }

  /** An event that does not fit makes the counts differ: the network counts a model twice, or not at all. */
  lemma MisfitDisagrees(log: Log)
    requires log != [] && EventsFit(Before(log)) && !Fits(Before(log), Last(log))
    ensures !CountsAgree(Indexed(log))
  {
    var t, e := Indexed(Before(log)), Last(log);
    ActiveCountsAreExact(Before(log));
    ActiveRowsHold(Before(log));
    ActiveBitsCount(t.models);
    ActiveBitsCount(ModelsAfter(t, e));
    ModelSum(t, e, ActiveBit);
    assert e.ModelRegistered? ==> e.modelId in ActiveSet(t.models);
  }

  /** After every event of a log the active counts agree exactly when each registration finds its model not active and each
      payment finds its model registered. */
  lemma {:induction false} CountsAlwaysAgreeExactlyWhen(log: Log)
    ensures CountsAlwaysAgree(log) <==> EventsFit(log)
  {
    if log != [] {
      CountsAlwaysAgreeExactlyWhen(Before(log));
      if EventsFit(Before(log)) && !Fits(Before(log), Last(log)) {
        MisfitDisagrees(log);
      }
    }
    if EventsFit(log) {
      ActiveCountsAreExact(log);
    }
  }

  lemma {:induction false} NoneActiveUnregistered(log: Log)
    ensures forall m :: ActiveIn(log, m) ==> m in RegisteredIn(log)
  {
    if log != [] {
      NoneActiveUnregistered(Before(log));
      RegisteredInMore(log);
    }
  }

  /** And no guard holds back a decrement: whatever a deactivation finds active is still counted. */
  lemma GuardsNeverSuppress(log: Log, e: Event)
    requires EventsFit(log) && Deactivates(Indexed(log), e)
    ensures var t := Indexed(log);
      var c := t.models[e.modelId].creator;
      && After(t, e).overview.value.totalActiveModels == OverviewOf(t).totalActiveModels - 1
      && c in t.creators && After(t, e).creators[c].activeModelsCount == t.creators[c].activeModelsCount - 1
  {
    ActiveTotalsHold(log);
    ActiveRowsHold(log);
    ActiveModelIsCounted(Indexed(log).models, e.modelId);
  }
}
