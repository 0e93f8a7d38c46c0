/** Paid chunk release over HTTP: the 402 challenge, the receipt check and the claim that lets a payment
    transaction release one chunk. What the RPC endpoint replies is a parameter. */
module Payments {
  import opened Wrappers
  import opened Text
  import opened Clock
  import Claims

  const PAYMENT_SPLIT_TOPIC := "0x3238fbdab70e555ad163955d8f0517199c4923108133b37db082673bdf32ede8"
  const CLAIM_TTL := 24 * HOUR

  datatype TxLog = TxLog(address: string, topics: seq<string>, data: string)
  datatype Receipt = Receipt(status: string, logs: seq<TxLog>)

  /** The reply of the RPC endpoint: no usable answer, no receipt yet, or the receipt. */
  datatype Reply = Unreachable | Absent | Found(receipt: Receipt)

  datatype VerifyError =
    | EmptyHash | RpcFailed | ReceiptNotFound | TransactionReverted | ModelMismatch | SeederMismatch
    | InvalidLogData | InvalidPaymentAmount | LogNotFound | AlreadyRedeemed

  // ----- hexadecimal data -----

  function HexValue(c: char): Option<nat> {
    if '0' <= c <= '9' then Some(c as nat - '0' as nat)
    else if 'a' <= c <= 'f' then Some(c as nat - 'a' as nat + 10)
    else if 'A' <= c <= 'F' then Some(c as nat - 'A' as nat + 10)
    else None
  }

  function DecodeHex(s: string): (r: Option<seq<Byte>>)
    ensures r.Some? ==> 2 * |r.value| == |s|
  {
    if s == "" then Some([])
    else if |s| == 1 then None
    else
      var hi, lo, rest := HexValue(s[0]), HexValue(s[1]), DecodeHex(s[2..]);
      if hi.Some? && lo.Some? && rest.Some? && hi.value < 16 && lo.value < 16
      then Some([16 * hi.value + lo.value] + rest.value) else None
  }

  function BigEndian(bytes: seq<Byte>): nat {
    if bytes == [] then 0 else 256 * BigEndian(bytes[..|bytes| - 1]) + bytes[|bytes| - 1]
  }

  // ----- what a receipt says -----

  predicate IsPaymentSplit(log: TxLog, contract: string) {
    && ToLower(log.address) == contract
    && |log.topics| >= 3
    && ToLower(log.topics[0]) == ToLower(PAYMENT_SPLIT_TOPIC)
  }

  predicate NamesModel(log: TxLog, model: string)
    requires |log.topics| >= 3
  {
    SeederForm(log.topics[1]) == SeederForm(model)
  }

  predicate NamesSeeder(log: TxLog, seeder: string)
    requires |log.topics| >= 3
  {
    HasSuffix(SeederForm(log.topics[2]), SeederForm(seeder))
  }

  function Amounts(log: TxLog): Option<seq<Byte>> {
    var bytes := DecodeHex(TrimPrefix(log.data, "0x"));
    if bytes.Some? && |bytes.value| >= 96 then bytes else None
  }

  function TotalPaid(log: TxLog): nat
    requires Amounts(log).Some?
  {
    BigEndian(Amounts(log).value[64..96])
  }

  /** The first payment log of the contract decides, whatever comes after it. */
  ghost function FirstSplit(logs: seq<TxLog>, contract: string): Option<TxLog> {
    if logs == [] then None
    else if IsPaymentSplit(logs[0], contract) then Some(logs[0])
    else FirstSplit(logs[1..], contract)
  }

  ghost predicate Succeeded(receipt: Receipt) {
    receipt.status == "0x1" || receipt.status == "1"
  }

  /** A receipt pays for a chunk of the model at this seeder. */
  ghost predicate PaysEnough(receipt: Receipt, contract: string, seeder: string, model: string, price: Option<nat>) {
    && Succeeded(receipt)
    && var first := FirstSplit(receipt.logs, contract);
    && first.Some? && IsPaymentSplit(first.value, contract)
    && NamesModel(first.value, model) && NamesSeeder(first.value, seeder)
    && Amounts(first.value).Some? && (price.Some? ==> price.value <= TotalPaid(first.value))
  }

  lemma {:induction false} FirstSplitIsSplit(logs: seq<TxLog>, contract: string)
    ensures FirstSplit(logs, contract).Some? ==> IsPaymentSplit(FirstSplit(logs, contract).value, contract)
  {
    if logs != [] {
      FirstSplitIsSplit(logs[1..], contract);
    }
  }

  // ----- the claim store -----

  class ReplayStore {
    var entries: Claims.Entries

    constructor ()
      ensures entries == map[]
    {
      entries := map[];
    }

    method Claim(txHash: string, ttl: nat, now: nat) returns (claimed: bool)
      modifies this
      ensures var e := Claims.Claim(txHash, ttl, now, true);
        claimed == Claims.Granted(old(entries), e) && entries == Claims.After(old(entries), e)
    {
      if txHash in entries && now < entries[txHash] {
        return false;
      }
      entries := entries[txHash := now + ttl];
      return true;
    }
  }

  // ----- the verifier -----

  class PaymentVerifier {
    const contractAddress: string
    const seederAddress: string
    const replayStore: ReplayStore

    constructor (contractAddress: string, seederAddress: string, replayStore: ReplayStore)
      ensures this.contractAddress == ToLower(contractAddress) && this.seederAddress == ToLower(seederAddress)
      ensures this.replayStore == replayStore
    {
      this.contractAddress, this.seederAddress, this.replayStore := ToLower(contractAddress), ToLower(seederAddress), replayStore;
    }

    /** Accepts a transaction exactly when it is given, its receipt pays enough, and nobody holds a claim on it;
        only then is the store touched. */
    method VerifyChunkPayment(model: string, txHash: string, expectedPrice: Option<nat>, reply: Reply, now: nat)
      returns (r: Result<(), VerifyError>)
      modifies replayStore
      ensures var tx := Clean(txHash);
        var e := Claims.Claim(tx, CLAIM_TTL, now,
          tx != "" && reply.Found? && PaysEnough(reply.receipt, contractAddress, seederAddress, model, expectedPrice));
        && r.Success? == Claims.Granted(old(replayStore.entries), e)
        && replayStore.entries == Claims.After(old(replayStore.entries), e)
        && (r == Failure(AlreadyRedeemed) <==> e.eligible && Claims.Taken(old(replayStore.entries), tx, now))
        && (r == Failure(EmptyHash) <==> tx == "")
        && (r == Failure(RpcFailed) <==> tx != "" && reply.Unreachable?)
        && (r == Failure(ReceiptNotFound) <==> tx != "" && reply.Absent?)
        && (r == Failure(TransactionReverted) <==> tx != "" && reply.Found? && !Succeeded(reply.receipt))
    {
      var tx := Clean(txHash);
      if tx == "" {
        return Failure(EmptyHash);
      }
      if reply.Unreachable? {
        return Failure(RpcFailed);
      }
      if reply.Absent? {
        return Failure(ReceiptNotFound);
      }
      if reply.receipt.status != "0x1" && reply.receipt.status != "1" {
        return Failure(TransactionReverted);
      }
      var scan := ScanLogs(reply.receipt.logs, model, expectedPrice);
      if scan.Failure? {
        return scan;
      }
      var claimed := replayStore.Claim(tx, CLAIM_TTL, now);
      if !claimed {
        return Failure(AlreadyRedeemed);
      }
      return Success(());
    }

    /** The scan over the receipt's logs. */
    method ScanLogs(logs: seq<TxLog>, model: string, expectedPrice: Option<nat>) returns (r: Result<(), VerifyError>)
      ensures forall status | status == "0x1" || status == "1" ::
        r.Success? == PaysEnough(Receipt(status, logs), contractAddress, seederAddress, model, expectedPrice)
      ensures r.Failure? ==> r.error in {LogNotFound, ModelMismatch, SeederMismatch, InvalidLogData, InvalidPaymentAmount}
      ensures
        var first := FirstSplit(logs, contractAddress);
        && (r == Failure(LogNotFound) <==> first.None?)
        && (first.Some? && |first.value.topics| >= 3 ==>
              && (r == Failure(ModelMismatch) <==> !NamesModel(first.value, model))
              && (r == Failure(SeederMismatch) <==> NamesModel(first.value, model) && !NamesSeeder(first.value, seederAddress)))
        && (r == Failure(InvalidLogData) ==> first.Some? && Amounts(first.value).None?)
        && (r == Failure(InvalidPaymentAmount) ==>
              first.Some? && Amounts(first.value).Some? && expectedPrice.Some? && TotalPaid(first.value) < expectedPrice.value)
    {
      FirstSplitIsSplit(logs, contractAddress);
      for i := 0 to |logs|
        invariant FirstSplit(logs, contractAddress) == FirstSplit(logs[i..], contractAddress)
      {
        var log := logs[i];
        assert logs[i..][0] == log && logs[i..][1..] == logs[i + 1..];
        if ToLower(log.address) != contractAddress {
          continue;
        }
        if |log.topics| < 3 {
          continue;
        }
        if ToLower(log.topics[0]) != ToLower(PAYMENT_SPLIT_TOPIC) {
          continue;
        }
        if !NamesModel(log, model) {
          return Failure(ModelMismatch);
        }
        if !NamesSeeder(log, seederAddress) {
          return Failure(SeederMismatch);
        }
        if Amounts(log).None? {
          return Failure(InvalidLogData);
        }
        if expectedPrice.Some? && TotalPaid(log) < expectedPrice.value {
          return Failure(InvalidPaymentAmount);
        }
        return Success(());
      }
      return Failure(LogNotFound);
    }
  }

  // ----- the chunk endpoint -----

  datatype HttpMethod = Get | Head | Other

  datatype Request = Request(m: HttpMethod, path: seq<string>, payment: string)

  datatype Response =
    | MethodNotAllowed | BadRequest | NotFound
    | PaymentRequired(price: nat, seederAddress: string, contract: string, chainId: int)
    | Forbidden(error: VerifyError) | InternalError | Headers | Released(modelId: string, index: Uint32)

  datatype Seller = Seller(contract: string, seeder: string, price: nat)

  /** A request to one replica: the chunks the replica holds, whether the chunk file opens, what the RPC endpoint
      replies, and when the claim is made. */
  datatype Visit = Visit(seller: Seller, request: Request, held: set<(string, Uint32)>, opens: bool, reply: Reply, now: nat)

  /** The request reads or probes a chunk this replica holds. */
  predicate AsksForHeld(v: Visit) {
    && v.request.m != Other
    && |v.request.path| == 3 && v.request.path[0] == "chunks" && ParseUint32(v.request.path[2]).Some?
    && (v.request.path[1], ParseUint32(v.request.path[2]).value) in v.held
  }

  ghost predicate PaidFor(v: Visit) {
    && AsksForHeld(v) && Clean(v.request.payment) != "" && v.reply.Found?
    && PaysEnough(v.reply.receipt, v.seller.contract, v.seller.seeder, v.request.path[1], Some(v.seller.price))
  }

  ghost function ClaimOf(v: Visit): Claims.Event {
    Claims.Claim(Clean(v.request.payment), CLAIM_TTL, v.now, PaidFor(v))
  }

  class HTTPServer {
    const verifier: PaymentVerifier
    const defaultPrice: nat
    const seederAddress: string
    const contractAddress: string
    const chainId: int

    constructor (verifier: PaymentVerifier, defaultPrice: Option<nat>, seederAddress: string, contractAddress: string, chainId: int)
      ensures this.verifier == verifier && this.defaultPrice == if defaultPrice.Some? then defaultPrice.value else 1000000
      ensures this.seederAddress == seederAddress && this.contractAddress == contractAddress && this.chainId == chainId
    {
      this.verifier := verifier;
      this.defaultPrice := if defaultPrice.Some? then defaultPrice.value else 1000000;
      this.seederAddress, this.contractAddress, this.chainId := seederAddress, contractAddress, chainId;
    }

    /** A chunk is released exactly to a GET that names a held chunk and brings a payment nobody has redeemed. */
    method HandleChunk(request: Request, held: set<(string, Uint32)>, opens: bool, reply: Reply, now: nat) returns (r: Response)
      modifies verifier.replayStore
      ensures
        var seller := Seller(verifier.contractAddress, verifier.seederAddress, defaultPrice);
        var v := Visit(seller, request, held, opens, reply, now);
        var granted := Claims.Granted(old(verifier.replayStore.entries), ClaimOf(v));
        && verifier.replayStore.entries == Claims.After(old(verifier.replayStore.entries), ClaimOf(v))
        && (r.Released? <==> granted && request.m == Get && opens)
        && (r.Released? ==> r == Released(request.path[1], ParseUint32(request.path[2]).value))
        && (r.Headers? <==> granted && request.m == Head && opens)
        && (r.InternalError? <==> granted && !opens)
        && (r.PaymentRequired? <==> AsksForHeld(v) && Clean(request.payment) == "")
        && (r.Forbidden? ==> !granted && Clean(request.payment) != "")
        && (r.PaymentRequired? ==> r == PaymentRequired(defaultPrice, seederAddress, contractAddress, chainId))
      ensures
        var routed := |request.path| == 3 && request.path[0] == "chunks" && ParseUint32(request.path[2]).Some?;
        && (r == MethodNotAllowed <==> request.m == Other)
        && (r == BadRequest <==> request.m != Other && !routed)
        && (r == NotFound <==> request.m != Other && routed && (request.path[1], ParseUint32(request.path[2]).value) !in held)
        && (r.PaymentRequired? <==> r !in {MethodNotAllowed, BadRequest, NotFound} && TrimSpace(request.payment) == "")
    {
      if request.m == Other {
        return MethodNotAllowed;
      }
      if |request.path| != 3 || request.path[0] != "chunks" {
        return BadRequest;
      }
      var index := ParseUint32(request.path[2]);
      if index.None? {
        return BadRequest;
      }
      if (request.path[1], index.value) !in held {
        return NotFound;
      }
      var txHash := TrimSpace(request.payment);
      TrimAgain(request.payment);
      if txHash == "" {
        return PaymentRequired(defaultPrice, seederAddress, contractAddress, chainId);
      }
      var ok := verifier.VerifyChunkPayment(request.path[1], txHash, Some(defaultPrice), reply, now);
      if ok.Failure? {
        return Forbidden(ok.error);
      }
      if !opens {
        return InternalError;
      }
      return if request.m == Head then Headers else Released(request.path[1], index.value);
    }
  }
}
