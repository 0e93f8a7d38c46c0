/** What the payment contract writes into its log, and that the verifier reads exactly that. */
module PaymentLogs {
  import opened Wrappers
  import opened Text
  import opened Payments

  // ----- words and hexadecimal -----

  function Pow256(k: nat): nat {
    if k == 0 then 1 else 256 * Pow256(k - 1)
  }

  /** A number as k bytes, the most significant first. */
  function Word(n: nat, k: nat): (bytes: seq<Byte>)
    ensures |bytes| == k
  {
    if k == 0 then [] else Word(n / 256, k - 1) + [n % 256]
  }

  lemma {:induction false} WordReadsBack(n: nat, k: nat)
    requires n < Pow256(k)
    ensures BigEndian(Word(n, k)) == n
  {
    if k > 0 {
      WordReadsBack(n / 256, k - 1);
      assert Word(n, k)[..k - 1] == Word(n / 256, k - 1);
    }
  }

  lemma {:induction false} HexFromFront(b: Byte, rest: seq<Byte>)
    ensures Hex([b] + rest) == [HexDigit(b / 16), HexDigit(b % 16)] + Hex(rest)
    decreases |rest|
  {
    var all := [b] + rest;
    if rest == [] {
      assert all[..0] == [] && Hex(all) == Hex([]) + [HexDigit(b / 16), HexDigit(b % 16)];
    } else {
      var n, last := |rest| - 1, rest[|rest| - 1];
      assert all[..|all| - 1] == [b] + rest[..n] && all[|all| - 1] == last;
      HexFromFront(b, rest[..n]);
      assert Hex(rest) == Hex(rest[..n]) + [HexDigit(last / 16), HexDigit(last % 16)];
    }
  }

  lemma {:induction false} HexJoins(a: seq<Byte>, b: seq<Byte>)
    ensures Hex(a + b) == Hex(a) + Hex(b)
    decreases |b|
  {
    if b == [] {
      assert a + b == a;
    } else {
      var n := |b| - 1;
      assert (a + b)[..|a| + n] == a + b[..n];
      HexJoins(a, b[..n]);
    }
  }

  lemma DigitReads(c: char, d: nat)
    requires d < 16 && LowerChar(c) == HexDigit(d)
    ensures HexValue(c) == Some(d)
  {
  }

  /** Hexadecimal digits in any case decode to the bytes they print. */
  lemma {:induction false} DecodesWhatIsPrinted(bytes: seq<Byte>, s: string)
    requires ToLower(s) == Hex(bytes)
    ensures DecodeHex(s) == Some(bytes)
    decreases |bytes|
  {
    if bytes != [] {
      var b, rest := bytes[0], bytes[1..];
      assert bytes == [b] + rest;
      HexFromFront(b, rest);
      assert LowerChar(s[0]) == ToLower(s)[0] == HexDigit(b / 16) && LowerChar(s[1]) == ToLower(s)[1] == HexDigit(b % 16);
      DigitReads(s[0], b / 16);
      DigitReads(s[1], b % 16);
      assert ToLower(s[2..]) == ToLower(s)[2..] == Hex(rest);
      DecodesWhatIsPrinted(rest, s[2..]);
    }
  }

  // ----- the event -----

  /** A PaymentSplit event of the contract: the model and the seeder are topics, the three amounts are words of data. */
  datatype Event = Event(model: seq<Byte>, seeder: seq<Byte>, toSeeder: nat, toCreator: nat, total: nat)

  predicate WellFormed(e: Event) {
    |e.model| == 32 && |e.seeder| == 20 && e.toSeeder < Pow256(32) && e.toCreator < Pow256(32) && e.total < Pow256(32)
  }

  const PADDING: seq<Byte> := [0, 0, 0, 0, 0, 0, 0, 0, 0, 0, 0, 0]

  function DataOf(e: Event): seq<Byte> {
    Word(e.toSeeder, 32) + Word(e.toCreator, 32) + Word(e.total, 32)
  }

  /** "0x" and the digits of these bytes, in any case. */
  predicate Spells0x(s: string, bytes: seq<Byte>) {
    "0x" <= s && ToLower(s[2..]) == Hex(bytes)
  }

  /** How an RPC endpoint writes the event of a contract down. */
  predicate LogOf(log: TxLog, contract: string, e: Event) {
    && ToLower(log.address) == contract && |log.topics| == 3
    && ToLower(log.topics[0]) == ToLower(PAYMENT_SPLIT_TOPIC)
    && Spells0x(log.topics[1], e.model)
    && Spells0x(log.topics[2], PADDING + e.seeder)
    && Spells0x(log.data, DataOf(e))
  }

  lemma SpelledForm(s: string, bytes: seq<Byte>)
    requires Spells0x(s, bytes)
    ensures SeederForm(s) == Hex(bytes) && DecodeHex(TrimPrefix(s, "0x")) == Some(bytes)
  {
    DecodesWhatIsPrinted(bytes, s[2..]);
  }

  /** The amount read from the log is the total paid, whatever the parts. */
  lemma TotalIsRead(log: TxLog, contract: string, e: Event)
    requires WellFormed(e) && LogOf(log, contract, e)
    ensures Amounts(log).Some? && TotalPaid(log) == e.total
  {
    SpelledForm(log.data, DataOf(e));
    WordReadsBack(e.total, 32);
    assert DataOf(e)[64..96] == Word(e.total, 32);
  }

  lemma ModelIsRead(log: TxLog, contract: string, e: Event, model: string, id: seq<Byte>)
    requires LogOf(log, contract, e) && Spells0x(model, id)
    ensures NamesModel(log, model) <==> e.model == id
  {
    SpelledForm(log.topics[1], e.model);
    SpelledForm(model, id);
    if Hex(e.model) == Hex(id) {
      HexInjective(e.model, id);
    }
  }

  lemma SeederIsRead(log: TxLog, contract: string, e: Event, seeder: string, address: seq<Byte>)
    requires WellFormed(e) && LogOf(log, contract, e) && Spells0x(seeder, address) && |address| == 20
    ensures NamesSeeder(log, seeder) <==> e.seeder == address
  {
    SpelledForm(log.topics[2], PADDING + e.seeder);
    SpelledForm(seeder, address);
    HexJoins(PADDING, e.seeder);
    assert SeederForm(log.topics[2])[24..] == Hex(e.seeder);
    if Hex(e.seeder) == Hex(address) {
      HexInjective(e.seeder, address);
    }
  }

  /** No event of this kind and contract. */
  predicate OtherLog(log: TxLog, contract: string) {
    ToLower(log.address) != contract || |log.topics| < 3 || ToLower(log.topics[0]) != ToLower(PAYMENT_SPLIT_TOPIC)
  }

  lemma {:induction false} FirstOfItsKind(before: seq<TxLog>, log: TxLog, after: seq<TxLog>, contract: string)
    requires (forall l <- before :: OtherLog(l, contract)) && !OtherLog(log, contract)
    ensures FirstSplit(before + [log] + after, contract) == Some(log)
    decreases |before|
  {
    var logs := before + [log] + after;
    if before == [] {
      assert logs[0] == log;
    } else {
      assert before[0] in before && logs[0] == before[0] && logs[1..] == before[1..] + [log] + after;
      FirstOfItsKind(before[1..], log, after, contract);
    }
  }

  /** A receipt whose first payment event of the contract is this one pays exactly when the transaction succeeded, the event
      names the model and the seeder asked for, and its total is at least the price. */
  lemma ReceiptPaysExactlyWhen(
      status: string, before: seq<TxLog>, log: TxLog, after: seq<TxLog>, contract: string, e: Event,
      seeder: string, address: seq<Byte>, model: string, id: seq<Byte>, price: nat)
    requires WellFormed(e) && LogOf(log, contract, e) && forall l <- before :: OtherLog(l, contract)
    requires Spells0x(seeder, address) && |address| == 20 && Spells0x(model, id)
    ensures PaysEnough(Receipt(status, before + [log] + after), contract, seeder, model, Some(price))
      <==> (status == "0x1" || status == "1") && e.model == id && e.seeder == address && price <= e.total
  {
    FirstOfItsKind(before, log, after, contract);
    TotalIsRead(log, contract, e);
    ModelIsRead(log, contract, e, model, id);
    SeederIsRead(log, contract, e, seeder, address);
  }

  /** And a receipt without such an event pays for nothing. */
  lemma {:induction false} NothingPaidWithoutEvent(
      status: string, logs: seq<TxLog>, contract: string, seeder: string, model: string, price: Option<nat>)
    requires forall l <- logs :: OtherLog(l, contract)
    ensures !PaysEnough(Receipt(status, logs), contract, seeder, model, price)
    decreases |logs|
  {
    if logs != [] {
      assert logs[0] in logs;
      NothingPaidWithoutEvent(status, logs[1..], contract, seeder, model, price);
    }
  }

  /** So a visit for a held chunk that brings the transaction of such an event is paid for exactly when the event names this
      model and this seeder and its total is at least the price. */
  lemma VisitIsPaidExactlyWhen(
      v: Visit, status: string, before: seq<TxLog>, log: TxLog, after: seq<TxLog>, e: Event, address: seq<Byte>, id: seq<Byte>,
      index: Uint32)
    requires WellFormed(e) && LogOf(log, v.seller.contract, e) && forall l <- before :: OtherLog(l, v.seller.contract)
    requires Spells0x(v.seller.seeder, address) && |address| == 20
    requires |v.request.path| == 3 && v.request.path[0] == "chunks" && v.request.path[2] == Decimal(index)
    requires Spells0x(v.request.path[1], id) && (v.request.path[1], index) in v.held
    requires v.request.m != Other && TrimSpace(v.request.payment) != ""
    requires v.reply == Found(Receipt(status, before + [log] + after))
    ensures PaidFor(v) <==> (status == "0x1" || status == "1") && e.model == id && e.seeder == address && v.seller.price <= e.total
    ensures !PaidFor(v.(reply := Absent)) && !PaidFor(v.(reply := Unreachable)) && !PaidFor(v.(held := {}))
  {
    ParsePrinted(index);
    ReceiptPaysExactlyWhen(
      status, before, log, after, v.seller.contract, e, v.seller.seeder, address, v.request.path[1], id, v.seller.price);
  }
}
