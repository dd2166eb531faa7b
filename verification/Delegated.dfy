/** `delegated/preflight.rs` and `delegated/executor.rs`: the gate before a delegated run, and
    the serial run itself against an account on an abstract chain. */
module Delegated {
  import opened Basics

  // ---------------------------------------------------------------- 256-bit saturating arithmetic

  const U256_MAX: nat := 0xffff_ffff_ffff_ffff_ffff_ffff_ffff_ffff_ffff_ffff_ffff_ffff_ffff_ffff_ffff_ffff

  /** Four words of 64 bits. */
  lemma WordSize()
    ensures var word := 0x1_0000_0000_0000_0000; U256_MAX + 1 == word * word * word * word
  {
  }

  /** The exact value, or the largest representable one. */
  function Cap(n: nat): nat { if n <= U256_MAX then n else U256_MAX }

  function SatAdd(a: nat, b: nat): nat { Cap(a + b) }

  function SatMul(a: nat, b: nat): nat { Cap(Times(a, b)) }

  lemma CapAdd(x: nat, y: nat, a: nat, b: nat)
    requires x == Cap(a) && y == Cap(b)
    ensures SatAdd(x, y) == Cap(a + b)
  {
  }

  /** Capping a factor early does not show in the capped product. */
  lemma CapMul(a: nat, b: nat)
    ensures SatMul(Cap(a), b) == Cap(Times(a, b))
  {
    if a > U256_MAX && b > 0 {
      TimesGrows(a, 1, b);
      TimesGrows(U256_MAX, 1, b);
    }
  }

  lemma CapMono(a: nat, b: nat)
    requires a <= b
    ensures Cap(a) <= Cap(b)
  {
  }

  // ---------------------------------------------------------------- preflight

  datatype CallResult = CallOk | CallReverted(reason: string)

  /** Answers to the preflight's reads and its two simulated calls; `None` is a failed read. */
  datatype Probe = Probe(price: Option<nat>, quantity: nat, zero: CallResult, delegated: CallResult,
                         gasEstimate: Option<nat>, gasPrice: Option<nat>)

  /** What one call costs to mint, exactly. */
  function Value(p: Probe): nat
    requires p.price.Some?
  {
    Times(p.price.value, p.quantity)
  }

  /** What one call costs in gas, exactly. */
  function Gas(p: Probe): nat
    requires p.gasEstimate.Some? && p.gasPrice.Some?
  {
    Times(p.gasEstimate.value, p.gasPrice.value)
  }

  datatype Preflight =
    | Ok(estimatedMaxSpend: nat)
    | MinterMismatch(reason: string)
    | OtherFailure(reason: string, inconsistent: bool)

  /** Every read answered and both simulated calls succeeded. */
  predicate Passes(p: Probe) {
    p.price.Some? && p.gasEstimate.Some? && p.gasPrice.Some? && p.zero.CallOk? && p.delegated.CallOk?
  }

  /** `None` is an error of the preflight itself: one of its reads failed. */
  function RunPreflight(p: Probe, count: nat): Option<Preflight> {
    if p.price.None? then None else
    var valuePerCall := SatMul(p.price.value, p.quantity);
    match p.zero
    case CallReverted(reason) => Some(OtherFailure(reason, p.delegated.CallOk?))
    case CallOk =>
      match p.delegated
      case CallReverted(reason) => Some(MinterMismatch(reason))
      case CallOk =>
        if p.gasEstimate.None? || p.gasPrice.None? then None
        else Some(Ok(MaxSpend(valuePerCall, SatMul(p.gasEstimate.value, p.gasPrice.value), count)))
  }

  function MaxSpend(perCall: nat, gasPerCall: nat, count: nat): nat {
    SatAdd(SatMul(perCall, count), SatMul(gasPerCall, count))
  }

  lemma MaxSpendExact(value: nat, gas: nat, count: nat, values: nat, gases: nat)
    requires values == Times(value, count) && gases == Times(gas, count)
    ensures MaxSpend(Cap(value), Cap(gas), count) == Cap(values + gases)
  {
    CapMul(value, count);
    CapMul(gas, count);
    CapAdd(SatMul(Cap(value), count), SatMul(Cap(gas), count), values, gases);
  }

  /** Only a contract that accepts the zero minter and refuses the real one is a mismatch; any
      refusal of the zero minter is some other failure; nothing else stops a run. */
  lemma PreflightClasses(p: Probe, count: nat)
    ensures var r := RunPreflight(p, count);
            && (r.Some? && r.value.MinterMismatch? <==> p.price.Some? && p.zero.CallOk? && p.delegated.CallReverted?)
            && (r.Some? && r.value.MinterMismatch? ==> r.value.reason == p.delegated.reason)
            && (r.Some? && r.value.OtherFailure? <==> p.price.Some? && p.zero.CallReverted?)
            && (r.Some? && r.value.OtherFailure? ==>
                  r.value.reason == p.zero.reason && (r.value.inconsistent <==> p.delegated.CallOk?))
            && (r.Some? && r.value.Ok? <==> p.price.Some? && p.zero.CallOk? && p.delegated.CallOk?
                                            && p.gasEstimate.Some? && p.gasPrice.Some?)
  {
  }

  lemma PassesWith(p: Probe, count: nat)
    requires Passes(p)
    ensures RunPreflight(p, count) == Some(Ok(MaxSpend(Cap(Value(p)), Cap(Gas(p)), count)))
  {
    var value, gas := SatMul(p.price.value, p.quantity), SatMul(p.gasEstimate.value, p.gasPrice.value);
    assert value == Cap(Value(p)) && gas == Cap(Gas(p));
    assert RunPreflight(p, count) == Some(Ok(MaxSpend(value, gas, count)));
  }

  /** The estimate is the exact worst case of the whole run, capped once: `values` is what all the
      mints cost, `gases` what all their gas costs. */
  lemma PreflightEstimate(p: Probe, count: nat, values: nat, gases: nat)
    requires Passes(p)
    requires values == Times(Value(p), count) && gases == Times(Gas(p), count)
    ensures RunPreflight(p, count) == Some(Ok(Cap(values + gases)))
  {
    PassesWith(p, count);
    MaxSpendExact(Value(p), Gas(p), count, values, gases);
  }

  /** What all calls of a run cost, exactly. */
  function WorstCase(p: Probe, count: nat): nat
    requires Passes(p)
  {
    Times(Value(p), count) + Times(Gas(p), count)
  }

  lemma GatePasses(p: Probe, count: nat)
    requires Passes(p)
    ensures RunPreflight(p, count) == Some(Ok(Cap(WorstCase(p, count))))
  {
    PreflightEstimate(p, count, Times(Value(p), count), Times(Gas(p), count));
  }

  /** The exact cost of all calls, as a product of what was read. */
  lemma WorstCaseIs(p: Probe, count: nat)
    requires Passes(p)
    ensures WorstCase(p, count) == p.price.value * p.quantity * count + p.gasEstimate.value * p.gasPrice.value * count
  {
    TimesIsProduct(p.price.value, p.quantity);
    TimesIsProduct(p.gasEstimate.value, p.gasPrice.value);
    TimesIsProduct(Value(p), count);
    TimesIsProduct(Gas(p), count);
  }

  /** What is shown for acknowledgement, in terms of what was read: price times quantity and gas estimate
      times gas price, each times the number of receivers, or the largest 256-bit number. */
  lemma EstimateIs(p: Probe, count: nat)
    requires p.price.Some? && p.gasEstimate.Some? && p.gasPrice.Some? && p.zero.CallOk? && p.delegated.CallOk?
    ensures var word := 0x1_0000_0000_0000_0000; var max := word * word * word * word - 1;
            var total := p.price.value * p.quantity * count + p.gasEstimate.value * p.gasPrice.value * count;
            RunPreflight(p, count) == Some(Ok(if total <= max then total else max))
  {
    GatePasses(p, count);
    WorstCaseIs(p, count);
    WordSize();
  }

  // ---------------------------------------------------------------- one attempt

  /** `paidPrice` is the price per unit of gas that inclusion took from the account. The transaction
      only bounds it, so it need not be the price polled before the send. */
  datatype Receipt = Receipt(status: bool, gasUsed: nat, paidPrice: nat)

  /** Answers while one receiver is attempted, in the order they are asked for. A receipt that
      is not seen within the timeout is `None`. */
  datatype Answers = Answers(calldata: bool, gasPrice: Option<nat>, gasEstimate: bool, signed: bool, sent: bool,
      receipt: Option<Receipt>)

  /** The transaction was accepted by the endpoint. */
  predicate Broadcast(a: Answers) { a.calldata && a.gasPrice.Some? && a.gasEstimate && a.signed && a.sent }

  predicate Confirmed(a: Answers) { Broadcast(a) && a.receipt.Some? }

  predicate Unconfirmed(a: Answers) { Broadcast(a) && a.receipt.None? }

  predicate Minted(a: Answers) { Confirmed(a) && a.receipt.value.status }

  /** The gas used, at the gas price polled for this attempt: what the run adds to its total. */
  function GasCost(a: Answers): nat
    requires Confirmed(a)
  {
    Times(a.receipt.value.gasUsed, a.gasPrice.value)
  }

  /** The gas used, at the price paid: what leaves the account. */
  function PaidGas(a: Answers): nat
    requires Confirmed(a)
  {
    Times(a.receipt.value.gasUsed, a.receipt.value.paidPrice)
  }

  /** What one attempt takes from the account. */
  function SpentOn(a: Answers, value: nat): nat {
    if Minted(a) then value + PaidGas(a) else if Confirmed(a) then PaidGas(a) else 0
  }

  /** The first step that fails ends an attempt: without calldata, a gas price, a gas estimate, a
      signature and an accepted send nothing mints, nothing is paid, and there is nothing to wait for.
      With all five the receipt decides. */
  lemma EarlyExit(a: Answers, value: nat)
    ensures !a.calldata || a.gasPrice.None? || !a.gasEstimate || !a.signed || !a.sent ==>
              !Minted(a) && !Confirmed(a) && !Unconfirmed(a) && SpentOn(a, value) == 0
    ensures a.calldata && a.gasPrice.Some? && a.gasEstimate && a.signed && a.sent && a.receipt.None? ==>
              !Minted(a) && !Confirmed(a) && Unconfirmed(a) && SpentOn(a, value) == 0
    ensures a.calldata && a.gasPrice.Some? && a.gasEstimate && a.signed && a.sent && a.receipt.Some? ==>
              var receipt := a.receipt.value;
              && Confirmed(a) && !Unconfirmed(a) && (Minted(a) <==> receipt.status)
              && GasCost(a) == receipt.gasUsed * a.gasPrice.value
              && SpentOn(a, value) == receipt.gasUsed * receipt.paidPrice + if receipt.status then value else 0
  {
    if Confirmed(a) {
      TimesIsProduct(a.receipt.value.gasUsed, a.gasPrice.value);
      TimesIsProduct(a.receipt.value.gasUsed, a.receipt.value.paidPrice);
    }
  }

  /** The run makes `n` attempts: all of them, or up to the first unconfirmed one. */
  ghost predicate StopsAfter(s: seq<Answers>, n: nat) {
    && n <= |s|
    && (forall j :: 0 <= j < n - 1 ==> !Unconfirmed(s[j]))
    && (n < |s| ==> n > 0 && Unconfirmed(s[n - 1]))
  }

  lemma StopIsUnique(s: seq<Answers>, m: nat, n: nat)
    requires StopsAfter(s, m) && StopsAfter(s, n)
    ensures m == n
  {
  }

  /** Receipts seen in the first `n` attempts. */
  function Confirmations(s: seq<Answers>, n: nat): nat
    requires n <= |s|
  {
    if n == 0 then 0 else Confirmations(s, n - 1) + if Confirmed(s[n - 1]) then 1 else 0
  }

  function Mints(s: seq<Answers>, n: nat): nat
    requires n <= |s|
  {
    if n == 0 then 0 else Mints(s, n - 1) + if Minted(s[n - 1]) then 1 else 0
  }

  /** What the run charges itself for its mints, exactly. */
  function MintCost(s: seq<Answers>, value: nat, n: nat): nat
    requires n <= |s|
  {
    if n == 0 then 0 else MintCost(s, value, n - 1) + if Minted(s[n - 1]) then value + GasCost(s[n - 1]) else 0
  }

  /** What leaves the account in `n` attempts. */
  function Spending(s: seq<Answers>, value: nat, n: nat): nat
    requires n <= |s|
  {
    if n == 0 then 0 else Spending(s, value, n - 1) + SpentOn(s[n - 1], value)
  }

  // ---------------------------------------------------------------- transactions from elsewhere

  /** Transactions of the same operator from elsewhere, included before each of the first `n`
      attempts. */
  function Foreign(others: seq<nat>, n: nat): nat
    requires n <= |others|
  {
    if n == 0 then 0 else Foreign(others, n - 1) + others[n - 1]
  }

  /** None has been, up to attempt `i`. */
  predicate Undisturbed(others: seq<nat>, i: nat) { forall j :: 0 <= j <= i && j < |others| ==> others[j] == 0 }

  lemma {:induction false} ForeignZero(others: seq<nat>, n: nat)
    requires n < |others|
    ensures Foreign(others, n + 1) == 0 <==> Undisturbed(others, n)
  {
    if n > 0 {
      ForeignZero(others, n - 1);
    } else {
      assert Foreign(others, 0) == 0;
    }
  }

  /** A transaction below the account's nonce is never included, so its receipt is never seen. */
  function AtNonce(a: Answers, level: bool): Answers { if level then a else a.(receipt := None) }

  /** What a run comes to see of these answers. */
  function Seen(answers: seq<Answers>, others: seq<nat>): (s: seq<Answers>)
    ensures |s| == |answers|
  {
    seq(|answers|, i requires 0 <= i < |answers| => AtNonce(answers[i], Undisturbed(others, i)))
  }

  /** Once behind the account's nonce, a run mints nothing more and sees no receipt. */
  lemma {:induction false} BehindMintsNothing(receivers: seq<Address>, answers: seq<Answers>, others: seq<nat>,
                                              j: nat, n: nat)
    requires |receivers| == |answers| == |others| && j <= n <= |answers| && j < |others| && others[j] > 0
    ensures var s := Seen(answers, others);
            && Mints(s, n) == Mints(s, j) && Confirmations(s, n) == Confirmations(s, j)
            && MintedTo(receivers, s, n) == MintedTo(receivers, s, j)
  {
    if j < n { BehindMintsNothing(receivers, answers, others, j, n - 1); }
  }

  // ---------------------------------------------------------------- the chain

  datatype Tx = Tx(nonce: nat, receiver: Address, value: nat)

  /** The operator's account: a transaction is included only at the account's nonce, which it
      then consumes whether it succeeds or reverts. */
  class Account {
    var nonce: nat
    var mints: seq<Address>
    var spent: nat
    var pending: Option<Tx>

    constructor (nonce: nat)
      ensures this.nonce == nonce && mints == [] && spent == 0 && pending.None?
    {
      this.nonce, mints, spent, pending := nonce, [], 0, None;
    }

    /** A broadcast the endpoint accepted; at any other nonce it could never be included. */
    method Submit(tx: Tx)
      modifies `pending
      ensures pending == if tx.nonce == nonce then Some(tx) else old(pending)
    {
      if tx.nonce == nonce {
        pending := Some(tx);
      }
    }

    /** Other transactions of the operator are included; what they do is not this run's. */
    method Elsewhere(n: nat)
      modifies `nonce
      ensures nonce == old(nonce) + n
    {
      nonce := nonce + n;
    }

    method Include(status: bool, gas: nat)
      requires pending.Some?
      modifies this
      ensures pending.None? && nonce == old(nonce) + 1
      ensures mints == if status then old(mints) + [old(pending).value.receiver] else old(mints)
      ensures spent == old(spent) + gas + if status then old(pending).value.value else 0
    {
      nonce := nonce + 1;
      spent := spent + gas;
      if status {
        mints := mints + [pending.value.receiver];
        spent := spent + pending.value.value;
      }
      pending := None;
    }
  }

  // ---------------------------------------------------------------- the run

  datatype Event = MintResult(index: nat, receiver: Address, success: bool)

  /** What a run tells the bus: nothing; a start with the estimate and then an error; or a start,
      one result per attempt, and a summary. */
  datatype Report =
    | Refused
    | Broken(estimatedMaxSpend: nat)
    | Complete(estimatedMaxSpend: nat, results: seq<Event>, minted: nat, totalCost: nat)

  /** Results so far: one per attempt, numbered from 1, in receiver order, each a success
      exactly if its transaction minted. */
  ghost predicate ResultsInOrder(results: seq<Event>, receivers: seq<Address>, answers: seq<Answers>) {
    && |results| <= |receivers| && |results| <= |answers|
    && forall j :: 0 <= j < |results| ==> results[j] == MintResult(j + 1, receivers[j], Minted(answers[j]))
  }

  /** Receivers minted to in the first `n` attempts, in order. */
  function MintedTo(receivers: seq<Address>, s: seq<Answers>, n: nat): seq<Address>
    requires n <= |s| && n <= |receivers|
  {
    if n == 0 then [] else MintedTo(receivers, s, n - 1) + if Minted(s[n - 1]) then [receivers[n - 1]] else []
  }

  method AddCapped(total: nat, ghost exact: nat, value: nat, gasCost: nat, ghost gas: nat) returns (t: nat)
    requires total == Cap(exact) && gasCost == Cap(gas)
    ensures t == Cap(exact + value + gas)
  {
    t := SatAdd(SatAdd(total, value), gasCost);
  }

  /** The running total after one more mint, as the program adds it up. */
  method ChargeMint(total: nat, ghost exact: nat, value: nat, gasUsed: nat, baseFee: nat) returns (t: nat)
    requires total == Cap(exact)
    ensures t == Cap(exact + value + Times(gasUsed, baseFee))
  {
    t := AddCapped(total, exact, value, SatMul(gasUsed, baseFee), Times(gasUsed, baseFee));
  }

  datatype AttemptEnd = NotSent | Ambiguous | Landed(receipt: Receipt)

  /** One receiver, up to and including the wait for its receipt, at a nonce that the account is at
      or has passed. */
  method AttemptReceiver(account: Account, nonce: nat, receiver: Address, a: Answers,
          value: nat) returns (end: AttemptEnd)
    requires account.pending.None? && nonce <= account.nonce
    modifies account
    ensures !a.calldata || a.gasPrice.None? || !a.gasEstimate || !a.signed || !a.sent ==>
              end.NotSent? && unchanged(account)
    ensures a.calldata && a.gasPrice.Some? && a.gasEstimate && a.signed && a.sent ==>
              if nonce == old(account.nonce) && a.receipt.Some?
              then end == Landed(a.receipt.value) && account.pending.None? && account.nonce == nonce + 1
              else end.Ambiguous? && account.nonce == old(account.nonce)
    ensures end.NotSent? <==> !Broadcast(a)
    ensures var b := AtNonce(a, nonce == old(account.nonce));
            && (end.Ambiguous? <==> Unconfirmed(b))
            && (end.Landed? ==> end.receipt == b.receipt.value)
            && account.pending == (if Unconfirmed(a) && nonce == old(account.nonce)
                                   then Some(Tx(nonce, receiver, value)) else None)
            && account.nonce == old(account.nonce) + (if Confirmed(b) then 1 else 0)
            && account.mints == old(account.mints) + (if Minted(b) then [receiver] else [])
            && account.spent == old(account.spent) + SpentOn(b, value)
  {
    if !a.calldata || a.gasPrice.None? || !a.gasEstimate || !a.signed || !a.sent {
      return NotSent;
    }
    account.Submit(Tx(nonce, receiver, value));
    if account.pending.None? || a.receipt.None? {
      return Ambiguous;
    }
    account.Include(a.receipt.value.status, PaidGas(a));
    return Landed(a.receipt.value);
  }

  /** The run's nonce and the account's as an attempt begins. */
  datatype Head = Head(local: nat, chain: nat)

  /** The run's nonce at each attempt is the one it loaded and one more for each receipt seen. It is
      never ahead, and is the account's exactly as long as no other transaction of the operator has
      landed since it was loaded. */
  ghost predicate NonceLaw(heads: seq<Head>, s: seq<Answers>, others: seq<nat>, loaded: nat) {
    && |heads| <= |others| == |s|
    && forall i :: 0 <= i < |heads| ==>
                     && heads[i].local == loaded + Confirmations(s, i)
                     && heads[i].local <= heads[i].chain
                     && (heads[i].local == heads[i].chain <==> Undisturbed(others, i))
  }

  /** The nonces before each of the first `n` attempts, as the run's answers determine them. */
  ghost function Heads(s: seq<Answers>, others: seq<nat>, loaded: nat, n: nat): seq<Head>
    requires n <= |s| == |others|
  {
    if n == 0 then []
    else
      var local := loaded + Confirmations(s, n - 1);
      Heads(s, others, loaded, n - 1) + [Head(local, local + Foreign(others, n))]
  }

  lemma {:induction false} HeadsLaw(s: seq<Answers>, others: seq<nat>, loaded: nat, n: nat)
    requires n <= |s| == |others|
    ensures |Heads(s, others, loaded, n)| == n && NonceLaw(Heads(s, others, loaded, n), s, others, loaded)
  {
    if n > 0 {
      HeadsLaw(s, others, loaded, n - 1);
      ForeignZero(others, n - 1);
      NonceLawStep(Heads(s, others, loaded, n - 1), s, others, loaded,
                   Heads(s, others, loaded, n)[n - 1]);
    }
  }

  lemma NonceLawStep(heads: seq<Head>, s: seq<Answers>, others: seq<nat>, loaded: nat, head: Head)
    requires NonceLaw(heads, s, others, loaded) && |heads| < |others|
    requires head.local == loaded + Confirmations(s, |heads|) && head.local + Foreign(others, |heads| + 1) == head.chain
    ensures NonceLaw(heads + [head], s, others, loaded)
  {
    ForeignZero(others, |heads|);
    var longer := heads + [head];
    assert forall i :: 0 <= i < |heads| ==> longer[i] == heads[i];
  }

  /** What is read off an account. */
  datatype Books = Books(nonce: nat, mints: seq<Address>, spent: nat)

  /** What `i` attempts did to an account: how far its nonce moved, whom it minted to, what it paid. */
  ghost predicate Did(s: seq<Answers>, receivers: seq<Address>, others: seq<nat>, value: nat, i: nat,
                      was: Books, now: Books)
    requires i <= |s| == |receivers| == |others|
  {
    && now.nonce == was.nonce + Confirmations(s, i) + Foreign(others, i)
    && now.mints == was.mints + MintedTo(receivers, s, i) && now.spent == was.spent + Spending(s, value, i)
  }

  lemma DidOneMore(s: seq<Answers>, receivers: seq<Address>, others: seq<nat>, value: nat, i: nat, was: Books, now: Books)
    requires i < |s| == |receivers| == |others| && Did(s, receivers, others, value, i, was, now)
    ensures Did(s, receivers, others, value, i + 1, was,
                Books(now.nonce + others[i] + (if Confirmed(s[i]) then 1 else 0),
                      now.mints + (if Minted(s[i]) then [receivers[i]] else []), now.spent + SpentOn(s[i], value)))
  {
  }

  /** Attempt `i`, the transactions from elsewhere that precede it included: what comes of it is what
      the run sees of its answers. */
  method AttemptAmongOthers(account: Account, nonce: nat, i: nat, receivers: seq<Address>, answers: seq<Answers>,
                            others: seq<nat>, value: nat, ghost was: Books)
    returns (end: AttemptEnd, ghost head: Head)
    requires i < |answers| == |others| == |receivers|
    requires account.pending.None? && nonce + Foreign(others, i) == account.nonce
    requires Did(Seen(answers, others), receivers, others, value, i, was,
                 Books(account.nonce, account.mints, account.spent))
    modifies account
    ensures head == Head(nonce, nonce + Foreign(others, i + 1))
    ensures var b := Seen(answers, others)[i];
            && (end.NotSent? <==> !Broadcast(b)) && (end.Ambiguous? <==> Unconfirmed(b))
            && (end.Landed? ==> end.receipt == b.receipt.value && b == answers[i])
    ensures account.nonce == nonce + Foreign(others, i + 1) + if end.Landed? then 1 else 0
    ensures Did(Seen(answers, others), receivers, others, value, i + 1, was,
                Books(account.nonce, account.mints, account.spent))
    ensures !end.Ambiguous? ==> account.pending.None?
    ensures account.pending == if Unconfirmed(answers[i]) && Undisturbed(others, i)
                               then Some(Tx(account.nonce, receivers[i], value)) else None
  {
    DidOneMore(Seen(answers, others), receivers, others, value, i, was,
               Books(account.nonce, account.mints, account.spent));
    account.Elsewhere(others[i]);
    ForeignZero(others, i);
    head := Head(nonce, account.nonce);
    end := AttemptReceiver(account, nonce, receivers[i], answers[i], value);
  }

  lemma ResultsStep(results: seq<Event>, receivers: seq<Address>, s: seq<Answers>, success: bool)
    requires ResultsInOrder(results, receivers, s) && |results| < |receivers| == |s| && success == Minted(s[|results|])
    ensures ResultsInOrder(results + [MintResult(|results| + 1, receivers[|results|], success)], receivers, s)
  {
  }

  /** What the run has counted after `i` attempts. */
  ghost predicate Counted(s: seq<Answers>, value: nat, i: nat, minted: nat, totalCost: nat)
    requires i <= |s|
  {
    minted == Mints(s, i) && totalCost == Cap(MintCost(s, value, i))
  }

  /** The count after one more attempt: a receipt of a successful mint adds one and its charge. */
  method Count(ghost s: seq<Answers>, ghost i: nat, value: nat, a: Answers, minted: nat, totalCost: nat)
    returns (mints: nat, total: nat)
    requires i < |s| && s[i] == a && Counted(s, value, i, minted, totalCost)
    ensures Counted(s, value, i + 1, mints, total)
  {
    mints, total := minted, totalCost;
    if Minted(a) {
      mints := minted + 1;
      total := ChargeMint(totalCost, MintCost(s, value, i), value, a.receipt.value.gasUsed, a.gasPrice.value);
    }
  }

  lemma NothingCounted(s: seq<Answers>, value: nat, i: nat, minted: nat, totalCost: nat)
    requires i < |s| && !Minted(s[i]) && Counted(s, value, i, minted, totalCost)
    ensures Counted(s, value, i + 1, minted, totalCost)
  {
  }

  /** What attempt `i` of a run came to. If a step before the send, or the send, failed: a failure,
      and the next attempt at the same nonce. If its receipt was seen: what the receipt says, and the
      next attempt one nonce on. Otherwise: a failure, and the end of the run. */
  ghost predicate CameTo(receivers: seq<Address>, answers: seq<Answers>, others: seq<nat>, results: seq<Event>,
                         heads: seq<Head>, i: nat)
    requires i < |results| == |heads| <= |receivers| == |answers|
  {
    var a, onward := answers[i], i + 1 < |receivers| ==> i + 1 < |results|;
    && results[i].index == i + 1 && results[i].receiver == receivers[i]
    && if !a.calldata || a.gasPrice.None? || !a.gasEstimate || !a.signed || !a.sent then
         !results[i].success && onward && (i + 1 < |heads| ==> heads[i + 1].local == heads[i].local)
       else if a.receipt.Some? && Undisturbed(others, i) then
         results[i].success == a.receipt.value.status && onward
         && (i + 1 < |heads| ==> heads[i + 1].local == heads[i].local + 1)
       else !results[i].success && i + 1 == |results|
  }

  ghost predicate AllCameTo(receivers: seq<Address>, answers: seq<Answers>, others: seq<nat>, results: seq<Event>,
                            heads: seq<Head>)
    requires |results| == |heads| <= |receivers| == |answers|
  {
    forall i :: 0 <= i < |results| ==> CameTo(receivers, answers, others, results, heads, i)
  }

  lemma OneNonceOn(heads: seq<Head>, s: seq<Answers>, others: seq<nat>, loaded: nat, i: nat)
    requires NonceLaw(heads, s, others, loaded) && i + 1 < |heads|
    ensures heads[i + 1].local == heads[i].local + if Confirmed(s[i]) then 1 else 0
  {
    assert Confirmations(s, i + 1) == Confirmations(s, i) + if Confirmed(s[i]) then 1 else 0;
  }

  lemma GoesOn(s: seq<Answers>, n: nat, i: nat)
    requires StopsAfter(s, n) && i < n
    ensures if Unconfirmed(s[i]) then i + 1 == n else i + 1 < |s| ==> i + 1 < n
  {
  }

  lemma AttemptCameTo(receivers: seq<Address>, answers: seq<Answers>, others: seq<nat>, results: seq<Event>,
                      heads: seq<Head>, loaded: nat, i: nat)
    requires i < |results| == |heads| <= |receivers| == |answers| == |others|
    requires StopsAfter(Seen(answers, others), |results|)
    requires ResultsInOrder(results, receivers, Seen(answers, others))
    requires NonceLaw(heads, Seen(answers, others), others, loaded)
    ensures CameTo(receivers, answers, others, results, heads, i)
  {
    var s := Seen(answers, others);
    var b := s[i];
    assert b == AtNonce(answers[i], Undisturbed(others, i));
    GoesOn(s, |results|, i);
    if i + 1 < |heads| { OneNonceOn(heads, s, others, loaded, i); }
    assert results[i] == MintResult(i + 1, receivers[i], Minted(b));
    CameToWith(receivers, answers, others, results, heads, i, b);
  }

  lemma CameToWith(receivers: seq<Address>, answers: seq<Answers>, others: seq<nat>, results: seq<Event>,
                   heads: seq<Head>, i: nat, b: Answers)
    requires i < |results| == |heads| <= |receivers| == |answers| == |others|
    requires b == AtNonce(answers[i], Undisturbed(others, i)) && results[i] == MintResult(i + 1, receivers[i], Minted(b))
    requires if Unconfirmed(b) then i + 1 == |results| else i + 1 < |receivers| ==> i + 1 < |results|
    requires i + 1 < |heads| ==> heads[i + 1].local == heads[i].local + if Confirmed(b) then 1 else 0
    ensures CameTo(receivers, answers, others, results, heads, i)
  {
  }

  lemma EachCameTo(receivers: seq<Address>, answers: seq<Answers>, others: seq<nat>, results: seq<Event>,
                   heads: seq<Head>, loaded: nat)
    requires |results| <= |receivers| == |answers| == |others|
    requires heads == Heads(Seen(answers, others), others, loaded, |results|)
    requires StopsAfter(Seen(answers, others), |results|)
    requires ResultsInOrder(results, receivers, Seen(answers, others))
    ensures NonceLaw(heads, Seen(answers, others), others, loaded)
    ensures |heads| == |results| && AllCameTo(receivers, answers, others, results, heads)
  {
    HeadsLaw(Seen(answers, others), others, loaded, |results|);
    forall i | 0 <= i < |results| ensures CameTo(receivers, answers, others, results, heads, i) {
      AttemptCameTo(receivers, answers, others, results, heads, loaded, i);
    }
  }

  /** What the run has in hand. */
  datatype Tally = Tally(nonce: nat, results: seq<Event>, minted: nat, totalCost: nat)

  /** After `i` attempts, in an account that stood at `was` and stands at `now`. */
  ghost predicate Progress(receivers: seq<Address>, answers: seq<Answers>, others: seq<nat>, value: nat, i: nat,
                           was: Books, now: Books, run: Tally, heads: seq<Head>)
    requires i <= |answers| == |receivers| == |others|
  {
    var s := Seen(answers, others);
    && |run.results| == i && ResultsInOrder(run.results, receivers, s)
    && Counted(s, value, i, run.minted, run.totalCost)
    && heads == Heads(s, others, was.nonce, i)
    && run.nonce + Foreign(others, i) == now.nonce && Did(s, receivers, others, value, i, was, now)
  }

  function BooksOf(account: Account): Books
    reads account
  {
    Books(account.nonce, account.mints, account.spent)
  }

  /** One attempt and its result: an attempt that came to nothing leaves the run's nonce, a receipt
      moves it on and is counted, and an unconfirmed one stops the run. */
  method AttemptAndRecord(account: Account, receivers: seq<Address>, answers: seq<Answers>, others: seq<nat>, value: nat,
                          i: nat, run: Tally, ghost was: Books, ghost before: seq<Head>)
    returns (next: Tally, stop: bool, ghost heads: seq<Head>)
    requires i < |receivers| == |answers| == |others| && account.pending.None?
    requires Progress(receivers, answers, others, value, i, was, BooksOf(account), run, before)
    modifies account
    ensures Progress(receivers, answers, others, value, i + 1, was, BooksOf(account), next, heads)
    ensures stop <==> Unconfirmed(Seen(answers, others)[i])
    ensures !stop ==> account.pending.None?
    ensures account.pending == if Unconfirmed(answers[i]) && Undisturbed(others, i)
                               then Some(Tx(account.nonce, receivers[i], value)) else None
  {
    ghost var s := Seen(answers, others);
    var end, head := AttemptAmongOthers(account, run.nonce, i, receivers, answers, others, value, was);
    heads := before + [head];
    var success := end.Landed? && end.receipt.status;
    ResultsStep(run.results, receivers, s, success);
    next := run.(results := run.results + [MintResult(i + 1, receivers[i], success)]);
    stop := end.Ambiguous?;
    if end.Landed? {
      var mints, total := Count(s, i, value, answers[i], run.minted, run.totalCost);
      next := next.(nonce := run.nonce + 1, minted := mints, totalCost := total);
    } else {
      NothingCounted(s, value, i, run.minted, run.totalCost);
    }
  }

  lemma ProgressMeans(receivers: seq<Address>, answers: seq<Answers>, others: seq<nat>, value: nat, n: nat,
                      was: Books, now: Books, run: Tally, heads: seq<Head>)
    requires n <= |receivers| == |answers| == |others| && StopsAfter(Seen(answers, others), n)
    requires Progress(receivers, answers, others, value, n, was, now, run, heads)
    ensures var s := Seen(answers, others);
            && |run.results| == n && ResultsInOrder(run.results, receivers, s)
            && run.minted == Mints(s, n) && run.totalCost == Cap(MintCost(s, value, n))
            && NonceLaw(heads, s, others, was.nonce)
            && |heads| == n && AllCameTo(receivers, answers, others, run.results, heads)
            && now.nonce == was.nonce + Confirmations(s, n) + Foreign(others, n)
            && now.mints == was.mints + MintedTo(receivers, s, n) && now.spent == was.spent + Spending(s, value, n)
  {
    EachCameTo(receivers, answers, others, run.results, heads, was.nonce);
  }

  /** The firing loop: one receiver after the other, each awaited before the next, stopping at the
      first receipt that cannot be confirmed. Before attempt `i`, `others[i]` transactions of the
      same operator from elsewhere are included. */
  method FireSerially(account: Account, receivers: seq<Address>, answers: seq<Answers>, others: seq<nat>, value: nat)
    returns (results: seq<Event>, minted: nat, attempted: nat, totalCost: nat, ghost heads: seq<Head>)
    requires |receivers| == |answers| == |others| && account.pending.None?
    modifies account
    ensures var s := Seen(answers, others);
            && StopsAfter(s, attempted) && |results| == attempted && ResultsInOrder(results, receivers, s)
            && minted == Mints(s, attempted) && totalCost == Cap(MintCost(s, value, attempted))
    ensures NonceLaw(heads, Seen(answers, others), others, old(account.nonce))
    ensures |heads| == attempted && AllCameTo(receivers, answers, others, results, heads)
    ensures attempted <= |others|
            && account.nonce == old(account.nonce)
                                + Confirmations(Seen(answers, others), attempted) + Foreign(others, attempted)
    ensures account.mints == old(account.mints) + MintedTo(receivers, Seen(answers, others), attempted)
    ensures account.spent == old(account.spent) + Spending(Seen(answers, others), value, attempted)
    ensures account.pending == if attempted > 0 && Unconfirmed(answers[attempted - 1])
                                  && Undisturbed(others, attempted - 1)
                               then Some(Tx(account.nonce, receivers[attempted - 1], value)) else None
  {
    ghost var was := BooksOf(account);
    var run := Tally(account.nonce, [], 0, 0);
    attempted, heads := 0, [];
    for i := 0 to |receivers|
      invariant attempted == i && account.pending.None?
      invariant forall j :: 0 <= j < i ==> !Unconfirmed(Seen(answers, others)[j])
      invariant Progress(receivers, answers, others, value, i, was, BooksOf(account), run, heads)
    {
      attempted := attempted + 1;
      var stop;
      run, stop, heads := AttemptAndRecord(account, receivers, answers, others, value, i, run, was, heads);
      if stop {
        break;
      }
    }
    ProgressMeans(receivers, answers, others, value, attempted, was, BooksOf(account), run, heads);
    results, minted, totalCost := run.results, run.minted, run.totalCost;
  }

  lemma {:induction false} MintedToCount(receivers: seq<Address>, s: seq<Answers>, n: nat)
    requires n <= |s| && n <= |receivers|
    ensures |MintedTo(receivers, s, n)| == Mints(s, n)
  {
    if n > 0 { MintedToCount(receivers, s, n - 1); }
  }

  // ---------------------------------------------------------------- what is reported and what is spent

  lemma {:induction false} CostWithin(s: seq<Answers>, value: nat, gas: nat, n: nat)
    requires n <= |s| && forall j :: 0 <= j < n && Minted(s[j]) ==> GasCost(s[j]) <= gas
    ensures MintCost(s, value, n) <= Times(value, n) + Times(gas, n)
  {
    if n > 0 { CostWithin(s, value, gas, n - 1); }
  }

  /** With the mint price unchanged and no mint's gas above the preflight's figure, the reported
      total never exceeds the acknowledged estimate, whichever attempts succeed. */
  lemma WithinEstimate(probe: Probe, s: seq<Answers>, n: nat)
    requires n <= |s| && Passes(probe)
    requires forall j :: 0 <= j < n && Minted(s[j]) ==> GasCost(s[j]) <= Gas(probe)
    ensures RunPreflight(probe, |s|).Some? && RunPreflight(probe, |s|).value.Ok?
    ensures Cap(MintCost(s, SatMul(probe.price.value, probe.quantity), n))
            <= RunPreflight(probe, |s|).value.estimatedMaxSpend
  {
    var value, gas, count := Value(probe), Gas(probe), |s|;
    PreflightEstimate(probe, count, Times(value, count), Times(gas, count));
    CostWithin(s, Cap(value), gas, n);
    TimesMono(Cap(value), value, n);
    TimesGrows(value, n, count);
    TimesGrows(gas, n, count);
    CapMono(MintCost(s, Cap(value), n), Times(value, count) + Times(gas, count));
  }

  /** With no included call's paid gas above the figure, a run spends no more than all its attempts
      would, reverts included. */
  lemma {:induction false} SpendingWithin(s: seq<Answers>, value: nat, gas: nat, n: nat)
    requires n <= |s| && forall j :: 0 <= j < n && Confirmed(s[j]) ==> PaidGas(s[j]) <= gas
    ensures Spending(s, value, n) <= Times(value, n) + Times(gas, n)
  {
    if n > 0 { SpendingWithin(s, value, gas, n - 1); }
  }

  /** Gas that left the account and is not in the total, less gas in the total that did not. */
  function Unreported(s: seq<Answers>, n: nat): int
    requires n <= |s|
  {
    if n == 0 then 0
    else Unreported(s, n - 1)
         + if Minted(s[n - 1]) then PaidGas(s[n - 1]) - GasCost(s[n - 1])
           else if Confirmed(s[n - 1]) then PaidGas(s[n - 1]) else 0
  }

  lemma {:induction false} SpendingSplits(s: seq<Answers>, value: nat, n: nat)
    requires n <= |s|
    ensures Spending(s, value, n) == MintCost(s, value, n) + Unreported(s, n)
  {
    if n > 0 { SpendingSplits(s, value, n - 1); }
  }

  /** No mint was included below the gas price polled for it. */
  predicate NoneBelowPolled(s: seq<Answers>, n: nat)
    requires n <= |s|
  {
    forall j :: 0 <= j < n && Minted(s[j]) ==> s[j].gasPrice.value <= s[j].receipt.value.paidPrice
  }

  /** Every mint paid the gas it was charged, and no revert paid any. */
  predicate PaidAsCharged(s: seq<Answers>, n: nat)
    requires n <= |s|
  {
    forall j :: 0 <= j < n && Confirmed(s[j]) ==>
                  if Minted(s[j]) then PaidGas(s[j]) == GasCost(s[j]) else PaidGas(s[j]) == 0
  }

  lemma {:induction false} NothingUnreported(s: seq<Answers>, n: nat)
    requires n <= |s| && NoneBelowPolled(s, n)
    ensures Unreported(s, n) >= 0
    ensures Unreported(s, n) == 0 <==> PaidAsCharged(s, n)
  {
    if n > 0 {
      NothingUnreported(s, n - 1);
      var a := s[n - 1];
      if Minted(a) { TimesGrows(a.receipt.value.gasUsed, a.gasPrice.value, a.receipt.value.paidPrice); }
    }
  }

  lemma CapIsSum(a: nat, b: nat)
    ensures Cap(a) == a + b <==> a <= U256_MAX && b == 0
  {
  }

  /** Short of saturation the reported total misses the spending by exactly what is unreported.
      If no mint was included below its polled price, it is the spending if and only if it did not
      saturate, every mint paid the gas it was charged, and no revert paid any. */
  lemma {:induction false} ReportedIsSpent(s: seq<Answers>, value: nat, n: nat)
    requires n <= |s|
    ensures MintCost(s, value, n) <= U256_MAX ==>
              Spending(s, value, n) - Cap(MintCost(s, value, n)) == Unreported(s, n)
    ensures NoneBelowPolled(s, n) ==>
              (Cap(MintCost(s, value, n)) == Spending(s, value, n)
               <==> MintCost(s, value, n) <= U256_MAX && PaidAsCharged(s, n))
  {
    SpendingSplits(s, value, n);
    if NoneBelowPolled(s, n) {
      NothingUnreported(s, n);
      CapIsSum(MintCost(s, value, n), Unreported(s, n));
    }
  }

  lemma TimesOne(a: nat)
    ensures Times(a, 1) == a && Times(1, a) == a
  {
    assert Times(a, 0) == 0;
    TimesIsProduct(1, a);
  }

  /** A call that used one unit of gas at price `polled`, and was included at price `paid`. */
  function OneUnit(status: bool, polled: nat, paid: nat): Answers {
    Answers(true, Some(polled), true, true, true, Some(Receipt(status, 1, paid)))
  }

  lemma OneUnitCosts(status: bool, polled: nat, paid: nat)
    ensures GasCost(OneUnit(status, polled, paid)) == polled && PaidGas(OneUnit(status, polled, paid)) == paid
  {
    TimesOne(polled);
    TimesOne(paid);
  }

  lemma OneAttempt(a: Answers, value: nat)
    ensures Spending([a], value, 1) == SpentOn(a, value)
    ensures MintCost([a], value, 1) == if Minted(a) then value + GasCost(a) else 0
  {
    assert Spending([a], value, 0) == 0 && MintCost([a], value, 0) == 0;
  }

  /** One receiver, whose mint succeeds at a price above the one polled: the run reports less than
      it spent, with no revert. */
  lemma TipUnreported(value: nat, polled: nat, paid: nat)
    requires polled < paid
    ensures var s := [OneUnit(true, polled, paid)];
            && StopsAfter(s, 1) && Mints(s, 1) == 1
            && MintCost(s, value, 1) == value + polled && Spending(s, value, 1) == value + paid
            && Cap(MintCost(s, value, 1)) < Spending(s, value, 1)
  {
    OneUnitCosts(true, polled, paid);
    OneAttempt(OneUnit(true, polled, paid), value);
    assert Mints([OneUnit(true, polled, paid)], 0) == 0;
  }

  /** The acknowledged estimate is no maximum: at any mint price, a run whose one call uses exactly
      the gas estimated at exactly the price polled spends more, if it was included above that. */
  lemma EstimateIsNoMaximum(price: nat, quantity: nat, polled: nat, paid: nat)
    requires polled < paid
    ensures var probe := Probe(Some(price), quantity, CallOk, CallOk, Some(1), Some(polled));
            var s, value := [OneUnit(true, polled, paid)], SatMul(price, quantity);
            && Passes(probe) && GasCost(s[0]) == Gas(probe)
            && RunPreflight(probe, 1) == Some(Ok(Cap(WorstCase(probe, 1))))
            && Cap(WorstCase(probe, 1)) < Spending(s, value, 1)
  {
    var probe := Probe(Some(price), quantity, CallOk, CallOk, Some(1), Some(polled));
    GatePasses(probe, 1);
    OneUnitCosts(true, polled, paid);
    OneAttempt(OneUnit(true, polled, paid), SatMul(price, quantity));
    TimesOne(Value(probe));
    TimesOne(polled);
    CapBelow(Value(probe), polled, paid);
  }

  lemma CapBelow(v: nat, polled: nat, paid: nat)
    requires polled < paid
    ensures Cap(v + polled) < Cap(v) + paid
  {
  }

  /** Two receivers, the first of whose mints reverts: the run reports less than it spent even at
      the polled price. */
  lemma RevertsUnreported(value: nat, price: nat)
    requires price > 0
    ensures var s := [OneUnit(false, price, price), OneUnit(true, price, price)];
            && StopsAfter(s, 2) && Mints(s, 2) == 1
            && MintCost(s, value, 2) == value + price && Spending(s, value, 2) == value + price + price
            && Cap(MintCost(s, value, 2)) < Spending(s, value, 2)
  {
    var s := [OneUnit(false, price, price), OneUnit(true, price, price)];
    OneUnitCosts(false, price, price);
    OneUnitCosts(true, price, price);
    assert MintCost(s, value, 1) == 0 && Spending(s, value, 1) == price && Mints(s, 1) == 0 by {
      assert MintCost(s, value, 0) == 0 && Spending(s, value, 0) == 0 && Mints(s, 0) == 0;
    }
  }

  /** A report of `total` after `n` attempts that spent `spent`, against the estimate shown before:
      short of saturation it misses what is unreported; with no mint below its polled price it is
      the spending exactly if it did not saturate and everything was paid as charged; with the mint
      price unchanged and no mint's charged gas above the figure it is within the estimate; and with
      no included call's paid gas above the figure the spending is within the cost of all attempts. */
  ghost predicate Faithful(probe: Probe, price: nat, s: seq<Answers>, n: nat, total: nat, estimate: nat, spent: int)
    requires n <= |s| && Passes(probe)
  {
    var value := SatMul(price, probe.quantity);
    && (MintCost(s, value, n) <= U256_MAX ==> spent - total == Unreported(s, n))
    && (NoneBelowPolled(s, n) ==> (total == spent <==> MintCost(s, value, n) <= U256_MAX && PaidAsCharged(s, n)))
    && (price == probe.price.value && (forall j :: 0 <= j < n && Minted(s[j]) ==> GasCost(s[j]) <= Gas(probe)) ==>
          total <= estimate)
    && ((forall j :: 0 <= j < n && Confirmed(s[j]) ==> PaidGas(s[j]) <= Gas(probe)) ==>
          spent <= Times(value, n) + Times(Gas(probe), n))
  }

  lemma ReportIsFaithful(probe: Probe, price: nat, s: seq<Answers>, n: nat)
    requires n <= |s| && Passes(probe)
    ensures var value := SatMul(price, probe.quantity); var r := RunPreflight(probe, |s|);
            && r.Some? && r.value.Ok?
            && Faithful(probe, price, s, n, Cap(MintCost(s, value, n)), r.value.estimatedMaxSpend, Spending(s, value, n))
  {
    var value := SatMul(price, probe.quantity);
    PreflightClasses(probe, |s|);
    ReportedIsSpent(s, value, n);
    if price == probe.price.value && forall j :: 0 <= j < n && Minted(s[j]) ==> GasCost(s[j]) <= Gas(probe) {
      WithinEstimate(probe, s, n);
    }
    if forall j :: 0 <= j < n && Confirmed(s[j]) ==> PaidGas(s[j]) <= Gas(probe) {
      SpendingWithin(s, value, Gas(probe), n);
    }
  }

  // ---------------------------------------------------------------- a whole run

  /** The gate: an estimate to acknowledge, exactly if the environment is set up and the preflight
      passes. */
  method Gate(setUp: bool, probe: Probe, count: nat) returns (estimate: Option<nat>)
    ensures estimate == if setUp && Passes(probe) then Some(Cap(WorstCase(probe, count))) else None
  {
    if !setUp {
      return None;
    }
    var preflight := RunPreflight(probe, count);
    if Passes(probe) { GatePasses(probe, count); } else { PreflightClasses(probe, count); }
    match preflight
    case Some(Ok(max)) => estimate := Some(max);
    case _ => estimate := None;
  }

  /** What a run that fired did to the account, and what it reports. */
  twostate predicate Fired(account: Account, value: nat, receivers: seq<Address>, answers: seq<Answers>, others: seq<nat>,
                           report: Report)
    requires report.Complete? && |receivers| == |answers| == |others|
    reads account
  {
    var s, n := Seen(answers, others), |report.results|;
    && StopsAfter(s, n) && ResultsInOrder(report.results, receivers, s)
    && report.totalCost == Cap(MintCost(s, value, n))
    && account.mints == old(account.mints) + MintedTo(receivers, s, n)
    && |account.mints| == |old(account.mints)| + report.minted
    && account.nonce == old(account.nonce) + Confirmations(s, n) + Foreign(others, n)
    && account.spent == old(account.spent) + Spending(s, value, n)
    && account.pending == if n > 0 && Unconfirmed(answers[n - 1]) && Undisturbed(others, n - 1)
                          then Some(Tx(account.nonce, receivers[n - 1], value)) else None
  }

  method FireAll(account: Account, value: nat, estimate: nat, receivers: seq<Address>, answers: seq<Answers>,
                 others: seq<nat>)
    returns (report: Report)
    requires |receivers| == |answers| == |others| && account.pending.None?
    modifies account
    ensures report.Complete? && report.estimatedMaxSpend == estimate
    ensures Fired(account, value, receivers, answers, others, report)
  {
    var results, minted, attempted, totalCost, heads := FireSerially(account, receivers, answers, others, value);
    MintedToCount(receivers, Seen(answers, others), attempted);
    report := Complete(estimate, results, minted, totalCost);
  }

  /** A whole run; `price` is the mint price read again after the preflight, or nothing if that
      read or one of the two that follow it failed. Nothing is sent unless the environment is set
      up, the preflight passes and those reads succeed. A run that fires counts exactly the mints
      on chain, leaves at most its last transaction pending, and its report is faithful. */
  method RunDelegatedMint(account: Account, setUp: bool, probe: Probe, price: Option<nat>,
                          receivers: seq<Address>, answers: seq<Answers>, others: seq<nat>)
    returns (report: Report)
    requires |receivers| == |answers| == |others| && account.pending.None?
    modifies account
    ensures report.Refused? <==> !setUp || !Passes(probe)
    ensures report.Broken? <==> !report.Refused? && price.None?
    ensures !report.Refused? ==> report.estimatedMaxSpend == Cap(WorstCase(probe, |receivers|))
    ensures !report.Complete? ==> unchanged(account)
    ensures report.Complete? ==>
              && Fired(account, SatMul(price.value, probe.quantity), receivers, answers, others, report)
              && Faithful(probe, price.value, Seen(answers, others), |report.results|, report.totalCost,
                          report.estimatedMaxSpend, account.spent - old(account.spent))
  {
    var estimate := Gate(setUp, probe, |receivers|);
    if estimate.None? {
      return Refused;
    }
    if price.None? {
      return Broken(estimate.value);
    }
    report := FireAll(account, SatMul(price.value, probe.quantity), estimate.value, receivers, answers, others);
    ReportIsFaithful(probe, price.value, Seen(answers, others), |report.results|);
  }

  // ---------------------------------------------------------------- runs that meet

  /** Two runs of one operator that read its nonce before either sends: once the first has its
      receipt the second's nonce is behind, and what it sends is never included. */
  method OverlappingRuns(account: Account, first: Address, second: Address, a: Answers, value: nat)
    returns (mine: nat, other: nat)
    requires account.pending.None? && Confirmed(a)
    modifies account
    ensures mine == other == old(account.nonce) && account.nonce == other + 1
    ensures account.pending.None? && |account.mints| <= |old(account.mints)| + 1
  {
    mine, other := account.nonce, account.nonce;
    var end := AttemptReceiver(account, mine, first, a, value);
    account.Submit(Tx(other, second, value));
  }

  /** A run that begins while the last transaction of a stopped run is still pending: once that
      is included after all, the new run's nonce is behind. */
  method RestartAfterTimeout(account: Account, last: Address, next: Address, a: Answers, value: nat, gas: nat)
    returns (loaded: nat)
    requires account.pending.None? && Unconfirmed(a)
    modifies account
    ensures loaded == old(account.nonce) && account.nonce == loaded + 1
    ensures account.pending.None? && account.mints == old(account.mints) + [last]
  {
    var end := AttemptReceiver(account, account.nonce, last, a, value);
    loaded := account.nonce;
    account.Include(true, gas);
    account.Submit(Tx(loaded, next, value));
  }
}
