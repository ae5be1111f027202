/**
 Token transfer fees: what a transfer credits under a fee, the notice phases of
 a fee change, the two implementations of both, and the gross-up search.
 */
module TransferFees {
  import opened Wrappers
  import opened Bytes

  const MAX_BPS: nat := 10_000
  const U64_MAX: u64 := 0xFFFF_FFFF_FFFF_FFFF

  datatype TransferFee = TransferFee(epoch: u64, bps: u16, maximum: u64)
  {
    /** What the mint decoder lets through. */
    predicate Valid() { bps <= MAX_BPS }

    /** What a transfer of `gross` pays. */
    function Fee(gross: u64): nat { CappedFee(gross * bps, maximum) }

    function Credit(gross: u64): (credit: u64)
      requires Valid()
      ensures credit <= gross
    {
      RateWithinGross(gross, bps);
      gross - Fee(gross)
    }
  }

  /** Ceiling division of the rate's share, capped. */
  function CappedFee(share: nat, maximum: nat): nat {
    var rated := (share + (MAX_BPS - 1)) / MAX_BPS;
    if rated <= maximum then rated else maximum
  }

  lemma RateWithinGross(gross: nat, bps: nat)
    requires bps <= MAX_BPS
    ensures (gross * bps + (MAX_BPS - 1)) / MAX_BPS <= gross
  {
    assert gross * bps <= gross * MAX_BPS;
  }

  /** A larger transfer pays no smaller fee, and of each extra unit at most that unit. */
  lemma RateGrowth(small: nat, large: nat, bps: nat)
    requires small <= large && bps <= MAX_BPS
    ensures (small * bps + (MAX_BPS - 1)) / MAX_BPS <= (large * bps + (MAX_BPS - 1)) / MAX_BPS
    ensures (large * bps + (MAX_BPS - 1)) / MAX_BPS <= (small * bps + (MAX_BPS - 1)) / MAX_BPS + (large - small)
  {
    var extra := large - small;
    assert large * bps == small * bps + extra * bps;
    assert 0 <= extra * bps <= extra * MAX_BPS;
    assert (small * bps + (MAX_BPS - 1) + extra * MAX_BPS) / MAX_BPS == (small * bps + (MAX_BPS - 1)) / MAX_BPS + extra;
  }

  /** Credit is monotone and 1-Lipschitz, ceiling and cap included. */
  lemma CreditGrowth(fee: TransferFee, small: u64, large: u64)
    requires fee.Valid() && small <= large
    ensures fee.Credit(small) <= fee.Credit(large) <= fee.Credit(small) + (large - small)
  {
    RateGrowth(small, large, fee.bps);
  }

  /** What the mint keeps of a transfer: the rate's share of it, in hundredths of a percent and
      rounded up, but never more than the maximum. */
  predicate Charges(bps: int, maximum: int, gross: int, credit: int) {
    IsFee(gross * bps, maximum, gross - credit)
  }

  /** `share` is the share in units of 1/10000. */
  predicate IsFee(share: int, maximum: int, fee: int) {
    && 0 <= fee <= maximum
    && (fee == maximum || 10_000 * fee >= share)
    && (fee > 0 ==> 10_000 * (fee - 1) < share)
  }

  lemma CappedIsFee(share: nat, maximum: nat)
    ensures IsFee(share, maximum, CappedFee(share, maximum))
  {
  }

  /** A credit is the gross amount less just this fee. */
  lemma CreditCharges(fee: TransferFee, gross: u64)
    requires fee.Valid()
    ensures Charges(fee.bps, fee.maximum, gross, fee.Credit(gross))
  {
    var share := gross * fee.bps;
    CappedIsFee(share, fee.maximum);
    assert gross - fee.Credit(gross) == CappedFee(share, fee.maximum);
  }

  /** There is one such fee. */
  lemma ChargesOnce(bps: nat, maximum: nat, gross: nat, credit: int, other: int)
    requires Charges(bps, maximum, gross, credit) && Charges(bps, maximum, gross, other)
    ensures credit == other
  {
    FeeOnce(gross * bps, maximum, gross - credit, gross - other);
  }

  lemma FeeOnce(share: nat, maximum: nat, fee: nat, other: nat)
    requires IsFee(share, maximum, fee) && IsFee(share, maximum, other)
    ensures fee == other
  {
  }

  // ----- notices -----

  datatype FeePhase = NoNotice | Notice | FinalNotice

  datatype MintFeeSchedule = MintFeeSchedule(older: TransferFee, newer: TransferFee)
  {
    predicate Valid() { older.Valid() && newer.Valid() }

    function Phase(epoch: nat): FeePhase {
      if newer.epoch <= epoch then NoNotice
      else if newer.epoch - epoch == 1 then FinalNotice
      else Notice
    }

    function Credit(epoch: nat, gross: u64, admission: bool, liquidation: bool): u64
      requires Valid()
    {
      var phase := Phase(epoch);
      var effective := if phase == NoNotice then newer.Credit(gross) else older.Credit(gross);
      if phase != NoNotice && (admission || (liquidation && phase == FinalNotice)) then
        var announced := newer.Credit(gross);
        if effective <= announced then effective else announced
      else effective
    }

    /** What the chain credits at an epoch. */
    function Effective(epoch: nat, gross: u64): u64
      requires Valid()
    {
      if epoch < newer.epoch then older.Credit(gross) else newer.Credit(gross)
    }
  }

  lemma EffectiveIsPlainCredit(s: MintFeeSchedule, epoch: nat, gross: u64)
    requires s.Valid()
    ensures s.Credit(epoch, gross, false, false) == s.Effective(epoch, gross)
  {
  }

  /** The admission credit is the least credit of this and all later epochs: a bound
      for every one of them, and the credit of one of them. */
  lemma AdmissionIsLeastFutureCredit(s: MintFeeSchedule, epoch: nat, gross: u64) returns (attained: nat)
    requires s.Valid()
    ensures forall later :: later >= epoch ==> s.Credit(epoch, gross, true, false) <= s.Effective(later, gross)
    ensures attained >= epoch && s.Credit(epoch, gross, true, false) == s.Effective(attained, gross)
  {
    attained := if s.Credit(epoch, gross, true, false) == s.Effective(epoch, gross) then epoch else s.newer.epoch;
  }

  /** The liquidation credit is the lesser of this epoch's credit and the next one's. */
  lemma LiquidationIsLeastOfTwoEpochs(s: MintFeeSchedule, epoch: nat, gross: u64)
    requires s.Valid()
    ensures var now, next := s.Effective(epoch, gross), s.Effective(epoch + 1, gross);
            s.Credit(epoch, gross, false, true) == if now <= next then now else next
  {
  }

  // ----- the TypeScript reader -----

  datatype TsError = InvalidEpoch | InvalidAmount | InvalidTransferFee

  datatype Mode = EffectiveMode | AdmissionMode | LiquidationMode

  datatype TsFee = TsFee(epoch: int, bps: int, maximum: int)

  datatype TsSchedule = TsSchedule(older: TsFee, newer: TsFee)

  function TsPhase(schedule: Option<TsSchedule>, epoch: int): Result<FeePhase, TsError> {
    if epoch < 0 || epoch > U64_MAX then Err(InvalidEpoch)
    else if schedule == None || schedule.value.newer.epoch <= epoch then Ok(NoNotice)
    else if schedule.value.newer.epoch - epoch == 1 then Ok(FinalNotice)
    else Ok(Notice)
  }

  function TsFeeCredit(fee: TsFee, gross: nat): Result<int, TsError> {
    if fee.bps < 0 || fee.bps > 10000 || fee.maximum < 0 || fee.maximum > U64_MAX then Err(InvalidTransferFee)
    else
      var charge := (gross * fee.bps + 9999) / 10000;
      Ok(gross - (if charge < fee.maximum then charge else fee.maximum))
  }

  function TsCredit(schedule: Option<TsSchedule>, epoch: int, gross: int, mode: Mode): Result<int, TsError> {
    if gross < 0 || gross > U64_MAX then Err(InvalidAmount)
    else match TsPhase(schedule, epoch)
    case Err(e) => Err(e)
    case Ok(phase) =>
      if schedule == None then Ok(gross)
      else
        match TsFeeCredit(if phase == NoNotice then schedule.value.newer else schedule.value.older, gross)
        case Err(e) => Err(e)
        case Ok(current) =>
          match TsFeeCredit(schedule.value.newer, gross)
          case Err(e) => Err(e)
          case Ok(future) =>
            if phase != NoNotice && (mode == AdmissionMode || (mode == LiquidationMode && phase == FinalNotice))
                && future < current
            then Ok(future)
            else Ok(current)
  }

  /** The TypeScript credit takes the same fee. */
  lemma TsCreditCharges(fee: TsFee, gross: nat)
    requires TsFeeCredit(fee, gross).Ok?
    ensures Charges(fee.bps, fee.maximum, gross, TsFeeCredit(fee, gross).value)
  {
    var share: nat := gross * fee.bps;
    CappedIsFee(share, fee.maximum);
    assert gross - TsFeeCredit(fee, gross).value == CappedFee(share, fee.maximum);
  }

  predicate TsInvalid(fee: TsFee) {
    !(0 <= fee.bps <= 10_000 && 0 <= fee.maximum < 0x1_0000_0000_0000_0000)
  }

  /** Why the TypeScript reader refuses: an amount or an epoch that is no u64, in this order, or a
      fee that is out of range, even one that does not apply yet. */
  lemma TsRefusesExactly(schedule: Option<TsSchedule>, epoch: int, gross: int, mode: Mode, e: TsError)
    ensures TsCredit(schedule, epoch, gross, mode) == Err(e) <==>
            var amount, time := 0 <= gross < 0x1_0000_0000_0000_0000, 0 <= epoch < 0x1_0000_0000_0000_0000;
            match e
            case InvalidAmount => !amount
            case InvalidEpoch => amount && !time
            case InvalidTransferFee =>
              && amount && time && schedule.Some?
              && (TsInvalid(schedule.value.newer)
                  || (epoch < schedule.value.newer.epoch && TsInvalid(schedule.value.older)))
  {
  }

  function TsFeeOf(fee: TransferFee): TsFee { TsFee(fee.epoch, fee.bps, fee.maximum) }

  function TsScheduleOf(s: MintFeeSchedule): TsSchedule { TsSchedule(TsFeeOf(s.older), TsFeeOf(s.newer)) }

  /** On every decoded schedule and all u64 inputs both readers credit the same. */
  lemma ReadersAgree(s: MintFeeSchedule, epoch: u64, gross: u64, mode: Mode)
    requires s.Valid()
    ensures TsCredit(Some(TsScheduleOf(s)), epoch, gross, mode)
         == Ok(s.Credit(epoch, gross, mode == AdmissionMode, mode == LiquidationMode))
  {
  }

  // ----- gross-up -----

  /** What the mint credits now; a mint without a fee config credits everything. */
  function CreditOf(schedule: Option<MintFeeSchedule>, epoch: nat, gross: u64): u64
    requires schedule.Some? ==> schedule.value.Valid()
  {
    match schedule
    case None => gross
    case Some(s) => s.Credit(epoch, gross, false, false)
  }

  /** The fee in force at an epoch. */
  function InForce(s: MintFeeSchedule, epoch: nat): TransferFee {
    if epoch >= s.newer.epoch then s.newer else s.older
  }

  lemma CreditOfCharges(s: MintFeeSchedule, epoch: nat, gross: u64)
    requires s.Valid()
    ensures Charges(InForce(s, epoch).bps, InForce(s, epoch).maximum, gross, CreditOf(Some(s), epoch, gross))
  {
    CreditCharges(InForce(s, epoch), gross);
  }

  lemma CreditOfGrowth(schedule: Option<MintFeeSchedule>, epoch: nat, small: u64, large: u64)
    requires schedule.Some? ==> schedule.value.Valid()
    requires small <= large
    ensures CreditOf(schedule, epoch, small) <= CreditOf(schedule, epoch, large)
         <= CreditOf(schedule, epoch, small) + (large - small)
    ensures CreditOf(schedule, epoch, small) <= small
  {
    if schedule.Some? {
      CreditGrowth(schedule.value.older, small, large);
      CreditGrowth(schedule.value.newer, small, large);
    }
  }

  /** The least gross amount that credits `net`, by binary search over u64.  It exists
      unless no u64 amount credits that much, and it credits `net` exactly. */
  method GrossUp(schedule: Option<MintFeeSchedule>, epoch: u64, net: u64) returns (r: Result<u64, string>)
    requires schedule.Some? ==> schedule.value.Valid()
    ensures r.Err? <==> forall gross: u64 :: CreditOf(schedule, epoch, gross) < net
    ensures r.Ok? ==> CreditOf(schedule, epoch, r.value) == net
    ensures r.Ok? ==>
              match schedule
              case None => r.value == net
              case Some(s) => Charges(InForce(s, epoch).bps, InForce(s, epoch).maximum, r.value, net)
    ensures r.Ok? ==> forall gross: u64 :: CreditOf(schedule, epoch, gross) >= net ==> r.value <= gross
  {
    if CreditOf(schedule, epoch, U64_MAX) < net {
      forall gross: u64
        ensures CreditOf(schedule, epoch, gross) < net
      {
        CreditOfGrowth(schedule, epoch, gross, U64_MAX);
      }
      return Err("payment cannot be grossed up");
    }
    var low: u64, high: u64 := net, U64_MAX;
    forall gross: u64 | gross < net
      ensures CreditOf(schedule, epoch, gross) < net
    {
      CreditOfGrowth(schedule, epoch, gross, gross);
    }
    while low < high
      invariant net <= low <= high
      invariant CreditOf(schedule, epoch, high) >= net
      invariant forall gross: u64 :: gross < low ==> CreditOf(schedule, epoch, gross) < net
    {
      var mid: u64 := low + (high - low) / 2;
      if CreditOf(schedule, epoch, mid) >= net {
        high := mid;
      } else {
        forall gross: u64 | gross <= mid
          ensures CreditOf(schedule, epoch, gross) < net
        {
          CreditOfGrowth(schedule, epoch, gross, mid);
        }
        low := mid + 1;
      }
    }
    if low > 0 {
      CreditOfGrowth(schedule, epoch, low - 1, low);
    } else {
      CreditOfGrowth(schedule, epoch, low, low);
    }
    if schedule.Some? {
      CreditOfCharges(schedule.value, epoch, low);
    }
    r := Ok(low);
  }
}
