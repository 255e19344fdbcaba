/**
 `FinancialCalculator.CalculateCredit`: validation of the loan request, the
 logger notifications around the computation, and the exact decimal
 post-processing of the annuity payment. The annuity payment itself is
 evaluated in binary floating point and converted to `decimal`; the model
 takes the outcome of that evaluation as a parameter.
 */
module Credit {
  import opened Wrappers
  import opened Rounding
  import opened Collaborators

  const MaxAmount: real := 10000000.0
  const MaxMonths: int := 360
  const MaxAnnualRate: real := 100.0

  /** Operation name passed to `LogCalculation` before the computation. */
  const CreditOperation: string := "Кредитный расчет"
  /** Message passed to `LogSuccess` after the computation. */
  const SuccessMessage: string := "Расчет завершен успешно"

  /** The three range checks, each of which throws `ArgumentException`. */
  datatype ValidationError = AmountOutOfRange | MonthsOutOfRange | RateOutOfRange {
    /** The exception message the check reports. */
    function Message(): string {
      match this
      case AmountOutOfRange => "Сумма кредита должна быть от 1 до 10,000,000 руб"
      case MonthsOutOfRange => "Срок кредита должен быть от 1 до 360 месяцев"
      case RateOutOfRange => "Процентная ставка должна быть от 0.1 до 99.9%"
    }
  }

  /** The message alone tells which range check failed. */
  lemma MessageIdentifiesCheck(a: ValidationError, b: ValidationError)
    ensures a.Message() == b.Message() <==> a == b
  {
  }

  /** What `CalculateCredit` can throw. */
  datatype CreditError =
    | InvalidArgument(reason: ValidationError)  // ArgumentException
    | DecimalOverflow                           // OverflowException of the (decimal) cast

  /** `CreditCalculationResult`. */
  datatype CreditCalculationResult =
    CreditCalculationResult(MonthlyPayment: real, Overpayment: real, TotalAmount: real)

  /**
   The raw monthly payment after the floating-point annuity formula and its
   cast to `decimal`: either the converted value, or the cast overflowed
   (the double was infinite, NaN or beyond the `decimal` range).
   */
  datatype RawPayment = Converted(value: real) | CastOverflow

  /** The floating-point evaluation of the annuity formula, given amount, months and annual rate. */
  type AnnuityFormula = (real, int, real) -> RawPayment

  /** A calculator, with or without an attached logger. */
  datatype FinancialCalculator = FinancialCalculator(loggerAttached: bool)

  /** The parameterless constructor attaches no logger. */
  const DefaultCalculator: FinancialCalculator := FinancialCalculator(false)

  /** The thrown error or returned result, with the logger calls made on the way. */
  datatype CreditOutcome =
    CreditOutcome(result: Result<CreditCalculationResult, CreditError>, trace: seq<LogEvent>)

  /** The first failing range check, in source order: amount, then months, then rate. */
  function Validate(amount: real, months: int, annualRate: real): (e: Option<ValidationError>)
    ensures e.None? <==>
              !(amount <= 0.0 || amount > MaxAmount || months <= 0 || months > MaxMonths
                || annualRate <= 0.0 || annualRate >= MaxAnnualRate)
    ensures e == Some(AmountOutOfRange) <==> amount <= 0.0 || amount > MaxAmount
    ensures e == Some(MonthsOutOfRange) <==>
              0.0 < amount <= MaxAmount && (months <= 0 || months > MaxMonths)
    ensures e == Some(RateOutOfRange) <==>
              0.0 < amount <= MaxAmount && 0 < months <= MaxMonths
              && (annualRate <= 0.0 || annualRate >= MaxAnnualRate)
  {
    if amount <= 0.0 || amount > MaxAmount then Some(AmountOutOfRange)
    else if months <= 0 || months > MaxMonths then Some(MonthsOutOfRange)
    else if annualRate <= 0.0 || annualRate >= MaxAnnualRate then Some(RateOutOfRange)
    else None
  }

  /** The calls `_logger?.e` makes: one when a logger is attached, none otherwise. */
  function Notify(calculator: FinancialCalculator, e: LogEvent): seq<LogEvent> {
    if calculator.loggerAttached then [e] else []
  }

  /**
   The relation between a result and the request it answers: the monthly
   payment is the banker's rounding of the raw payment, the total is the
   payment times the term exactly, and the overpayment is the banker's
   rounding of total minus amount.
   */
  ghost predicate PostProcessed(res: CreditCalculationResult, amount: real, months: int, raw: real) {
    && IsBankersRounding(raw, res.MonthlyPayment)
    && res.TotalAmount == res.MonthlyPayment * months as real
    && IsBankersRounding(res.TotalAmount - amount, res.Overpayment)
  }

  /** Rounding and arithmetic after the raw payment has been converted to `decimal`. */
  function PostProcess(amount: real, months: int, raw: real): (res: CreditCalculationResult)
    ensures PostProcessed(res, amount, months, raw)
    ensures IsCents(res.MonthlyPayment) && IsCents(res.TotalAmount) && IsCents(res.Overpayment)
    ensures IsCents(amount) ==> res.Overpayment == res.TotalAmount - amount
  {
    var payment := RoundHalfEven2(raw);
    var total := payment * months as real;
    var overpayment := total - amount;
    CentsTimesInt(payment, months);
    RoundCentsIsIdentity(total);
    assert IsCents(amount) ==> RoundHalfEven2(overpayment) == overpayment by {
      if IsCents(amount) {
        CentsMinusCents(total, amount);
        RoundCentsIsIdentity(overpayment);
      }
    }
    CreditCalculationResult(
      MonthlyPayment := payment,
      Overpayment := RoundHalfEven2(overpayment),
      TotalAmount := RoundHalfEven2(total))
  }

  /**
   `CalculateCredit(amount, months, annualRate)` on `calculator`, with `annuity`
   standing for the floating-point evaluation of the payment formula.
   */
  function CalculateCredit(calculator: FinancialCalculator, amount: real, months: int, annualRate: real,
                           annuity: AnnuityFormula): (o: CreditOutcome)
    // a failed range check throws before any logger call
    ensures Validate(amount, months, annualRate).Some? ==>
              o == CreditOutcome(Failure(InvalidArgument(Validate(amount, months, annualRate).value)), [])
    // the only other failure is the cast, after the first notification
    ensures o.result == Failure(DecimalOverflow) <==>
              Validate(amount, months, annualRate).None? && annuity(amount, months, annualRate).CastOverflow?
    ensures o.result == Failure(DecimalOverflow) ==>
              o.trace == Notify(calculator, LogCalculation(CreditOperation, amount, 0.0))
    // it succeeds exactly when validation passes and the cast succeeds
    ensures o.result.Success? <==>
              Validate(amount, months, annualRate).None? && annuity(amount, months, annualRate).Converted?
    // on success: exactly one start and one success notification, in that order
    ensures o.result.Success? ==>
              && annuity(amount, months, annualRate).Converted?
              && PostProcessed(o.result.value, amount, months, annuity(amount, months, annualRate).value)
              && o.trace == Notify(calculator, LogCalculation(CreditOperation, amount, 0.0))
                            + Notify(calculator, LogSuccess(SuccessMessage))
    ensures !calculator.loggerAttached ==> o.trace == []
  {
    match Validate(amount, months, annualRate)
    case Some(reason) => CreditOutcome(Failure(InvalidArgument(reason)), [])
    case None =>
      var started := Notify(calculator, LogCalculation(CreditOperation, amount, 0.0));
      match annuity(amount, months, annualRate)
      case CastOverflow => CreditOutcome(Failure(DecimalOverflow), started)
      case Converted(raw) =>
        CreditOutcome(Success(PostProcess(amount, months, raw)),
                      started + Notify(calculator, LogSuccess(SuccessMessage)))
  }

  /** The logger is purely observational: attaching one never changes the result. */
  lemma LoggerDoesNotAffectResult(amount: real, months: int, annualRate: real, annuity: AnnuityFormula)
    ensures CalculateCredit(FinancialCalculator(true), amount, months, annualRate, annuity).result
         == CalculateCredit(DefaultCalculator, amount, months, annualRate, annuity).result
  {
  }

  /** A request that fails validation does not depend on the payment formula. */
  lemma ValidationPrecedesFormula(calculator: FinancialCalculator, amount: real, months: int, annualRate: real,
                                  f: AnnuityFormula, g: AnnuityFormula)
    requires Validate(amount, months, annualRate).Some?
    ensures CalculateCredit(calculator, amount, months, annualRate, f)
         == CalculateCredit(calculator, amount, months, annualRate, g)
  {
  }

  /** With a payment of a whole number of cents the computation reproduces it exactly. */
  lemma ReferenceRow(calculator: FinancialCalculator, amount: real, months: int, annualRate: real,
                     annuity: AnnuityFormula, payment: real)
    requires Validate(amount, months, annualRate).None?
    requires IsCents(amount) && IsCents(payment)
    requires annuity(amount, months, annualRate).Converted?
    requires Abs(annuity(amount, months, annualRate).value - payment) < HalfCent
    ensures CalculateCredit(calculator, amount, months, annualRate, annuity).result
         == Success(CreditCalculationResult(payment, payment * months as real - amount,
                                            payment * months as real))
  {
    var raw := annuity(amount, months, annualRate).value;
    CentsOfCentCount(payment);
    RoundNearCents(raw, CentCount(payment));
    CentsTimesInt(payment, months);
    CentsMinusCents(payment * months as real, amount);
    RoundCentsIsIdentity(payment * months as real);
    RoundCentsIsIdentity(payment * months as real - amount);
    assert PostProcess(amount, months, raw)
        == CreditCalculationResult(payment, payment * months as real - amount, payment * months as real);
  }

  /**
   A zero payment also happens inside the bounds the error messages advertise:
   1 over 360 months at 1% has a raw payment of about 0.0032, below half a
   cent, so the monthly payment is 0 and the whole amount is a negative
   overpayment.
   */
  lemma SmallLoanPaysNothing(calculator: FinancialCalculator, annuity: AnnuityFormula)
    requires annuity(1.0, 360, 1.0).Converted?
    requires 0.0 <= annuity(1.0, 360, 1.0).value < HalfCent
    ensures CalculateCredit(calculator, 1.0, 360, 1.0, annuity).result
         == Success(CreditCalculationResult(0.0, -1.0, 0.0))
  {
    CentsRoundTrip(0);
    CentsRoundTrip(100);
    ReferenceRow(calculator, 1.0, 360, 1.0, annuity, 0.0);
  }

  /**
   Validation admits loans so small that the payment rounds to zero: 0.01 over
   360 months at 1% has a raw payment far below half a cent, so the monthly
   payment is 0 and the overpayment is negative.
   */
  lemma TinyLoanPaysNothing(calculator: FinancialCalculator, annuity: AnnuityFormula)
    requires annuity(0.01, 360, 1.0).Converted?
    requires 0.0 <= annuity(0.01, 360, 1.0).value < HalfCent
    ensures CalculateCredit(calculator, 0.01, 360, 1.0, annuity).result
         == Success(CreditCalculationResult(0.0, -0.01, 0.0))
  {
    CentsRoundTrip(0);
    CentsRoundTrip(1);
    ReferenceRow(calculator, 0.01, 360, 1.0, annuity, 0.0);
  }

  /** The three reference loans: 100000 at 10% over 12 months, 50000 at 5% over 6, 200000 at 15% over 24. */
  lemma ReferenceLoans(calculator: FinancialCalculator, annuity: AnnuityFormula)
    requires annuity(100000.0, 12, 10.0).Converted?
    requires Abs(annuity(100000.0, 12, 10.0).value - 8791.59) < HalfCent
    requires annuity(50000.0, 6, 5.0).Converted?
    requires Abs(annuity(50000.0, 6, 5.0).value - 8455.28) < HalfCent
    requires annuity(200000.0, 24, 15.0).Converted?
    requires Abs(annuity(200000.0, 24, 15.0).value - 9697.33) < HalfCent
    ensures CalculateCredit(calculator, 100000.0, 12, 10.0, annuity).result
         == Success(CreditCalculationResult(8791.59, 5499.08, 105499.08))
    ensures CalculateCredit(calculator, 50000.0, 6, 5.0, annuity).result
         == Success(CreditCalculationResult(8455.28, 731.68, 50731.68))
    ensures CalculateCredit(calculator, 200000.0, 24, 15.0, annuity).result
         == Success(CreditCalculationResult(9697.33, 32735.92, 232735.92))
  {
    ReferenceRow(calculator, 100000.0, 12, 10.0, annuity, 8791.59);
    ReferenceRow(calculator, 50000.0, 6, 5.0, annuity, 8455.28);
    ReferenceRow(calculator, 200000.0, 24, 15.0, annuity, 9697.33);
  }

  /** The six rejected requests of the test suite, each with the check that rejects it. */
  lemma RejectedRequests(calculator: FinancialCalculator, annuity: AnnuityFormula)
    ensures CalculateCredit(calculator, -1000.0, 12, 10.0, annuity) == CreditOutcome(Failure(InvalidArgument(AmountOutOfRange)), [])
    ensures CalculateCredit(calculator, 100000.0, 0, 10.0, annuity) == CreditOutcome(Failure(InvalidArgument(MonthsOutOfRange)), [])
    ensures CalculateCredit(calculator, 100000.0, 12, -5.0, annuity) == CreditOutcome(Failure(InvalidArgument(RateOutOfRange)), [])
    ensures CalculateCredit(calculator, 10000001.0, 12, 10.0, annuity) == CreditOutcome(Failure(InvalidArgument(AmountOutOfRange)), [])
    ensures CalculateCredit(calculator, 100000.0, 361, 10.0, annuity) == CreditOutcome(Failure(InvalidArgument(MonthsOutOfRange)), [])
    ensures CalculateCredit(calculator, 100000.0, 12, 101.0, annuity) == CreditOutcome(Failure(InvalidArgument(RateOutOfRange)), [])
  {
  }
}
