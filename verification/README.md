# Finance calculator core in Dafny

This project models the core of a small C# finance calculator. The core is in
`FinanceCalculatorTest/UnitTest1.cs` and has two parts.

- `FinancialCalculator.CalculateCredit` validates a loan request with three
  ordered range checks. It notifies an optional `ICalculationLogger` before and
  after the computation. It turns the annuity payment into a
  `CreditCalculationResult` by rounding half-to-even to whole cents with exact
  `decimal` arithmetic.
- `CurrencyConverter.ConvertCurrency` returns the amount unchanged when the two
  currencies are the same. Otherwise it asks the injected `IExchangeRateService`
  for one rate and rounds the product to cents, ties to even.

C# `decimal` values are Dafny `real` values, which are exact. Thrown exceptions
are the `Failure` side of a `Result`. The collaborators appear only as the calls
made on them:

- logger calls are a returned sequence of `LogEvent`s;
- the rate service is a function `(from, to) -> rate`, and each lookup is a
  recorded `RateQuery`.

Files and modules:

- `wrappers.dfy` (`Wrappers`): `Option` and `Result`.
- `rounding.dfy` (`Rounding`): `Math.Round(x, 2, MidpointRounding.ToEven)` as
  `RoundHalfEven2`. It comes with an independent reference definition,
  `IsBankersRounding`: a whole number of cents, closer than half a cent, or
  exactly half a cent away with an even cent count. The module proves the
  algebraic properties of this rounding.
- `collaborators.dfy` (`Collaborators`): logger events, rate queries, and the
  rate-service function type.
- `credit.dfy` (`Credit`): validation, logger trace, post-processing,
  `CalculateCredit`, and the reference loans from the test suite.
- `currency.dfy` (`Currency`): `ConvertCurrency` and its reference conversion.

The raw monthly payment is the double-precision annuity formula plus its cast
to `decimal`. `CalculateCredit` takes it as a parameter, `annuity`. The
parameter returns either the converted value or `CastOverflow`. `CastOverflow`
is the `OverflowException` that `(decimal)` throws on an infinite or NaN double.
The code can reach that case. For example, with an annual rate of
`0.0000000000000001` the check `annualRate <= 0` passes, but `1 + monthlyRate`
equals `1.0` in double precision. The formula then divides by zero. The model
keeps the consequence for the logger: `LogCalculation` has already been called,
but `LogSuccess` never is.

Other facts about the code that the model keeps:

- `ConvertCurrency` accepts any amount, including `amount <= 0`.
- `ConvertCurrency` uses whatever rate the service answers, unchecked. It has
  no error of its own for an unknown currency pair.
- The validation messages say "от 1" and "от 0.1", but the checks reject only
  values `<= 0`. So an amount of 0.5 or a rate of 0.05 passes validation.
- A valid loan can round to a zero monthly payment and a negative overpayment,
  even inside the bounds the messages advertise. An amount of 1 at 1% over 360
  months has a raw payment of about 0.0032, which rounds to 0.00. The total is
  then 0 and the overpayment is -1.00 (`Credit.SmallLoanPaysNothing`). Because
  the checks are looser than the messages, smaller amounts also pass. 0.01 over
  360 months at 1% gives an overpayment of -0.01
  (`Credit.TinyLoanPaysNothing`).

## Model

| member | source | states |
|---|---|---|
| Rounding.RoundHalfEven2 | FinanceCalculatorTest/UnitTest1.cs:153 | the result is a whole number of cents, within half a cent of the input, and an exact tie goes to the even cent (the reference definition `IsBankersRounding`) |
| Rounding.BankersIsUnique | FinanceCalculatorTest/UnitTest1.cs:153 | any value that meets the reference definition of banker's rounding is the rounding itself |
| Rounding.RoundCharacterization | FinanceCalculatorTest/UnitTest1.cs:153 | `r` is the banker's rounding of `x` if and only if it meets the reference definition (both directions) |
| Rounding.RoundCentsIsIdentity | FinanceCalculatorTest/UnitTest1.cs:161-162 | a value that already has two fractional digits is left unchanged by rounding |
| Rounding.RoundIdempotent | FinanceCalculatorTest/UnitTest1.cs:153 | rounding twice gives the same result as rounding once |
| Rounding.RoundNearCents | FinanceCalculatorTest/UnitTest1.cs:153 | any value strictly within half a cent of `n` cents rounds to `n` cents |
| Rounding.RoundMidpoint | FinanceCalculatorTest/UnitTest1.cs:153 | a value exactly halfway between `k` and `k+1` cents rounds to whichever of the two is even |
| Rounding.RoundIsNearest | FinanceCalculatorTest/UnitTest1.cs:186 | no whole number of cents is closer to the input than its rounding |
| Rounding.RoundMonotone | FinanceCalculatorTest/UnitTest1.cs:186 | rounding preserves order: `x <= y` implies `round(x) <= round(y)` |
| Rounding.RoundNegate | FinanceCalculatorTest/UnitTest1.cs:161 | ties-to-even rounding is symmetric about zero, so a negative overpayment rounds as the mirror of its absolute value |
| Rounding.CentsTimesInt | FinanceCalculatorTest/UnitTest1.cs:155 | a whole number of cents times a whole number of months is a whole number of cents |
| Rounding.CentsMinusCents | FinanceCalculatorTest/UnitTest1.cs:156 | the difference of two whole numbers of cents is a whole number of cents |
| Credit.Validate | FinanceCalculatorTest/UnitTest1.cs:135-142 | the request fails if and only if `amount <= 0`, `amount > 10000000`, `months <= 0`, `months > 360`, `annualRate <= 0` or `annualRate >= 100`; the reported check is the first failing one in the order amount, months, rate |
| Credit.MessageIdentifiesCheck | FinanceCalculatorTest/UnitTest1.cs:135-142 | the three `ArgumentException` messages are pairwise different, so the message identifies the failed check |
| Credit.PostProcess | FinanceCalculatorTest/UnitTest1.cs:152-163 | `MonthlyPayment` is the banker's rounding of the raw payment; `TotalAmount` is exactly `MonthlyPayment * months`, so the rounding at line 162 changes nothing; `Overpayment` is the banker's rounding of `TotalAmount - amount`, and equals it exactly when `amount` has two fractional digits; all three are whole numbers of cents |
| Credit.CalculateCredit | FinanceCalculatorTest/UnitTest1.cs:133-168 | a failed range check throws `ArgumentException` with that check's reason and makes no logger call; a cast overflow throws after exactly one `LogCalculation("Кредитный расчет", amount, 0)`; it succeeds if and only if validation passes and the cast succeeds, and then returns the post-processed result after exactly that call followed by `LogSuccess("Расчет завершен успешно")`; without a logger nothing is logged |
| Credit.LoggerDoesNotAffectResult | FinanceCalculatorTest/UnitTest1.cs:144-165 | attaching a logger never changes the returned result or the thrown exception |
| Credit.ValidationPrecedesFormula | FinanceCalculatorTest/UnitTest1.cs:135-150 | a request rejected by validation behaves the same for every payment formula, because the formula is not reached |
| Credit.ReferenceRow | FinanceCalculatorTest/UnitTest1.cs:152-162 | for a valid request with an amount in whole cents, a raw payment within half a cent of `p` cents gives payment `p`, total `p * months` and overpayment `p * months - amount` |
| Credit.SmallLoanPaysNothing | FinanceCalculatorTest/UnitTest1.cs:135-156 | 1 over 360 months at 1% passes validation, and a raw payment below half a cent gives monthly payment 0, total 0 and overpayment -1 |
| Credit.TinyLoanPaysNothing | FinanceCalculatorTest/UnitTest1.cs:135-156 | 0.01 over 360 months at 1% passes validation, and a raw payment below half a cent gives monthly payment 0, total 0 and overpayment -0.01 |
| Credit.ReferenceLoans | FinanceCalculatorTest/UnitTest1.cs:33-35 | the pinned monthly payments 8791.59, 8455.28 and 9697.33 give the totals 105499.08, 50731.68 and 232735.92 and the overpayments 5499.08, 731.68 and 32735.92 |
| Credit.RejectedRequests | FinanceCalculatorTest/UnitTest1.cs:69-81 | each of the six invalid requests of the test suite throws `ArgumentException` naming the expected check, with an empty logger trace |
| Currency.ConvertCurrency | FinanceCalculatorTest/UnitTest1.cs:180-187 | equal currencies return the amount exactly with no rate lookup; otherwise the converter makes exactly one lookup for `(from, to)` and returns the banker's rounding of `amount * rate` |
| Currency.ConversionUsesOnlyLookedUpRates | FinanceCalculatorTest/UnitTest1.cs:185-186 | two rate services that agree on the looked-up pairs give the same conversion |
| Currency.ConvertCentsAtWholeRate | FinanceCalculatorTest/UnitTest1.cs:186 | an amount in whole cents at a whole-number rate converts exactly, with no rounding loss |
| Currency.UsdToRub | FinanceCalculatorTest/UnitTest1.cs:84-100 | 100 USD at a rate of 90 converts to 9000 after exactly one lookup of `("USD", "RUB")` |

## Left out

- The double-precision annuity formula with `Math.Pow` and its `(decimal)` cast
  (FinanceCalculatorTest/UnitTest1.cs:146-152) are floating-point numerics. They
  are the opaque `annuity` parameter. So the model does not derive the
  reference monthly payments; it only consumes them.
- Credit.CalculateCredit: does not state that the monthly payment is positive
  or that the overpayment is non-negative, because the code does not
  guarantee either one for valid requests (`Credit.SmallLoanPaysNothing`).
- C# `decimal` limits are not modelled: 28–29 significant digits and overflow.
  For a valid loan request, `payment * months` stays far below the `decimal`
  range. `amount * rate` in `ConvertCurrency` is not range-checked, and its
  `OverflowException` for huge operands is not modelled.
- `months` is a C# `int`. Validation keeps it in 1..360, so 32-bit range is
  not modelled.
- Concrete loggers and rate services are not modelled. Their calls are events
  and queries. The model assumes they do not throw. In the code, an exception
  from the rate service or the logger propagates to the caller.
- C# `decimal` keeps its scale (trailing zeros), and `Math.Round` never adds
  digits. So `100m * 90.0m` gives `9000.0`, not `9000.00`, and the identity
  case at FinanceCalculatorTest/UnitTest1.cs:183 returns `amount` with its own
  scale. Dafny `real` has no scale, so the model keeps only the numeric value,
  which is all that `decimal` equality compares.
- Null references are not modelled. A null `IExchangeRateService` makes
  FinanceCalculatorTest/UnitTest1.cs:185 throw `NullReferenceException` when
  the currencies differ. Two null currency strings compare equal at line 182.
  Neither the rate-service function nor a Dafny `string` can be null.
- `ICalculationLogger.LogError` is a model constructor, but the core never
  calls it.
- The xUnit/Moq test harness is not modelled. The console program in
  `finance calculator/src/Program.cs` (menu loop, parsing, printing, its own
  deposit and credit code) is not part of this model.
