/**
 The injected collaborators of the calculator, seen only through the calls
 the core makes on them: the optional calculation logger is a sequence of
 notification events, and the exchange-rate service is a rate function whose
 consultations are recorded as queries.
 */
module Collaborators {

  /** One call on `ICalculationLogger`. */
  datatype LogEvent =
    | LogCalculation(operation: string, input: real, result: real)
    | LogSuccess(message: string)
    | LogError(error: string)

  /** One call `GetExchangeRate(fromCurrency, toCurrency)` on `IExchangeRateService`. */
  datatype RateQuery = RateQuery(fromCurrency: string, toCurrency: string)

  /** The rate an exchange-rate service answers for a currency pair. */
  type ExchangeRateService = (string, string) -> real
}
