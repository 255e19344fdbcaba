/** `CurrencyConverter.ConvertCurrency` over an injected exchange-rate service. */
module Currency {
  import opened Rounding
  import opened Collaborators

  /** The converted amount, with the rate lookups made to obtain it. */
  datatype Conversion = Conversion(value: real, lookups: seq<RateQuery>)

  /** Convert `amount` from `fromCurrency` to `toCurrency` using `service`. */
  function ConvertCurrency(service: ExchangeRateService, amount: real,
                           fromCurrency: string, toCurrency: string): (c: Conversion)
    // the same currency: the amount itself, exactly, without consulting the service
    ensures fromCurrency == toCurrency ==> c.value == amount && c.lookups == []
    // otherwise one lookup for the pair, and the product rounded to cents, ties to even
    ensures fromCurrency != toCurrency ==>
              && c.lookups == [RateQuery(fromCurrency, toCurrency)]
              && IsBankersRounding(amount * service(fromCurrency, toCurrency), c.value)
  {
    if fromCurrency == toCurrency then
      Conversion(amount, [])
    else
      var rate := service(fromCurrency, toCurrency);
      Conversion(RoundHalfEven2(amount * rate), [RateQuery(fromCurrency, toCurrency)])
  }

  /** The result depends on the service only through the pairs it looked up. */
  lemma ConversionUsesOnlyLookedUpRates(s: ExchangeRateService, t: ExchangeRateService, amount: real,
                                        fromCurrency: string, toCurrency: string)
    requires forall q :: q in ConvertCurrency(s, amount, fromCurrency, toCurrency).lookups
                         ==> s(q.fromCurrency, q.toCurrency) == t(q.fromCurrency, q.toCurrency)
    ensures ConvertCurrency(s, amount, fromCurrency, toCurrency)
         == ConvertCurrency(t, amount, fromCurrency, toCurrency)
  {
    var cs := ConvertCurrency(s, amount, fromCurrency, toCurrency);
    var ct := ConvertCurrency(t, amount, fromCurrency, toCurrency);
    if fromCurrency != toCurrency {
      assert RateQuery(fromCurrency, toCurrency) in cs.lookups;
      var product := amount * s(fromCurrency, toCurrency);
      assert product == amount * t(fromCurrency, toCurrency);
      BankersIsUnique(product, cs.value);
      BankersIsUnique(product, ct.value);
    }
    assert cs.value == ct.value && cs.lookups == ct.lookups;
  }

  /** Converting a whole number of cents at a whole-number rate is exact. */
  lemma ConvertCentsAtWholeRate(service: ExchangeRateService, amount: real, rate: int,
                                fromCurrency: string, toCurrency: string)
    requires fromCurrency != toCurrency
    requires IsCents(amount) && service(fromCurrency, toCurrency) == rate as real
    ensures ConvertCurrency(service, amount, fromCurrency, toCurrency).value == amount * rate as real
  {
    var c := ConvertCurrency(service, amount, fromCurrency, toCurrency);
    CentsTimesInt(amount, rate);
    RoundCentsIsIdentity(amount * rate as real);
    BankersIsUnique(amount * rate as real, c.value);
  }

  /** 100 USD at 90 RUB per USD is 9000 RUB, after one lookup of (USD, RUB). */
  lemma UsdToRub(service: ExchangeRateService)
    requires service("USD", "RUB") == 90.0
    ensures ConvertCurrency(service, 100.0, "USD", "RUB") == Conversion(9000.0, [RateQuery("USD", "RUB")])
  {
    ConvertCentsAtWholeRate(service, 100.0, 90, "USD", "RUB");
  }
}
