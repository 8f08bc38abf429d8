/**
 Exact amounts in a currency. `Decimal` is an exact number here, so a `real`; there is no
 addition across currencies, only `CheckedAdd`, which refuses.
 */
module CoreMoney {
  import opened Wrappers

  datatype Currency =
    | Usd | Eur | Gbp | Chf | Jpy | Cad | Aud | Sek | Nok | Dkk | Sgd | Inr

  datatype CurrencyMismatch = CurrencyMismatch(lhs: Currency, rhs: Currency)

  datatype Money = Money(amount: real, currency: Currency) {

    function Negate(): Money {
      Money(-amount, currency)
    }

    function CheckedAdd(other: Money): Result<Money, CurrencyMismatch> {
      if currency == other.currency then Success(Money(amount + other.amount, currency))
      else Failure(CurrencyMismatch(currency, other.currency))
    }
  }

  function Zero(currency: Currency): Money {
    Money(0.0, currency)
  }
}
