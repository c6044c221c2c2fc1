/**
 * The three record kinds the engine joins: sales, products and customers.
 * Every record is immutable once built; ids are plain integers and a sale
 * refers to its product and customer by id only.
 */
module Records {

  /** A calendar month number, January = 1 … December = 12. */
  type Month = m: int | 1 <= m <= 12 witness 1

  /** The date-time stamp of a sale (nanoseconds are not kept). */
  datatype DateTime = DateTime(year: int, month: Month, day: int, hour: int, minute: int, second: int)

  /** One sales transaction. */
  datatype Sale = Sale(saleId: int, saleDateTime: DateTime, customerId: int, productId: int)

  /** A catalogue entry; the price is an exact amount in the smallest currency unit. */
  datatype Product = Product(productId: int, productName: string, price: int)

  /** A customer record. */
  datatype Customer = Customer(customerId: int, customerName: string)

  /**
   * The short display name of a month. Only the month number determines it,
   * and distinct months have distinct names; the locale's actual text is not modelled.
   */
  datatype MonthLabel = MonthLabel(month: Month)

  /** The month name under which a sale made at `dt` is reported: the year plays no part. */
  function MonthName(dt: DateTime): MonthLabel
  {
    MonthLabel(dt.month)
  }
}
