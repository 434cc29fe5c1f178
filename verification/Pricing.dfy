/** What an invoice costs (api/v1/payments.py). All amounts are whole kopecks; `round(x, 2)` of the source is
    rounding to the nearest kopeck, a half going to the even one. */
module Pricing {
  import opened Prelude

  /** DISCOUNTS and REFERRAL_DISCOUNT_PERCENT in percent, MIN_PAYMENT_AMOUNT in kopecks. */
  datatype Config = Config(volumePercent: int, referralPercent: int, minimum: int)

  /** With DISCOUNTS at 3, the other two as they are by default. */
  const DEFAULTS := Config(3, 10, 1000)

  datatype Customer = Customer(tgId: int, referralId: Option<int>, checkReferral: bool, balance: int)

  datatype Amounts = Amounts(base: int, promo: int, volume: int, referral: int, balance: int, final: int)

  // ---------------------------------------------------------------- rounding

  function RoundHalfEven(n: int, d: int): int
    requires d > 0
  {
    var q, r := n / d, n % d;
    if 2 * r < d || (2 * r == d && q % 2 == 0) then q else q + 1
  }

  /** The result is a nearest integer, and the even one of two equally near. */
  lemma RoundIsNearest(n: int, d: int)
    requires d > 0
    ensures var q := RoundHalfEven(n, d);
            && (2 * q - 1) * d <= 2 * n <= (2 * q + 1) * d
            && (2 * n == (2 * q - 1) * d || 2 * n == (2 * q + 1) * d ==> q % 2 == 0)
  {
    var q, r := n / d, n % d;
    assert n == q * d + r;
    assert (2 * q - 1) * d == 2 * (q * d) - d && (2 * q + 1) * d == 2 * (q * d) + d;
    assert (2 * (q + 1) - 1) * d == 2 * (q * d) + d && (2 * (q + 1) + 1) * d == 2 * (q * d) + 3 * d;
  }

  lemma TimesMonotone(a: int, b: int, d: int)
    requires a <= b && d > 0
    ensures a * d <= b * d
  {
  }

  /** When a rounded quotient reaches a bound. */
  lemma RoundReaches(n: int, d: int, k: int)
    requires d > 0
    ensures RoundHalfEven(n, d) >= k <==> 2 * n > (2 * k - 1) * d || (2 * n == (2 * k - 1) * d && k % 2 == 0)
  {
    var q := RoundHalfEven(n, d);
    RoundIsNearest(n, d);
    if q > k {
      TimesMonotone(2 * k + 1, 2 * q - 1, d);
      TimesLess(2 * k - 1, 2 * k + 1, d);
    } else if q < k {
      TimesMonotone(2 * q + 1, 2 * k - 1, d);
      if q + 1 < k {
        TimesLess(2 * q + 1, 2 * k - 1, d);
      }
    }
  }

  lemma TimesLess(a: int, b: int, d: int)
    requires a < b && d > 0
    ensures a * d < b * d
  {
  }

  lemma RoundMonotone(n: int, m: int, d: int)
    requires d > 0 && n <= m
    ensures RoundHalfEven(n, d) <= RoundHalfEven(m, d)
  {
    RoundReaches(n, d, RoundHalfEven(n, d));
    RoundReaches(m, d, RoundHalfEven(n, d));
  }

  // ---------------------------------------------------------------- the amount of a payment

  function AfterVolume(cfg: Config, amount: int, months: int): int {
    if months >= 2 && cfg.volumePercent > 0 then RoundHalfEven(amount * (100 - cfg.volumePercent), 100) else amount
  }

  function ReferralDiscount(cfg: Config, amount: int, requested: Option<int>, c: Customer): int {
    if requested.Some? && requested.value > 0 then requested.value
    else if c.referralId.Some? && !c.checkReferral && c.referralId.value != c.tgId
    then RoundHalfEven(amount * cfg.referralPercent, 100)
    else 0
  }

  /** How much of the customer's balance pays for an amount. */
  function BalanceSpend(cfg: Config, amount: int, balance: int): int {
    if balance > 0 && amount > cfg.minimum
    then if balance < amount - cfg.minimum then balance else amount - cfg.minimum
    else 0
  }

  function Calculate(cfg: Config, tariff: int, months: int, requested: Option<int>, c: Customer, promo: int): Amounts {
    var base := tariff * months;
    var afterPromo := base - promo;
    var afterVolume := AfterVolume(cfg, afterPromo, months);
    var referral := ReferralDiscount(cfg, afterVolume, requested, c);
    var spend := BalanceSpend(cfg, afterVolume - referral, c.balance);
    Amounts(base, promo, afterPromo - afterVolume, referral, spend, afterVolume - referral - spend)
  }

  function BeforeBalance(a: Amounts): int {
    a.final + a.balance
  }

  /** The reported discounts account for the whole difference between the base and the final amount. */
  lemma DiscountsAddUp(cfg: Config, tariff: int, months: int, requested: Option<int>, c: Customer, promo: int)
    ensures var a := Calculate(cfg, tariff, months, requested, c, promo);
            && a.base == tariff * months
            && a.final + a.balance + a.referral + a.volume + a.promo == a.base
  {
  }

  /** The volume discount is a nearest kopeck amount to its percentage of what the promo code left, for two
      months or more; otherwise there is none. */
  lemma VolumeDiscountMeans(cfg: Config, tariff: int, months: int, requested: Option<int>, c: Customer, promo: int)
    ensures var a := Calculate(cfg, tariff, months, requested, c, promo);
            if months < 2 || cfg.volumePercent <= 0 then a.volume == 0
            else -50 <= 100 * a.volume - cfg.volumePercent * (a.base - a.promo) <= 50
  {
    var left := tariff * months - promo;
    RoundIsNearest(left * (100 - cfg.volumePercent), 100);
    assert left * (100 - cfg.volumePercent) == 100 * left - cfg.volumePercent * left;
  }

  /** A discount passed with the request is taken as it is. Without one, only a customer whom somebody else
      invited and whose discount is unused gets any: a nearest kopeck amount to its percentage of what the
      volume discount left. */
  lemma ReferralDiscountMeans(cfg: Config, tariff: int, months: int, requested: Option<int>, c: Customer, promo: int)
    ensures var a := Calculate(cfg, tariff, months, requested, c, promo);
            var invited := c.referralId.Some? && c.referralId != Some(c.tgId) && !c.checkReferral;
            if requested.Some? && requested.value > 0 then a.referral == requested.value
            else if !invited then a.referral == 0
            else -50 <= 100 * a.referral - cfg.referralPercent * (a.base - a.promo - a.volume) <= 50
  {
    var v := AfterVolume(cfg, tariff * months - promo, months);
    RoundIsNearest(v * cfg.referralPercent, 100);
    assert v * cfg.referralPercent == cfg.referralPercent * v;
  }

  /** Spending the balance never uses more than there is, never takes the amount below the minimum payment
      (or below what it was), and is the largest spend with these properties. */
  lemma SpendIsLargest(cfg: Config, amount: int, balance: int, other: int)
    ensures var spend := BalanceSpend(cfg, amount, balance);
            && 0 <= spend <= (if balance > 0 then balance else 0)
            && (amount - spend >= cfg.minimum || spend == 0)
            && (0 <= other <= balance && amount - other >= cfg.minimum ==> other <= spend)
  {
  }

  /** What remains to be paid grows with the amount, and not faster than it. */
  lemma FinalMonotone(cfg: Config, a: int, b: int, balance: int)
    requires a <= b
    ensures 0 <= (b - BalanceSpend(cfg, b, balance)) - (a - BalanceSpend(cfg, a, balance)) <= b - a
  {
  }

  /** The invoice is at least the minimum payment exactly when the amount before the balance is. */
  lemma BalanceKeepsFloor(cfg: Config, tariff: int, months: int, requested: Option<int>, c: Customer, promo: int)
    ensures var a := Calculate(cfg, tariff, months, requested, c, promo);
            a.final >= cfg.minimum <==> BeforeBalance(a) >= cfg.minimum
  {
  }

  // ---------------------------------------------------------------- promo codes

  /** What became of the code that was entered. */
  datatype PromoCheck = NoCode | Refused(reason: string) | Accepted(percent: int, maxMonths: Option<int>)

  datatype PromoStatus = NoStatus | Applied | NotBetter | Reason(reason: string)

  datatype Order = Order(tariff: int, stockPrice: int, months: int, requested: Option<int>, customer: Customer)

  datatype Quote = Quote(result: Amounts, promoDiscount: int, status: PromoStatus)

  function Min(a: int, b: int): int {
    if a < b then a else b
  }

  /** A limit of zero months means no limit. */
  function DiscountFor(percent: int, maxMonths: Option<int>, price: int, months: int): int {
    var discounted := if maxMonths.Some? && maxMonths.value != 0 then Min(months, maxMonths.value) else months;
    RoundHalfEven(price * discounted * percent, 100)
  }

  function PromoDiscount(cfg: Config, o: Order, percent: int, maxMonths: Option<int>): int {
    var room := o.tariff * o.months - cfg.minimum;
    Min(DiscountFor(percent, maxMonths, o.tariff, o.months), if room > 0 then room else 0)
  }

  /** The amount with the stock price and the referral discount. */
  function PlainAmounts(cfg: Config, o: Order): Amounts {
    Calculate(cfg, o.stockPrice, o.months, o.requested, o.customer, 0)
  }

  /** The amount with the promo code instead of both. */
  function PromoAmounts(cfg: Config, o: Order, discount: int): Amounts {
    Calculate(cfg, o.tariff, o.months, None, o.customer.(referralId := None, checkReferral := false), discount)
  }

  /** A code takes its percentage of the full price of the months it is for, to the nearest kopeck, but leaves the
      minimum payment; a code for more months than are paid, or without a limit of months, is for all of them. */
  lemma PromoDiscountMeans(cfg: Config, o: Order, percent: int, maxMonths: Option<int>)
    ensures var months := if maxMonths.None? || maxMonths.value == 0 || maxMonths.value > o.months then o.months
                          else maxMonths.value;
            var discount, room := PromoDiscount(cfg, o, percent, maxMonths), o.tariff * o.months - cfg.minimum;
            && discount <= (if room > 0 then room else 0)
            && (discount < room ==> -50 <= 100 * discount - o.tariff * months * percent <= 50)
            && (room <= 0 ==> discount <= 0)
            && 100 * discount - o.tariff * months * percent <= 50
  {
    var months := if maxMonths.None? || maxMonths.value == 0 || maxMonths.value > o.months then o.months
                  else maxMonths.value;
    RoundIsNearest(o.tariff * months * percent, 100);
  }

  /** The two variants: the stock price with the referral discount, or the full price with the code instead. */
  lemma VariantsMean(cfg: Config, o: Order, discount: int)
    ensures PlainAmounts(cfg, o).base == o.stockPrice * o.months && PlainAmounts(cfg, o).promo == 0
    ensures PromoAmounts(cfg, o, discount).base == o.tariff * o.months && PromoAmounts(cfg, o, discount).promo == discount
    ensures PromoAmounts(cfg, o, discount).referral == 0
  {
  }

  method QuotePayment(cfg: Config, o: Order, check: PromoCheck) returns (quote: Quote)
    ensures check.NoCode? ==> quote == Quote(PlainAmounts(cfg, o), 0, NoStatus)
    ensures check.Refused? ==> quote == Quote(PlainAmounts(cfg, o), 0, Reason(check.reason))
    ensures check.Accepted? ==>
              var discount := PromoDiscount(cfg, o, check.percent, check.maxMonths);
              quote == PromoQuote(cfg, o, discount)
  {
    var result := PlainAmounts(cfg, o);
    quote := Quote(result, 0, NoStatus);
    match check {
      case NoCode =>
      case Refused(reason) => quote := quote.(status := Reason(reason));
      case Accepted(percent, maxMonths) =>
        var discount := PromoDiscount(cfg, o, percent, maxMonths);
        var promoResult := PromoAmounts(cfg, o, discount);
        if discount > 0 && BeforeBalance(promoResult) < BeforeBalance(result) {
          quote := Quote(promoResult, discount, Applied);
        } else {
          quote := quote.(status := NotBetter);
        }
    }
  }

  function PromoQuote(cfg: Config, o: Order, discount: int): Quote {
    var plain, promo := PlainAmounts(cfg, o), PromoAmounts(cfg, o, discount);
    if discount > 0 && BeforeBalance(promo) < BeforeBalance(plain) then Quote(promo, discount, Applied)
    else Quote(plain, 0, NotBetter)
  }

  /** A code is applied exactly when it takes something off and strictly lowers the amount before the balance. */
  lemma AppliedIff(cfg: Config, o: Order, discount: int)
    ensures var q, plain, promo := PromoQuote(cfg, o, discount), PlainAmounts(cfg, o), PromoAmounts(cfg, o, discount);
            if discount > 0 && promo.final + promo.balance < plain.final + plain.balance
            then q.status == Applied && q.result == promo && q.promoDiscount == discount
            else q.status == NotBetter && q.result == plain && q.promoDiscount == 0
  {
  }

  lemma PlainIsMonotone(cfg: Config, o: Order, discount: int)
    ensures BeforeBalance(PromoAmounts(cfg, o, discount)) <= BeforeBalance(PlainAmounts(cfg, o))
            ==> PromoAmounts(cfg, o, discount).final <= PlainAmounts(cfg, o).final
    ensures BeforeBalance(PromoAmounts(cfg, o, discount)) >= BeforeBalance(PlainAmounts(cfg, o))
            ==> PromoAmounts(cfg, o, discount).final >= PlainAmounts(cfg, o).final
  {
    var a, b := BeforeBalance(PromoAmounts(cfg, o, discount)), BeforeBalance(PlainAmounts(cfg, o));
    if a <= b {
      FinalMonotone(cfg, a, b, o.customer.balance);
    }
    if b <= a {
      FinalMonotone(cfg, b, a, o.customer.balance);
    }
  }

  /** Entering a code never raises the invoice. The choice is made before the balance is spent, yet it
      is the cheaper of the two invoices. */
  lemma PromoNeverRaises(cfg: Config, o: Order, discount: int)
    ensures PromoQuote(cfg, o, discount).result.final <= PlainAmounts(cfg, o).final
    ensures discount > 0 ==>
              PromoQuote(cfg, o, discount).result.final
              == Min(PlainAmounts(cfg, o).final, PromoAmounts(cfg, o, discount).final)
  {
    PlainIsMonotone(cfg, o, discount);
  }

  /** A code that takes nothing off could not have helped either, so the quote is always the cheaper one
      when the stock price is no higher than the full price and the discounts are percentages. */
  lemma QuoteIsCheaper(cfg: Config, o: Order, discount: int)
    requires 0 <= o.stockPrice <= o.tariff && o.months >= 0 && discount >= 0
    requires cfg.volumePercent <= 100 && 0 <= cfg.referralPercent
    ensures PromoQuote(cfg, o, discount).result.final
            == Min(PlainAmounts(cfg, o).final, PromoAmounts(cfg, o, discount).final)
  {
    PromoNeverRaises(cfg, o, discount);
    if discount == 0 {
      ProductMonotone(o.stockPrice, o.tariff, o.months);
      var plain, full := o.stockPrice * o.months, o.tariff * o.months;
      assert 0 <= plain <= full;
      VolumeMonotone(cfg, plain, full, o.months);
      ReferralNotNegative(cfg, plain, o.months, o.requested, o.customer);
      PlainIsMonotone(cfg, o, 0);
    }
  }

  lemma ProductMonotone(a: int, b: int, n: int)
    requires 0 <= a <= b && n >= 0
    ensures 0 <= a * n <= b * n
  {
  }

  lemma VolumeMonotone(cfg: Config, a: int, b: int, months: int)
    requires 0 <= a <= b && cfg.volumePercent <= 100
    ensures 0 <= AfterVolume(cfg, a, months) <= AfterVolume(cfg, b, months)
  {
    ProductMonotone(a, b, 100 - cfg.volumePercent);
    RoundMonotone(0, a * (100 - cfg.volumePercent), 100);
    RoundMonotone(a * (100 - cfg.volumePercent), b * (100 - cfg.volumePercent), 100);
  }

  lemma ReferralNotNegative(cfg: Config, amount: int, months: int, requested: Option<int>, c: Customer)
    requires amount >= 0 && cfg.volumePercent <= 100 && 0 <= cfg.referralPercent
    ensures ReferralDiscount(cfg, AfterVolume(cfg, amount, months), requested, c) >= 0
  {
    VolumeMonotone(cfg, amount, amount, months);
    var v := AfterVolume(cfg, amount, months);
    ProductMonotone(0, v, cfg.referralPercent);
    RoundMonotone(0, v * cfg.referralPercent, 100);
  }

  // ---------------------------------------------------------------- the minimum payment under a promo code

  /** A promo code alone leaves at least the minimum payment, and it applies only above it. */
  lemma PromoLeavesMinimum(cfg: Config, o: Order, percent: int, maxMonths: Option<int>)
    ensures var discount := PromoDiscount(cfg, o, percent, maxMonths);
            discount > 0 ==> o.tariff * o.months - discount >= cfg.minimum
  {
  }

  /** The volume discount comes after it, and may take the sum below the minimum again: an invoice with an
      applied code keeps the minimum if and only if there is no volume discount or it leaves enough. */
  lemma PromoFloor(cfg: Config, o: Order, percent: int, maxMonths: Option<int>)
    ensures var discount := PromoDiscount(cfg, o, percent, maxMonths);
            var left := o.tariff * o.months - discount;
            var reduced := 2 * left * (100 - cfg.volumePercent);
            var bound := (2 * cfg.minimum - 1) * 100;
            discount > 0 ==>
              (PromoAmounts(cfg, o, discount).final >= cfg.minimum <==>
                 || o.months < 2 || cfg.volumePercent <= 0
                 || reduced > bound || (reduced == bound && cfg.minimum % 2 == 0))
  {
    var discount := PromoDiscount(cfg, o, percent, maxMonths);
    BalanceKeepsFloor(cfg, o.tariff, o.months, None, o.customer.(referralId := None, checkReferral := false), discount);
    VolumeFloor(cfg, o.tariff * o.months - discount, o.months);
  }

  lemma VolumeFloor(cfg: Config, left: int, months: int)
    ensures var reduced := 2 * left * (100 - cfg.volumePercent);
            var bound := (2 * cfg.minimum - 1) * 100;
            left >= cfg.minimum ==>
              (AfterVolume(cfg, left, months) >= cfg.minimum <==>
                 || months < 2 || cfg.volumePercent <= 0
                 || reduced > bound || (reduced == bound && cfg.minimum % 2 == 0))
  {
    RoundReaches(left * (100 - cfg.volumePercent), 100, cfg.minimum);
    assert 2 * (left * (100 - cfg.volumePercent)) == 2 * left * (100 - cfg.volumePercent);
  }

  /** With the default amounts: for two months or more, exactly from 10.31 roubles left upwards. */
  lemma PromoFloorByDefault(o: Order, percent: int, maxMonths: Option<int>)
    ensures var discount := PromoDiscount(DEFAULTS, o, percent, maxMonths);
            discount > 0 ==>
              (PromoAmounts(DEFAULTS, o, discount).final >= DEFAULTS.minimum <==>
                 o.months < 2 || o.tariff * o.months - discount >= 1031)
  {
    PromoFloor(DEFAULTS, o, percent, maxMonths);
  }

  /** Two months at 100 roubles with a code for the whole price: the code leaves 10 roubles, the volume
      discount makes it 9.70. */
  lemma PromoFloorBroken()
    ensures var o := Order(10000, 10000, 2, None, Customer(1, None, false, 0));
            var discount := PromoDiscount(DEFAULTS, o, 100, None);
            && discount == 19000
            && PromoQuote(DEFAULTS, o, discount).status == Applied
            && PromoQuote(DEFAULTS, o, discount).result.final == 970
  {
  }
}
