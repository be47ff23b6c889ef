/** The domain objects of models.py: entities, sales items and their
    pricing, customer tiers and their discounts, and orders.

    Each Python constructor becomes a function returning `Success` with the
    built object or `Failure` with the error the constructor raises; the
    checks run in the source's order, so when several inputs are bad the
    first check's error is the one reported. Money, rates and hours are
    exact `real`s. */
module Models {
  import opened Common

  /** An identifier as Python receives it: a string or a number. */
  datatype Ident = Text(text: string) | Number(number: int)

  /** Python truthiness of an identifier: the empty string and 0 are false. */
  predicate Truthy(id: Ident)
  {
    match id
    case Text(t) => t != ""
    case Number(n) => n != 0
  }

  /** The `ValueError`s the constructors and `get_price` raise. */
  datatype ValidationError =
    | EmptyIdOrName
    | NegativeBasePrice
    | NegativeStock
    | NonPositiveDuration
    | NegativeQuantity
    | InvalidEmail
    | YearsBelowOne
    | NegativeVolume
    | InvalidStatus
    | NegativeAmount

  // ---------------------------------------------------------------------
  // Entity
  // ---------------------------------------------------------------------

  datatype Entity = Entity(id: Ident, name: string)

  predicate ValidEntity(e: Entity)
  {
    Truthy(e.id) && e.name != ""
  }

  /** `Entity.__init__`: both the id and the name must be truthy. */
  function NewEntity(id: Ident, name: string): (r: Result<Entity, ValidationError>)
    ensures r.Success? <==> Truthy(id) && name != ""
    ensures r.Success? ==> r.value.id == id && r.value.name == name && ValidEntity(r.value)
    ensures r.Failure? ==> r.error == EmptyIdOrName
  {
    if !Truthy(id) || name == "" then Failure(EmptyIdOrName)
    else Success(Entity(id, name))
  }

  // ---------------------------------------------------------------------
  // Sales items: SalesItem, Product, Service
  // ---------------------------------------------------------------------

  /** Which class an item was built as, with that class's own field. A
      service keeps its hourly rate in the shared `basePrice` field. */
  datatype ItemKind = Plain | Product(stockQuantity: int) | Service(durationHours: real)

  datatype SalesItem = SalesItem(entity: Entity, category: string, basePrice: real, kind: ItemKind)

  /** What the constructors guarantee of every item they build. */
  predicate ValidItem(item: SalesItem)
  {
    && ValidEntity(item.entity)
    && item.basePrice >= 0.0
    && match item.kind
       case Plain => true
       case Product(stock) => stock >= 0
       case Service(hours) => hours > 0.0
  }

  /** `SalesItem.__init__`: an entity whose base price is not negative. */
  function NewSalesItem(id: Ident, name: string, category: string, basePrice: real): (r: Result<SalesItem, ValidationError>)
    ensures r.Success? <==> Truthy(id) && name != "" && basePrice >= 0.0
    ensures r.Success? ==> ValidItem(r.value)
    ensures r.Success? ==> r.value == SalesItem(Entity(id, name), category, basePrice, Plain)
    ensures r == Failure(EmptyIdOrName) <==> !(Truthy(id) && name != "")
    ensures r == Failure(NegativeBasePrice) <==> Truthy(id) && name != "" && basePrice < 0.0
  {
    match NewEntity(id, name)
    case Failure(e) => Failure(e)
    case Success(entity) =>
      if basePrice < 0.0 then Failure(NegativeBasePrice)
      else Success(SalesItem(entity, category, basePrice, Plain))
  }

  /** `Product.__init__`: a sales item whose stock is not negative (the
      source's default stock is 0). */
  function NewProduct(id: Ident, name: string, category: string, basePrice: real, stockQuantity: int): (r: Result<SalesItem, ValidationError>)
    ensures r.Success? <==> Truthy(id) && name != "" && basePrice >= 0.0 && stockQuantity >= 0
    ensures r.Success? ==> ValidItem(r.value)
    ensures r.Success? ==> r.value == SalesItem(Entity(id, name), category, basePrice, Product(stockQuantity))
    ensures r == Failure(EmptyIdOrName) <==> !(Truthy(id) && name != "")
    ensures r == Failure(NegativeBasePrice) <==> Truthy(id) && name != "" && basePrice < 0.0
    ensures r == Failure(NegativeStock) <==> Truthy(id) && name != "" && basePrice >= 0.0 && stockQuantity < 0
  {
    match NewSalesItem(id, name, category, basePrice)
    case Failure(e) => Failure(e)
    case Success(item) =>
      if stockQuantity < 0 then Failure(NegativeStock)
      else Success(item.(kind := Product(stockQuantity)))
  }

  /** `Service.__init__`: a sales item priced per hour whose duration is
      positive (the source's default duration is 1.0 hour). */
  function NewService(id: Ident, name: string, category: string, hourlyRate: real, durationHours: real): (r: Result<SalesItem, ValidationError>)
    ensures r.Success? <==> Truthy(id) && name != "" && hourlyRate >= 0.0 && durationHours > 0.0
    ensures r.Success? ==> ValidItem(r.value)
    ensures r.Success? ==> r.value == SalesItem(Entity(id, name), category, hourlyRate, Service(durationHours))
    ensures r == Failure(EmptyIdOrName) <==> !(Truthy(id) && name != "")
    ensures r == Failure(NegativeBasePrice) <==> Truthy(id) && name != "" && hourlyRate < 0.0
    ensures r == Failure(NonPositiveDuration) <==> Truthy(id) && name != "" && hourlyRate >= 0.0 && durationHours <= 0.0
  {
    match NewSalesItem(id, name, category, hourlyRate)
    case Failure(e) => Failure(e)
    case Success(item) =>
      if durationHours <= 0.0 then Failure(NonPositiveDuration)
      else Success(item.(kind := Service(durationHours)))
  }

  /** Rebuilding a valid item from its own fields gives the item back, so the
      constructors accept exactly the valid items. */
  lemma ItemRoundTrip(item: SalesItem)
    requires ValidItem(item)
    ensures item.kind.Plain? ==>
      NewSalesItem(item.entity.id, item.entity.name, item.category, item.basePrice) == Success(item)
    ensures item.kind.Product? ==>
      NewProduct(item.entity.id, item.entity.name, item.category, item.basePrice, item.kind.stockQuantity) == Success(item)
    ensures item.kind.Service? ==>
      NewService(item.entity.id, item.entity.name, item.category, item.basePrice, item.kind.durationHours) == Success(item)
  {
  }

  /** `get_price`, dispatched on the item's class: a plain item and a
      product charge per unit (a product refuses a negative quantity), a
      service charges rate × hours × quantity. */
  function GetPrice(item: SalesItem, quantity: int): (r: Result<real, ValidationError>)
    ensures r.Failure? <==> item.kind.Product? && quantity < 0
    ensures r.Failure? ==> r.error == NegativeQuantity
    ensures ValidItem(item) && quantity >= 0 ==> r.Success? && r.value >= 0.0
    ensures quantity == 0 ==> r == Success(0.0)
  {
    match item.kind
    case Plain => Success(item.basePrice * quantity as real)
    case Product(_) =>
      if quantity < 0 then Failure(NegativeQuantity)
      else Success(item.basePrice * quantity as real)
    case Service(hours) => Success((item.basePrice * hours) * quantity as real)
  }

  /** The price of one unit: the base price, or for a service the hourly
      rate times the duration. */
  function UnitPrice(item: SalesItem): real
  {
    match item.kind
    case Plain => item.basePrice
    case Product(_) => item.basePrice
    case Service(hours) => item.basePrice * hours
  }

  /** The price of any quantity the item accepts (every quantity, except
      a negative one for a product) is that many unit prices. */
  lemma PriceIsUnitMultiple(item: SalesItem, quantity: int)
    requires quantity >= 0 || !item.kind.Product?
    ensures GetPrice(item, quantity).Success?
    ensures GetPrice(item, quantity).value == UnitPrice(item) * quantity as real
  {
  }

  /** Pricing is linear: the price of `a + b` units is the price of `a`
      units plus the price of `b` units (models.py:53, 83, 116). */
  lemma PriceIsLinear(item: SalesItem, a: nat, b: nat)
    ensures GetPrice(item, a).Success? && GetPrice(item, b).Success?
    ensures GetPrice(item, a + b).value == GetPrice(item, a).value + GetPrice(item, b).value
  {
    var u, x, y := UnitPrice(item), a as real, b as real;
    PriceIsUnitMultiple(item, a);
    PriceIsUnitMultiple(item, b);
    PriceIsUnitMultiple(item, a + b);
    assert (a + b) as real == x + y;
    assert u * (x + y) == u * x + u * y;
  }

  /** Buying more never costs less. */
  lemma PriceMonotone(item: SalesItem, a: nat, b: nat)
    requires ValidItem(item) && a <= b
    ensures GetPrice(item, a).value <= GetPrice(item, b).value
  {
    PriceIsLinear(item, a, b - a);
  }

  // ---------------------------------------------------------------------
  // Customers and discounts
  // ---------------------------------------------------------------------

  /** The customer tier, one variant per customer class. The base
      `Customer` class and `RegularCustomer` behave identically (no
      discount) and are both `Regular`. */
  datatype CustomerTier =
    | Regular
    | Premium(yearsMember: int)
    | Corporate(companyName: string, annualVolume: real)

  datatype Customer = Customer(entity: Entity, email: string, lifetimeValue: real, tier: CustomerTier)

  predicate ValidTier(tier: CustomerTier)
  {
    match tier
    case Regular => true
    case Premium(years) => years >= 1
    case Corporate(company, volume) => company != "" && volume >= 0.0
  }

  predicate ValidCustomer(c: Customer)
  {
    ValidEntity(c.entity) && '@' in c.email && ValidTier(c.tier)
  }

  /** `Customer.__init__` (and `RegularCustomer`, which inherits it): the
      email must contain an '@'. The lifetime value is not checked. */
  function NewCustomer(id: Ident, name: string, email: string, lifetimeValue: real): (r: Result<Customer, ValidationError>)
    ensures r.Success? <==> Truthy(id) && name != "" && '@' in email
    ensures r.Success? ==> ValidCustomer(r.value)
    ensures r.Success? ==> r.value == Customer(Entity(id, name), email, lifetimeValue, Regular)
    ensures r == Failure(EmptyIdOrName) <==> !(Truthy(id) && name != "")
    ensures r == Failure(InvalidEmail) <==> Truthy(id) && name != "" && '@' !in email
  {
    match NewEntity(id, name)
    case Failure(e) => Failure(e)
    case Success(entity) =>
      if '@' !in email then Failure(InvalidEmail)
      else Success(Customer(entity, email, lifetimeValue, Regular))
  }

  /** `PremiumCustomer.__init__`: a customer with at least one year of
      membership (the source's default is 1). */
  function NewPremiumCustomer(id: Ident, name: string, email: string, lifetimeValue: real, yearsMember: int): (r: Result<Customer, ValidationError>)
    ensures r.Success? <==> Truthy(id) && name != "" && '@' in email && yearsMember >= 1
    ensures r.Success? ==> ValidCustomer(r.value)
    ensures r.Success? ==> r.value == Customer(Entity(id, name), email, lifetimeValue, Premium(yearsMember))
    ensures r == Failure(EmptyIdOrName) <==> !(Truthy(id) && name != "")
    ensures r == Failure(InvalidEmail) <==> Truthy(id) && name != "" && '@' !in email
    ensures r == Failure(YearsBelowOne) <==> Truthy(id) && name != "" && '@' in email && yearsMember < 1
  {
    match NewCustomer(id, name, email, lifetimeValue)
    case Failure(e) => Failure(e)
    case Success(c) =>
      if yearsMember < 1 then Failure(YearsBelowOne)
      else Success(c.(tier := Premium(yearsMember)))
  }

  /** `CorporateCustomer.__init__`: an empty company name falls back to the
      contact's name, and the annual volume must not be negative (the
      source's defaults are "" and 0.0). */
  function NewCorporateCustomer(id: Ident, name: string, email: string, lifetimeValue: real,
                                companyName: string, annualVolume: real): (r: Result<Customer, ValidationError>)
    ensures r.Success? <==> Truthy(id) && name != "" && '@' in email && annualVolume >= 0.0
    ensures r.Success? ==> ValidCustomer(r.value)
    ensures r.Success? ==> r.value == Customer(Entity(id, name), email, lifetimeValue,
                                                Corporate(if companyName == "" then name else companyName, annualVolume))
    ensures r == Failure(EmptyIdOrName) <==> !(Truthy(id) && name != "")
    ensures r == Failure(InvalidEmail) <==> Truthy(id) && name != "" && '@' !in email
    ensures r == Failure(NegativeVolume) <==> Truthy(id) && name != "" && '@' in email && annualVolume < 0.0
  {
    match NewCustomer(id, name, email, lifetimeValue)
    case Failure(e) => Failure(e)
    case Success(c) =>
      var company := if companyName != "" then companyName else name;
      if annualVolume < 0.0 then Failure(NegativeVolume)
      else Success(c.(tier := Corporate(company, annualVolume)))
  }

  /** Rebuilding a valid customer from its own fields gives it back. */
  lemma CustomerRoundTrip(c: Customer)
    requires ValidCustomer(c)
    ensures c.tier.Regular? ==>
      NewCustomer(c.entity.id, c.entity.name, c.email, c.lifetimeValue) == Success(c)
    ensures c.tier.Premium? ==>
      NewPremiumCustomer(c.entity.id, c.entity.name, c.email, c.lifetimeValue, c.tier.yearsMember) == Success(c)
    ensures c.tier.Corporate? ==>
      NewCorporateCustomer(c.entity.id, c.entity.name, c.email, c.lifetimeValue,
                           c.tier.companyName, c.tier.annualVolume) == Success(c)
  {
  }

  /** `get_discount_rate`, one case per tier: none for regular customers;
      for premium members 5% plus 1% per year with the loyalty part capped
      at 10% and the total capped at 15%; for corporate customers a step
      function of the annual volume. */
  function DiscountRate(tier: CustomerTier): (r: real)
    ensures ValidTier(tier) ==> 0.0 <= r <= 0.15
    ensures tier.Regular? ==> r == 0.0
    ensures tier.Premium? && tier.yearsMember >= 1 ==> 0.06 <= r <= 0.15
    ensures tier.Premium? && tier.yearsMember >= 10 ==> r == 0.15
    ensures tier.Premium? && 1 <= tier.yearsMember <= 10 ==> r == 0.05 + 0.01 * tier.yearsMember as real
    ensures tier.Corporate? ==> (r == 0.15 <==> tier.annualVolume >= 50000.0)
    ensures tier.Corporate? ==> (r == 0.10 <==> 10000.0 <= tier.annualVolume < 50000.0)
    ensures tier.Corporate? ==> (r == 0.05 <==> tier.annualVolume < 10000.0)
  {
    match tier
    case Regular => 0.0
    case Premium(years) =>
      var loyaltyBonus := Min(0.01 * years as real, 0.10);
      Min(0.05 + loyaltyBonus, 0.15)
    case Corporate(_, volume) =>
      if volume >= 50000.0 then 0.15
      else if volume >= 10000.0 then 0.10
      else 0.05
  }

  /** A longer membership never lowers the premium discount. */
  lemma PremiumRateMonotone(years: int, moreYears: int)
    requires years <= moreYears
    ensures DiscountRate(Premium(years)) <= DiscountRate(Premium(moreYears))
  {
  }

  /** A larger annual volume never lowers the corporate discount. */
  lemma CorporateRateMonotone(company: string, volume: real, moreVolume: real)
    requires volume <= moreVolume
    ensures DiscountRate(Corporate(company, volume)) <= DiscountRate(Corporate(company, moreVolume))
  {
  }

  /** `apply_discount`: the amount reduced by the customer's rate. A regular
      customer pays the full amount; any valid customer pays between 85% and
      100% of a non-negative amount. */
  function ApplyDiscount(c: Customer, amount: real): (r: real)
    ensures c.tier.Regular? ==> r == amount
    ensures ValidCustomer(c) && amount >= 0.0 ==> 0.85 * amount <= r <= amount
    ensures r == amount - amount * DiscountRate(c.tier)
  {
    var rate := DiscountRate(c.tier);
    DiscountBounds(amount, rate);
    amount * (1.0 - rate)
  }

  lemma DiscountBounds(amount: real, rate: real)
    ensures amount >= 0.0 && 0.0 <= rate <= 0.15 ==> 0.85 * amount <= amount * (1.0 - rate) <= amount
  {
    if amount >= 0.0 && 0.0 <= rate <= 0.15 {
      assert amount * rate <= amount * 0.15;
      assert amount * rate >= 0.0;
    }
  }

  // ---------------------------------------------------------------------
  // Orders
  // ---------------------------------------------------------------------

  /** The statuses an order may have. */
  const ValidStatuses: set<string> := {"completed", "cancelled", "pending"}

  datatype Order = Order(entity: Entity, date: Date, customerId: Ident, amount: real, status: string)

  predicate ValidOrder(o: Order)
  {
    ValidEntity(o.entity) && o.entity.name == OrderName(o.entity.id) && o.status in ValidStatuses && o.amount >= 0.0
  }

  /** The decimal digits of a natural number. */
  function NatText(n: nat): (r: string)
    ensures |r| >= 1
  {
    if n < 10 then ["0123456789"[n]] else NatText(n / 10) + ["0123456789"[n % 10]]
  }

  /** Python's `str` of an identifier. */
  function IdentText(id: Ident): string
  {
    match id
    case Text(t) => t
    case Number(n) => if n < 0 then "-" + NatText(-n) else NatText(n)
  }

  /** The name an order gives its entity: `f"Order {id}"`. */
  function OrderName(id: Ident): (r: string)
    ensures r != ""
  {
    "Order " + IdentText(id)
  }

  /** `Order.__init__`: the name is derived from the id, so only the id can
      make the entity check fail; then the status must be one of the three
      valid ones and the amount must not be negative (the source's default
      status is "pending"). */
  function NewOrder(id: Ident, date: Date, customerId: Ident, amount: real, status: string): (r: Result<Order, ValidationError>)
    ensures r.Success? <==> Truthy(id) && status in ValidStatuses && amount >= 0.0
    ensures r.Success? ==> ValidOrder(r.value)
    ensures r.Success? ==> r.value == Order(Entity(id, OrderName(id)), date, customerId, amount, status)
    ensures r == Failure(EmptyIdOrName) <==> !Truthy(id)
    ensures r == Failure(InvalidStatus) <==> Truthy(id) && status !in ValidStatuses
    ensures r == Failure(NegativeAmount) <==> Truthy(id) && status in ValidStatuses && amount < 0.0
  {
    match NewEntity(id, OrderName(id))
    case Failure(e) => Failure(e)
    case Success(entity) =>
      if status !in ValidStatuses then Failure(InvalidStatus)
      else if amount < 0.0 then Failure(NegativeAmount)
      else Success(Order(entity, date, customerId, amount, status))
  }

  /** Rebuilding a valid order from its own fields gives it back. */
  lemma OrderRoundTrip(o: Order)
    requires ValidOrder(o)
    ensures NewOrder(o.entity.id, o.date, o.customerId, o.amount, o.status) == Success(o)
  {
  }
}
