/** The derived service price. The API never shows the stored price column:
    every read recomputes the price from the current years of experience of
    the provider the service belongs to. Amounts are in integer cents. */
module Pricing {
  import opened Model

  /** R$ 50.00, the base every tier is a surcharge on. */
  const BaseCents: int := 5000

  /** The tier's share of the base, in percent: +20% at exactly two years,
      +40% from three to five, +65% above five, no surcharge otherwise. */
  function MarkupPercent(experience: int): (pct: int)
  {
    if experience == 2 then 120
    else if 2 < experience <= 5 then 140
    else if experience > 5 then 165
    else 100
  }

  /** The price of a service whose provider has `experience` years. */
  function PriceCents(experience: int): (cents: int)
    ensures cents * 100 == BaseCents * MarkupPercent(experience)
    ensures experience == 2 ==> cents == 6000
    ensures 2 < experience <= 5 ==> cents == 7000
    ensures experience > 5 ==> cents == 8250
    ensures experience < 2 ==> cents == 5000
    ensures 5000 <= cents <= 8250
  {
    BaseCents * MarkupPercent(experience) / 100
  }

  /** More experience never lowers the price. */
  lemma PriceMonotone(a: int, b: int)
    requires a <= b
    ensures PriceCents(a) <= PriceCents(b)
  {
  }

  /** The price exposed for service `sid`: the tier of its provider's current
      experience. There is none when the service does not exist, or when its
      provider id is dangling (reading the property then fails and the field
      is left out of the serialised service). */
  function ServicePrice(db: Store, sid: int): (price: Option<int>)
    ensures price.Some? <==> sid in db.services && db.services[sid].providerId in db.providers
    ensures price.Some? ==> 5000 <= price.value <= 8250
    ensures price.Some? ==>
      price.value == PriceCents(db.providers[db.services[sid].providerId].experience)
  {
    if sid !in db.services then None
    else
      var pid := db.services[sid].providerId;
      if pid !in db.providers then None
      else Some(PriceCents(db.providers[pid].experience))
  }

  /** The price reads nothing but the service's provider id and that
      provider's experience: two stores that agree on those agree on the
      price, whatever the stored price column and every other field hold. */
  lemma PriceDependsOnlyOnProviderExperience(db1: Store, db2: Store, sid: int)
    requires sid in db1.services && sid in db2.services
    requires db1.services[sid].providerId == db2.services[sid].providerId
    requires var pid := db1.services[sid].providerId;
      (pid in db1.providers <==> pid in db2.providers) &&
      (pid in db1.providers ==> db1.providers[pid].experience == db2.providers[pid].experience)
    ensures ServicePrice(db1, sid) == ServicePrice(db2, sid)
  {
  }

  /** Writing the stored price column never changes the price shown. */
  lemma StoredPriceIgnored(db: Store, sid: int, stored: int)
    requires sid in db.services
    ensures ServicePrice(db.(services := db.services[sid := db.services[sid].(storedPriceCents := stored)]), sid)
         == ServicePrice(db, sid)
  {
  }
}
