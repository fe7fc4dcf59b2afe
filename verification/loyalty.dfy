/** The loyalty ledger: visit counts per phone number, and the 10% discount
    granted once a phone has been seen at least twice. */
module Loyalty {

  /** Phone number to visit count. A phone that is absent has count 0, which is
      what `HotelMgnt`'s `customerVisitCount` yields for a key it has never seen. */
  type Ledger = map<string, nat>

  function Visits(l: Ledger, phone: string): nat {
    if phone in l then l[phone] else 0
  }

  /** One more check-in for `phone`; every other count is kept. */
  function RecordVisit(l: Ledger, phone: string): (l': Ledger)
    ensures Visits(l', phone) == Visits(l, phone) + 1
    ensures forall p :: p != phone ==> Visits(l', p) == Visits(l, p)
  {
    l[phone := Visits(l, phone) + 1]
  }

  /** No count of `l` is larger in `l'`: counts never go down. */
  ghost predicate Grows(l: Ledger, l': Ledger) {
    forall p :: Visits(l, p) <= Visits(l', p)
  }

  lemma GrowsTransitive(a: Ledger, b: Ledger, c: Ledger)
    requires Grows(a, b) && Grows(b, c)
    ensures Grows(a, c)
  {
    forall p ensures Visits(a, p) <= Visits(c, p) {
      assert Visits(a, p) <= Visits(b, p);
    }
  }

  /** The bill after the loyalty rule: nine tenths of it from the second visit
      on, the full amount before. */
  function ApplyDiscount(l: Ledger, phone: string, bill: real): (r: real)
    ensures Visits(l, phone) >= 2 ==> r * 10.0 == bill * 9.0
    ensures Visits(l, phone) < 2 ==> r == bill
  {
    if Visits(l, phone) >= 2 then bill - bill * 0.10 else bill
  }

  /** A non-negative bill never grows under the discount, and it shrinks exactly
      when the discount applies to a positive amount. */
  lemma DiscountBounds(l: Ledger, phone: string, bill: real)
    requires bill >= 0.0
    ensures 0.0 <= ApplyDiscount(l, phone, bill) <= bill
    ensures ApplyDiscount(l, phone, bill) < bill <==> Visits(l, phone) >= 2 && bill > 0.0
  {
  }

  /** A larger bill is never discounted to less than a smaller one. */
  lemma DiscountMonotone(l: Ledger, phone: string, a: real, b: real)
    requires a <= b
    ensures ApplyDiscount(l, phone, a) <= ApplyDiscount(l, phone, b)
  {
  }

  /** Once a phone qualifies it keeps qualifying, since counts only grow. */
  lemma DiscountPersists(l: Ledger, l': Ledger, phone: string, bill: real)
    requires Grows(l, l')
    requires Visits(l, phone) >= 2
    ensures ApplyDiscount(l', phone, bill) == ApplyDiscount(l, phone, bill)
  {
    assert Visits(l, phone) <= Visits(l', phone);
  }
}
