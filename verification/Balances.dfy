/**
 The running balances of a loan: accrual of a due installment and allocation of one payment.
 `CalculationState` is the calculator's mutable state; the functions above it say what its methods do, and the
 lemmas say what a payment means whichever order it is allocated in.
 */
module Balances {
  import opened Loan

  datatype Balance = Balance(principal: Money, principalDue: Money, interestDue: Money, unapplied: Money)

  predicate WellFormed(b: Balance) {
    0.0 <= b.principalDue <= b.principal && 0.0 <= b.interestDue && 0.0 <= b.unapplied
  }

  // ----- what each bucket payment does

  function PayInterest(b: Balance, payment: Money): (Balance, Money) {
    var paid := MinMoney(payment, b.interestDue);
    (b.(interestDue := b.interestDue - paid), payment - paid)
  }

  function PayPrincipalDue(b: Balance, payment: Money): (Balance, Money) {
    var paid := MinMoney(payment, b.principalDue);
    (b.(principalDue := b.principalDue - paid, principal := b.principal - paid), payment - paid)
  }

  function PayPrincipalAdvance(b: Balance, payment: Money): (Balance, Money) {
    var paid := MinMoney(payment, b.principal);
    (b.(principal := b.principal - paid), payment - paid)
  }

  function PayPrincipal(b: Balance, payment: Money): (Balance, Money) {
    var (due, left) := PayPrincipalDue(b, payment);
    PayPrincipalAdvance(due, left)
  }

  /** Interest first while the loan performs (collectability 1 or 2), principal first afterwards. */
  function Allocated(b: Balance, payment: Money, collectability: int): Balance {
    var (paid, left) :=
      if collectability <= 2 then
        var (afterInterest, rest) := PayInterest(b, payment);
        PayPrincipal(afterInterest, rest)
      else
        var (afterPrincipal, rest) := PayPrincipal(b, payment);
        PayInterest(afterPrincipal, rest);
    paid.(unapplied := paid.unapplied + left)
  }

  /**
   One due installment: principal falls due up to the outstanding principal, interest only while principal is owed.
   */
  function Accrued(b: Balance, principal: Money, interest: Money): Balance {
    if b.principal > 0.0 then
      var available := b.principal - b.principalDue;
      b.(principalDue := if available > 0.0 then b.principalDue + MinMoney(principal, available) else b.principalDue,
         interestDue := b.interestDue + interest)
    else
      b
  }

  class CalculationState {
    var principal: Money
    var principalDue: Money
    var interestDue: Money
    var unapplied: Money

    constructor (principal: Money, principalDue: Money, interestDue: Money)
      ensures Snapshot() == Balance(principal, principalDue, interestDue, 0.0)
    {
      this.principal, this.principalDue, this.interestDue, this.unapplied := principal, principalDue, interestDue, 0.0;
    }

    function Snapshot(): Balance
      reads this
    {
      Balance(principal, principalDue, interestDue, unapplied)
    }

    method PayInterestBucket(payment: Money) returns (left: Money)
      modifies this`interestDue
      ensures (Snapshot(), left) == PayInterest(old(Snapshot()), payment)
    {
      var paid := MinMoney(payment, interestDue);
      interestDue := interestDue - paid;
      left := payment - paid;
    }

    method PayDueBucket(payment: Money) returns (left: Money)
      modifies this`principal, this`principalDue
      ensures (Snapshot(), left) == PayPrincipalDue(old(Snapshot()), payment)
    {
      var paid := MinMoney(payment, principalDue);
      principalDue := principalDue - paid;
      principal := principal - paid;
      left := payment - paid;
    }

    method PayAdvance(payment: Money) returns (left: Money)
      modifies this`principal
      ensures (Snapshot(), left) == PayPrincipalAdvance(old(Snapshot()), payment)
    {
      var paid := MinMoney(payment, principal);
      principal := principal - paid;
      left := payment - paid;
    }

    method Allocate(amount: Money, collectability: int)
      modifies this
      ensures Snapshot() == Allocated(old(Snapshot()), amount, collectability)
    {
      var payment := amount;
      if collectability <= 2 {
        payment := PayInterestBucket(payment);
        payment := PayDueBucket(payment);
        payment := PayAdvance(payment);
      } else {
        payment := PayDueBucket(payment);
        payment := PayAdvance(payment);
        payment := PayInterestBucket(payment);
      }
      unapplied := unapplied + payment;
    }

    method Accrue(duePrincipal: Money, dueInterest: Money)
      modifies this
      ensures Snapshot() == Accrued(old(Snapshot()), duePrincipal, dueInterest)
      ensures old(principal) > 0.0 && old(principalDue) <= old(principal) && duePrincipal >= 0.0 ==>
                && principalDue <= old(principalDue) + duePrincipal && principalDue <= old(principal)
                && (principalDue == old(principalDue) + duePrincipal || principalDue == old(principal))
      ensures old(principal) > 0.0 ==> interestDue == old(interestDue) + dueInterest
      ensures old(principal) <= 0.0 ==> principalDue == old(principalDue) && interestDue == old(interestDue)
      ensures principal == old(principal) && unapplied == old(unapplied)
    {
      if principal > 0.0 {
        var available := principal - principalDue;
        if available > 0.0 {
          principalDue := principalDue + MinMoney(duePrincipal, available);
        }
        interestDue := interestDue + dueInterest;
      }
    }
  }

  // ----- what an allocation means

  function Excess(amount: Money, limit: Money): Money {
    if amount > limit then amount - limit else 0.0
  }

  /** The order-free reading: whatever reaches principal reduces outstanding and due alike, down to zero. */
  function Settled(b: Balance, amount: Money, collectability: int): Balance {
    var toPrincipal := if collectability <= 2 then Excess(amount, b.interestDue) else amount;
    var toInterest := if collectability <= 2 then amount else Excess(amount, b.principal);
    Balance(Excess(b.principal, toPrincipal), Excess(b.principalDue, toPrincipal),
            Excess(b.interestDue, toInterest), b.unapplied + Excess(amount, b.principal + b.interestDue))
  }

  lemma AllocatedMeaning(b: Balance, amount: Money, collectability: int)
    requires WellFormed(b) && amount >= 0.0
    ensures Allocated(b, amount, collectability) == Settled(b, amount, collectability)
  {
  }

  /** Every event keeps dues within outstanding and all balances non-negative. */
  lemma AllocateKeepsWellFormed(b: Balance, amount: Money, collectability: int)
    requires WellFormed(b) && amount >= 0.0
    ensures WellFormed(Allocated(b, amount, collectability))
  {
    AllocatedMeaning(b, amount, collectability);
  }

  /** While principal is owed, due principal grows by the installment's, up to what is outstanding. */
  lemma AccruedMeaning(b: Balance, principal: Money, interest: Money)
    requires WellFormed(b) && principal >= 0.0
    ensures var a := Accrued(b, principal, interest);
            && a.principal == b.principal && a.unapplied == b.unapplied
            && (b.principalDue + principal <= b.principal ==> a.principalDue == b.principalDue + principal)
            && (b.principalDue + principal > b.principal ==> a.principalDue == b.principal)
            && a.interestDue == b.interestDue + if b.principal > 0.0 then interest else 0.0
  {
  }

  lemma AccrueKeepsWellFormed(b: Balance, principal: Money, interest: Money)
    requires WellFormed(b) && principal >= 0.0 && interest >= 0.0
    ensures WellFormed(Accrued(b, principal, interest))
  {
  }

  /**
   The advance step alone is not safe: it keeps the invariant exactly when nothing is due or the payment fits in the
   principal that is not yet due. The due step guarantees the first of these whenever it leaves money over.
   */
  lemma AdvanceNeedsDueStep(b: Balance, payment: Money)
    requires WellFormed(b) && payment >= 0.0
    ensures WellFormed(PayPrincipalAdvance(b, payment).0) <==>
            b.principalDue == 0.0 || payment <= b.principal - b.principalDue
    ensures var (afterDue, left) := PayPrincipalDue(b, payment);
            WellFormed(afterDue) && left >= 0.0 && (left > 0.0 ==> afterDue.principalDue == 0.0)
    ensures !WellFormed(PayPrincipalAdvance(Balance(10.0, 10.0, 0.0, 0.0), 5.0).0)
  {
  }

  /**
   No money appears or disappears: the amount is principal reduction plus interest reduction plus unapplied growth.
   */
  lemma AllocateConserves(b: Balance, amount: Money, collectability: int)
    ensures var a := Allocated(b, amount, collectability);
            amount == (b.principal - a.principal) + (b.interestDue - a.interestDue) + (a.unapplied - b.unapplied)
  {
  }

  /** Two payments at one collectability act as their sum, so same-day rows can be merged. */
  lemma AllocateTwice(b: Balance, x: Money, y: Money, collectability: int)
    requires WellFormed(b) && x >= 0.0 && y >= 0.0
    ensures Allocated(Allocated(b, x, collectability), y, collectability) == Allocated(b, x + y, collectability)
  {
    AllocatedMeaning(b, x, collectability);
    AllocatedMeaning(b, x + y, collectability);
    SettledTwice(b, x, y, collectability);
  }

  /** Paying `y` after what `x` left settles as paying both at once. */
  lemma SettledTwice(b: Balance, x: Money, y: Money, collectability: int)
    requires WellFormed(b) && x >= 0.0 && y >= 0.0
    ensures Allocated(Settled(b, x, collectability), y, collectability) == Settled(b, x + y, collectability)
  {
    SettledKeepsWellFormed(b, x, collectability);
    AllocatedMeaning(Settled(b, x, collectability), y, collectability);
    if collectability <= 2 {
      SettledTwicePerforming(b, x, y, collectability);
    } else {
      SettledTwiceFailing(b, x, y, collectability);
    }
  }

  lemma SettledKeepsWellFormed(b: Balance, amount: Money, collectability: int)
    requires WellFormed(b) && amount >= 0.0
    ensures WellFormed(Settled(b, amount, collectability))
  {
  }

  lemma SettledTwicePerforming(b: Balance, x: Money, y: Money, collectability: int)
    requires WellFormed(b) && x >= 0.0 && y >= 0.0 && collectability <= 2
    ensures Settled(Settled(b, x, collectability), y, collectability) == Settled(b, x + y, collectability)
  {
  }

  lemma SettledTwiceFailing(b: Balance, x: Money, y: Money, collectability: int)
    requires WellFormed(b) && x >= 0.0 && y >= 0.0 && collectability > 2
    ensures Settled(Settled(b, x, collectability), y, collectability) == Settled(b, x + y, collectability)
  {
  }

  lemma AllocateNothing(b: Balance, collectability: int)
    requires WellFormed(b)
    ensures Allocated(b, 0.0, collectability) == b
  {
    AllocatedMeaning(b, 0.0, collectability);
  }

  // ----- comparing two runs

  /** `t` has been paid at least as much as `s`: nothing owed is larger and no less was left unapplied. */
  ghost predicate NoWorse(t: Balance, s: Balance) {
    t.principal <= s.principal && t.principalDue <= s.principalDue &&
    t.interestDue <= s.interestDue && t.unapplied >= s.unapplied
  }

  lemma AllocateMonotone(t: Balance, s: Balance, more: Money, less: Money, collectability: int)
    requires WellFormed(t) && WellFormed(s) && NoWorse(t, s) && more >= less >= 0.0
    ensures NoWorse(Allocated(t, more, collectability), Allocated(s, less, collectability))
  {
    AllocatedMeaning(t, more, collectability);
    AllocatedMeaning(s, less, collectability);
  }

  lemma AccrueMonotone(t: Balance, s: Balance, principal: Money, interest: Money)
    requires WellFormed(t) && WellFormed(s) && NoWorse(t, s) && principal >= 0.0 && interest >= 0.0
    ensures NoWorse(Accrued(t, principal, interest), Accrued(s, principal, interest))
  {
  }
}
