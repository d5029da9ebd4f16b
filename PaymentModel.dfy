/**
  The payment enums of `payment.model.ts` and the strings they travel as.
  Each enum value has its wire string, and reading a string back gives
  the value when the string is one of them.
*/
module PaymentModel {
  import opened Wrappers

  datatype PaymentStatus = Paid | Pending | Failed {
    function Wire(): string {
      match this
      case Paid => "paid"
      case Pending => "pending"
      case Failed => "failed"
    }
  }

  function ParseStatus(s: string): (r: Option<PaymentStatus>)
    ensures r.Some? ==> r.value.Wire() == s
  {
    if s == "paid" then Some(Paid)
    else if s == "pending" then Some(Pending)
    else if s == "failed" then Some(Failed)
    else None
  }

  /** Reading back a status's wire string gives the status; an unknown string reads as nothing. */
  lemma StatusRoundTrip(x: PaymentStatus, s: string)
    ensures ParseStatus(x.Wire()) == Some(x)
    ensures ParseStatus(s) == None <==> forall y: PaymentStatus :: y.Wire() != s
  {
  }

  datatype PaymentMethod = Cash | Dc | Eskhata | Alif {
    function Wire(): string {
      match this
      case Cash => "cash"
      case Dc => "dc"
      case Eskhata => "eskhata"
      case Alif => "alif"
    }
  }

  function ParseMethod(s: string): (r: Option<PaymentMethod>)
    ensures r.Some? ==> r.value.Wire() == s
  {
    if s == "cash" then Some(Cash)
    else if s == "dc" then Some(Dc)
    else if s == "eskhata" then Some(Eskhata)
    else if s == "alif" then Some(Alif)
    else None
  }

  lemma MethodRoundTrip(x: PaymentMethod, s: string)
    ensures ParseMethod(x.Wire()) == Some(x)
    ensures ParseMethod(s) == None <==> forall y: PaymentMethod :: y.Wire() != s
  {
  }

  /** `PaymentType`: the kind of a payment. */
  datatype PaymentKind = Payment | Debt | Prepayment | DebtPayment | BalanceDeduction {
    function Wire(): string {
      match this
      case Payment => "payment"
      case Debt => "debt"
      case Prepayment => "prepayment"
      case DebtPayment => "debt_payment"
      case BalanceDeduction => "balance_deduction"
    }
  }

  function ParseKind(s: string): (r: Option<PaymentKind>)
    ensures r.Some? ==> r.value.Wire() == s
  {
    if s == "payment" then Some(Payment)
    else if s == "debt" then Some(Debt)
    else if s == "prepayment" then Some(Prepayment)
    else if s == "debt_payment" then Some(DebtPayment)
    else if s == "balance_deduction" then Some(BalanceDeduction)
    else None
  }

  lemma KindRoundTrip(x: PaymentKind, s: string)
    ensures ParseKind(x.Wire()) == Some(x)
    ensures ParseKind(s) == None <==> forall y: PaymentKind :: y.Wire() != s
  {
  }
}
