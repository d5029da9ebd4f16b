/**
  The add-payment dialog (`add-payment-dialog.component.ts`): the patient
  picker, which loads patients page by page as the list scrolls and starts
  again when the search text changes, and the payment form, whose
  appointment field is optional only for a prepayment and whose submission
  builds the payload sent to the payment service. Requests and responses
  are the values exchanged with the patient service; the service itself
  and the asynchronous delivery are not modelled.
*/
module AddPaymentDialog {
  import opened Wrappers
  import opened Paging
  import opened PaymentModel
  import opened DateText

  datatype Patient = Patient(id: int)

  /** The arguments of `getPatients`. */
  datatype PatientRequest = PatientRequest(search: string, page: int, limit: int)

  /** The fields of a `getPatients` response the dialog reads. */
  datatype PatientResponse = PatientResponse(items: seq<Patient>, total: int, totalPages: int)

  /** The pages in order, one after another. */
  function Concat<T>(pages: seq<seq<T>>): seq<T>
    decreases |pages|
  {
    if pages == [] then [] else pages[0] + Concat(pages[1..])
  }

  /** Appending a page at the end appends its items at the end. */
  lemma {:induction false} ConcatAppend<T>(pages: seq<seq<T>>, page: seq<T>)
    ensures Concat(pages + [page]) == Concat(pages) + page
    decreases |pages|
  {
    if pages != [] {
      assert (pages + [page])[1..] == pages[1..] + [page];
      ConcatAppend(pages[1..], page);
    }
  }

  /** The list has every patient there is: `total` is known and reached. */
  predicate IsComplete(p: Pagination<Patient>) {
    p.total > 0 && |p.items| >= p.total
  }

  /** After a reset the list is empty with an unknown total, so it is never complete. */
  lemma ResetIsIncomplete(limit: int)
    ensures !IsComplete(Pagination([], 0, 1, limit, 0))
  {
  }

  /** Page `k` of `n` items each: once `k` pages are in, `k * n` items are. */
  lemma {:induction false} FullPagesCount(pages: seq<seq<Patient>>, n: nat)
    requires forall i :: 0 <= i < |pages| ==> |pages[i]| == n
    ensures |Concat(pages)| == |pages| * n
    decreases |pages|
  {
    if pages != [] {
      FullPagesCount(pages[1..], n);
    }
  }

  /**
    The patient picker's state: `currentPage`, `loadingPatients`,
    `patientPagination` and `searchText`. `pages` records the responses
    received since the last reset.
  */
  class PatientPicker {
    var currentPage: int
    var loadingPatients: bool
    var pagination: Pagination<Patient>
    var searchText: string
    ghost var pages: seq<seq<Patient>>

    /**
      The items are the pages received since the last reset, in order; the
      next request asks for the page after them; `page` is the last page received.
    */
    ghost predicate Valid()
      reads this
    {
      && pagination.items == Concat(pages)
      && currentPage == |pages| + 1
      && (pages != [] ==> pagination.page == |pages|)
    }

    constructor ()
      ensures Valid()
      ensures currentPage == 1 && !loadingPatients && searchText == "" && pages == []
      ensures pagination == Pagination([], 0, 1, 10, 0)
    {
      currentPage := 1;
      loadingPatients := false;
      pagination := Pagination([], 0, 1, 10, 0);
      searchText := "";
      pages := [];
    }

    /**
      `loadPatients(reset)`: nothing while a request is in flight; a reset
      empties the list and goes back to page 1; no request once the list is
      complete; otherwise the request for `currentPage`, with loading set.
    */
    method LoadPatients(reset: bool) returns (request: Option<PatientRequest>)
      requires Valid()
      modifies this
      ensures Valid()
      ensures old(loadingPatients) ==> request == None
      ensures old(loadingPatients) || !reset ==>
        currentPage == old(currentPage) && pagination == old(pagination) && pages == old(pages)
      ensures !old(loadingPatients) && reset ==>
        && currentPage == 1 && pages == []
        && pagination == Pagination([], 0, 1, old(pagination.limit), 0)
      ensures !old(loadingPatients) ==> (request == None <==> IsComplete(pagination))
      ensures request.Some? ==> request.value == PatientRequest(searchText, currentPage, pagination.limit)
      ensures loadingPatients == (old(loadingPatients) || request.Some?)
      ensures searchText == old(searchText)
    {
      request := None;
      if loadingPatients {
        return;
      }
      if reset {
        currentPage := 1;
        pagination := Pagination([], 0, 1, pagination.limit, 0);
        pages := [];
      }
      var limit := pagination.limit;
      if pagination.total > 0 && |pagination.items| >= pagination.total {
        return;
      }
      loadingPatients := true;
      request := Some(PatientRequest(searchText, currentPage, limit));
    }

    /** The search box changed: `searchText = value || ''`, then a reset load. */
    method SearchChanged(value: Option<string>) returns (request: Option<PatientRequest>)
      requires Valid()
      modifies this
      ensures Valid()
      ensures searchText == (if value.Some? then value.value else "")
      ensures loadingPatients
      ensures old(loadingPatients) ==>
        && request == None && pages == old(pages)
        && pagination == old(pagination) && currentPage == old(currentPage)
      ensures !old(loadingPatients) ==>
        && pages == [] && currentPage == 1
        && pagination == Pagination([], 0, 1, old(pagination.limit), 0)
        && request == Some(PatientRequest(searchText, 1, old(pagination.limit)))
    {
      searchText := if value.Some? then value.value else "";
      request := LoadPatients(true);
    }

    /**
      The response to the request in flight: its items go after the ones
      already there, the totals are copied, `page` records the page just
      received, and the next request will ask for the page after it.
    */
    method ReceivePatients(response: PatientResponse)
      requires Valid() && loadingPatients
      modifies this
      ensures Valid()
      ensures pagination == old(pagination).(items := old(pagination.items) + response.items,
        total := response.total, totalPages := response.totalPages, page := old(currentPage))
      ensures currentPage == old(currentPage) + 1
      ensures pages == old(pages) + [response.items]
      ensures loadingPatients && searchText == old(searchText)
    {
      ConcatAppend(pages, response.items);
      pagination := pagination.(items := pagination.items + response.items,
        total := response.total, totalPages := response.totalPages, page := currentPage);
      pages := pages + [response.items];
      currentPage := currentPage + 1;
    }

    /** `finalize`: the request is over, whether it succeeded or failed. */
    method FinishLoading()
      requires Valid()
      modifies this
      ensures Valid()
      ensures !loadingPatients
      ensures currentPage == old(currentPage) && pagination == old(pagination)
      ensures searchText == old(searchText) && pages == old(pages)
    {
      loadingPatients := false;
    }
  }

  /** A form control's value. */
  datatype FormValue = Null | Num(n: int) | Text(s: string)

  /** JavaScript truthiness of a control value. */
  predicate Truthy(v: FormValue) {
    match v
    case Null => false
    case Num(n) => n != 0
    case Text(s) => s != ""
  }

  /** `Validators.required`: neither null nor the empty string. */
  predicate HasValue(v: FormValue) {
    !(v.Null? || v == Text(""))
  }

  datatype JsNumber = Finite(value: int) | NaN

  /** `Number(v)`: null and "" are 0, a string of digits is its value, other strings are NaN. */
  function ToNumber(v: FormValue): (r: JsNumber)
    ensures v.Num? ==> r == Finite(v.n)
    ensures r.Finite? && v.Text? ==> v.s == "" || forall i :: 0 <= i < |v.s| ==> IsDigit(v.s[i])
  {
    match v
    case Null => Finite(0)
    case Num(n) => Finite(n)
    case Text(s) =>
      if forall i :: 0 <= i < |s| ==> IsDigit(s[i]) then Finite(DecimalValue(s)) else NaN
  }

  /** What `Number` reads back from the text of a non-negative integer. */
  lemma NumberOfDecimal(n: nat)
    ensures ToNumber(Text(DecimalString(n))) == Finite(n)
  {
    DecimalRoundTrip(n);
  }

  /** The values of the payment form, and whether `appointmentId` currently has its required validator. */
  datatype FormValues = FormValues(patientId: FormValue, amount: FormValue, paymentKind: FormValue,
                                   appointmentId: FormValue, appointmentRequired: bool)

  /** `!form.invalid`: the required controls hold values. */
  predicate FormValid(v: FormValues) {
    HasValue(v.amount) && HasValue(v.paymentKind) && (!v.appointmentRequired || HasValue(v.appointmentId))
  }

  /** The object `createPayment` receives; `appointmentId` is null when `None`. */
  datatype PaymentPayload = PaymentPayload(amount: FormValue, patientId: JsNumber, appointmentId: Option<JsNumber>,
                                           paymentType: PaymentMethod, paymentKind: FormValue, status: PaymentStatus)

  /**
    What `onSubmit` sends: nothing for an invalid form; otherwise the amount
    and kind as entered, the patient as a number, the appointment as a
    number when it is truthy and null otherwise, and the selected method and status.
  */
  function BuildPayload(v: FormValues, paymentMethod: PaymentMethod, status: PaymentStatus): (r: Option<PaymentPayload>)
    ensures r.None? <==> !FormValid(v)
    ensures r.Some? ==>
      && r.value.amount == v.amount && r.value.paymentKind == v.paymentKind
      && r.value.patientId == ToNumber(v.patientId)
      && (r.value.appointmentId == None <==> !Truthy(v.appointmentId))
      && (r.value.appointmentId != None ==> r.value.appointmentId == Some(ToNumber(v.appointmentId)))
      && r.value.paymentType == paymentMethod && r.value.status == status
  {
    if !FormValid(v) then None
    else
      Some(PaymentPayload(v.amount, ToNumber(v.patientId),
        if Truthy(v.appointmentId) then Some(ToNumber(v.appointmentId)) else None,
        paymentMethod, v.paymentKind, status))
  }

  /** A prepayment form is sent with a null appointment, given an amount. */
  lemma PrepaymentPayload(v: FormValues, paymentMethod: PaymentMethod, status: PaymentStatus)
    requires v.paymentKind == Text(Prepayment.Wire()) && !v.appointmentRequired && v.appointmentId == Null
    ensures BuildPayload(v, paymentMethod, status).Some? <==> HasValue(v.amount)
    ensures BuildPayload(v, paymentMethod, status).Some? ==> BuildPayload(v, paymentMethod, status).value.appointmentId == None
  {
  }

  /**
    With the appointment required, a payload always names an appointment,
    except for an appointment id that is the number 0: it passes the
    required check but is falsy, so it goes out as null.
  */
  lemma RequiredAppointmentIsSent(v: FormValues, paymentMethod: PaymentMethod, status: PaymentStatus)
    requires v.appointmentRequired
    ensures var r := BuildPayload(v, paymentMethod, status);
      r.Some? ==> (r.value.appointmentId == None <==> v.appointmentId == Num(0))
  {
  }

  /** The payment form's controls, the selected method and status, and the flags `onSubmit` sets. */
  class PaymentForm {
    var patientId: FormValue
    var amount: FormValue
    var paymentKind: FormValue
    var appointmentId: FormValue
    var comment: FormValue
    var appointmentRequired: bool
    var paymentMethodSelected: PaymentMethod
    var paymentStatusSelected: PaymentStatus
    var touched: bool
    var isLoading: bool

    constructor ()
      ensures Values() == FormValues(Null, Text(""), Text(Payment.Wire()), Text(""), true)
      ensures comment == Null && paymentMethodSelected == Cash && paymentStatusSelected == Pending
      ensures !touched && !isLoading
    {
      patientId, amount, paymentKind, appointmentId, comment := Null, Text(""), Text(Payment.Wire()), Text(""), Null;
      appointmentRequired := true;
      paymentMethodSelected, paymentStatusSelected := Cash, Pending;
      touched, isLoading := false, false;
    }

    function Values(): FormValues
      reads this
    {
      FormValues(patientId, amount, paymentKind, appointmentId, appointmentRequired)
    }

    /**
      A new payment kind, with the reaction of its `valueChanges`
      subscription: a prepayment drops the appointment's required validator
      and clears it; any other kind makes it required again.
    */
    method SetPaymentKind(kind: FormValue)
      modifies this
      ensures paymentKind == kind
      ensures kind == Text(Prepayment.Wire()) ==> !appointmentRequired && appointmentId == Null
      ensures kind != Text(Prepayment.Wire()) ==> appointmentRequired && appointmentId == old(appointmentId)
      ensures patientId == old(patientId) && amount == old(amount) && comment == old(comment)
      ensures paymentMethodSelected == old(paymentMethodSelected) && paymentStatusSelected == old(paymentStatusSelected)
      ensures touched == old(touched) && isLoading == old(isLoading)
    {
      paymentKind := kind;
      if kind == Text(Prepayment.Wire()) {
        appointmentRequired := false;
        appointmentId := Null;
      } else {
        appointmentRequired := true;
      }
    }

    /** `onSubmit`: an invalid form is only marked touched; a valid one sets loading and yields the payload. */
    method Submit() returns (payload: Option<PaymentPayload>)
      modifies this
      ensures payload == BuildPayload(old(Values()), paymentMethodSelected, paymentStatusSelected)
      ensures payload.None? ==> touched && isLoading == old(isLoading)
      ensures payload.Some? ==> isLoading && touched == old(touched)
      ensures Values() == old(Values()) && comment == old(comment)
      ensures paymentMethodSelected == old(paymentMethodSelected) && paymentStatusSelected == old(paymentStatusSelected)
    {
      if !FormValid(Values()) {
        touched := true;
        payload := None;
        return;
      }
      isLoading := true;
      var appointment: Option<JsNumber> := None;
      if Truthy(appointmentId) {
        appointment := Some(ToNumber(appointmentId));
      }
      payload := Some(PaymentPayload(amount, ToNumber(patientId), appointment,
        paymentMethodSelected, paymentKind, paymentStatusSelected));
    }
  }
}
