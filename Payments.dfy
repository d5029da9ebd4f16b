/**
  The label and colour lookups of `payments.component.ts`. Each builds an
  object keyed by enum values and returns `table[key] || fallback`: a key
  in the table gives its (nonempty, so truthy) entry, any other string
  gives the fallback.
*/
module Payments {
  import opened Wrappers
  import opened PaymentModel

  function MethodLabel(m: PaymentMethod): string {
    match m
    case Cash => "Наличные"
    case Dc => "Карта"
    case Eskhata => "Эсхата"
    case Alif => "Алиф"
  }

  /** `table[key] || fallback` on a string-valued table. */
  function Lookup(table: map<string, string>, key: string, fallback: string): (r: string)
    ensures key in table && table[key] != "" ==> r == table[key]
    ensures !(key in table && table[key] != "") ==> r == fallback
  {
    if key in table && table[key] != "" then table[key] else fallback
  }

  /** `getPaymentMethodLabel`: the Russian name of a known method; any other string is its own label. */
  function PaymentMethodLabel(methodName: string): (r: string)
    ensures forall x: PaymentMethod :: methodName == x.Wire() ==> r == MethodLabel(x)
    ensures ParseMethod(methodName) == None ==> r == methodName
  {
    var labels := map[Cash.Wire() := MethodLabel(Cash), Dc.Wire() := MethodLabel(Dc),
                      Eskhata.Wire() := MethodLabel(Eskhata), Alif.Wire() := MethodLabel(Alif)];
    Lookup(labels, methodName, methodName)
  }

  function StatusLabel(s: PaymentStatus): string {
    match s
    case Paid => "Оплачен"
    case Pending => "Ожидает"
    case Failed => "Ошибка"
  }

  /** `getPaymentStatusLabel`: the Russian name of a known status; any other string is its own label. */
  function PaymentStatusLabel(status: string): (r: string)
    ensures forall x: PaymentStatus :: status == x.Wire() ==> r == StatusLabel(x)
    ensures ParseStatus(status) == None ==> r == status
  {
    var labels := map[Paid.Wire() := StatusLabel(Paid), Pending.Wire() := StatusLabel(Pending),
                      Failed.Wire() := StatusLabel(Failed)];
    Lookup(labels, status, status)
  }

  function StatusColor(s: PaymentStatus): string {
    match s
    case Paid => "bg-green-100 text-green-800"
    case Pending => "bg-yellow-100 text-yellow-800"
    case Failed => "bg-red-100 text-red-800"
  }

  const GrayClass: string := "bg-gray-100 text-gray-800"

  /** `getPaymentStatusColor`: green, yellow or red for a known status, gray for anything else. */
  function PaymentStatusColor(status: string): (r: string)
    ensures forall x: PaymentStatus :: status == x.Wire() ==> r == StatusColor(x)
    ensures ParseStatus(status) == None ==> r == GrayClass
  {
    var colors := map[Paid.Wire() := StatusColor(Paid), Pending.Wire() := StatusColor(Pending),
                      Failed.Wire() := StatusColor(Failed)];
    Lookup(colors, status, GrayClass)
  }

  /** Different known methods get different labels, and a known method's label is never its wire string. */
  lemma MethodLabelsDistinct(x: PaymentMethod, y: PaymentMethod)
    ensures PaymentMethodLabel(x.Wire()) == PaymentMethodLabel(y.Wire()) <==> x == y
    ensures PaymentMethodLabel(x.Wire()) != x.Wire()
  {
  }

  /** Different known statuses get different labels and different colours, none of them gray. */
  lemma StatusLookupsDistinct(x: PaymentStatus, y: PaymentStatus)
    ensures PaymentStatusLabel(x.Wire()) == PaymentStatusLabel(y.Wire()) <==> x == y
    ensures PaymentStatusColor(x.Wire()) == PaymentStatusColor(y.Wire()) <==> x == y
    ensures PaymentStatusColor(x.Wire()) != GrayClass
  {
  }

  /** The fixed labels and colours of the component, value by value. */
  lemma LookupTables()
    ensures PaymentMethodLabel("cash") == "Наличные" && PaymentMethodLabel("dc") == "Карта"
    ensures PaymentMethodLabel("eskhata") == "Эсхата" && PaymentMethodLabel("alif") == "Алиф"
    ensures PaymentStatusLabel("paid") == "Оплачен" && PaymentStatusLabel("pending") == "Ожидает"
    ensures PaymentStatusLabel("failed") == "Ошибка" && PaymentStatusLabel("refunded") == "refunded"
    ensures PaymentStatusColor("paid") == "bg-green-100 text-green-800"
    ensures PaymentStatusColor("failed") == "bg-red-100 text-red-800"
    ensures PaymentStatusColor("") == GrayClass
  {
  }
}
