/** A payment settles one booking; its amount is derived from the booking and its flight. */
module PaymentModels {
  import opened Wrappers
  import opened Units
  import opened FlightModels
  import opened BookingModels

  datatype PaymentMethod = CreditCard | BankTransfer | Cash | Wallet

  const MethodChoices: seq<string> := ["Credit Card", "Bank Transfer", "Cash", "Wallet"]

  /** The value stored in the `payment_method` column: always one of the four choices. */
  function MethodName(m: PaymentMethod): (name: string)
    ensures name in MethodChoices
  {
    match m
    case CreditCard => "Credit Card"
    case BankTransfer => "Bank Transfer"
    case Cash => "Cash"
    case Wallet => "Wallet"
  }

  /** The method a stored value names, when it is one of the choices. */
  function ParseMethod(name: string): (r: Option<PaymentMethod>)
    ensures r.Some? <==> name in MethodChoices
    ensures r.Some? ==> MethodName(r.value) == name
  {
    if name == "Credit Card" then Some(CreditCard)
    else if name == "Bank Transfer" then Some(BankTransfer)
    else if name == "Cash" then Some(Cash)
    else if name == "Wallet" then Some(Wallet)
    else None
  }

  /** Each method is stored under its own name and read back as itself. */
  lemma ParseMethodName(m: PaymentMethod)
    ensures ParseMethod(MethodName(m)) == Some(m)
  {
  }

  /** A payment row; `booking` is the id of the one booking it settles. */
  datatype Payment = Payment(paymentId: nat, paymentMethod: PaymentMethod, paymentDate: Instant, booking: nat)

  /** `get_amount` for booking `b` on its flight `f`: the same total as the
      booking's own price for a known seat class, and zero, not an error, for any other. */
  function GetAmount(b: Booking, f: Flight): (amount: Money)
    ensures IsSeatClassName(b.seatClass) ==> TotalPrice(b, f) == Ok(amount)
    ensures !IsSeatClassName(b.seatClass) ==> amount == 0 && TotalPrice(b, f).Err?
  {
    if b.seatClass == "Economy" then f.economyPrice * b.numberOfPassengers
    else if b.seatClass == "Business" then f.businessPrice * b.numberOfPassengers
    else if b.seatClass == "First" then f.firstClassPrice * b.numberOfPassengers
    else 0
  }

  /** The amounts of the repository's payment tests, at prices 100.00 / 500.00 / 1000.00. */
  lemma GetAmountExamples(b: Booking, f: Flight)
    requires f.economyPrice == 10000 && f.businessPrice == 50000 && f.firstClassPrice == 100000
    ensures GetAmount(b.(seatClass := "Economy", numberOfPassengers := 2), f) == 20000
    ensures GetAmount(b.(seatClass := "Business", numberOfPassengers := 1), f) == 50000
    ensures GetAmount(b.(seatClass := "First", numberOfPassengers := 3), f) == 300000
    ensures GetAmount(b.(seatClass := "Invalid"), f) == 0
  {
  }
}
