/** One rental contract (`Reserva` in reserva.py): booking with the
    long-rental discount and the fixed deposit, payment with an optional
    coupon, incidents, return and rating. Every prompt answer is a parameter;
    a prompt that repeats until it gets a valid answer takes the sequence of
    answers typed. */
module Reservations {
  import opened Outcomes
  import opened Text
  import opened Seqs
  import Fleet
  import Clients

  /** `Reserva.VALOR_CAUCAO`: the deposit every booking carries. */
  const DEPOSIT: real := 250.0
  /** Rentals of at least this many days get the long-rental discount. */
  const LONG_RENTAL_DAYS: int := 7
  /** Share of the gross price taken off a long rental. */
  const LONG_RENTAL_DISCOUNT: real := 0.10
  /** Factor applied to the daily total when paying upfront (option '1'). */
  const UPFRONT_FACTOR: real := 0.9

  datatype Incident = Incident(date: string, description: string)

  datatype Reservation = Reservation(
    cpf: string,
    plate: string,
    model: string,
    days: int,
    total: real,                 // the daily total: rate times days, less any long-rental discount
    deposit: real,
    incidents: seq<Incident>,
    paid: bool,
    closed: bool,                // `finalizada`: the vehicle was returned
    rating: Option<int>,
    comment: Option<string>)

  /** A reservation as `Reserva()` creates it, before any booking data is set. */
  const Blank: Reservation := Reservation("", "", "", 0, 0.0, 0.0, [], false, false, None, None)

  /** The price of `days` days at `rate` a day: the gross price, with 10% off
      from seven days on. Booking and modification both compute it afresh. */
  function RentalTotal(rate: real, days: int): (t: real)
    ensures days < LONG_RENTAL_DAYS ==> t == rate * days as real
    ensures days >= LONG_RENTAL_DAYS ==> t == 0.9 * rate * days as real
  {
    var gross := rate * days as real;
    var discount := if days >= LONG_RENTAL_DAYS then gross * LONG_RENTAL_DISCOUNT else 0.0;
    gross - discount
  }

  /** The facts every reservation keeps, whatever happens to it: it is
      returned only once paid, it is rated only once returned and with a score
      from 1 to 5, and its deposit is the fixed amount exactly when it was
      booked (0 for a booking that was refused). */
  predicate Consistent(r: Reservation) {
    && r.days >= 0
    && r.total >= 0.0
    && (r.deposit == 0.0 || r.deposit == DEPOSIT)
    && (r.deposit == DEPOSIT ==> r.days > 0)
    && (r.closed ==> r.paid)
    && (r.rating.Some? ==> r.closed && 1 <= r.rating.value <= 5)
  }

  datatype Booking = Booking(reservation: Reservation, vehicle: Option<Fleet.Vehicle>)

  predicate CanBook(client: Option<Clients.User>, vehicle: Option<Fleet.Vehicle>, days: int) {
    client.Some? && vehicle.Some? && days > 0
  }

  /** `Reserva.fazer_reserva`: with a client, a vehicle and a positive day
      count, the reservation records the client's CPF, the vehicle's plate and
      model, the days, the priced total and the deposit, and the vehicle is
      no longer available. Otherwise the reservation stays blank and the
      vehicle is untouched. */
  function Book(client: Option<Clients.User>, vehicle: Option<Fleet.Vehicle>, days: int): (b: Booking)
    ensures !CanBook(client, vehicle, days) ==> b == Booking(Blank, vehicle)
    ensures CanBook(client, vehicle, days) ==>
      var r := b.reservation;
      var v := vehicle.value;
      && r == Blank.(cpf := r.cpf, plate := r.plate, model := r.model, days := r.days, total := r.total, deposit := r.deposit)
      && r.cpf == client.value.cpf && r.plate == v.plate && r.model == v.model
      && r.days == days && r.total == RentalTotal(v.rate, days) && r.deposit == DEPOSIT
      && b.vehicle == Some(v.(available := false))
  {
    if !CanBook(client, vehicle, days) then Booking(Blank, vehicle)
    else
      var v := vehicle.value;
      var r := Blank.(cpf := client.value.cpf, plate := v.plate, model := v.model, days := days,
                      total := RentalTotal(v.rate, days), deposit := DEPOSIT);
      Booking(r, Some(v.(available := false)))
  }

  /** A booking from a vehicle with a non-negative rate is consistent. */
  lemma BookConsistent(client: Option<Clients.User>, vehicle: Option<Fleet.Vehicle>, days: int)
    requires vehicle.Some? ==> vehicle.value.rate >= 0.0
    ensures Consistent(Book(client, vehicle, days).reservation)
  {
    if CanBook(client, vehicle, days) {
      var rate := vehicle.value.rate;
      assert rate * days as real >= 0.0;
    }
  }

  // ---------------------------------------------------------------- payment

  /** The two coupon kinds of the promotion table: `'perc'` and `'fixo'`. */
  datatype CouponKind = Percent | Fixed

  /** The promotion table: code to kind and value. */
  type Coupons = map<string, (CouponKind, real)>

  function CouponDiscount(total: real, kind: CouponKind, value: real): real {
    match kind
    case Percent => total * value
    case Fixed => value
  }

  /** The daily total after the coupon typed at payment (already upper-cased):
      an empty or unknown code leaves it as it is; a known one takes its
      discount off, but never below zero. */
  function DailyAfterCoupon(total: real, coupons: Coupons, code: string): (d: real)
    ensures code == "" || code !in coupons ==> d == total
    ensures code != "" && code in coupons ==>
      var discounted := total - CouponDiscount(total, coupons[code].0, coupons[code].1);
      d >= 0.0 && d >= discounted && (d == discounted || d == 0.0)
  {
    if code != "" && code in coupons then
      var (kind, value) := coupons[code];
      var discounted := total - CouponDiscount(total, kind, value);
      if discounted < 0.0 then 0.0 else discounted
    else total
  }

  /** A coupon with a non-negative value (a percentage at most 100%) never
      raises a non-negative daily total and keeps it non-negative. */
  lemma CouponWithinTotal(total: real, coupons: Coupons, code: string)
    requires total >= 0.0
    requires code in coupons ==> coupons[code].1 >= 0.0
    requires code in coupons && coupons[code].0 == Percent ==> coupons[code].1 <= 1.0
    ensures 0.0 <= DailyAfterCoupon(total, coupons, code) <= total
  {
    if code != "" && code in coupons && coupons[code].0 == Percent {
      var value := coupons[code].1;
      assert total * value <= total * 1.0;
    }
  }

  /** The answers the payment-option prompt accepts (`.strip()` is '1' or '2');
      anything else re-prompts. */
  predicate IsPaymentOption(answer: string) {
    Strip(answer) == "1" || Strip(answer) == "2"
  }

  /** The payment outcome: the reservation afterwards, and the amount charged
      if it was paid in this call. */
  datatype Payment = Payment(reservation: Reservation, charged: Option<real>)

  /** `efetuar_pagamento`. An already paid reservation is left alone. Otherwise
      the coupon is applied to the daily total, and the first valid option
      decides: '1' (upfront, 10% off the daily total, plus the deposit) pays
      the reservation when the confirmation is 's'; '2' (instalments,
      unavailable) or a declined confirmation leave it unpaid. Only the paid
      flag ever changes; the stored total does not. */
  function Pay(
    r: Reservation,
    coupons: Coupons,
    couponAnswer: string,
    optionAnswers: seq<string>,
    confirmAnswer: string): (p: Payment)
    requires !r.paid ==> Answered(optionAnswers, IsPaymentOption)
    ensures r.paid ==> p == Payment(r, None)
    ensures p.reservation == r.(paid := p.reservation.paid)
    ensures p.charged.Some? <==> !r.paid && p.reservation.paid
    ensures !r.paid ==>
      (p.reservation.paid <==>
        && Strip(optionAnswers[FirstWhere(optionAnswers, IsPaymentOption)]) == "1"
        && (confirmAnswer == "s" || confirmAnswer == "S"))
    ensures p.charged.Some? ==>
      p.charged.value == UPFRONT_FACTOR * DailyAfterCoupon(r.total, coupons, Upper(couponAnswer)) + r.deposit
  {
    if r.paid then Payment(r, None)
    else
      var daily := DailyAfterCoupon(r.total, coupons, Upper(couponAnswer));
      var option := Strip(optionAnswers[FirstWhere(optionAnswers, IsPaymentOption)]);
      if option == "1" && IsYes(confirmAnswer) then
        Payment(r.(paid := true), Some(daily * UPFRONT_FACTOR + r.deposit))
      else Payment(r, None)
  }

  /** Paying twice is the same as paying once: the second call changes nothing
      and charges nothing. */
  lemma PayTwiceIsPayOnce(
    r: Reservation, coupons: Coupons, couponAnswer: string, optionAnswers: seq<string>, confirmAnswer: string,
    coupons2: Coupons, couponAnswer2: string, optionAnswers2: seq<string>, confirmAnswer2: string)
    requires Answered(optionAnswers, IsPaymentOption)
    ensures var p := Pay(r, coupons, couponAnswer, optionAnswers, confirmAnswer);
      p.reservation.paid ==>
        Pay(p.reservation, coupons2, couponAnswer2, optionAnswers2, confirmAnswer2) == Payment(p.reservation, None)
  {
  }

  lemma PayConsistent(r: Reservation, coupons: Coupons, couponAnswer: string, optionAnswers: seq<string>, confirmAnswer: string)
    requires !r.paid ==> Answered(optionAnswers, IsPaymentOption)
    requires Consistent(r)
    ensures Consistent(Pay(r, coupons, couponAnswer, optionAnswers, confirmAnswer).reservation)
  {
  }

  // ---------------------------------------------------- incidents and return

  /** `adicionar_incidente`: appends one incident at the end; nothing else changes. */
  function AddIncident(r: Reservation, date: string, description: string): (r': Reservation)
    ensures r' == r.(incidents := r'.incidents)
    ensures |r'.incidents| == |r.incidents| + 1
    ensures r'.incidents[..|r.incidents|] == r.incidents
    ensures r'.incidents[|r.incidents|] == Incident(date, description)
  {
    r.(incidents := r.incidents + [Incident(date, description)])
  }

  /** A rating answer the prompt accepts: a number from 1 to 5 (`None` is an
      answer `int()` cannot read). */
  predicate IsScore(answer: Option<int>) {
    answer.Some? && 1 <= answer.value <= 5
  }

  /** `avaliar_aluguel`: the first score from 1 to 5 and the stripped comment
      are recorded. */
  function Rate(r: Reservation, scoreAnswers: seq<Option<int>>, commentAnswer: string): (r': Reservation)
    requires Answered(scoreAnswers, IsScore)
    ensures r' == r.(rating := r'.rating, comment := r'.comment)
    ensures r'.rating.Some? && 1 <= r'.rating.value <= 5
    ensures r'.rating == scoreAnswers[FirstWhere(scoreAnswers, IsScore)]
    ensures r'.comment == Some(Strip(commentAnswer))
  {
    r.(rating := scoreAnswers[FirstWhere(scoreAnswers, IsScore)], comment := Some(Strip(commentAnswer)))
  }

  /** The closing half of the return, once the vehicle was found: the
      reservation is closed, one incident dated `today` is appended exactly
      when damage is reported ('s'), and the rating is recorded when the
      customer asks for it ('s' after stripping); nothing else changes. */
  function Settle(
    r: Reservation,
    damageAnswer: string,
    today: string,
    damageDescription: string,
    rateAnswer: string,
    scoreAnswers: seq<Option<int>>,
    commentAnswer: string): (r': Reservation)
    requires IsYes(Strip(rateAnswer)) ==> Answered(scoreAnswers, IsScore)
    ensures r' == r.(closed := true, incidents := r'.incidents, rating := r'.rating, comment := r'.comment)
    ensures r'.incidents == r.incidents + (if damageAnswer == "s" || damageAnswer == "S" then [Incident(today, damageDescription)] else [])
    ensures IsYes(Strip(rateAnswer)) ==> r'.rating.Some? && 1 <= r'.rating.value <= 5
    ensures IsYes(Strip(rateAnswer)) ==>
      r'.rating == scoreAnswers[FirstWhere(scoreAnswers, IsScore)] && r'.comment == Some(Strip(commentAnswer))
    ensures !IsYes(Strip(rateAnswer)) ==> r'.rating == r.rating && r'.comment == r.comment
  {
    var damaged := if IsYes(damageAnswer) then AddIncident(r, today, damageDescription) else r;
    var returned := damaged.(closed := true);
    if IsYes(Strip(rateAnswer)) then Rate(returned, scoreAnswers, commentAnswer) else returned
  }

  datatype Return = Return(reservation: Reservation, fleet: seq<Fleet.Vehicle>, status: Status)

  /** The return could go ahead and the customer asked to rate it, so the
      rating prompt must eventually get a valid score. */
  predicate RatingAsked(r: Reservation, fleet: seq<Fleet.Vehicle>, rateAnswer: string) {
    r.paid && Fleet.FindByPlate(fleet, r.plate).Some? && IsYes(Strip(rateAnswer))
  }

  /** `devolver_veiculo`. An unpaid reservation, or one whose plate no fleet
      vehicle has, is refused and nothing changes. Otherwise the first vehicle
      with the plate becomes available again and the reservation is settled. */
  function ReturnVehicle(
    r: Reservation,
    fleet: seq<Fleet.Vehicle>,
    damageAnswer: string,
    today: string,
    damageDescription: string,
    rateAnswer: string,
    scoreAnswers: seq<Option<int>>,
    commentAnswer: string): (ret: Return)
    requires RatingAsked(r, fleet, rateAnswer) ==> Answered(scoreAnswers, IsScore)
    ensures !r.paid ==> ret == Return(r, fleet, Refused(NotPaid))
    ensures r.paid && Fleet.FindByPlate(fleet, r.plate).None? ==> ret == Return(r, fleet, Refused(VehicleNotFound))
    ensures r.paid && Fleet.FindByPlate(fleet, r.plate).Some? ==>
      var j := Fleet.FindByPlate(fleet, r.plate).value;
      && ret.status == Done
      && ret.fleet == fleet[j := fleet[j].(available := true)]
      && ret.reservation == Settle(r, damageAnswer, today, damageDescription, rateAnswer, scoreAnswers, commentAnswer)
      && ret.reservation.closed && ret.reservation.paid
  {
    if !r.paid then Return(r, fleet, Refused(NotPaid))
    else match Fleet.FindByPlate(fleet, r.plate)
      case None => Return(r, fleet, Refused(VehicleNotFound))
      case Some(j) =>
        var r' := Settle(r, damageAnswer, today, damageDescription, rateAnswer, scoreAnswers, commentAnswer);
        Return(r', fleet[j := fleet[j].(available := true)], Done)
  }

  lemma ReturnConsistent(
    r: Reservation, fleet: seq<Fleet.Vehicle>, damageAnswer: string, today: string, damageDescription: string,
    rateAnswer: string, scoreAnswers: seq<Option<int>>, commentAnswer: string)
    requires RatingAsked(r, fleet, rateAnswer) ==> Answered(scoreAnswers, IsScore)
    requires Consistent(r)
    ensures Consistent(ReturnVehicle(r, fleet, damageAnswer, today, damageDescription, rateAnswer, scoreAnswers, commentAnswer).reservation)
  {
  }

  /** Nothing stops a second return: a reservation already closed and rated
      goes through `devolver_veiculo` again, and a new rating replaces the
      old one. Only the menu, which lists paid reservations that are not
      yet returned, keeps this from happening. */
  lemma ClosedReservationReturnsAgain(
    r: Reservation, fleet: seq<Fleet.Vehicle>, damageAnswer: string, today: string, damageDescription: string,
    rateAnswer: string, scoreAnswers: seq<Option<int>>, commentAnswer: string)
    requires r.paid && r.closed && r.rating.Some?
    requires Fleet.FindByPlate(fleet, r.plate).Some?
    requires IsYes(Strip(rateAnswer)) && Answered(scoreAnswers, IsScore)
    ensures var ret := ReturnVehicle(r, fleet, damageAnswer, today, damageDescription, rateAnswer, scoreAnswers, commentAnswer);
      && ret.status == Done
      && ret.reservation.rating == scoreAnswers[FirstWhere(scoreAnswers, IsScore)]
  {
  }
}
