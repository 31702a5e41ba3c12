/** Worked rentals that run the booking, payment, modification and return
    rules end to end, for any client and any answers of the stated kind. */
module Scenarios {
  import opened Outcomes
  import opened Text
  import opened Seqs
  import Fleet
  import Clients
  import opened Reservations
  import opened ReservationManager

  /** The answers choose the upfront option and confirm it. */
  predicate PaysUpfront(optionAnswers: seq<string>, confirmAnswer: string) {
    && Answered(optionAnswers, IsPaymentOption)
    && Strip(optionAnswers[FirstWhere(optionAnswers, IsPaymentOption)]) == "1"
    && confirmAnswer == "s"
  }

  /** Ten days at 100 a day cost 900 after the long-rental discount, and
      paying upfront without a coupon charges 900 * 0.9 + 250 = 1060. */
  lemma LongRentalPaidUpfront(
    client: Clients.User, v: Fleet.Vehicle, optionAnswers: seq<string>, confirmAnswer: string)
    requires v.rate == 100.0
    requires PaysUpfront(optionAnswers, confirmAnswer)
    ensures var booked := ReservationManager.Book(Agency([], [v]), Some(client), Some(0), 10);
      var payment := Pay(booked.reservations[0], map[], "", optionAnswers, confirmAnswer);
      && booked.reservations[0].total == 900.0
      && !booked.fleet[0].available
      && payment.charged == Some(1060.0)
      && payment.reservation == booked.reservations[0].(paid := true)
  {
  }

  /** Returning a paid rental, reporting no damage and declining to rate,
      frees the vehicle and closes the reservation, which stays in the list
      with no incident recorded. */
  lemma PaidRentalReturned(
    a: Agency, damageAnswer: string, today: string, rateAnswer: string)
    requires |a.reservations| == 1 && |a.fleet| == 1
    requires a.reservations[0].paid && a.reservations[0].incidents == []
    requires a.reservations[0].plate == a.fleet[0].plate
    requires damageAnswer == "n" && rateAnswer == "n"
    ensures var returned := ReturnAt(a, 0, damageAnswer, today, "", rateAnswer, [], "");
      && returned.status == Done
      && returned.agency.fleet[0].available
      && |returned.agency.reservations| == 1
      && returned.agency.reservations[0].closed
      && returned.agency.reservations[0].incidents == []
  {
    assert Fleet.FindByPlate(a.fleet, a.reservations[0].plate) == Some(0);
    assert !IsSpace('n');
    assert Strip(rateAnswer) == "n";
  }

  /** Three days at 50 a day cost 150; a fixed coupon of 50, typed in any
      case, leaves 100 a day to pay, so the upfront charge is
      100 * 0.9 + 250 = 340, and the stored total stays 150. */
  lemma ShortRentalWithFixedCoupon(
    client: Clients.User, v: Fleet.Vehicle, coupons: Coupons, couponAnswer: string,
    optionAnswers: seq<string>, confirmAnswer: string)
    requires v.rate == 50.0
    requires Upper(couponAnswer) != "" && Upper(couponAnswer) in coupons
    requires coupons[Upper(couponAnswer)] == (Fixed, 50.0)
    requires PaysUpfront(optionAnswers, confirmAnswer)
    ensures var booked := ReservationManager.Book(Agency([], [v]), Some(client), Some(0), 3);
      var payment := Pay(booked.reservations[0], coupons, couponAnswer, optionAnswers, confirmAnswer);
      && booked.reservations[0].total == 150.0
      && payment.charged == Some(340.0)
      && payment.reservation.total == 150.0
  {
  }

  /** A three-day booking at 50 a day changed to eight days is priced afresh
      at 8 * 50 * 0.9 = 360, and the vehicle stays rented. */
  lemma ShortRentalExtended(client: Clients.User, v: Fleet.Vehicle)
    requires v.rate == 50.0
    ensures var booked := ReservationManager.Book(Agency([], [v]), Some(client), Some(0), 3);
      var changed := Modify(booked, 0, Some(8));
      && booked.reservations[0].total == 150.0
      && changed.status == Done
      && changed.agency.reservations[0].days == 8
      && changed.agency.reservations[0].total == 360.0
      && !changed.agency.fleet[0].available
  {
    var booked := ReservationManager.Book(Agency([], [v]), Some(client), Some(0), 3);
    assert Fleet.FindByPlate(booked.fleet, booked.reservations[0].plate) == Some(0);
  }

  /** Once a rental is paid upfront, any later change of its length is
      refused and nothing changes. */
  lemma PaidRentalCannotChange(
    a: Agency, optionAnswers: seq<string>, confirmAnswer: string, later: Option<int>)
    requires |a.reservations| == 1 && !a.reservations[0].paid
    requires PaysUpfront(optionAnswers, confirmAnswer)
    ensures var paid := PayAt(a, 0, map[], "", optionAnswers, confirmAnswer);
      && paid.reservations[0].paid
      && Modify(paid, 0, later) == Step(paid, Refused(AlreadyPaid))
  {
  }
}
