/** The reservation manager (`Gerenciar_Reserva` in reserva.py): the ordered
    list of reservations together with the fleet whose availability flags it
    moves, booking, cancellation, modification, and the incident and payment
    reports. The lifecycle steps the menu applies to a listed reservation
    (pay, report an incident, return) are lifted to the same state so the
    invariant can be stated over every step. */
module ReservationManager {
  import opened Outcomes
  import opened Seqs
  import opened Text
  import Fleet
  import Clients
  import opened Reservations

  datatype Agency = Agency(reservations: seq<Reservation>, fleet: seq<Fleet.Vehicle>)

  datatype Step = Step(agency: Agency, status: Status)

  /** Every reservation is consistent and every vehicle has a positive rate
      (which registration guarantees). */
  predicate Valid(a: Agency) {
    && (forall k :: 0 <= k < |a.reservations| ==> Consistent(a.reservations[k]))
    && (forall j :: 0 <= j < |a.fleet| ==> a.fleet[j].rate > 0.0)
  }

  /** The fleet is the same apart from availability flags. */
  predicate SameVehicles(fleet: seq<Fleet.Vehicle>, fleet': seq<Fleet.Vehicle>) {
    |fleet'| == |fleet| && forall j :: 0 <= j < |fleet| ==> fleet'[j] == fleet[j].(available := fleet'[j].available)
  }

  function VehicleAt(fleet: seq<Fleet.Vehicle>, vehicle: Option<nat>): Option<Fleet.Vehicle>
    requires vehicle.Some? ==> vehicle.value < |fleet|
  {
    if vehicle.Some? then Some(fleet[vehicle.value]) else None
  }

  /** `fazer_reserva`: every call appends exactly one reservation, booked or
      blank, and leaves the earlier ones alone. A valid booking marks the
      chosen fleet vehicle unavailable; a refused one leaves the fleet as it
      was. */
  function Book(a: Agency, client: Option<Clients.User>, vehicle: Option<nat>, days: int): (a': Agency)
    requires vehicle.Some? ==> vehicle.value < |a.fleet|
    ensures |a'.reservations| == |a.reservations| + 1
    ensures a'.reservations[..|a.reservations|] == a.reservations
    ensures a'.reservations[|a.reservations|] == Reservations.Book(client, VehicleAt(a.fleet, vehicle), days).reservation
    ensures !CanBook(client, VehicleAt(a.fleet, vehicle), days) ==>
      a'.reservations[|a.reservations|] == Blank && a'.fleet == a.fleet
    ensures CanBook(client, VehicleAt(a.fleet, vehicle), days) ==>
      a'.fleet == a.fleet[vehicle.value := a.fleet[vehicle.value].(available := false)]
  {
    var b := Reservations.Book(client, VehicleAt(a.fleet, vehicle), days);
    var fleet' := if vehicle.Some? then a.fleet[vehicle.value := b.vehicle.value] else a.fleet;
    Agency(a.reservations + [b.reservation], fleet')
  }

  /** Booking number `k + 1` of the available list (how the menu picks the
      vehicle) takes exactly that vehicle off the list: one fewer vehicle is
      available afterwards. */
  lemma BookFromAvailableList(a: Agency, client: Option<Clients.User>, k: nat, days: int)
    requires k < |Filter(a.fleet, Fleet.IsAvailable)|
    requires client.Some? && days > 0
    ensures var j := Fleet.AvailableIndex(a.fleet, k);
      |Filter(Book(a, client, Some(j), days).fleet, Fleet.IsAvailable)| + 1 == |Filter(a.fleet, Fleet.IsAvailable)|
  {
    var j := Fleet.AvailableIndex(a.fleet, k);
    var fleet' := Book(a, client, Some(j), days).fleet;
    assert fleet' == a.fleet[j := a.fleet[j].(available := false)];
    assert a.fleet == a.fleet[..j] + [a.fleet[j]] + a.fleet[j + 1..];
    assert fleet' == a.fleet[..j] + [fleet'[j]] + a.fleet[j + 1..];
    FilterConcat(a.fleet[..j] + [a.fleet[j]], a.fleet[j + 1..], Fleet.IsAvailable);
    FilterConcat(a.fleet[..j], [a.fleet[j]], Fleet.IsAvailable);
    FilterConcat(a.fleet[..j] + [fleet'[j]], a.fleet[j + 1..], Fleet.IsAvailable);
    FilterConcat(a.fleet[..j], [fleet'[j]], Fleet.IsAvailable);
  }

  /** The fleet after releasing the first vehicle with `plate`, if any. */
  function Release(fleet: seq<Fleet.Vehicle>, plate: string): seq<Fleet.Vehicle> {
    match Fleet.FindByPlate(fleet, plate)
    case None => fleet
    case Some(j) => fleet[j := fleet[j].(available := true)]
  }

  /** `cancelar_reserva` on reservation `i`: a paid reservation is refused and
      nothing changes. Otherwise it is removed, the others keep their order,
      and the first fleet vehicle with its plate, if there is one, becomes
      available. */
  function Cancel(a: Agency, i: nat): (s: Step)
    requires i < |a.reservations|
    ensures a.reservations[i].paid ==> s == Step(a, Refused(AlreadyPaid))
    ensures !a.reservations[i].paid ==>
      && s.status == Done
      && s.agency.reservations == a.reservations[..i] + a.reservations[i + 1..]
      && SameVehicles(a.fleet, s.agency.fleet)
      && (forall j :: 0 <= j < |a.fleet| ==>
            s.agency.fleet[j].available ==
              (a.fleet[j].available || Fleet.FindByPlate(a.fleet, a.reservations[i].plate) == Some(j)))
  {
    var r := a.reservations[i];
    if r.paid then Step(a, Refused(AlreadyPaid))
    else Step(Agency(a.reservations[..i] + a.reservations[i + 1..], Release(a.fleet, r.plate)), Done)
  }

  /** `modificar_reserva` on reservation `i` with the new day count typed
      (`None` when it is not a number). A paid reservation, a plate no fleet
      vehicle has, or a day count that is not positive is refused and nothing
      changes. Otherwise only the days and the total change, the total priced
      afresh from the vehicle's current rate. The fleet is never touched. */
  function Modify(a: Agency, i: nat, newDays: Option<int>): (s: Step)
    requires i < |a.reservations|
    ensures s.agency.fleet == a.fleet
    ensures a.reservations[i].paid ==> s == Step(a, Refused(AlreadyPaid))
    ensures !a.reservations[i].paid && Fleet.FindByPlate(a.fleet, a.reservations[i].plate).None? ==>
      s == Step(a, Refused(VehicleNotFound))
    ensures !a.reservations[i].paid && Fleet.FindByPlate(a.fleet, a.reservations[i].plate).Some? ==>
      var r := a.reservations[i];
      var rate := a.fleet[Fleet.FindByPlate(a.fleet, r.plate).value].rate;
      if newDays.Some? && newDays.value > 0 then
        && s.status == Done
        && s.agency.reservations == a.reservations[i := r.(days := newDays.value, total := RentalTotal(rate, newDays.value))]
      else s == Step(a, Refused(InvalidData))
  {
    var r := a.reservations[i];
    if r.paid then Step(a, Refused(AlreadyPaid))
    else match Fleet.FindByPlate(a.fleet, r.plate)
      case None => Step(a, Refused(VehicleNotFound))
      case Some(j) =>
        if newDays.None? || newDays.value <= 0 then Step(a, Refused(InvalidData))
        else
          var r' := r.(days := newDays.value, total := RentalTotal(a.fleet[j].rate, newDays.value));
          Step(Agency(a.reservations[i := r'], a.fleet), Done)
  }

  /** Modification prices a reservation exactly as booking does: with unique
      plates, changing a fresh booking to the days it already has leaves the
      agency as it was. */
  lemma ModifyToBookedDaysIsNoChange(a: Agency, client: Clients.User, j: nat, days: int)
    requires j < |a.fleet| && Fleet.UniquePlates(a.fleet) && days > 0
    ensures var booked := Book(a, Some(client), Some(j), days);
      Modify(booked, |a.reservations|, Some(days)) == Step(booked, Done)
  {
    var booked := Book(a, Some(client), Some(j), days);
    var r := booked.reservations[|a.reservations|];
    assert r.plate == a.fleet[j].plate;
    assert forall k :: 0 <= k < |a.fleet| ==> booked.fleet[k].plate == a.fleet[k].plate;
    var found := Fleet.FindByPlate(booked.fleet, r.plate);
    assert found == Some(j) by {
      assert booked.fleet[j].plate == r.plate;
      assert found.Some?;
      assert a.fleet[found.value].plate == a.fleet[j].plate;
    }
    assert booked.reservations[|a.reservations| := r] == booked.reservations;
  }

  /** Payment of reservation `i` (menu option 3 calls `efetuar_pagamento` on
      it): the fleet and every other reservation stay as they were, and
      reservation `i` differs at most in its paid flag, which is set exactly
      when it was already paid or the first valid option is '1' and the
      confirmation is 's'. */
  function PayAt(
    a: Agency, i: nat, coupons: Coupons, couponAnswer: string, optionAnswers: seq<string>, confirmAnswer: string): (a': Agency)
    requires i < |a.reservations|
    requires !a.reservations[i].paid ==> Answered(optionAnswers, IsPaymentOption)
    ensures a'.fleet == a.fleet
    ensures |a'.reservations| == |a.reservations|
    ensures forall k :: 0 <= k < |a.reservations| && k != i ==> a'.reservations[k] == a.reservations[k]
    ensures a'.reservations[i] == a.reservations[i].(paid := a'.reservations[i].paid)
    ensures a'.reservations[i].paid <==>
      || a.reservations[i].paid
      || (&& Strip(optionAnswers[FirstWhere(optionAnswers, IsPaymentOption)]) == "1"
          && (confirmAnswer == "s" || confirmAnswer == "S"))
  {
    var p := Pay(a.reservations[i], coupons, couponAnswer, optionAnswers, confirmAnswer);
    Agency(a.reservations[i := p.reservation], a.fleet)
  }

  /** An incident reported on reservation `i` (menu option 4): the date is
      today's and the description the stripped answer. Reservation `i` gains
      exactly that incident at the end of its list; the fleet and every
      other reservation stay as they were. */
  function ReportIncidentAt(a: Agency, i: nat, today: string, descriptionAnswer: string): (a': Agency)
    requires i < |a.reservations|
    ensures a'.fleet == a.fleet
    ensures |a'.reservations| == |a.reservations|
    ensures forall k :: 0 <= k < |a.reservations| && k != i ==> a'.reservations[k] == a.reservations[k]
    ensures a'.reservations[i] == a.reservations[i].(incidents := a'.reservations[i].incidents)
    ensures a'.reservations[i].incidents == a.reservations[i].incidents + [Incident(today, Strip(descriptionAnswer))]
  {
    Agency(a.reservations[i := AddIncident(a.reservations[i], today, Strip(descriptionAnswer))], a.fleet)
  }

  /** The return of reservation `i` (menu option 5 calls `devolver_veiculo`
      on it with the fleet). Refused, nothing changes. Otherwise the fleet
      keeps its vehicles, only the first vehicle with the reservation's plate
      becomes available, every other reservation stays, and reservation `i`
      is closed and settled. */
  function ReturnAt(
    a: Agency, i: nat, damageAnswer: string, today: string, damageDescription: string,
    rateAnswer: string, scoreAnswers: seq<Option<int>>, commentAnswer: string): (s: Step)
    requires i < |a.reservations|
    requires RatingAsked(a.reservations[i], a.fleet, rateAnswer) ==> Answered(scoreAnswers, IsScore)
    ensures !a.reservations[i].paid ==> s == Step(a, Refused(NotPaid))
    ensures a.reservations[i].paid && Fleet.FindByPlate(a.fleet, a.reservations[i].plate).None? ==>
      s == Step(a, Refused(VehicleNotFound))
    ensures a.reservations[i].paid && Fleet.FindByPlate(a.fleet, a.reservations[i].plate).Some? ==>
      && s.status == Done
      && SameVehicles(a.fleet, s.agency.fleet)
      && (forall j :: 0 <= j < |a.fleet| ==>
            s.agency.fleet[j].available ==
              (a.fleet[j].available || Fleet.FindByPlate(a.fleet, a.reservations[i].plate) == Some(j)))
      && |s.agency.reservations| == |a.reservations|
      && (forall k :: 0 <= k < |a.reservations| && k != i ==> s.agency.reservations[k] == a.reservations[k])
      && s.agency.reservations[i]
           == Settle(a.reservations[i], damageAnswer, today, damageDescription, rateAnswer, scoreAnswers, commentAnswer)
      && s.agency.reservations[i].closed && s.agency.reservations[i].paid
  {
    var ret := ReturnVehicle(a.reservations[i], a.fleet, damageAnswer, today, damageDescription, rateAnswer, scoreAnswers, commentAnswer);
    Step(Agency(a.reservations[i := ret.reservation], ret.fleet), ret.status)
  }

  // ------------------------------------------------------------- invariants

  lemma BookPreservesValid(a: Agency, client: Option<Clients.User>, vehicle: Option<nat>, days: int)
    requires vehicle.Some? ==> vehicle.value < |a.fleet|
    requires Valid(a)
    ensures Valid(Book(a, client, vehicle, days))
  {
    var a' := Book(a, client, vehicle, days);
    BookConsistent(client, VehicleAt(a.fleet, vehicle), days);
    assert forall k :: 0 <= k < |a.reservations| ==> a'.reservations[k] == a.reservations[k];
  }

  lemma CancelPreservesValid(a: Agency, i: nat)
    requires i < |a.reservations|
    requires Valid(a)
    ensures Valid(Cancel(a, i).agency)
  {
    var a' := Cancel(a, i).agency;
    if !a.reservations[i].paid {
      forall k | 0 <= k < |a'.reservations| ensures Consistent(a'.reservations[k]) {
        if k < i {
          assert a'.reservations[k] == a.reservations[k];
        } else {
          assert a'.reservations[k] == a.reservations[k + 1];
        }
      }
    }
  }

  lemma ModifyPreservesValid(a: Agency, i: nat, newDays: Option<int>)
    requires i < |a.reservations|
    requires Valid(a)
    ensures Valid(Modify(a, i, newDays).agency)
  {
    var s := Modify(a, i, newDays);
    if s.status == Done {
      var r := a.reservations[i];
      var j := Fleet.FindByPlate(a.fleet, r.plate).value;
      var rate := a.fleet[j].rate;
      assert rate * newDays.value as real >= 0.0;
    }
  }

  lemma PayAtPreservesValid(
    a: Agency, i: nat, coupons: Coupons, couponAnswer: string, optionAnswers: seq<string>, confirmAnswer: string)
    requires i < |a.reservations|
    requires !a.reservations[i].paid ==> Answered(optionAnswers, IsPaymentOption)
    requires Valid(a)
    ensures Valid(PayAt(a, i, coupons, couponAnswer, optionAnswers, confirmAnswer))
  {
    PayConsistent(a.reservations[i], coupons, couponAnswer, optionAnswers, confirmAnswer);
  }

  lemma ReportIncidentAtPreservesValid(a: Agency, i: nat, today: string, descriptionAnswer: string)
    requires i < |a.reservations|
    requires Valid(a)
    ensures Valid(ReportIncidentAt(a, i, today, descriptionAnswer))
  {
  }

  lemma ReturnAtPreservesValid(
    a: Agency, i: nat, damageAnswer: string, today: string, damageDescription: string,
    rateAnswer: string, scoreAnswers: seq<Option<int>>, commentAnswer: string)
    requires i < |a.reservations|
    requires RatingAsked(a.reservations[i], a.fleet, rateAnswer) ==> Answered(scoreAnswers, IsScore)
    requires Valid(a)
    ensures Valid(ReturnAt(a, i, damageAnswer, today, damageDescription, rateAnswer, scoreAnswers, commentAnswer).agency)
  {
    ReturnConsistent(a.reservations[i], a.fleet, damageAnswer, today, damageDescription, rateAnswer, scoreAnswers, commentAnswer);
  }

  // ---------------------------------------------------------------- reports

  /** One line of the incident report: the renter's CPF and the incident. */
  datatype IncidentLine = IncidentLine(cpf: string, incident: Incident)

  function Tagged(cpf: string, incidents: seq<Incident>): (lines: seq<IncidentLine>)
    ensures |lines| == |incidents|
    ensures forall j :: 0 <= j < |incidents| ==> lines[j] == IncidentLine(cpf, incidents[j])
  {
    seq(|incidents|, j requires 0 <= j < |incidents| => IncidentLine(cpf, incidents[j]))
  }

  /** The incidents of every reservation of `plate`, reservation by
      reservation, each in the order it was reported. */
  function IncidentLines(rs: seq<Reservation>, plate: string): (lines: seq<IncidentLine>)
  {
    if rs == [] then []
    else (if rs[0].plate == plate then Tagged(rs[0].cpf, rs[0].incidents) else []) + IncidentLines(rs[1..], plate)
  }

  /** A line is in the report exactly when some reservation of the plate, by
      that CPF, recorded that incident. */
  lemma {:induction false} IncidentLinesMembers(rs: seq<Reservation>, plate: string, line: IncidentLine)
    ensures line in IncidentLines(rs, plate) <==>
      exists k :: 0 <= k < |rs| && rs[k].plate == plate && rs[k].cpf == line.cpf && line.incident in rs[k].incidents
  {
    if rs != [] {
      IncidentLinesMembers(rs[1..], plate, line);
      var head := if rs[0].plate == plate then Tagged(rs[0].cpf, rs[0].incidents) else [];
      assert IncidentLines(rs, plate) == head + IncidentLines(rs[1..], plate);
      if line in head {
        var j :| 0 <= j < |head| && head[j] == line;
        assert rs[0].incidents[j] == line.incident;
      }
      if exists k :: 0 <= k < |rs| && rs[k].plate == plate && rs[k].cpf == line.cpf && line.incident in rs[k].incidents {
        var k :| 0 <= k < |rs| && rs[k].plate == plate && rs[k].cpf == line.cpf && line.incident in rs[k].incidents;
        if k == 0 {
          var j :| 0 <= j < |rs[0].incidents| && rs[0].incidents[j] == line.incident;
          assert head[j] == line;
        } else {
          assert rs[1..][k - 1] == rs[k];
        }
      }
    }
  }

  /** The report keeps the reservations' order: the lines of a longer list
      extend those of its prefix. */
  lemma {:induction false} IncidentLinesConcat(rs: seq<Reservation>, more: seq<Reservation>, plate: string)
    ensures IncidentLines(rs + more, plate) == IncidentLines(rs, plate) + IncidentLines(more, plate)
  {
    if rs != [] {
      assert (rs + more)[0] == rs[0] && (rs + more)[1..] == rs[1..] + more;
      IncidentLinesConcat(rs[1..], more, plate);
    } else {
      assert rs + more == more;
    }
  }

  datatype IncidentReport = NoReservations | Incidents(lines: seq<IncidentLine>)

  /** `listar_incidentes_por_placa`: "no reservation for this plate" when no
      reservation has it, otherwise the incident lines, possibly none. */
  function ListIncidents(rs: seq<Reservation>, plate: string): (report: IncidentReport)
    ensures report.NoReservations? <==> forall k :: 0 <= k < |rs| ==> rs[k].plate != plate
    ensures report.Incidents? ==> report.lines == IncidentLines(rs, plate)
  {
    if forall k :: 0 <= k < |rs| ==> rs[k].plate != plate then NoReservations
    else Incidents(IncidentLines(rs, plate))
  }

  predicate IsPending(r: Reservation) {
    !r.paid && !r.closed
  }

  predicate IsPaid(r: Reservation) {
    r.paid
  }

  datatype PaymentReport = PaymentReport(pending: seq<Reservation>, paid: seq<Reservation>)

  /** `controle_pagamentos`: the pending reservations (not paid, not returned)
      and the paid ones, each in list order. No reservation is in both. */
  function PaymentControl(rs: seq<Reservation>): (report: PaymentReport)
    ensures forall i :: 0 <= i < |report.pending| ==> report.pending[i] in rs && !report.pending[i].paid && !report.pending[i].closed
    ensures forall i :: 0 <= i < |rs| && !rs[i].paid && !rs[i].closed ==> rs[i] in report.pending
    ensures forall i :: 0 <= i < |report.paid| ==> report.paid[i] in rs && report.paid[i].paid
    ensures forall i :: 0 <= i < |rs| && rs[i].paid ==> rs[i] in report.paid
    ensures forall i, j :: 0 <= i < |report.pending| && 0 <= j < |report.paid| ==> report.pending[i] != report.paid[j]
  {
    FilterMembers(rs, IsPending);
    FilterMembers(rs, IsPaid);
    PaymentReport(Filter(rs, IsPending), Filter(rs, IsPaid))
  }

  /** `controle_pagamentos` as written: every listed line reads `r.deposito`,
      an attribute `Reserva` does not have, so the report fails (`None`)
      as soon as either list has an entry, and it completes only when both
      lists are empty. */
  function PaymentControlAsWritten(rs: seq<Reservation>): (report: Option<PaymentReport>)
    ensures report.Some? <==> forall k :: 0 <= k < |rs| ==> !IsPending(rs[k]) && !IsPaid(rs[k])
    ensures report.Some? ==> report.value == PaymentReport([], [])
  {
    var report := PaymentControl(rs);
    if report.pending == [] && report.paid == [] then Some(report)
    else
      assert exists k :: 0 <= k < |rs| && (IsPending(rs[k]) || IsPaid(rs[k])) by {
        var x := if report.pending != [] then report.pending[0] else report.paid[0];
        var k :| 0 <= k < |rs| && rs[k] == x;
      }
      None
  }

  /** Every consistent reservation is pending or paid, so as written the
      payment report fails whenever there is any reservation at all. */
  lemma PaymentControlAsWrittenFails(a: Agency)
    requires Valid(a) && a.reservations != []
    ensures PaymentControlAsWritten(a.reservations) == None
  {
    var r := a.reservations[0];
    assert Consistent(r);
    assert IsPending(r) || IsPaid(r);
  }

  /** Because a reservation is returned only after it is paid, the two lists
      of the payment report account for every reservation exactly once. */
  lemma PaymentControlCoversAll(a: Agency)
    requires Valid(a)
    ensures |PaymentControl(a.reservations).pending| + |PaymentControl(a.reservations).paid| == |a.reservations|
  {
    FilterSplit(a.reservations, IsPending, IsPaid);
  }
}
