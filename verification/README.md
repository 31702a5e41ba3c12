# Car-rental reservations in Dafny

A model of the rental core of a console car-rental application written in
Python: the reservation contract (`Reserva`), the reservation manager
(`Gerenciar_Reserva`), the vehicle fleet (`Veiculo`, `GerenciarVeiculo`) and
client registration (`Pessoa`, the user factories, `GerenciarCliente`).

The Python objects are mutable and share vehicles by reference. The model
makes every object an immutable datatype and every operation a pure function
from the old state to the new one:

- A reservation is a `Reservations.Reservation` record.
- The manager's state is a `ReservationManager.Agency`: the reservation list
  together with the fleet whose availability flags it changes.
- A refused operation returns the unchanged state and a `Refused(error)`
  status, where the Python code prints a message and returns. The error names
  follow the application's exception classes.
- Every `input()` answer is a parameter.
- A `while True` prompt that repeats until it gets a valid answer takes the
  whole sequence of answers typed. It uses the first one it accepts
  (`Seqs.FirstWhere`). Such an operation requires that some answer is
  accepted, because otherwise the Python loop never ends.
- `int()`, `float()` and date parsing are abstracted. A numeric answer is an
  `Option` (`None` where the Python raises `ValueError`). The date parser is a
  function parameter.
- Money is `real`.
- The promotion table `PROMO_CODES` is a parameter of type
  `map<string, (CouponKind, real)>`.

Modules:

| file | module | models |
|---|---|---|
| outcomes.dfy | `Outcomes` | `Option`, error kinds, operation status |
| seqs.dfy | `Seqs` | list comprehensions with `if` (`Filter`), re-prompting loops (`FirstWhere`) |
| text.dfy | `Text` | the `str` methods the prompts use, for code points up to U+00FF |
| fleet.dfy | `Fleet` | veiculos.py |
| clients.dfy | `Clients` | clientes.py |
| reservations.dfy | `Reservations` | `Reserva` in reserva.py |
| manager.dfy | `ReservationManager` | `Gerenciar_Reserva` in reserva.py, plus the menu steps of main.py that act on one reservation |
| scenarios.dfy | `Scenarios` | worked rentals through several steps |

The invariant `ReservationManager.Valid` holds in every reachable state, and
every step preserves it. It says that every reservation is `Consistent` and
every vehicle has a positive rate. A reservation is `Consistent` when all of
these hold:

- it is closed only once paid;
- it is rated only once closed, and only with a score from 1 to 5;
- its deposit is 250 exactly for a real booking, and 0 for the blank record a
  refused booking leaves;
- its days and its total are not negative.

## Behaviour worth knowing

- A booking with a missing client or vehicle, or with no positive day count,
  still appends a blank reservation to the manager's list. `fazer_reserva`
  appends whatever `Reserva.fazer_reserva` left behind. The model's
  `ReservationManager.Book` does the same.
- Booking does not check that the vehicle is available. The menu only offers
  available vehicles.
- Modification refuses only paid reservations. It does not look at the
  returned flag.
- Payment has one real option: upfront, '1', which takes 10% off the daily
  total. Option '2' (instalments) prints "unavailable" and pays nothing.
- The exception classes are never raised. Every failure prints a message and
  returns.
- `devolver_veiculo` does not check whether the reservation was already
  returned. A closed reservation can be returned again, and a new rating
  then replaces the old one (`Reservations.ClosedReservationReturnsAgain`).
  Only the menu's filter at main.py:256, which lists paid reservations that
  are not yet returned, prevents a second return.

## Model

| member | source | states |
|---|---|---|
| Text.Strip | reserva.py:103 | the result is the answer with leading and trailing whitespace cut off. It is empty exactly when the answer is all whitespace, and otherwise neither starts nor ends with whitespace |
| Text.IsYes | reserva.py:107-108 | `answer.lower() == 's'` holds exactly for "s" and "S" |
| Seqs.FirstWhere | reserva.py:154-159 | the answer a re-prompting loop keeps is accepted, and every earlier answer was rejected |
| Seqs.FilterMembers | reserva.py:258-259 | a comprehension with `if` keeps exactly the elements that pass, both directions |
| Seqs.FilterConcat | veiculos.py:124 | the comprehension keeps list order: filtering a concatenation concatenates the filters |
| Seqs.FilterSplit | veiculos.py:136-137 | two complementary filters of a list account for all of its elements |
| Fleet.NewVehicle | veiculos.py:7-13 | a new vehicle is available, has an empty maintenance log, and keeps model, plate, year and rate as given |
| Fleet.RecordMaintenance | veiculos.py:52-75 | exactly one entry is appended to the log, and earlier entries and all other fields stay. The entry holds the stripped description, the first parsable date re-formatted, and the first non-negative cost |
| Fleet.FindByPlate | reserva.py:124 | the result is the first vehicle with the plate; None exactly when no vehicle has it |
| Fleet.RegisterVehicle | veiculos.py:90-120 | exactly one vehicle is appended. It is available with an empty log, has the title-cased model, and takes the first upper-cased plate that is 7 long and new to the fleet. Its year is the first with 4 decimal digits in (1960, current year + 1], and its rate the first positive one |
| Fleet.RegisterKeepsPlatesUnique | veiculos.py:92-96 | registration keeps every plate in the fleet distinct and 7 characters long |
| Fleet.AppendAcceptedPlate | veiculos.py:94 | appending a vehicle whose plate passes the check keeps plates distinct and 7 long |
| Fleet.AvailableVehicles | veiculos.py:122-129 | the listing holds exactly the available vehicles, both directions |
| Fleet.AvailableIndex | main.py:212-217 | choice k+1 of the available list is a fleet vehicle that is available, and exactly k available vehicles precede it |
| Fleet.CountAvailable | veiculos.py:136 | the counting loop returns the number of available vehicles |
| Fleet.UsageStatistics | veiculos.py:131-140 | no statistics for an empty fleet, otherwise the fleet size and the available and rented counts, which add up to the size |
| Clients.CreateCustomer | clientes.py:81-89 | the user has the given name and CPF and is otherwise the customer template: customer role and 5 permissions |
| Clients.CreateAdmin | clientes.py:91-99 | the user has the given name and CPF and is otherwise the administrator template: "Administrador", access level 1 and 9 permissions |
| Clients.SetName | clientes.py:31-36 | an all-whitespace name is refused and the user unchanged, and any other name is stored as given |
| Clients.ValidNameIff | clientes.py:111-115 | `replace(' ', '').isalpha()` holds exactly when the name has a character that is not a space and every character is a space or a letter |
| Clients.RegisterCustomer | clientes.py:109-130 | takes the first valid name and 11-digit CPF. A CPF already registered is refused with the list unchanged. Otherwise exactly one customer with that name and CPF is appended |
| Clients.RegisterKeepsCpfsUnique | clientes.py:124-130 | registration never creates two clients with the same CPF |
| Reservations.RentalTotal | reserva.py:56-62 | the price is rate times days, with 10% off from 7 days on |
| Reservations.Book | reserva.py:46-64 | with a client, a vehicle and positive days, the reservation records CPF, plate, model, days, the price and the 250 deposit, and the vehicle becomes unavailable. Otherwise the reservation stays blank and the vehicle is untouched |
| Reservations.BookConsistent | reserva.py:46-64 | a booking from a vehicle with a non-negative rate yields a consistent reservation |
| Reservations.DailyAfterCoupon | reserva.py:81-96 | an empty or unknown code leaves the daily total. A known code takes its percentage or fixed discount off, clamped at zero |
| Reservations.CouponWithinTotal | reserva.py:92-93 | a non-negative coupon (a percentage at most 100%) keeps the daily total between 0 and its old value |
| Reservations.Pay | reserva.py:70-117 | a paid reservation is left alone. Otherwise it becomes paid exactly when the first valid option is '1' and the confirmation is s/S, and then it charges 0.9 × the coupon-reduced daily total + the deposit. Only the paid flag ever changes |
| Reservations.PayTwiceIsPayOnce | reserva.py:75-77 | paying an already paid reservation changes nothing and charges nothing |
| Reservations.PayConsistent | reserva.py:102-111 | payment keeps a reservation consistent |
| Reservations.AddIncident | reserva.py:179-180 | exactly one incident is appended at the end, and nothing else changes |
| Reservations.Rate | reserva.py:153-163 | the rating is the first score from 1 to 5 and the comment is the stripped answer, and nothing else changes |
| Reservations.Settle | reserva.py:129-143 | the reservation is closed. One incident dated today is appended exactly when damage is reported. When a rating is asked for, the first score from 1 to 5 and the stripped comment are recorded; otherwise rating and comment stay |
| Reservations.ReturnVehicle | reserva.py:119-143 | unpaid, or no vehicle with the plate: refused, with nothing changed. Otherwise the first vehicle with the plate becomes available, and the reservation is settled, closed and still paid |
| Reservations.ReturnConsistent | reserva.py:119-143 | the return keeps a reservation consistent |
| Reservations.ClosedReservationReturnsAgain | reserva.py:119-143 | a reservation already closed and rated is returned again with status Done, and the new rating replaces the old one: the return never checks `finalizada` |
| ReservationManager.Book | reserva.py:192-195 | every call appends exactly one reservation, the booked or the blank one, and keeps the earlier ones. Only a valid booking marks the chosen vehicle unavailable |
| ReservationManager.BookFromAvailableList | main.py:212-219 | booking the k+1-th listed vehicle leaves exactly one fewer available vehicle |
| ReservationManager.Cancel | reserva.py:197-207 | paid: refused, with nothing changed. Otherwise the reservation is removed, the rest keep their order, the fleet keeps its vehicles, and only the first vehicle with the plate becomes available |
| ReservationManager.Modify | reserva.py:209-238 | paid, vehicle missing, or days not a positive number: refused, with nothing changed. Otherwise only days and total change, and the total is priced afresh from the vehicle's rate. The fleet never changes |
| ReservationManager.ModifyToBookedDaysIsNoChange | reserva.py:226-232 | modification prices a reservation as booking does: with unique plates, changing a fresh booking to its own day count changes nothing |
| ReservationManager.PayAt | reserva.py:102-111 | the fleet and every other reservation stay. Reservation i differs at most in its paid flag, which is set exactly when it was already paid or the first valid option is '1' and the confirmation is s/S |
| ReservationManager.ReportIncidentAt | main.py:248-252 | reservation i gains exactly one incident at the end, with today's date and the stripped description. The fleet and every other reservation stay |
| ReservationManager.ReturnAt | reserva.py:119-143 | unpaid, or no vehicle with the plate: refused, with nothing changed. Otherwise the fleet keeps its vehicles, only the first vehicle with the plate becomes available, the other reservations stay, and reservation i is settled, closed and paid |
| ReservationManager.BookPreservesValid | reserva.py:192-195 | booking preserves the invariant |
| ReservationManager.CancelPreservesValid | reserva.py:197-207 | cancellation preserves the invariant |
| ReservationManager.ModifyPreservesValid | reserva.py:209-238 | modification preserves the invariant |
| ReservationManager.PayAtPreservesValid | reserva.py:70-117 | payment preserves the invariant |
| ReservationManager.ReportIncidentAtPreservesValid | reserva.py:179-180 | reporting an incident preserves the invariant |
| ReservationManager.ReturnAtPreservesValid | reserva.py:119-143 | the return preserves the invariant |
| ReservationManager.Tagged | reserva.py:251-252 | each incident line pairs the reservation's CPF with one of its incidents, in order |
| ReservationManager.IncidentLinesMembers | reserva.py:240-255 | a line is in the incident report exactly when some reservation of the plate, by that CPF, recorded that incident |
| ReservationManager.IncidentLinesConcat | reserva.py:248-252 | the report follows the reservation order |
| ReservationManager.ListIncidents | reserva.py:240-255 | "no reservation" exactly when no reservation has the plate, and otherwise the incident lines |
| ReservationManager.PaymentControl | reserva.py:257-259 | pending holds exactly the unpaid, unreturned reservations and paid exactly the paid ones, both directions, and no reservation is in both |
| ReservationManager.PaymentControlCoversAll | reserva.py:257-259 | in a valid state the two lists together account for every reservation exactly once |
| ReservationManager.PaymentControlAsWritten | reserva.py:257-274 | the report as written completes only when no reservation is pending or paid |
| ReservationManager.PaymentControlAsWrittenFails | reserva.py:267 | in a valid state with any reservation, the report as written fails |
| Scenarios.LongRentalPaidUpfront | reserva.py:46-111 | 10 days at 100 a day cost 900. Paid upfront without a coupon this charges 1060, and only the paid flag changes |
| Scenarios.PaidRentalReturned | reserva.py:119-143 | returning a paid rental, answering "n" to damage and to rating, frees the vehicle, closes the reservation and records no incident |
| Scenarios.ShortRentalWithFixedCoupon | reserva.py:79-105 | 3 days at 50 a day cost 150. A fixed 50 coupon charges 340 upfront, and the stored total stays 150 |
| Scenarios.ShortRentalExtended | reserva.py:209-232 | a 3-day booking at 50 a day changed to 8 days costs 360, and the vehicle stays rented |
| Scenarios.PaidRentalCannotChange | reserva.py:209-212 | once paid upfront, a change of length is refused and nothing changes |

## Left out

- Printing, screen clearing and the summary texts are not modelled. This covers `exibir_contrato`, `listar_manutencoes`, `historico_manutencoes` and `listar_clientes`, which only print.
- The amount each payment-report line prints is not modelled.
- The clock is not modelled. The return's incident date (`registrar_incidente_devolucao`) and the current year for registration are parameters.
- `strptime`/`strftime` date parsing is a parameter function.
- The GPS simulation (`localizacao`, `simular_movimentacao`) is left out, because it uses random coordinates and does not affect renting.
- Float arithmetic and rounding: money is an exact `real`.
- `float()` and `int()` of arbitrary text are not modelled; numeric answers arrive already parsed, as an `Option`.
- `Singleton` and the `deepcopy`-based prototype cloning are not modelled. Datatype values are copied by construction.
- The menus of main.py and comandos.py, the login, and the coupon-management screen are not modelled. Only the steps that act on one reservation are modelled.
- `VeiculoBuilder` is not part of this model.
- The menu's filtering of which reservations it lists for each action is not modelled. The manager steps take a reservation by its position in the full list.
- Text.Upper, Text.Lower and Text.Title use the ASCII case mapping, with lengths preserved. Python also maps Latin-1 and other letters, and some of those change length (`'ß'.upper()` is "SS"). The title-casing contract states only the length.
- Text.Strip, Text.IsSpace, Text.IsLetter and Text.IsDigit are exact only up to U+00FF. Whitespace, letters and digits beyond that range are not modelled.
- Fleet.RegisterVehicle: the plate check is on the ASCII upper-cased answer.
- Reservations.Pay: the code offers only options '1' and '2'. Option '2' (instalments) pays nothing, as in the code.

## Findings

| source | as written | input that shows it | evidently intended | confidence | as-written member | corrected member |
|---|---|---|---|---|---|---|
| reserva.py:267 | each pending or paid line prints `r.total + r.deposito`, but `Reserva` defines only `_deposito` and no `deposito` property, so the report raises `AttributeError` | any reservation at all: every consistent one is pending or paid | list the pending and paid reservations with total plus deposit | high (not executed) | ReservationManager.PaymentControlAsWritten | ReservationManager.PaymentControl |
