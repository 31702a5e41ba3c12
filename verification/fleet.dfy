/** The vehicle fleet (veiculos.py): a vehicle record with its availability
    flag and maintenance log, and the fleet manager's registration rules,
    availability listing and usage statistics. */
module Fleet {
  import opened Outcomes
  import opened Text
  import opened Seqs

  /** Every plate has exactly this many characters. */
  const PLATE_LENGTH: nat := 7
  /** Registration admits model years strictly after this one. */
  const YEAR_FLOOR: int := 1960

  datatype Maintenance = Maintenance(description: string, date: string, cost: real)

  datatype Vehicle = Vehicle(
    model: string,
    plate: string,
    year: string,
    rate: real,              // daily rate
    available: bool,
    maintenance: seq<Maintenance>)

  /** `Veiculo(modelo, placa, ano, valor)`: a new vehicle is available and
      has no maintenance history. */
  function NewVehicle(model: string, plate: string, year: string, rate: real): (v: Vehicle)
    ensures v.available && v.maintenance == []
    ensures v.model == model && v.plate == plate && v.year == year && v.rate == rate
  {
    Vehicle(model, plate, year, rate, true, [])
  }

  predicate IsAvailable(v: Vehicle) {
    v.available
  }

  predicate IsRented(v: Vehicle) {
    !v.available
  }

  /** A maintenance cost the prompt accepts: a number that is not negative. */
  predicate IsCost(answer: Option<real>) {
    answer.Some? && answer.value >= 0.0
  }

  /** The date prompt accepts a stripped answer that `parseDate` (day/month/year
      parsing and re-formatting) reads. */
  function DatePrompt(parseDate: string -> Option<string>): string -> bool {
    answer => parseDate(Strip(answer)).Some?
  }

  /** `registrar_manutencao`: appends one entry to the log, with the stripped
      description, the first date the parser accepts and the first
      non-negative cost; everything else about the vehicle stays. */
  function RecordMaintenance(
    v: Vehicle,
    descriptionAnswer: string,
    dateAnswers: seq<string>,
    parseDate: string -> Option<string>,
    costAnswers: seq<Option<real>>): (v': Vehicle)
    requires Answered(dateAnswers, DatePrompt(parseDate))
    requires Answered(costAnswers, IsCost)
    ensures v' == v.(maintenance := v'.maintenance)
    ensures |v'.maintenance| == |v.maintenance| + 1
    ensures v'.maintenance[..|v.maintenance|] == v.maintenance
    ensures var m := v'.maintenance[|v.maintenance|];
      && m.cost >= 0.0
      && m.description == Strip(descriptionAnswer)
      && Some(m.date) == parseDate(Strip(dateAnswers[FirstWhere(dateAnswers, DatePrompt(parseDate))]))
      && Some(m.cost) == costAnswers[FirstWhere(costAnswers, IsCost)]
  {
    var date := parseDate(Strip(dateAnswers[FirstWhere(dateAnswers, DatePrompt(parseDate))])).value;
    var cost := costAnswers[FirstWhere(costAnswers, IsCost)].value;
    v.(maintenance := v.maintenance + [Maintenance(Strip(descriptionAnswer), date, cost)])
  }

  /** The first vehicle whose plate is `plate` (`next(v for v in ... if v.placa == placa)`). */
  function FindByPlate(fleet: seq<Vehicle>, plate: string): (r: Option<nat>)
    ensures r.Some? ==> r.value < |fleet| && fleet[r.value].plate == plate
    ensures r.Some? ==> forall j :: 0 <= j < r.value ==> fleet[j].plate != plate
    ensures r.None? <==> forall j :: 0 <= j < |fleet| ==> fleet[j].plate != plate
  {
    if fleet == [] then None
    else if fleet[0].plate == plate then Some(0)
    else match FindByPlate(fleet[1..], plate)
      case None => None
      case Some(j) => Some(j + 1)
  }

  predicate UniquePlates(fleet: seq<Vehicle>) {
    forall i, j :: 0 <= i < j < |fleet| ==> fleet[i].plate != fleet[j].plate
  }

  /** A plate registration accepts: seven characters, not already in the fleet. */
  predicate AcceptablePlate(fleet: seq<Vehicle>, plate: string) {
    |plate| == PLATE_LENGTH && forall i :: 0 <= i < |fleet| ==> fleet[i].plate != plate
  }

  /** A model year registration accepts: four digits `int()` can read, after
      1960 and at most one year past the current one. (A superscript digit
      passes `isdigit` but makes `int` fail, which re-prompts as well.) */
  predicate AcceptableYear(year: string, currentYear: int) {
    |year| == 4 && AllDecimal(year) && YEAR_FLOOR < DecimalValue(year) <= currentYear + 1
  }

  /** A daily rate registration accepts: a number greater than zero. */
  predicate AcceptableRate(answer: Option<real>) {
    answer.Some? && answer.value > 0.0
  }

  function PlatePrompt(fleet: seq<Vehicle>): string -> bool {
    answer => AcceptablePlate(fleet, Upper(answer))
  }

  function YearPrompt(currentYear: int): string -> bool {
    answer => AcceptableYear(answer, currentYear)
  }

  /** `cadastrar_veiculo`: appends exactly one new vehicle, built from the
      title-cased model, the first acceptable (upper-cased) plate, year and
      daily rate. */
  function RegisterVehicle(
    fleet: seq<Vehicle>,
    modelAnswer: string,
    plateAnswers: seq<string>,
    yearAnswers: seq<string>,
    rateAnswers: seq<Option<real>>,
    currentYear: int): (fleet': seq<Vehicle>)
    requires Answered(plateAnswers, PlatePrompt(fleet))
    requires Answered(yearAnswers, YearPrompt(currentYear))
    requires Answered(rateAnswers, AcceptableRate)
    ensures |fleet'| == |fleet| + 1 && fleet'[..|fleet|] == fleet
    ensures var v := fleet'[|fleet|];
      && v.available && v.maintenance == []
      && v.model == Title(modelAnswer)
      && AcceptablePlate(fleet, v.plate)
      && AcceptableYear(v.year, currentYear)
      && v.rate > 0.0
      && v.plate == Upper(plateAnswers[FirstWhere(plateAnswers, PlatePrompt(fleet))])
      && v.year == yearAnswers[FirstWhere(yearAnswers, YearPrompt(currentYear))]
      && Some(v.rate) == rateAnswers[FirstWhere(rateAnswers, AcceptableRate)]
  {
    var plate := Upper(plateAnswers[FirstWhere(plateAnswers, PlatePrompt(fleet))]);
    var year := yearAnswers[FirstWhere(yearAnswers, YearPrompt(currentYear))];
    var rate := rateAnswers[FirstWhere(rateAnswers, AcceptableRate)].value;
    fleet + [NewVehicle(Title(modelAnswer), plate, year, rate)]
  }

  predicate WellFormedPlates(fleet: seq<Vehicle>) {
    && UniquePlates(fleet)
    && forall i :: 0 <= i < |fleet| ==> |fleet[i].plate| == PLATE_LENGTH
  }

  lemma AppendAcceptedPlate(fleet: seq<Vehicle>, v: Vehicle)
    requires WellFormedPlates(fleet) && AcceptablePlate(fleet, v.plate)
    ensures WellFormedPlates(fleet + [v])
  {
    var fleet' := fleet + [v];
    assert forall i :: 0 <= i < |fleet| ==> fleet'[i] == fleet[i];
  }

  /** Registration keeps plates unique and seven characters long across the fleet. */
  lemma RegisterKeepsPlatesUnique(
    fleet: seq<Vehicle>,
    modelAnswer: string,
    plateAnswers: seq<string>,
    yearAnswers: seq<string>,
    rateAnswers: seq<Option<real>>,
    currentYear: int)
    requires Answered(plateAnswers, PlatePrompt(fleet))
    requires Answered(yearAnswers, YearPrompt(currentYear))
    requires Answered(rateAnswers, AcceptableRate)
    requires WellFormedPlates(fleet)
    ensures WellFormedPlates(RegisterVehicle(fleet, modelAnswer, plateAnswers, yearAnswers, rateAnswers, currentYear))
  {
    var fleet' := RegisterVehicle(fleet, modelAnswer, plateAnswers, yearAnswers, rateAnswers, currentYear);
    assert fleet' == fleet + [fleet'[|fleet|]];
    AppendAcceptedPlate(fleet, fleet'[|fleet|]);
  }

  /** `listar_veiculos`: the available vehicles, in fleet order. */
  function AvailableVehicles(fleet: seq<Vehicle>): (r: seq<Vehicle>)
    ensures forall i :: 0 <= i < |r| ==> r[i] in fleet && r[i].available
    ensures forall i :: 0 <= i < |fleet| && fleet[i].available ==> fleet[i] in r
  {
    FilterMembers(fleet, IsAvailable);
    Filter(fleet, IsAvailable)
  }

  /** The vehicle a customer picks as number `k + 1` of the available list is
      fleet entry `j`: it is available, and exactly `k` available vehicles
      come before it in the fleet. */
  function AvailableIndex(fleet: seq<Vehicle>, k: nat): (j: nat)
    requires k < |Filter(fleet, IsAvailable)|
    ensures j < |fleet| && fleet[j].available
    ensures fleet[j] == Filter(fleet, IsAvailable)[k]
    ensures |Filter(fleet[..j], IsAvailable)| == k
  {
    var head := if fleet[0].available then [fleet[0]] else [];
    assert Filter(fleet, IsAvailable) == head + Filter(fleet[1..], IsAvailable);
    if fleet[0].available && k == 0 then
      assert fleet[..0] == [];
      0
    else
      var j' := AvailableIndex(fleet[1..], k - |head|);
      AvailablePrefix(fleet, j');
      assert j' + 1 < |fleet| && fleet[j' + 1].available;
      assert fleet[j' + 1] == Filter(fleet, IsAvailable)[k];
      assert |Filter(fleet[1..][..j'], IsAvailable)| == k - |head|;
      assert |Filter(fleet[..j' + 1], IsAvailable)| == k;
      j' + 1
  }

  lemma AvailablePrefix(fleet: seq<Vehicle>, j: nat)
    requires j < |fleet|
    ensures Filter(fleet[..j + 1], IsAvailable)
         == (if fleet[0].available then [fleet[0]] else []) + Filter(fleet[1..][..j], IsAvailable)
  {
    assert fleet[..j + 1][1..] == fleet[1..][..j];
  }

  datatype Stats = Stats(total: nat, available: nat, rented: nat)

  /** The `sum(1 for v in ... if v.disponivel)` count. */
  method CountAvailable(fleet: seq<Vehicle>) returns (n: nat)
    ensures n == |AvailableVehicles(fleet)|
  {
    n := 0;
    var i := 0;
    while i < |fleet|
      invariant 0 <= i <= |fleet|
      invariant n == |Filter(fleet[..i], IsAvailable)|
    {
      assert fleet[..i + 1] == fleet[..i] + [fleet[i]];
      FilterConcat(fleet[..i], [fleet[i]], IsAvailable);
      if fleet[i].available {
        n := n + 1;
      }
      i := i + 1;
    }
    assert fleet[..i] == fleet;
  }

  /** `estatisticas_utilizacao`: nothing for an empty fleet; otherwise the
      fleet size, the available vehicles and the rented ones, which together
      make up the fleet. */
  method UsageStatistics(fleet: seq<Vehicle>) returns (st: Option<Stats>)
    ensures st.None? <==> fleet == []
    ensures st.Some? ==> st.value.total == |fleet|
    ensures st.Some? ==> st.value.available == |AvailableVehicles(fleet)|
    ensures st.Some? ==> st.value.rented == |Filter(fleet, IsRented)|
    ensures st.Some? ==> st.value.available + st.value.rented == st.value.total
  {
    if fleet == [] {
      return None;
    }
    var available := CountAvailable(fleet);
    FilterSplit(fleet, IsAvailable, IsRented);
    st := Some(Stats(|fleet|, available, |fleet| - available));
  }
}
