/** Result shapes shared by the rental model: an optional value, and the
    failure conditions an operation reports instead of changing state. The
    error names follow the application's exception classes. */
module Outcomes {

  datatype Option<+T> = None | Some(value: T)

  datatype Error =
    | InvalidData      // DadosInvalidosError: missing client/vehicle, non-positive days
    | AlreadyPaid      // ReservaJaPagaError: cancel or modify after payment
    | NotPaid          // ReservaNaoPagaError: return before payment
    | VehicleNotFound  // VeiculoNaoEncontradoError: no fleet vehicle has the plate
    | DuplicateCpf     // CpfJaCadastradoError: registration with a known CPF

  /** What an operation did: it went through, or it refused and changed nothing. */
  datatype Status = Done | Refused(error: Error)
}
