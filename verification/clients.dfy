/** Users and client registration (clientes.py): the name setter guard, the
    customer and administrator factories, and the registration rules for
    names and CPFs. */
module Clients {
  import opened Outcomes
  import opened Text
  import opened Seqs

  /** A CPF has exactly this many characters. */
  const CPF_LENGTH: nat := 11

  datatype Role = Customer | Administrator(position: string, accessLevel: int)

  datatype User = User(role: Role, name: string, cpf: string, permissions: seq<string>)

  const CUSTOMER_PERMISSIONS: seq<string> := [
    "reservar_veiculo", "ver_historico", "avaliar_aluguel", "relatar_incidente", "devolver_veiculo"
  ]

  const ADMIN_PERMISSIONS: seq<string> := [
    "cadastrar_cliente", "cadastrar_veiculo", "listar_veiculos", "reservar_veiculo",
    "efetuar_pagamento", "registrar_manutencao", "relatar_incidente", "devolver_veiculo",
    "relatorios_gerenciais"
  ]

  /** The template each factory copies: `Cliente()` and `Admin()` with their defaults. */
  const CustomerPrototype: User := User(Customer, "", "", CUSTOMER_PERMISSIONS)
  const AdminPrototype: User := User(Administrator("Administrador", 1), "", "", ADMIN_PERMISSIONS)

  /** `ClienteFactory().criar_usuario`: a copy of the customer template with
      the given name and CPF, taken as they are. */
  function CreateCustomer(name: string, cpf: string): (u: User)
    ensures u.name == name && u.cpf == cpf
    ensures u.role == Customer && |u.permissions| == 5
    ensures u.(name := "", cpf := "") == CustomerPrototype
  {
    CustomerPrototype.(name := name, cpf := cpf)
  }

  /** `AdminFactory().criar_usuario`: the same for the administrator template. */
  function CreateAdmin(name: string, cpf: string): (u: User)
    ensures u.name == name && u.cpf == cpf
    ensures u.role == Administrator("Administrador", 1) && |u.permissions| == 9
    ensures u.(name := "", cpf := "") == AdminPrototype
  {
    AdminPrototype.(name := name, cpf := cpf)
  }

  /** The `nome` setter: a name that is empty or all whitespace is refused
      and the old name kept; any other value is stored as given. */
  function SetName(u: User, newName: string): (u': User)
    ensures (forall i :: 0 <= i < |newName| ==> IsSpace(newName[i])) ==> u' == u
    ensures (exists i :: 0 <= i < |newName| && !IsSpace(newName[i])) ==> u' == u.(name := newName)
  {
    if Strip(newName) != "" then u.(name := newName) else u
  }

  /** The name check: `nome.replace(' ', '').isalpha()`. */
  predicate ValidName(name: string) {
    var letters := RemoveSpaces(name);
    letters != "" && forall i :: 0 <= i < |letters| ==> IsLetter(letters[i])
  }

  /** A name passes exactly when it is letters and plain spaces, with at
      least one letter; in particular a name of spaces only is refused. */
  lemma ValidNameIff(name: string)
    ensures ValidName(name) <==>
      && (exists i :: 0 <= i < |name| && name[i] != ' ')
      && (forall i :: 0 <= i < |name| ==> name[i] == ' ' || IsLetter(name[i]))
  {
    var letters := RemoveSpaces(name);
    FilterMembers(name, NotBlank);
    if ValidName(name) {
      assert letters[0] in name;
      forall i | 0 <= i < |name| && name[i] != ' ' ensures IsLetter(name[i]) {
        assert NotBlank(name[i]);
        var k :| 0 <= k < |letters| && letters[k] == name[i];
      }
    }
    if exists i :: 0 <= i < |name| && name[i] != ' ' {
      var i :| 0 <= i < |name| && name[i] != ' ';
      assert NotBlank(name[i]);
      assert name[i] in letters;
    }
  }

  /** The CPF check: exactly eleven characters, each one `isdigit`. */
  predicate ValidCpf(cpf: string) {
    |cpf| == CPF_LENGTH && forall i :: 0 <= i < |cpf| ==> IsDigit(cpf[i])
  }

  predicate CpfTaken(clients: seq<User>, cpf: string) {
    exists i :: 0 <= i < |clients| && clients[i].cpf == cpf
  }

  predicate UniqueCpfs(clients: seq<User>) {
    forall i, j :: 0 <= i < j < |clients| ==> clients[i].cpf != clients[j].cpf
  }

  datatype Registration = Registration(clients: seq<User>, status: Status)

  /** `cadastrar_cliente`: the first valid name and the first valid CPF are
      taken; a CPF already registered refuses the registration and leaves the
      list as it was, otherwise exactly one customer with that name and CPF is
      appended. */
  function RegisterCustomer(clients: seq<User>, nameAnswers: seq<string>, cpfAnswers: seq<string>): (reg: Registration)
    requires Answered(nameAnswers, ValidName)
    requires Answered(cpfAnswers, ValidCpf)
    ensures var name := nameAnswers[FirstWhere(nameAnswers, ValidName)];
      var cpf := cpfAnswers[FirstWhere(cpfAnswers, ValidCpf)];
      && ValidName(name) && ValidCpf(cpf)
      && (CpfTaken(clients, cpf) ==> reg == Registration(clients, Refused(DuplicateCpf)))
      && (!CpfTaken(clients, cpf) ==>
            && reg.status == Done
            && |reg.clients| == |clients| + 1
            && reg.clients[..|clients|] == clients
            && reg.clients[|clients|].name == name
            && reg.clients[|clients|].cpf == cpf
            && reg.clients[|clients|].role == Customer)
  {
    var name := nameAnswers[FirstWhere(nameAnswers, ValidName)];
    var cpf := cpfAnswers[FirstWhere(cpfAnswers, ValidCpf)];
    if CpfTaken(clients, cpf) then Registration(clients, Refused(DuplicateCpf))
    else Registration(clients + [CreateCustomer(name, cpf)], Done)
  }

  /** Registration never introduces a second client with the same CPF. */
  lemma RegisterKeepsCpfsUnique(clients: seq<User>, nameAnswers: seq<string>, cpfAnswers: seq<string>)
    requires Answered(nameAnswers, ValidName)
    requires Answered(cpfAnswers, ValidCpf)
    requires UniqueCpfs(clients)
    ensures UniqueCpfs(RegisterCustomer(clients, nameAnswers, cpfAnswers).clients)
  {
    var reg := RegisterCustomer(clients, nameAnswers, cpfAnswers);
    if reg.status == Done {
      assert forall i :: 0 <= i < |clients| ==> reg.clients[i] == clients[i];
    }
  }
}
