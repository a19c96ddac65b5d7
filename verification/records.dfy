/**
  The two document schemas the core writes: a bet (`Apuesta`) and a ledger
  record (`Transaction`), with their enumerations, required paths, bounds
  and defaults. Creating a document runs the schema's validation; a failed
  validation is the error the handler's `save`/`create` call throws.
 */
module Records {
  import opened Outcomes

  /** Identifier of a user document. */
  type UserId = nat

  /** The fifteen values the `tipoApuesta` path admits. */
  datatype BetType =
    | Pleno | Caballo | Transversal | Cuadro | Seisena | Docena | Columna
    | DosDocenas | DosColumnas | Rojo | Negro | Par | Impar | Falta | Pasa

  /** The string stored for each bet type. */
  function Name(t: BetType): string {
    match t
    case Pleno => "pleno"
    case Caballo => "caballo"
    case Transversal => "transversal"
    case Cuadro => "cuadro"
    case Seisena => "seisena"
    case Docena => "docena"
    case Columna => "columna"
    case DosDocenas => "dos-docenas"
    case DosColumnas => "dos-columnas"
    case Rojo => "rojo"
    case Negro => "negro"
    case Par => "par"
    case Impar => "impar"
    case Falta => "falta"
    case Pasa => "pasa"
  }

  /** The schema's enum check on `tipoApuesta`: the bet type a string names, if any. */
  function ParseBetType(s: string): (r: Option<BetType>)
    ensures r.Some? ==> Name(r.value) == s
    ensures r.None? ==> forall t: BetType :: Name(t) != s
  {
    if s == "pleno" then Some(Pleno)
    else if s == "caballo" then Some(Caballo)
    else if s == "transversal" then Some(Transversal)
    else if s == "cuadro" then Some(Cuadro)
    else if s == "seisena" then Some(Seisena)
    else if s == "docena" then Some(Docena)
    else if s == "columna" then Some(Columna)
    else if s == "dos-docenas" then Some(DosDocenas)
    else if s == "dos-columnas" then Some(DosColumnas)
    else if s == "rojo" then Some(Rojo)
    else if s == "negro" then Some(Negro)
    else if s == "par" then Some(Par)
    else if s == "impar" then Some(Impar)
    else if s == "falta" then Some(Falta)
    else if s == "pasa" then Some(Pasa)
    else None
  }

  /** Every bet type is accepted under its own name, and no two share a name. */
  lemma NameRoundTrip(t: BetType)
    ensures ParseBetType(Name(t)) == Some(t)
  {
  }

  /** The staked selection, stored under a schema-less (`Mixed`) path: whatever
      JSON value the client sent, a number, a string, or null when it sent
      nothing usable. */
  datatype Valor = Num(n: int) | Str(s: string) | Null

  /** The `estado` path: unset while the bet is pending. */
  datatype Estado = Ganada | Perdida

  /** A bet document. `estado` and `numeroGanador` are None until it is resolved. */
  datatype Bet = Bet(
    owner: UserId,
    monto: int,
    tipo: BetType,
    valor: Valor,
    estado: Option<Estado>,
    numeroGanador: Option<int>,
    pago: int)
  {
    predicate Pending() {
      estado.None?
    }
  }

  /** A failed schema validation, with the paths that failed. */
  datatype ValidationError = ValidationError(paths: set<string>)

  /** `new Apuesta({ user_id, monto, tipoApuesta, valorApostado }).save()`:
      validates the enum and fills in the defaults of an unresolved bet. */
  function NewBet(owner: UserId, monto: int, tipo: string, valor: Valor): (r: Result<Bet, ValidationError>)
    ensures r.Ok? <==> exists t: BetType :: Name(t) == tipo
    ensures r.Ok? ==> && r.value.owner == owner && r.value.monto == monto
                      && Name(r.value.tipo) == tipo && r.value.valor == valor
                      && r.value.Pending() && r.value.numeroGanador.None? && r.value.pago == 0
    ensures r.Err? ==> r.error.paths == {"tipoApuesta"}
  {
    match ParseBetType(tipo)
    case Some(t) => Ok(Bet(owner, monto, t, valor, None, None, 0))
    case None => Err(ValidationError({"tipoApuesta"}))
  }

  /** The `type` path of a ledger record. */
  datatype TxType = Deposito | Retiro | Derrota | Victoria | Bonus

  /** The `status` path of a ledger record; `Pending` is its default. */
  datatype TxStatus = Pending | Completed | Failed | Cancelled

  /** A stored ledger record. */
  datatype LedgerEntry = LedgerEntry(
    txType: TxType,
    user: UserId,
    prebalance: int,
    postbalance: int,
    amount: nat,
    status: TxStatus)

  /** The object a handler hands to `Transaction.create`, with the owner
      under the key `ownerKey`. */
  datatype TxFields = TxFields(
    txType: TxType,
    ownerKey: string,
    owner: UserId,
    amount: int,
    prebalance: int,
    postbalance: int)

  /** The name under which a ledger schema declares the record's owner:
      `user` in server/models/Transaction.js, or `user_id`, the key the
      ledger handlers write. */
  datatype OwnerPath = UserPath | UserIdPath

  function PathName(p: OwnerPath): string {
    match p
    case UserPath => "user"
    case UserIdPath => "user_id"
  }

  /** `Transaction.create(fields)` against a schema whose required owner path
      is `path`: a key that is not a schema path is dropped, so the owner is
      present only under that very name; `amount` has minimum 0, `status`
      defaults to Pending. */
  function CreateTransaction(path: OwnerPath, f: TxFields): (r: Result<LedgerEntry, ValidationError>)
    ensures r.Ok? <==> f.ownerKey == PathName(path) && f.amount >= 0
    ensures r.Ok? ==> && r.value.txType == f.txType && r.value.user == f.owner
                      && r.value.amount == f.amount && r.value.prebalance == f.prebalance
                      && r.value.postbalance == f.postbalance && r.value.status == Pending
    ensures r.Err? ==> (PathName(path) in r.error.paths <==> f.ownerKey != PathName(path))
                       && ("amount" in r.error.paths <==> f.amount < 0)
  {
    var missing := if f.ownerKey != PathName(path) then {PathName(path)} else {};
    var negative := if f.amount < 0 then {"amount"} else {};
    if missing + negative == {} then
      Ok(LedgerEntry(f.txType, f.owner, f.prebalance, f.postbalance, f.amount, Pending))
    else
      Err(ValidationError(missing + negative))
  }
}
