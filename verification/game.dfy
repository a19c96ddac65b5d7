/**
  The two betting handlers, `/apuesta` (place a bet) and `/resultado-apuesta`
  (settle it against a winning number), as pure transitions over the
  player's balance and the bet record. The persistence calls become inputs
  and outputs: the balance read from the user document, the bet document
  found by id (None when no bet has that id), and the values written back.

  The handlers are modelled as written, together with the corrected
  versions the rest of the model relies on: placement that validates the
  stake and the bet before it debits, and settlement that refuses a bet that
  is already settled.
 */
module Game {
  import opened Outcomes
  import opened Records
  import opened Settlement

  /** What `/apuesta` answers: the created bet, the 400 for a short balance, or
      the 500 raised by a bet document that fails validation. */
  datatype PlaceReply = Created(bet: Bet) | InsufficientFunds | InvalidBet(error: ValidationError)

  /** The balance stored after placement, and the answer. */
  datatype Placed = Placed(saldo: int, reply: PlaceReply)

  /** The stored fields of a bet that placement creates. */
  predicate FreshBet(b: Bet, owner: UserId, monto: int, tipo: string, valor: Valor) {
    && b.owner == owner && b.monto == monto && Name(b.tipo) == tipo && b.valor == valor
    && b.Pending() && b.numeroGanador.None? && b.pago == 0
  }

  /** `/apuesta` as written: compare, debit and save the balance, then build and
      save the bet. The debit is saved before the bet is validated, so a bet
      type outside the fifteen costs the stake and creates nothing; and no
      check keeps the stake positive. */
  function Place(saldo: int, owner: UserId, monto: int, tipo: string, valor: Valor): (p: Placed)
    ensures p.reply.InsufficientFunds? <==> saldo < monto
    ensures p.reply.InsufficientFunds? ==> p.saldo == saldo
    ensures !p.reply.InsufficientFunds? ==> p.saldo == saldo - monto
    ensures p.reply.Created? <==> saldo >= monto && exists t: BetType :: Name(t) == tipo
    ensures p.reply.Created? ==> FreshBet(p.reply.bet, owner, monto, tipo, valor)
  {
    if saldo < monto then Placed(saldo, InsufficientFunds)
    else
      match NewBet(owner, monto, tipo, valor)
      case Ok(b) => Placed(saldo - monto, Created(b))
      case Err(e) => Placed(saldo - monto, InvalidBet(e))
  }

  /** Why settlement fails. `SettlementThrew` is the TypeError of a composite
      bet whose stake is not a string; `AlreadySettled` and `NotOwner` are
      only produced by the corrected handler. */
  datatype ResolveError = BetNotFound | SettlementThrew | AlreadySettled | NotOwner

  /** The balance and bet stored after settlement, and the answer's `gano` and `pago`. */
  datatype Resolution = Resolution(saldo: int, bet: Bet, won: bool, pago: int)

  /** The bet after settlement with winning number w. */
  function Settled(b: Bet, won: bool, w: int, pago: int): Bet {
    b.(estado := Some(if won then Ganada else Perdida), numeroGanador := Some(w), pago := pago)
  }

  /** `/resultado-apuesta` as written, applied to the caller's balance and the
      bet found by id. Nothing checks that the bet is pending, nor that it
      belongs to the caller. A TypeError from the settlement engine or a
      missing bet ends in a 500 before anything is saved. */
  function Resolve(saldo: int, found: Option<Bet>, w: int): (r: Result<Resolution, ResolveError>)
    ensures found.None? ==> r == Err(BetNotFound)
    ensures found.Some? ==> (r.Err? <==> Verify(Name(found.value.tipo), found.value.valor, w).Err?)
    ensures r.Err? ==> r.error == BetNotFound || r.error == SettlementThrew
    ensures r.Ok? ==>
      var b := found.value;
      && r.value.won == (Verify(Name(b.tipo), b.valor, w) == Ok(true))
      && r.value.pago == (if r.value.won then Payout(b.monto, TableMultiplier(b.tipo)) else 0)
      && r.value.saldo == saldo + r.value.pago
      && r.value.bet.estado == Some(if r.value.won then Ganada else Perdida)
      && r.value.bet.numeroGanador == Some(w) && r.value.bet.pago == r.value.pago
      && r.value.bet.owner == b.owner && r.value.bet.monto == b.monto
      && r.value.bet.tipo == b.tipo && r.value.bet.valor == b.valor
  {
    match found
    case None => Err(BetNotFound)
    case Some(b) =>
      match Verify(Name(b.tipo), b.valor, w)
      case Err(_) => Err(SettlementThrew)
      case Ok(won) =>
        StoredTypesUseTable(b.tipo);
        var pago := if won then Payout(b.monto, Multiplier(Name(b.tipo))) else 0;
        Ok(Resolution(saldo + pago, Settled(b, won, w, pago), won, pago))
  }

  /** A winning bet with a non-negative stake pays back at least its stake, and
      the payout is the exact floor of stake times factor. */
  lemma WinPaysAtLeastStake(saldo: int, b: Bet, w: int)
    requires b.monto >= 0
    requires Resolve(saldo, Some(b), w).Ok?
    ensures var r := Resolve(saldo, Some(b), w).value;
            r.won ==> b.monto <= r.pago && r.pago <= b.monto * TableMultiplier(b.tipo).num
    ensures var r := Resolve(saldo, Some(b), w).value;
            var m := TableMultiplier(b.tipo);
            r.won ==> m.den * r.pago <= b.monto * m.num < m.den * (r.pago + 1)
    ensures var r := Resolve(saldo, Some(b), w).value;
            !r.won ==> r.pago == 0 && r.saldo == saldo
  {
    var r := Resolve(saldo, Some(b), w).value;
    var m := TableMultiplier(b.tipo);
    if r.won {
      assert m.den * r.pago <= b.monto * m.num < m.den * (r.pago + 1);
      assert m.den * b.monto <= b.monto * m.num by {
        MulMono(b.monto, m.den, m.num);
      }
      if r.pago < b.monto {
        MulMono(m.den, r.pago + 1, b.monto);
        assert false;
      }
      if r.pago > b.monto * m.num {
        MulMono(b.monto * m.num, 1, m.den);
        assert false;
      }
    }
  }

  /** x * a <= x * c when a <= c and x is non-negative. */
  lemma MulMono(x: int, a: int, c: int)
    requires x >= 0 && a <= c
    ensures x * a <= x * c
  {
  }

  /** Settlement reads only the type, stake and selection of a bet, so a settled
      bet handed back to the handler is settled again with the same outcome and
      the same payout, and the balance is credited a second time. */
  lemma {:induction false} ResolveTwiceCreditsTwice(saldo: int, b: Bet, w: int)
    requires Resolve(saldo, Some(b), w).Ok?
    ensures var r1 := Resolve(saldo, Some(b), w).value;
            var r2 := Resolve(r1.saldo, Some(r1.bet), w);
            && r2.Ok? && r2.value.won == r1.won && r2.value.pago == r1.pago
            && r2.value.saldo == saldo + 2 * r1.pago
  {
    var r1 := Resolve(saldo, Some(b), w).value;
    assert r1.bet.tipo == b.tipo && r1.bet.valor == b.valor && r1.bet.monto == b.monto;
  }

  /** A concrete double credit: a pleno bet of 100 on 17 settled twice with 17 pays 3600 twice. */
  lemma DoubleCreditExample()
    ensures var b := Bet(1, 100, Pleno, Num(17), None, None, 0);
            var r1 := Resolve(0, Some(b), 17);
            && r1.Ok? && r1.value.saldo == 3600
            && Resolve(r1.value.saldo, Some(r1.value.bet), 17).Ok?
            && Resolve(r1.value.saldo, Some(r1.value.bet), 17).value.saldo == 7200
  {
    var b := Bet(1, 100, Pleno, Num(17), None, None, 0);
    VerifyKnown(Pleno, Num(17), 17);
    ResolveTwiceCreditsTwice(0, b, 17);
  }

  /** The balance credited is the caller's, whoever owns the bet: a winning
      pleno of 100 owned by user 2 pays 3600 into the balance of whichever
      user sends its id, and only the corrected handler refuses user 1. */
  lemma ForeignBetExample()
    ensures var b := Bet(2, 100, Pleno, Num(17), None, None, 0);
            && Resolve(0, Some(b), 17).Ok?
            && Resolve(0, Some(b), 17).value.saldo == 3600
            && ResolvePending(1, 0, Some(b), 17) == Err(NotOwner)
  {
    VerifyKnown(Pleno, Num(17), 17);
  }

  /** A negative stake passes the balance check, raises the balance when it is
      placed, and a win then takes 36 times the stake away: from a balance of
      0, staking -100 on 17 and winning leaves -3500. */
  lemma NegativeStakeExample()
    ensures var p := Place(0, 1, -100, "pleno", Num(17));
            && p.reply.Created? && p.saldo == 100
            && Resolve(p.saldo, Some(p.reply.bet), 17).Ok?
            && Resolve(p.saldo, Some(p.reply.bet), 17).value.saldo == -3500
  {
    NameRoundTrip(Pleno);
    var p := Place(0, 1, -100, "pleno", Num(17));
    assert p.reply.bet == Bet(1, -100, Pleno, Num(17), None, None, 0);
    VerifyKnown(Pleno, Num(17), 17);
  }

  /** A bet type outside the fifteen costs the stake and creates no bet. */
  lemma UnknownTypeKeepsDebit(saldo: int, owner: UserId, monto: int, tipo: string, valor: Valor)
    requires saldo >= monto
    requires forall t: BetType :: Name(t) != tipo
    ensures Place(saldo, owner, monto, tipo, valor) == Placed(saldo - monto, InvalidBet(ValidationError({"tipoApuesta"})))
  {
  }

  /** What the corrected `/apuesta` answers: also a 400 for a stake that is not positive. */
  datatype CheckedReply = Accepted(bet: Bet) | Rejected(reason: PlaceRejection)

  datatype PlaceRejection = StakeNotPositive | UnknownType | ShortBalance

  datatype CheckedPlaced = CheckedPlaced(saldo: int, reply: CheckedReply)

  /** Placement that validates everything before it debits: a rejected bet
      leaves the balance as it was, and an accepted one is paid for from the
      balance, which therefore stays non-negative. */
  function PlaceChecked(saldo: int, owner: UserId, monto: int, tipo: string, valor: Valor): (p: CheckedPlaced)
    ensures p.reply.Rejected? ==> p.saldo == saldo
    ensures p.reply.Accepted? <==> 0 < monto <= saldo && exists t: BetType :: Name(t) == tipo
    ensures p.reply.Accepted? ==> p.saldo == saldo - monto && 0 <= p.saldo < saldo
    ensures p.reply.Accepted? ==> FreshBet(p.reply.bet, owner, monto, tipo, valor)
    ensures p.reply == Rejected(StakeNotPositive) <==> monto <= 0
  {
    if monto <= 0 then CheckedPlaced(saldo, Rejected(StakeNotPositive))
    else
      match NewBet(owner, monto, tipo, valor)
      case Err(_) => CheckedPlaced(saldo, Rejected(UnknownType))
      case Ok(b) =>
        if saldo < monto then CheckedPlaced(saldo, Rejected(ShortBalance))
        else CheckedPlaced(saldo - monto, Accepted(b))
  }

  /** Where the corrected placement accepts, it does what the handler as written does. */
  lemma PlaceCheckedAgrees(saldo: int, owner: UserId, monto: int, tipo: string, valor: Valor)
    requires PlaceChecked(saldo, owner, monto, tipo, valor).reply.Accepted?
    ensures var p := Place(saldo, owner, monto, tipo, valor);
            var q := PlaceChecked(saldo, owner, monto, tipo, valor);
            p.reply.Created? && p.reply.bet == q.reply.bet && p.saldo == q.saldo
  {
  }

  /** Settlement that settles a bet once, and only for its owner. */
  function ResolvePending(caller: UserId, saldo: int, found: Option<Bet>, w: int): (r: Result<Resolution, ResolveError>)
    ensures found.Some? && !found.value.Pending() ==> r == Err(AlreadySettled)
    ensures found.Some? && found.value.owner != caller ==> r.Err?
    ensures r.Ok? ==> found.Some? && found.value.Pending() && found.value.owner == caller
    ensures r.Ok? ==> !r.value.bet.Pending() && r.value.bet.owner == caller
    ensures found.Some? && found.value.Pending() && found.value.owner == caller ==> r == Resolve(saldo, found, w)
  {
    match found
    case None => Err(BetNotFound)
    case Some(b) =>
      if !b.Pending() then Err(AlreadySettled)
      else if b.owner != caller then Err(NotOwner)
      else Resolve(saldo, found, w)
  }

  /** The corrected handler credits a bet at most once: whatever number and
      balance a second request brings, the settled bet is refused. */
  lemma SettlesOnce(caller: UserId, saldo: int, b: Bet, w: int, saldo': int, w': int)
    requires ResolvePending(caller, saldo, Some(b), w).Ok?
    ensures var r := ResolvePending(caller, saldo, Some(b), w).value;
            ResolvePending(caller, saldo', Some(r.bet), w') == Err(AlreadySettled)
  {
  }

  /** With the corrected handlers, placing a bet and settling it changes the
      balance by the payout minus the stake, never by more than the stake
      lost, and a win never leaves the player worse off. */
  lemma RoundNet(saldo: int, owner: UserId, monto: int, tipo: string, valor: Valor, w: int)
    requires PlaceChecked(saldo, owner, monto, tipo, valor).reply.Accepted?
    requires var p := PlaceChecked(saldo, owner, monto, tipo, valor);
             ResolvePending(owner, p.saldo, Some(p.reply.bet), w).Ok?
    ensures var p := PlaceChecked(saldo, owner, monto, tipo, valor);
            var r := ResolvePending(owner, p.saldo, Some(p.reply.bet), w).value;
            && r.saldo == saldo - monto + r.pago
            && r.saldo >= 0
            && (r.won ==> r.saldo >= saldo)
            && (!r.won ==> r.saldo == saldo - monto)
  {
    var p := PlaceChecked(saldo, owner, monto, tipo, valor);
    WinPaysAtLeastStake(p.saldo, p.reply.bet, w);
  }
}
