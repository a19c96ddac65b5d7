/**
  The browser client's betting logic: the stake it accepts, the selection it
  sends for each bet type, the display names of the bet types, the colour
  it announces for a winning number, the balance change it shows, and the
  two "last five" history lists.
 */
module Client {
  import opened Outcomes
  import opened JsText
  import opened Records
  import opened Wheel
  import Settlement
  import Game

  /** The client's red set is the one the server settles with. */
  lemma RedSetsAgree()
    ensures Wheel.RedSet == Settlement.RedSet
  {
  }

  /** The colour the client announces is the colour bet the server pays:
      rojo wins exactly on red, negro exactly on black, and neither on green. */
  lemma ColourBetsMatchWheel(w: int, v: Valor)
    requires IsPocket(w)
    ensures Settlement.Won("rojo", v, w) <==> ColorOf(w) == Red
    ensures Settlement.Won("negro", v, w) <==> ColorOf(w) == Black
  {
    Settlement.VerifyKnown(Rojo, v, w);
    Settlement.VerifyKnown(Negro, v, w);
  }

  /** `formatearNombreApuesta`: the display name of a bet type; any other
      string is shown as it is. */
  function DisplayName(tipo: string): (d: string)
    ensures |d| > 0 && 'a' <= d[0] <= 'z' ==> d == tipo
  {
    match ParseBetType(tipo)
    case None => tipo
    case Some(t) => TypeLabel(t)
  }

  function TypeLabel(t: BetType): string {
    match t
    case Pleno => "Pleno"
    case Caballo => "Caballo"
    case Transversal => "Transversal"
    case Cuadro => "Cuadro"
    case Seisena => "Seisena"
    case Docena => "Docena"
    case Columna => "Columna"
    case DosDocenas => "Dos Docenas"
    case DosColumnas => "Dos Columnas"
    case Rojo => "Rojo"
    case Negro => "Negro"
    case Par => "Par"
    case Impar => "Impar"
    case Falta => "Falta"
    case Pasa => "Pasa"
  }

  /** Each bet type gets its own label, a capitalised one, and a string that
      names no bet type is shown unchanged. */
  lemma DisplayNames(t: BetType, t': BetType, s: string)
    ensures DisplayName(Name(t)) == TypeLabel(t)
    ensures 'A' <= TypeLabel(t)[0] <= 'Z'
    ensures t != t' ==> TypeLabel(t) != TypeLabel(t')
    ensures ParseBetType(s).None? ==> DisplayName(s) == s
  {
    NameRoundTrip(t);
    if t != t' && TypeLabel(t) == TypeLabel(t') {
      LabelPrefixes(t, t');
    }
  }

  lemma LabelPrefixes(t: BetType, t': BetType)
    requires TypeLabel(t) == TypeLabel(t')
    ensures t == t'
  {
    var a, b := TypeLabel(t), TypeLabel(t');
    assert a[0] == b[0] && |a| == |b|;
    if |a| > 1 {
      assert a[1] == b[1];
    }
    if |a| > 3 {
      assert a[3] == b[3];
    }
    if |a| > 4 {
      assert a[4] == b[4];
    }
  }

  /** `const monto = parseInt(betInput.value); if (!monto || monto <= 0) ...`:
      the stake the client sends, if it sends one. */
  function ClientStake(input: string): (m: Option<int>)
    ensures m.Some? ==> m.value > 0 && ParseInt(input) == Some(m.value)
    ensures m.None? <==> ParseInt(input).None? || ParseInt(input).value <= 0
  {
    match ParseInt(input)
    case None => None
    case Some(n) => if n <= 0 then None else Some(n)
  }

  /** The selection the client sends: the number read from the field for
      pleno, docena and columna (JSON null when it is NaN), the field's text
      for the composite and two-group bets, and the type's own name for the
      even-money bets. */
  function ClientValor(tipo: string, field: string): (v: Valor)
    ensures NumericSelection(tipo) <==> !v.Str?
    ensures ParseBetType(tipo).None? ==> v == Str(tipo)
    ensures NumericSelection(tipo) ==> v == (if ParseInt(field).Some? then Num(ParseInt(field).value) else Null)
    ensures ParseBetType(tipo) in {Some(Caballo), Some(Transversal), Some(Cuadro), Some(Seisena), Some(DosDocenas), Some(DosColumnas)} ==>
              v == Str(field)
    ensures ParseBetType(tipo) in {Some(Rojo), Some(Negro), Some(Par), Some(Impar), Some(Falta), Some(Pasa)} ==>
              v == Str(tipo)
  {
    match ParseBetType(tipo)
    case Some(Pleno) | Some(Docena) | Some(Columna) =>
      (match ParseInt(field)
       case None => Null
       case Some(n) => Num(n))
    case Some(Caballo) | Some(Transversal) | Some(Cuadro) | Some(Seisena) | Some(DosDocenas) | Some(DosColumnas) =>
      Str(field)
    case _ => Str(tipo)
  }

  /** The types whose selection the client reads as a number. */
  predicate NumericSelection(tipo: string) {
    ParseBetType(tipo) in {Some(Pleno), Some(Docena), Some(Columna)}
  }

  /** A selection built by the client never makes the settlement throw, and
      a pleno whose field is not a number never wins. */
  lemma ClientSelectionsSettle(tipo: string, field: string, w: int)
    ensures Settlement.Verify(tipo, ClientValor(tipo, field), w).Ok?
    ensures tipo == "pleno" && ParseInt(field).None? ==> !Settlement.Won(tipo, ClientValor(tipo, field), w)
  {
    var v := ClientValor(tipo, field);
    if !v.Str? {
      var t := ParseBetType(tipo).value;
      Settlement.VerifyKnown(t, v, w);
    }
  }

  /** The change shown in the bet history: +pago for a win, -monto for a loss. */
  function Variation(won: bool, monto: int, pago: int): int {
    if won then pago else -monto
  }

  /** The shown change is measured from two different balances: for a win it
      is the change since the stake was debited, for a loss the change since
      before the bet. */
  lemma VariationBaselines(saldo: int, owner: UserId, monto: int, tipo: string, valor: Valor, w: int)
    requires Game.Place(saldo, owner, monto, tipo, valor).reply.Created?
    requires var p := Game.Place(saldo, owner, monto, tipo, valor);
             Game.Resolve(p.saldo, Some(p.reply.bet), w).Ok?
    ensures var p := Game.Place(saldo, owner, monto, tipo, valor);
            var r := Game.Resolve(p.saldo, Some(p.reply.bet), w).value;
            && (r.won ==> Variation(r.won, monto, r.pago) == r.saldo - p.saldo)
            && (!r.won ==> Variation(r.won, monto, r.pago) == r.saldo - saldo)
  {
  }

  function Min(a: int, b: int): int {
    if a <= b then a else b
  }

  /** How many entries each history list keeps. */
  const HistorySize := 5

  /** The reference rule: the new entry first, then the older ones, at most five. */
  function Recent<T>(h: seq<T>, x: T): seq<T> {
    ([x] + h)[..Min(HistorySize, |h| + 1)]
  }

  /** `insertBefore(li, list.firstChild)`, then drop the last child while the
      list holds more than five. */
  method PushRecent<T>(h: seq<T>, x: T) returns (r: seq<T>)
    ensures r == Recent(h, x)
    ensures |r| <= HistorySize && r[0] == x
  {
    r := [x] + h;
    while |r| > HistorySize
      invariant 1 <= |r| <= |h| + 1
      invariant |r| == |h| + 1 || |r| >= HistorySize
      invariant r == ([x] + h)[..|r|]
      decreases |r|
    {
      r := r[..|r| - 1];
    }
  }

  /** A number in the history of winning numbers, with its colour. */
  datatype NumberItem = NumberItem(numero: int, color: Color)

  /** A bet in the history of bets. */
  datatype BetItem = BetItem(name: string, won: bool, monto: int, variation: int)

  /** `actualizarHistorial`: one settled round added to both lists. */
  method RecordRound(numbers: seq<NumberItem>, bets: seq<BetItem>, numero: int, won: bool, tipo: string, monto: int, pago: int)
    returns (numbers': seq<NumberItem>, bets': seq<BetItem>)
    ensures numbers' == Recent(numbers, NumberItem(numero, ColorOf(numero)))
    ensures bets' == Recent(bets, BetItem(DisplayName(tipo), won, monto, Variation(won, monto, pago)))
  {
    numbers' := PushRecent(numbers, NumberItem(numero, ColorOf(numero)));
    bets' := PushRecent(bets, BetItem(DisplayName(tipo), won, monto, Variation(won, monto, pago)));
  }

  function Reverse<T>(xs: seq<T>): (r: seq<T>)
    ensures |r| == |xs|
  {
    if |xs| == 0 then [] else [xs[|xs| - 1]] + Reverse(xs[..|xs| - 1])
  }

  /** The list after adding each entry of xs in turn. */
  function PushAll<T>(h: seq<T>, xs: seq<T>): seq<T> {
    if |xs| == 0 then h else Recent(PushAll(h, xs[..|xs| - 1]), xs[|xs| - 1])
  }

  /** Starting empty, the list holds the last five entries added, newest first. */
  lemma {:induction false} HistoryKeepsLastFive<T>(xs: seq<T>)
    ensures PushAll([], xs) == Reverse(xs)[..Min(HistorySize, |xs|)]
  {
    if |xs| > 0 {
      var p := xs[..|xs| - 1];
      var x := xs[|xs| - 1];
      HistoryKeepsLastFive(p);
      var rp := Reverse(p);
      assert Reverse(xs) == [x] + rp;
      assert PushAll([], xs) == ([x] + rp[..Min(HistorySize, |p|)])[..Min(HistorySize, Min(HistorySize, |p|) + 1)];
      assert ([x] + rp[..Min(HistorySize, |p|)])[..Min(HistorySize, |p| + 1)] == ([x] + rp)[..Min(HistorySize, |p| + 1)];
    }
  }
}
