/**
  The bet-settlement engine of the server: whether a bet of a given type and
  staked value wins for a winning number (`verificarApuesta`), and the
  payout factor of a bet type (`obtenerMultiplicador`).

  The bet type arrives as a string and the staked value as an untyped JSON
  value, and the source compares them with `===`, so a number and the string
  that spells it are different stakes. The composite stakes are strings split
  on `,` or `-` and read piece by piece with `parseInt`; splitting a value
  that is not a string throws a TypeError.
 */
module Settlement {
  import opened Outcomes
  import opened JsText
  import opened Records

  /** The red pockets as the settlement code lists them. */
  const RedSet: set<int> := {1, 3, 5, 7, 9, 12, 14, 16, 18, 19, 21, 23, 25, 27, 30, 32, 34, 36}

  /** What `verificarApuesta` throws: `valor.split` on a value that is not a string. */
  datatype Fault = SplitOnNonString

  /** `pieces.map(n => parseInt(n.trim()))`, with NaN as None. */
  function ReadPieces(pieces: seq<string>): (xs: seq<Option<int>>)
    ensures |xs| == |pieces|
  {
    if |pieces| == 0 then [] else [ParseInt(Trim(pieces[0]))] + ReadPieces(pieces[1..])
  }

  /** `valor.split(sep).map(n => parseInt(n.trim()))`. */
  function Numbers(s: string, sep: char): seq<Option<int>> {
    ReadPieces(Split(s, sep))
  }

  /** `xs.includes(w)`: NaN equals nothing. */
  predicate Includes(xs: seq<Option<int>>, w: int) {
    Some(w) in xs
  }

  /** `const [inicio, fin] = ...; w >= inicio && w <= fin`: a missing `fin` or a NaN
      bound makes both comparisons false. */
  predicate InRange(xs: seq<Option<int>>, w: int) {
    |xs| >= 2 && xs[0].Some? && xs[1].Some? && xs[0].value <= w <= xs[1].value
  }

  /** A listed-numbers stake: it wins when one of its pieces reads as w. */
  function ListRule(valor: Valor, sep: char, w: int): Result<bool, Fault> {
    if valor.Str? then Ok(Includes(Numbers(valor.s, sep), w)) else Err(SplitOnNonString)
  }

  /** A range stake: it wins when w lies between its first two pieces. */
  function RangeRule(valor: Valor, w: int): Result<bool, Fault> {
    if valor.Str? then Ok(InRange(Numbers(valor.s, '-'), w)) else Err(SplitOnNonString)
  }

  /** The win rule of one of the fifteen bet types. */
  function Wins(t: BetType, valor: Valor, w: int): Result<bool, Fault> {
    var esCero := w == 0;
    match t
    case Pleno => Ok(valor == Num(w))
    case Caballo => ListRule(valor, ',', w)
    case Transversal => ListRule(valor, '-', w)
    case Cuadro => ListRule(valor, ',', w)
    case Seisena => RangeRule(valor, w)
    case Rojo => Ok(!esCero && w in RedSet)
    case Negro => Ok(!esCero && w !in RedSet)
    case Par => Ok(!esCero && JsRem(w, 2) == 0)
    case Impar => Ok(!esCero && JsRem(w, 2) == 1)
    case Falta => Ok(!esCero && 1 <= w <= 18)
    case Pasa => Ok(!esCero && 19 <= w <= 36)
    case Docena =>
      if esCero then Ok(false)
      else if valor == Num(1) then Ok(1 <= w <= 12)
      else if valor == Num(2) then Ok(13 <= w <= 24)
      else if valor == Num(3) then Ok(25 <= w <= 36)
      else Ok(false)
    case Columna =>
      if esCero then Ok(false)
      else Ok(valor.Num? && JsRem(w, 3) == (if valor.n == 3 then 0 else valor.n))
    case DosDocenas =>
      if esCero then Ok(false)
      else if valor == Str("1-2") then Ok(1 <= w <= 24)
      else if valor == Str("2-3") then Ok(13 <= w <= 36)
      else Ok(false)
    case DosColumnas =>
      if esCero then Ok(false)
      else
        var resto := JsRem(w, 3);
        if valor == Str("1-2") then Ok(resto == 1 || resto == 2)
        else if valor == Str("2-3") then Ok(resto == 2 || resto == 0)
        else Ok(false)
  }

  /** `verificarApuesta(tipo, valor, numeroGanador)`: a type outside the fifteen
      falls to the `default` branch and loses. */
  function Verify(tipo: string, valor: Valor, w: int): (r: Result<bool, Fault>)
    ensures ParseBetType(tipo).None? ==> r == Ok(false)
    ensures r.Err? ==> ParseBetType(tipo).Some? && !valor.Str?
  {
    match ParseBetType(tipo)
    case None => Ok(false)
    case Some(t) => Wins(t, valor, w)
  }

  /** An exact payout factor num/den. */
  datatype Ratio = Ratio(num: nat, den: nat)

  /** The payout factor of each bet type. */
  function TableMultiplier(t: BetType): (m: Ratio)
    ensures m.den > 0 && m.num >= m.den
  {
    match t
    case Pleno => Ratio(36, 1)
    case Caballo => Ratio(18, 1)
    case Transversal => Ratio(12, 1)
    case Cuadro => Ratio(9, 1)
    case Seisena => Ratio(6, 1)
    case Docena => Ratio(3, 1)
    case Columna => Ratio(3, 1)
    case DosDocenas => Ratio(3, 2)
    case DosColumnas => Ratio(3, 2)
    case Rojo => Ratio(2, 1)
    case Negro => Ratio(2, 1)
    case Par => Ratio(2, 1)
    case Impar => Ratio(2, 1)
    case Falta => Ratio(2, 1)
    case Pasa => Ratio(2, 1)
  }

  /** `multiplicadores[tipo] || 1`. */
  function Multiplier(tipo: string): (m: Ratio)
    ensures m.den > 0
    ensures ParseBetType(tipo).None? ==> m == Ratio(1, 1)
  {
    match ParseBetType(tipo)
    case None => Ratio(1, 1)
    case Some(t) => TableMultiplier(t)
  }

  /** `Math.floor(monto * multiplicador)`, computed exactly. */
  function Payout(monto: int, m: Ratio): (pago: int)
    requires m.den > 0
    ensures m.den * pago <= monto * m.num < m.den * (pago + 1)
  {
    (monto * m.num) / m.den
  }

  /** The bet wins outright (no TypeError). */
  predicate Won(tipo: string, valor: Valor, w: int) {
    Verify(tipo, valor, w) == Ok(true)
  }

  /** The pockets 0..36 on which a bet wins. */
  function WinningPockets(tipo: string, valor: Valor): set<int> {
    set w | 0 <= w <= 36 && Won(tipo, valor, w)
  }

  /** Bets on a group of pockets that needs no selection or names a group. */
  predicate IsOutside(t: BetType) {
    t in {Rojo, Negro, Par, Impar, Falta, Pasa, Docena, Columna, DosDocenas, DosColumnas}
  }

  /** The dozen of a non-zero pocket, as the table layout numbers them. */
  function DozenOf(w: int): int
    requires 1 <= w <= 36
  {
    if w <= 12 then 1 else if w <= 24 then 2 else 3
  }

  /** The column of a non-zero pocket: its residue mod 3, with 0 read as column 3. */
  function ColumnOf(w: int): int
    requires 1 <= w <= 36
  {
    if w % 3 == 0 then 3 else w % 3
  }

  /** On zero every outside bet loses, whatever was staked. */
  lemma ZeroLosesOutside(t: BetType, valor: Valor)
    requires IsOutside(t)
    ensures Verify(Name(t), valor, 0) == Ok(false)
  {
    NameRoundTrip(t);
  }

  /** On 1..36 exactly one of rojo and negro wins, whatever either staked. */
  lemma RedBlackPair(w: int, v: Valor, v': Valor)
    requires 1 <= w <= 36
    ensures Won("rojo", v, w) != Won("negro", v', w)
  {
    VerifyKnown(Rojo, v, w);
    VerifyKnown(Negro, v', w);
  }

  /** On 1..36 par wins exactly on the even numbers and impar exactly on the
      odd ones, so exactly one of them wins, whatever either staked. */
  lemma ParityPair(w: int, v: Valor, v': Valor)
    requires 1 <= w <= 36
    ensures Won("par", v, w) <==> w % 2 == 0
    ensures Won("impar", v', w) <==> w % 2 == 1
    ensures Won("par", v, w) != Won("impar", v', w)
  {
    VerifyKnown(Par, v, w);
    VerifyKnown(Impar, v', w);
  }

  /** On 1..36 falta wins exactly on 1..18 and pasa exactly on 19..36, so
      exactly one of them wins, whatever either staked. */
  lemma LowHighPair(w: int, v: Valor, v': Valor)
    requires 1 <= w <= 36
    ensures Won("falta", v, w) <==> w <= 18
    ensures Won("pasa", v', w) <==> w >= 19
    ensures Won("falta", v, w) != Won("pasa", v', w)
  {
    VerifyKnown(Falta, v, w);
    VerifyKnown(Pasa, v', w);
  }

  /** A dozen bet wins exactly when it names the winning number's dozen. */
  lemma DozenWins(w: int, k: int)
    requires 1 <= w <= 36
    ensures Won("docena", Num(k), w) <==> k == DozenOf(w)
  {
  }

  /** A column bet wins exactly when it names the winning number's column;
      a stake of 0 also wins, on exactly the numbers of column 3, because the
      rule compares the residue with 0 for column 3. */
  lemma ColumnWins(w: int, k: int)
    requires 1 <= w <= 36
    ensures Won("columna", Num(k), w) <==> k == ColumnOf(w) || (k == 0 && ColumnOf(w) == 3)
  {
  }

  /** The whole numbers lo..hi, built from the top down. */
  function Interval(lo: int, hi: int): (r: set<int>)
    ensures forall w :: w in r <==> lo <= w <= hi
    decreases hi - lo
  {
    if hi < lo then {} else Interval(lo, hi - 1) + {hi}
  }

  lemma {:induction false} IntervalSize(lo: int, hi: int)
    requires lo <= hi + 1
    ensures |Interval(lo, hi)| == hi - lo + 1
    decreases hi - lo
  {
    if lo <= hi {
      IntervalSize(lo, hi - 1);
      assert hi !in Interval(lo, hi - 1);
    }
  }

  /** Each dozen bet wins on exactly twelve pockets, the twelve of its dozen. */
  lemma DozenSize(k: int)
    requires 1 <= k <= 3
    ensures WinningPockets("docena", Num(k)) == Interval(12 * k - 11, 12 * k)
    ensures |WinningPockets("docena", Num(k))| == 12
  {
    forall w ensures w in WinningPockets("docena", Num(k)) <==> w in Interval(12 * k - 11, 12 * k) {
      if w == 0 {
        ZeroLosesOutside(Docena, Num(k));
      } else if 1 <= w <= 36 {
        DozenWins(w, k);
      }
    }
    assert WinningPockets("docena", Num(k)) == Interval(12 * k - 11, 12 * k);
    IntervalSize(12 * k - 11, 12 * k);
  }

  /** The pockets of column k among 1..3n. */
  function ColumnPart(k: int, n: nat): set<int>
    requires n <= 12
  {
    set w | 1 <= w <= 3 * n && ColumnOf(w) == k
  }

  lemma {:induction false} ColumnPartSize(k: int, n: nat)
    requires 1 <= k <= 3 && n <= 12
    ensures |ColumnPart(k, n)| == n
  {
    if n > 0 {
      ColumnPartSize(k, n - 1);
      var top := 3 * (n - 1) + k;
      forall w ensures w in ColumnPart(k, n) <==> w in ColumnPart(k, n - 1) || w == top {
        if 3 * (n - 1) < w <= 3 * n {
          var j := w - 3 * (n - 1);
          assert w % 3 == j % 3;
          assert top % 3 == k % 3;
        }
      }
      assert ColumnPart(k, n) == ColumnPart(k, n - 1) + {top};
      assert top !in ColumnPart(k, n - 1);
    } else {
      assert ColumnPart(k, n) == {};
    }
  }

  /** Each column bet on 1..3 wins on exactly twelve pockets, the twelve of its column. */
  lemma ColumnSize(k: int)
    requires 1 <= k <= 3
    ensures WinningPockets("columna", Num(k)) == ColumnPart(k, 12)
    ensures |WinningPockets("columna", Num(k))| == 12
  {
    forall w ensures w in WinningPockets("columna", Num(k)) <==> w in ColumnPart(k, 12) {
      if w == 0 {
        ZeroLosesOutside(Columna, Num(k));
      } else if 1 <= w <= 36 {
        ColumnWins(w, k);
      }
    }
    assert WinningPockets("columna", Num(k)) == ColumnPart(k, 12);
    ColumnPartSize(k, 12);
  }

  /** The two-dozen bets are the unions of the dozen bets they name. */
  lemma TwoDozensAreUnions(w: int, v: Valor)
    ensures Won("dos-docenas", v, w) <==>
              || (v == Str("1-2") && (Won("docena", Num(1), w) || Won("docena", Num(2), w)))
              || (v == Str("2-3") && (Won("docena", Num(2), w) || Won("docena", Num(3), w)))
  {
  }

  /** The two-column bets are the unions of the column bets they name. */
  lemma TwoColumnsAreUnions(w: int, v: Valor)
    ensures Won("dos-columnas", v, w) <==>
              || (v == Str("1-2") && (Won("columna", Num(1), w) || Won("columna", Num(2), w)))
              || (v == Str("2-3") && (Won("columna", Num(2), w) || Won("columna", Num(3), w)))
  {
  }

  /** A straight-up bet wins only on the very number staked; a string never wins. */
  lemma PlenoExact(w: int, v: Valor)
    ensures Won("pleno", v, w) <==> v == Num(w)
    ensures Verify("pleno", v, w).Ok?
  {
  }

  /** A decimal numeral is one piece, whatever non-digit separator splits it. */
  lemma SplitNumeral(a: nat, sep: char)
    requires !('0' <= sep <= '9')
    ensures Split(Dec(a), sep) == [Dec(a)]
  {
    SplitPrefix(Dec(a), "", sep);
    assert Dec(a) + "" == Dec(a);
  }

  /** A separator-free piece and its separator are split off as the first piece. */
  lemma SplitCons(d: string, sep: char, rest: string)
    requires sep !in d
    ensures Split(d + [sep] + rest, sep) == [d] + Split(rest, sep)
  {
    var u := [sep] + rest;
    assert d + [sep] + rest == d + u;
    SplitPrefix(d, u, sep);
    assert u[1..] == rest;
    var r := Split(u, sep);
    assert r == [""] + Split(rest, sep);
    assert d + r[0] == d;
  }

  /** A decimal numeral piece is read back as its number. */
  lemma ReadNumeral(a: nat, rest: seq<string>)
    ensures ReadPieces([Dec(a)] + rest) == [Some(a)] + ReadPieces(rest)
  {
    NoSpaceTrim(Dec(a));
    ParseDec(a);
    assert ([Dec(a)] + rest)[1..] == rest;
  }

  /** A lone decimal numeral is read back as its number. */
  lemma OneNumeral(a: nat, sep: char)
    requires !('0' <= sep <= '9')
    ensures Numbers(Dec(a), sep) == [Some(a)]
  {
    SplitNumeral(a, sep);
    ReadNumeral(a, []);
    assert [Dec(a)] + [] == [Dec(a)];
  }

  /** A leading decimal numeral and its separator are read back as the first number. */
  lemma ConsNumeral(a: nat, sep: char, rest: string)
    requires !('0' <= sep <= '9')
    ensures Numbers(Dec(a) + [sep] + rest, sep) == [Some(a)] + Numbers(rest, sep)
  {
    SplitCons(Dec(a), sep, rest);
    ReadNumeral(a, Split(rest, sep));
  }

  /** A composite selection in canonical form: the numbers written as
      decimal numerals and joined by the separator. */
  function Numerals(ns: seq<nat>, sep: char): string
    requires |ns| >= 1
  {
    if |ns| == 1 then Dec(ns[0]) else Dec(ns[0]) + [sep] + Numerals(ns[1..], sep)
  }

  /** Each number as a parsed piece. */
  function Somes(ns: seq<nat>): (xs: seq<Option<int>>)
    ensures |xs| == |ns|
    ensures forall i :: 0 <= i < |ns| ==> xs[i] == Some(ns[i] as int)
  {
    if |ns| == 0 then [] else [Some(ns[0] as int)] + Somes(ns[1..])
  }

  /** Splitting and parsing a joined list of numerals gives the numbers back. */
  lemma {:induction false} ReadNumerals(ns: seq<nat>, sep: char)
    requires |ns| >= 1
    requires !('0' <= sep <= '9')
    ensures Numbers(Numerals(ns, sep), sep) == Somes(ns)
    decreases |ns|
  {
    if |ns| == 1 {
      OneNumeral(ns[0], sep);
    } else {
      ConsNumeral(ns[0], sep, Numerals(ns[1..], sep));
      ReadNumerals(ns[1..], sep);
      assert Somes(ns) == [Some(ns[0] as int)] + Somes(ns[1..]);
    }
  }

  /** A known type name selects that type's win rule. */
  lemma VerifyKnown(t: BetType, v: Valor, w: int)
    ensures Verify(Name(t), v, w) == Wins(t, v, w)
  {
    NameRoundTrip(t);
  }

  /** The separator each composite type splits its stake on. */
  function Separator(t: BetType): char {
    if t == Transversal || t == Seisena then '-' else ','
  }

  /** Caballo, transversal and cuadro selections written as canonical decimal
      numerals joined by the separator win exactly on the numbers listed,
      whatever their count. */
  lemma ListStake(t: BetType, ns: seq<nat>, w: int)
    requires t == Caballo || t == Transversal || t == Cuadro
    requires |ns| >= 1
    ensures Wins(t, Str(Numerals(ns, Separator(t))), w) == Ok(w in ns)
  {
    var xs := Numbers(Numerals(ns, Separator(t)), Separator(t));
    ReadNumerals(ns, Separator(t));
    assert Includes(xs, w) <==> w in ns by {
      if w in ns {
        var i :| 0 <= i < |ns| && ns[i] == w;
        assert xs[i] == Some(w);
      }
    }
  }

  lemma SeisenaRule(s: string, w: int)
    ensures Wins(Seisena, Str(s), w) == Ok(InRange(Numbers(s, '-'), w))
  {
  }

  /** A seisena stake `"a-b"` wins on every number from a to b; pieces after
      the second are ignored. */
  lemma SeisenaStake(ns: seq<nat>, w: int)
    requires |ns| >= 2
    ensures Wins(Seisena, Str(Numerals(ns, '-')), w) == Ok(ns[0] <= w <= ns[1])
  {
    var x := Numerals(ns, '-');
    var xs := Numbers(x, '-');
    assert InRange(xs, w) == (ns[0] <= w <= ns[1]) by {
      ReadNumerals(ns, '-');
    }
    SeisenaRule(x, w);
  }

  /** A composite stake that is not a string makes the settlement throw. */
  lemma CompositeNeedsString(t: BetType, v: Valor, w: int)
    requires t in {Caballo, Transversal, Cuadro, Seisena}
    ensures Verify(Name(t), v, w).Err? <==> !v.Str?
  {
    NameRoundTrip(t);
  }

  /** Every stored bet type is priced by the table, never by the fallback of 1. */
  lemma StoredTypesUseTable(t: BetType)
    ensures Multiplier(Name(t)) == TableMultiplier(t)
    ensures TableMultiplier(t).num > TableMultiplier(t).den
  {
    NameRoundTrip(t);
  }
}
