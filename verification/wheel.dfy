/**
  Wheel reference data of the browser client: the clockwise pocket order,
  the red set and the green/red/black classification used to paint the wheel,
  announce the result and colour the history of winning numbers.
 */
module Wheel {

  /** Pockets of a European wheel, clockwise from the top, starting at 0. */
  const NumbersCW: seq<int> := [
    0, 32, 15, 19, 4, 21, 2, 25, 17, 34, 6, 27, 13, 36, 11, 30, 8, 23, 10,
    5, 24, 16, 33, 1, 20, 14, 31, 9, 22, 18, 29, 7, 28, 12, 35, 3, 26
  ]

  /** The red pockets as the client lists them. */
  const RedSet: set<int> := {1, 3, 5, 7, 9, 12, 14, 16, 18, 19, 21, 23, 25, 27, 30, 32, 34, 36}

  /** Where each pocket sits in NumbersCW; a proof witness for the permutation. */
  ghost const PositionOf: seq<int> := [
    0, 23, 6, 35, 4, 19, 10, 31, 16, 27, 18, 14, 33, 12, 25, 2, 21, 8, 29,
    3, 24, 5, 28, 17, 20, 7, 36, 11, 32, 30, 15, 26, 1, 22, 9, 34, 13
  ]

  predicate IsRed(n: int) {
    n in RedSet
  }

  predicate IsGreen(n: int) {
    n == 0
  }

  predicate IsPocket(n: int) {
    0 <= n <= 36
  }

  datatype Color = Green | Red | Black

  /** The colour the client paints, announces and records for pocket n. */
  function ColorOf(n: int): (c: Color)
    ensures c == Green <==> n == 0
    ensures c == Red <==> n in RedSet
  {
    if IsGreen(n) then Green else if IsRed(n) then Red else Black
  }

  lemma NumbersCWIsPermutation()
    ensures |NumbersCW| == 37 && NumbersCW[0] == 0
    ensures forall i :: 0 <= i < |NumbersCW| ==> IsPocket(NumbersCW[i])
    ensures forall n :: IsPocket(n) ==> n in NumbersCW
    ensures forall i, j :: 0 <= i < j < |NumbersCW| ==> NumbersCW[i] != NumbersCW[j]
  {
    PositionsOfPockets();
    PocketsAtPositions();
  }

  /** PositionOf undoes NumbersCW. */
  lemma PositionsOfPockets()
    ensures forall i :: 0 <= i < 37 ==> 0 <= NumbersCW[i] <= 36 && PositionOf[NumbersCW[i]] == i
  {
    forall i | 0 <= i < 37 ensures 0 <= NumbersCW[i] <= 36 && PositionOf[NumbersCW[i]] == i {
      if i < 19 {
        PositionsLow(i);
      } else {
        PositionsHigh(i);
      }
    }
  }

  lemma PositionsLow(i: int)
    requires 0 <= i < 19
    ensures 0 <= NumbersCW[i] <= 36 && PositionOf[NumbersCW[i]] == i
  {
  }

  lemma PositionsHigh(i: int)
    requires 19 <= i < 37
    ensures 0 <= NumbersCW[i] <= 36 && PositionOf[NumbersCW[i]] == i
  {
  }

  /** NumbersCW undoes PositionOf. */
  lemma PocketsAtPositions()
    ensures forall n :: 0 <= n <= 36 ==> 0 <= PositionOf[n] < 37 && NumbersCW[PositionOf[n]] == n
  {
  }

  /** The pockets painted with colour c. */
  function PocketsOf(c: Color): set<int> {
    set n | 0 <= n <= 36 && ColorOf(n) == c
  }

  /** The black pockets: the other eighteen. */
  const BlackSet: set<int> := {2, 4, 6, 8, 10, 11, 13, 15, 17, 20, 22, 24, 26, 28, 29, 31, 33, 35}

  lemma RedMembers(n: int)
    ensures n in RedSet <==> (n == 1 || n == 3 || n == 5 || n == 7 || n == 9 || n == 12 || n == 14 || n == 16 || n == 18
                              || n == 19 || n == 21 || n == 23 || n == 25 || n == 27 || n == 30 || n == 32 || n == 34 || n == 36)
  {
  }

  lemma BlackMembers(n: int)
    ensures n in BlackSet <==> (n == 2 || n == 4 || n == 6 || n == 8 || n == 10 || n == 11 || n == 13 || n == 15 || n == 17
                                || n == 20 || n == 22 || n == 24 || n == 26 || n == 28 || n == 29 || n == 31 || n == 33 || n == 35)
  {
  }

  /** Zero is the only green pocket. */
  lemma GreenIsZero()
    ensures PocketsOf(Green) == {0}
  {
    assert 0 in PocketsOf(Green);
  }

  /** The red pockets up to 18 and above 18. */
  const RedLow: set<int> := {1, 3, 5, 7, 9, 12, 14, 16, 18}
  const RedHigh: set<int> := {19, 21, 23, 25, 27, 30, 32, 34, 36}

  lemma RedSize()
    ensures |RedSet| == 18
  {
    RedSizeLow();
    RedSizeHigh();
    RedHalves();
    assert |RedLow + RedHigh| == |RedLow| + |RedHigh|;
  }

  lemma RedHalves()
    ensures RedSet == RedLow + RedHigh
    ensures RedLow * RedHigh == {}
  {
    assert RedLow * RedHigh == {};
  }

  lemma RedSizeLow()
    ensures |RedLow| == 9
  {
    assert |{1, 3}| == 2;
    assert |{1, 3, 5}| == 3;
    assert |{1, 3, 5, 7}| == 4;
    assert |{1, 3, 5, 7, 9}| == 5;
    assert |{1, 3, 5, 7, 9, 12}| == 6;
    assert |{1, 3, 5, 7, 9, 12, 14}| == 7;
    assert |{1, 3, 5, 7, 9, 12, 14, 16}| == 8;
    assert |{1, 3, 5, 7, 9, 12, 14, 16, 18}| == 9;
  }

  lemma RedSizeHigh()
    ensures |RedHigh| == 9
  {
    assert |{19, 21}| == 2;
    assert |{19, 21, 23}| == 3;
    assert |{19, 21, 23, 25}| == 4;
    assert |{19, 21, 23, 25, 27}| == 5;
    assert |{19, 21, 23, 25, 27, 30}| == 6;
    assert |{19, 21, 23, 25, 27, 30, 32}| == 7;
    assert |{19, 21, 23, 25, 27, 30, 32, 34}| == 8;
    assert |{19, 21, 23, 25, 27, 30, 32, 34, 36}| == 9;
  }

  /** The black pockets up to 18 and above 18. */
  const BlackLow: set<int> := {2, 4, 6, 8, 10, 11, 13, 15, 17}
  const BlackHigh: set<int> := {20, 22, 24, 26, 28, 29, 31, 33, 35}

  lemma BlackSize()
    ensures |BlackSet| == 18
  {
    BlackSizeLow();
    BlackSizeHigh();
    BlackHalves();
    assert |BlackLow + BlackHigh| == |BlackLow| + |BlackHigh|;
  }

  lemma BlackHalves()
    ensures BlackSet == BlackLow + BlackHigh
    ensures BlackLow * BlackHigh == {}
  {
    assert BlackLow * BlackHigh == {};
  }

  lemma BlackSizeLow()
    ensures |BlackLow| == 9
  {
    assert |{2, 4}| == 2;
    assert |{2, 4, 6}| == 3;
    assert |{2, 4, 6, 8}| == 4;
    assert |{2, 4, 6, 8, 10}| == 5;
    assert |{2, 4, 6, 8, 10, 11}| == 6;
    assert |{2, 4, 6, 8, 10, 11, 13}| == 7;
    assert |{2, 4, 6, 8, 10, 11, 13, 15}| == 8;
    assert |{2, 4, 6, 8, 10, 11, 13, 15, 17}| == 9;
  }

  lemma BlackSizeHigh()
    ensures |BlackHigh| == 9
  {
    assert |{20, 22}| == 2;
    assert |{20, 22, 24}| == 3;
    assert |{20, 22, 24, 26}| == 4;
    assert |{20, 22, 24, 26, 28}| == 5;
    assert |{20, 22, 24, 26, 28, 29}| == 6;
    assert |{20, 22, 24, 26, 28, 29, 31}| == 7;
    assert |{20, 22, 24, 26, 28, 29, 31, 33}| == 8;
    assert |{20, 22, 24, 26, 28, 29, 31, 33, 35}| == 9;
  }

  lemma RedPainted()
    ensures PocketsOf(Red) == RedSet
  {
    assert PocketsOf(Red) == RedSet;
  }

  lemma BlackPainted()
    ensures PocketsOf(Black) == BlackSet
  {
    forall n ensures n in PocketsOf(Black) <==> n in BlackSet {
      RedMembers(n);
      BlackMembers(n);
    }
  }

  /** Eighteen pockets are red and the other eighteen black. */
  lemma ColorCounts()
    ensures |PocketsOf(Red)| == 18 && |PocketsOf(Black)| == 18
    ensures PocketsOf(Red) !! PocketsOf(Black)
  {
    RedPainted();
    RedSize();
    BlackPainted();
    BlackSize();
  }

  /** Around the wheel after the zero, red and black pockets alternate, red first. */
  lemma Alternates()
    ensures forall i :: 1 <= i < |NumbersCW| ==> (i % 2 == 1 <==> ColorOf(NumbersCW[i]) == Red)
    ensures forall i :: 1 <= i < |NumbersCW| ==> (i % 2 == 0 <==> ColorOf(NumbersCW[i]) == Black)
  {
    forall i | 1 <= i < |NumbersCW|
      ensures i % 2 == 1 <==> ColorOf(NumbersCW[i]) == Red
      ensures i % 2 == 0 <==> ColorOf(NumbersCW[i]) == Black
    {
      if i < 13 {
        AlternatesLow(i);
      } else if i < 25 {
        AlternatesMid(i);
      } else {
        AlternatesHigh(i);
      }
    }
  }

  lemma AlternatesLow(i: int)
    requires 1 <= i < 13
    ensures ColorOf(NumbersCW[i]) == (if i % 2 == 1 then Red else Black)
  {
    RedMembers(NumbersCW[i]);
  }

  lemma AlternatesMid(i: int)
    requires 13 <= i < 25
    ensures ColorOf(NumbersCW[i]) == (if i % 2 == 1 then Red else Black)
  {
    RedMembers(NumbersCW[i]);
  }

  lemma AlternatesHigh(i: int)
    requires 25 <= i < 37
    ensures ColorOf(NumbersCW[i]) == (if i % 2 == 1 then Red else Black)
  {
    RedMembers(NumbersCW[i]);
  }
}
