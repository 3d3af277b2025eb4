/** The autoplayer's choice of a direction. Every direction is simulated on a
    snapshot of the board; a direction that changes nothing is rated with a
    sentinel, the others with the genome's rating; 500 is taken off any
    candidate board that is left with exactly one empty cell; the best rating
    wins, earlier directions (up, right, down, left) winning ties, and a random
    direction is played when all four ratings are the sentinel. The rating
    function and the random draw are parameters. */
module MoveSelection {
  import opened Matrices
  import opened Features
  import opened Simulation

  /** The rating given to a direction that changes nothing. */
  const Sentinel: real := -99999999999999.0

  /** Taken off a candidate board that has a single empty cell left. */
  const Penalty: real := 500.0

  /** The adjusted rating of the candidate board next, reached from g. */
  function Adjusted(g: Matrix, next: Matrix, rate: Matrix -> real): real {
    (if next == g then Sentinel else rate(next)) - (if MatrixZeros(next) == 1 then Penalty else 0.0)
  }

  /** The four simulated boards, indexed by direction. */
  function Candidates(g: Matrix): (cs: seq<Matrix>)
    requires IsSquare(g)
    ensures |cs| == 4
  {
    [NextGrid(g, Up), NextGrid(g, Right), NextGrid(g, Down), NextGrid(g, Left)]
  }

  /** The adjusted ratings of four candidate boards. */
  function Ratings(g: Matrix, cs: seq<Matrix>, rate: Matrix -> real): (r: seq<real>)
    requires |cs| == 4
    ensures |r| == 4
  {
    [Adjusted(g, cs[Up], rate), Adjusted(g, cs[Right], rate),
     Adjusted(g, cs[Down], rate), Adjusted(g, cs[Left], rate)]
  }

  predicate AllSentinel(ratings: seq<real>)
    requires |ratings| == 4
  {
    ratings[Up] == Sentinel && ratings[Left] == Sentinel &&
    ratings[Right] == Sentinel && ratings[Down] == Sentinel
  }

  /** The comparison cascade of getNextMove: the first direction whose rating
      is at least every other one, or the random draw when all four are the
      sentinel. */
  function PickDirection(ratings: seq<real>, fallback: int): (d: int)
    requires |ratings| == 4 && Up <= fallback <= Left
    ensures Up <= d <= Left
    ensures AllSentinel(ratings) ==> d == fallback
    ensures !AllSentinel(ratings) ==>
      (forall e :: 0 <= e < 4 ==> ratings[e] <= ratings[d]) &&
      (forall e :: 0 <= e < d ==> ratings[e] < ratings[d])
  {
    var up, right, down, left := ratings[Up], ratings[Right], ratings[Down], ratings[Left];
    if up == Sentinel && left == Sentinel && right == Sentinel && down == Sentinel then fallback
    else if up >= right && up >= down && up >= left then Up
    else if right >= up && right >= down && right >= left then Right
    else if down >= up && down >= right && down >= left then Down
    else Left
  }

  /** getNextMove on a board snapshot. */
  function NextMove(g: Matrix, rate: Matrix -> real, fallback: int): (d: int)
    requires IsSquare(g) && Up <= fallback <= Left
    ensures Up <= d <= Left
  {
    PickDirection(Ratings(g, Candidates(g), rate), fallback)
  }

  /** The penalty is taken exactly when the candidate board has a single empty cell. */
  lemma RatingPenalty(g: Matrix, next: Matrix, rate: Matrix -> real)
    ensures Adjusted(g, next, rate) ==
      (if next == g then Sentinel else rate(next)) - (if ExactlyOneEmpty(next) then Penalty else 0.0)
  {
    HolesOne(next);
  }

  /** A stuck board never has exactly one empty cell: it is full, or empty. */
  lemma StuckHoles(g: Matrix)
    requires IsSquare(g) && Stuck(g)
    ensures MatrixZeros(g) != 1
  {
    if exists i, j :: 0 <= i < N && 0 <= j < N && g[i][j] != 0 {
      StuckIsFull(g);
      HolesNone(g);
    } else {
      Cells16(g);
    }
  }

  /** On a board where no direction changes anything, the random draw is played. */
  lemma StuckBoardPlaysFallback(g: Matrix, rate: Matrix -> real, fallback: int)
    requires IsSquare(g) && Up <= fallback <= Left
    requires Stuck(g)
    ensures NextMove(g, rate, fallback) == fallback
  {
    StuckHoles(g);
    assert NextGrid(g, Up) == g && NextGrid(g, Right) == g;
    assert NextGrid(g, Down) == g && NextGrid(g, Left) == g;
    assert Candidates(g) == [g, g, g, g];
    assert Adjusted(g, g, rate) == Sentinel;
  }

  /** Among candidate boards of which one differs from g, a rating kept above
      sentinel plus penalty makes the cascade pick one that differs from g. */
  lemma PickChangedCandidate(g: Matrix, cs: seq<Matrix>, rate: Matrix -> real, fallback: int, dir: int)
    requires |cs| == 4 && Up <= fallback <= Left && Up <= dir <= Left
    requires forall m :: rate(m) > Sentinel + Penalty
    requires cs[dir] != g
    ensures cs[PickDirection(Ratings(g, cs, rate), fallback)] != g
  {
    var ratings := Ratings(g, cs, rate);
    assert ratings[dir] > Sentinel;
    var d := PickDirection(ratings, fallback);
    assert ratings[d] >= ratings[dir];
  }

  lemma CandidateAt(g: Matrix, dir: int)
    requires IsSquare(g) && Up <= dir <= Left
    ensures Candidates(g)[dir] == NextGrid(g, dir)
  {
  }

  /** With a rating that never sinks to the sentinel plus the penalty, the
      autoplayer never picks a direction that leaves the board as it is while
      another direction would change it. */
  lemma ChosenMoveChangesBoard(g: Matrix, rate: Matrix -> real, fallback: int)
    requires IsSquare(g) && Up <= fallback <= Left
    requires forall m :: rate(m) > Sentinel + Penalty
    requires !Stuck(g)
    ensures NextGrid(g, NextMove(g, rate, fallback)) != g
  {
    var dir :| Up <= dir <= Left && NextGrid(g, dir) != g;
    CandidateAt(g, dir);
    PickChangedCandidate(g, Candidates(g), rate, fallback, dir);
    CandidateAt(g, NextMove(g, rate, fallback));
  }

  /** The first half of getNextMove: the four simulated moves. */
  method SimulateAllMoves(arrayGrid: Matrix) returns (candidates: seq<Matrix>)
    requires IsSquare(arrayGrid)
    ensures candidates == Candidates(arrayGrid)
  {
    var gameMoveUp := CalculateNextMove(arrayGrid, 0);
    var gameMoveRight := CalculateNextMove(arrayGrid, 1);
    var gameMoveDown := CalculateNextMove(arrayGrid, 2);
    var gameMoveLeft := CalculateNextMove(arrayGrid, 3);
    candidates := [gameMoveUp, gameMoveRight, gameMoveDown, gameMoveLeft];
  }

  /** The middle of getNextMove: the equality tests and the penalty tests
      over the four candidate boards. */
  method RateCandidates(arrayGrid: Matrix, candidates: seq<Matrix>, rate: Matrix -> real)
    returns (ratings: seq<real>)
    requires |candidates| == 4
    ensures ratings == Ratings(arrayGrid, candidates, rate)
  {
    var gameMoveUp, gameMoveRight, gameMoveDown, gameMoveLeft :=
      candidates[Up], candidates[Right], candidates[Down], candidates[Left];

    var maxRating := Sentinel;
    var upRating := if arrayGrid == gameMoveUp then maxRating else rate(gameMoveUp);
    var rightRating := if arrayGrid == gameMoveRight then maxRating else rate(gameMoveRight);
    var downRating := if arrayGrid == gameMoveDown then maxRating else rate(gameMoveDown);
    var leftRating := if arrayGrid == gameMoveLeft then maxRating else rate(gameMoveLeft);

    var oneEmpty := JustOneTileEmpty(gameMoveUp);
    if oneEmpty {
      upRating := upRating - Penalty;
    }
    oneEmpty := JustOneTileEmpty(gameMoveRight);
    if oneEmpty {
      rightRating := rightRating - Penalty;
    }
    oneEmpty := JustOneTileEmpty(gameMoveDown);
    if oneEmpty {
      downRating := downRating - Penalty;
    }
    oneEmpty := JustOneTileEmpty(gameMoveLeft);
    if oneEmpty {
      leftRating := leftRating - Penalty;
    }
    ratings := [upRating, rightRating, downRating, leftRating];
  }

  /** getNextMove on the snapshot arrayGrid: simulate, rate, then the
      comparison cascade. */
  method ChooseNextMove(arrayGrid: Matrix, rate: Matrix -> real, fallback: int) returns (d: int)
    requires IsSquare(arrayGrid) && Up <= fallback <= Left
    ensures d == NextMove(arrayGrid, rate, fallback)
  {
    var candidates := SimulateAllMoves(arrayGrid);
    var ratings := RateCandidates(arrayGrid, candidates, rate);
    var maxRating := Sentinel;
    var upRating, rightRating, downRating, leftRating := ratings[Up], ratings[Right], ratings[Down], ratings[Left];
    if upRating == maxRating && leftRating == maxRating && rightRating == maxRating && downRating == maxRating {
      return fallback;
    }
    if upRating >= rightRating && upRating >= downRating && upRating >= leftRating {
      return 0;
    }
    if rightRating >= upRating && rightRating >= downRating && rightRating >= leftRating {
      return 1;
    }
    if downRating >= upRating && downRating >= rightRating && downRating >= leftRating {
      return 2;
    } else {
      return 3;
    }
  }
}
