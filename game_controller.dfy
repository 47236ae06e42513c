/** The scoring glue of `game_controller.py`: the three-way score comparison, the choice
    of the most activated candidate move, the puzzle score and the network inputs built
    from puzzle positions. The network itself is a function `Net` from the recurrent
    state and an input vector to the first output and the state after activation. */
module GameController {
  import opened NeatTypes
  import opened ChessUtil
  import opened GenomeModel
  import opened OrganismModel

  /** What `activate` computes: from the activations before the call and the input vector,
      the first output and the activations after the call. */
  type Net = (seq<real>, seq<real>) -> (real, seq<real>)

  // ---------------------------------------------------------------- scores_to_int

  function Abs(x: real): real {
    if x < 0.0 then -x else x
  }

  const Tolerance: real := 0.0001

  /** `scores_to_int`: 0 for scores within the tolerance, otherwise 1 when the first score
      is the bigger one (the smaller one when `oneIfFirstBigger` is false) and -1 when not. */
  function ScoresToInt(first: real, second: real, oneIfFirstBigger: bool): (r: int)
    ensures r == -1 || r == 0 || r == 1
    ensures r == 0 <==> Abs(first - second) < Tolerance
    ensures r == 1 <==> Abs(first - second) >= Tolerance && (if oneIfFirstBigger then first > second else first < second)
  {
    if Abs(first - second) < Tolerance then 0
    else if oneIfFirstBigger && first > second then 1
    else if !oneIfFirstBigger && first < second then 1
    else -1
  }

  /** Swapping the players negates the comparison, and clearing the flag is the same as
      swapping the players. */
  lemma ScoresToIntSymmetry(first: real, second: real)
    ensures ScoresToInt(first, second, true) == -ScoresToInt(second, first, true)
    ensures ScoresToInt(first, second, false) == ScoresToInt(second, first, true)
  {
    assert Abs(first - second) == Abs(second - first);
  }

  // ---------------------------------------------------------------- get_player_best_move

  /** The initial `best_activation`: outputs at or below it are never chosen. */
  const Floor: real := -10000000.0

  /** Candidate i is the first of the greatest outputs, and beats the floor. */
  predicate IsFirstArgMax(outs: seq<real>, i: nat) {
    && i < |outs| && outs[i] > Floor
    && (forall j :: 0 <= j < i ==> outs[j] < outs[i])
    && (forall j :: i < j < |outs| ==> outs[j] <= outs[i])
  }

  /** The index the selection loop settles on: the first strictly greatest output above the
      floor, or none when no output beats the floor (an empty list among them). */
  function FirstArgMax(outs: seq<real>): (best: Option<nat>)
    ensures best.Some? ==> IsFirstArgMax(outs, best.value)
    ensures best.None? <==> forall j :: 0 <= j < |outs| ==> outs[j] <= Floor
  {
    if outs == [] then None
    else
      var n := |outs| - 1;
      var front := outs[..n];
      assert forall j :: 0 <= j < n ==> front[j] == outs[j];
      var p := FirstArgMax(front);
      var bestSoFar := if p.Some? then outs[p.value] else Floor;
      if outs[n] > bestSoFar then Some(n) else p
  }

  /** At most one candidate is the first argmax, so the contract above fixes the choice. */
  lemma FirstArgMaxUnique(outs: seq<real>, i: nat, j: nat)
    requires IsFirstArgMax(outs, i) && IsFirstArgMax(outs, j)
    ensures i == j
  {
  }

  /** The first output of each candidate input, each activated from the same state. */
  function Outputs(net: Net, state: seq<real>, inputs: seq<seq<real>>): (outs: seq<real>)
    ensures |outs| == |inputs| && forall i :: 0 <= i < |inputs| ==> outs[i] == net(state, inputs[i]).0
  {
    seq(|inputs|, i requires 0 <= i < |inputs| => net(state, inputs[i]).0)
  }

  /** The activations `get_player_best_move` returns: those after the chosen candidate, or
      the snapshot when none was chosen. */
  function BestState(net: Net, state: seq<real>, inputs: seq<seq<real>>): seq<real> {
    var best := FirstArgMax(Outputs(net, state, inputs));
    if best.Some? then net(state, inputs[best.value]).1 else state
  }

  /** `get_player_best_move` (without the full-preference report): activates the player on
      every candidate from the snapshot of its activations, restoring the snapshot after
      each, and keeps the first strictly best; at the end the player holds the best
      candidate's activations when `applyBest`, and the snapshot otherwise. */
  method GetPlayerBestMove(g: Genome, net: Net, inputs: seq<seq<real>>, applyBest: bool)
    returns (best: Option<nat>, bestState: seq<real>)
    modifies g`activations
    ensures best == FirstArgMax(Outputs(net, old(g.activations), inputs))
    ensures bestState == BestState(net, old(g.activations), inputs)
    ensures g.activations == if applyBest then bestState else old(g.activations)
  {
    var snapshot := g.activations;
    ghost var outs := Outputs(net, snapshot, inputs);
    var bestActivation := Floor;
    best, bestState := None, snapshot;
    for i := 0 to |inputs|
      invariant g.activations == snapshot
      invariant best == FirstArgMax(outs[..i])
      invariant bestActivation == if best.Some? then outs[best.value] else Floor
      invariant bestState == if best.Some? then net(snapshot, inputs[best.value]).1 else snapshot
    {
      assert outs[..i + 1][..i] == outs[..i];
      var (output, after) := net(g.activations, inputs[i]);
      g.activations := after;
      if output > bestActivation {
        bestActivation, best, bestState := output, Some(i), g.activations;
      }
      g.activations := snapshot;
    }
    assert outs[..|inputs|] == outs;
    if applyBest {
      g.activations := bestState;
    }
  }

  // ---------------------------------------------------------------- puzzles

  /** One decision point of a puzzle: the input vector of every legal move, and the index of
      the move the puzzle expects. */
  datatype Decision = Decision(candidates: seq<seq<real>>, correct: nat)

  /** What `get_chess_puzzles_inputs` produces per puzzle. */
  datatype PuzzleInput = PuzzleInput(initial: seq<real>, decisions: seq<Decision>, difficulty: real)

  /** The correct picks counted from `state` until the first wrong one; after a correct
      pick the player keeps that candidate's activations. */
  function Streak(net: Net, state: seq<real>, ds: seq<Decision>): (n: nat)
    ensures n <= |ds|
    decreases |ds|
  {
    if ds == [] then 0
    else
      var best := FirstArgMax(Outputs(net, state, ds[0].candidates));
      if best == Some(ds[0].correct) then 1 + Streak(net, BestState(net, state, ds[0].candidates), ds[1..])
      else 0
  }

  /** Decisions after the first wrong pick do not count. */
  lemma {:induction false} StreakStops(net: Net, state: seq<real>, ds: seq<Decision>, more: seq<Decision>)
    requires Streak(net, state, ds) < |ds|
    ensures Streak(net, state, ds + more) == Streak(net, state, ds)
    decreases |ds|
  {
    var d := ds[0];
    assert (ds + more)[0] == d;
    if FirstArgMax(Outputs(net, state, d.candidates)) == Some(d.correct) {
      assert (ds + more)[1..] == ds[1..] + more;
      StreakStops(net, BestState(net, state, d.candidates), ds[1..], more);
    }
  }

  /** A puzzle's share of the score: the fraction of its decisions solved in a row, times
      its difficulty; the player starts from the reset state activated on the initial
      input. */
  function PuzzleScore(net: Net, reset: seq<real>, p: PuzzleInput): real
    requires |p.decisions| > 0
  {
    (Streak(net, net(reset, p.initial).1, p.decisions) as real / |p.decisions| as real) * p.difficulty
  }

  lemma PuzzleScoreBounds(net: Net, reset: seq<real>, p: PuzzleInput)
    requires |p.decisions| > 0 && p.difficulty >= 0.0
    ensures 0.0 <= PuzzleScore(net, reset, p) <= p.difficulty
  {
    var n := Streak(net, net(reset, p.initial).1, p.decisions);
    assert PuzzleScore(net, reset, p) == (n as real / |p.decisions| as real) * p.difficulty;
    FractionOf(n, |p.decisions|, p.difficulty);
  }

  /** A fraction n/d with n <= d, of a non-negative amount, lies between 0 and the amount. */
  lemma FractionOf(n: nat, d: nat, amount: real)
    requires 0 < d && n <= d && amount >= 0.0
    ensures 0.0 <= (n as real / d as real) * amount <= amount
  {
    var ratio := n as real / d as real;
    assert ratio * d as real == n as real;
    assert 0.0 <= ratio <= 1.0;
    assert amount - ratio * amount == (1.0 - ratio) * amount;
  }

  /** `total_score` over the puzzles, or none when a puzzle has no decision point (the
      division by its zero decision count raises). */
  function TotalScore(net: Net, reset: seq<real>, ps: seq<PuzzleInput>): Option<real> {
    if ps == [] then Some(0.0)
    else
      var n := |ps| - 1;
      match TotalScore(net, reset, ps[..n])
      case None => None
      case Some(t) => if |ps[n].decisions| == 0 then None else Some(t + PuzzleScore(net, reset, ps[n]))
  }

  /** One more puzzle adds its score, or fails when it has no decision point. */
  lemma TotalScoreStep(net: Net, reset: seq<real>, ps: seq<PuzzleInput>, i: nat)
    requires i < |ps|
    ensures TotalScore(net, reset, ps[..i + 1]) ==
      match TotalScore(net, reset, ps[..i])
      case None => None
      case Some(t) => if |ps[i].decisions| == 0 then None else Some(t + PuzzleScore(net, reset, ps[i]))
  {
    assert ps[..i + 1][..i] == ps[..i];
  }

  /** Once a prefix fails, the whole total fails. */
  lemma {:induction false} TotalScoreFails(net: Net, reset: seq<real>, ps: seq<PuzzleInput>, k: nat)
    requires k <= |ps| && TotalScore(net, reset, ps[..k]).None?
    ensures TotalScore(net, reset, ps).None?
    decreases |ps| - k
  {
    if k < |ps| {
      TotalScoreStep(net, reset, ps, k);
      TotalScoreFails(net, reset, ps, k + 1);
    } else {
      assert ps[..k] == ps;
    }
  }

  function SumDifficulty(ps: seq<PuzzleInput>): real {
    if ps == [] then 0.0 else SumDifficulty(ps[..|ps| - 1]) + ps[|ps| - 1].difficulty
  }

  /** The total fails exactly when some puzzle has no decision point, and otherwise lies
      between 0 and the sum of the (non-negative) difficulties. */
  lemma {:induction false} TotalScoreBounds(net: Net, reset: seq<real>, ps: seq<PuzzleInput>)
    requires forall i :: 0 <= i < |ps| ==> ps[i].difficulty >= 0.0
    ensures TotalScore(net, reset, ps).None? <==> exists i :: 0 <= i < |ps| && |ps[i].decisions| == 0
    ensures TotalScore(net, reset, ps).Some? ==> 0.0 <= TotalScore(net, reset, ps).value <= SumDifficulty(ps)
  {
    if ps != [] {
      var n := |ps| - 1;
      assert forall i :: 0 <= i < n ==> ps[..n][i] == ps[i];
      TotalScoreBounds(net, reset, ps[..n]);
      if |ps[n].decisions| > 0 {
        PuzzleScoreBounds(net, reset, ps[n]);
      }
    }
  }

  /** `play_chess_puzzles_singleplayer`: plays the puzzles with the organism's genome and
      returns the organism's id with the total score (none when a puzzle without decision
      points stops it). */
  method PlayChessPuzzlesSingleplayer(o: Organism, net: Net, puzzles: seq<PuzzleInput>)
    returns (organismId: int, total: Option<real>)
    modifies o.genome`activations
    ensures organismId == o.organismId
    ensures total == TotalScore(net, Zeros(|o.genome.nodes|), puzzles)
    ensures o.genome.activations == Zeros(|o.genome.nodes|)
  {
    organismId := o.organismId;
    total := PlayPuzzles(o.genome, net, puzzles);
  }

  /** The body of `play_chess_puzzles_singleplayer` on the genome: resets it, plays every
      puzzle from the reset state and resets again after each. */
  method PlayPuzzles(g: Genome, net: Net, puzzles: seq<PuzzleInput>) returns (total: Option<real>)
    modifies g`activations
    ensures total == TotalScore(net, Zeros(|g.nodes|), puzzles)
    ensures g.activations == Zeros(|g.nodes|)
  {
    g.ResetState();
    var reset := g.activations;
    var score := 0.0;
    for i := 0 to |puzzles|
      invariant reset == Zeros(|g.nodes|) && g.activations == reset
      invariant TotalScore(net, reset, puzzles[..i]) == Some(score)
    {
      var p := puzzles[i];
      var share := PlayOne(g, net, reset, p);
      TotalScoreStep(net, reset, puzzles, i);
      if share.None? {
        TotalScoreFails(net, reset, puzzles, i + 1);
        return None;
      }
      score := score + share.value;
    }
    assert puzzles[..|puzzles|] == puzzles;
    total := Some(score);
  }

  /** One iteration of the puzzle loop: plays the puzzle from the reset state, resets the
      genome again and returns the puzzle's share of the score (none when it has no decision
      point). */
  method PlayOne(g: Genome, net: Net, reset: seq<real>, p: PuzzleInput) returns (share: Option<real>)
    requires reset == Zeros(|g.nodes|) && g.activations == reset
    modifies g`activations
    ensures g.activations == reset
    ensures share.None? <==> |p.decisions| == 0
    ensures share.Some? ==> share.value == PuzzleScore(net, reset, p)
  {
    var correct := PlayPuzzle(g, net, p);
    g.ResetState();
    if |p.decisions| == 0 {
      return None;
    }
    assert correct == Streak(net, net(reset, p.initial).1, p.decisions);
    var ratio := correct as real / |p.decisions| as real;
    share := Some(ratio * p.difficulty);
  }

  /** One puzzle: activates the player on the initial input, then picks at each decision
      point without keeping the activations, keeping the best candidate's activations after
      a correct pick and stopping at the first wrong one. Returns the correct picks. */
  method PlayPuzzle(g: Genome, net: Net, p: PuzzleInput) returns (correct: nat)
    modifies g`activations
    ensures correct == Streak(net, net(old(g.activations), p.initial).1, p.decisions)
  {
    g.activations := net(g.activations, p.initial).1;
    ghost var start := g.activations;
    var ds := p.decisions;
    correct := 0;
    while correct < |ds|
      invariant correct <= |ds|
      invariant Streak(net, start, ds) == correct + Streak(net, g.activations, ds[correct..])
    {
      var d := ds[correct];
      assert ds[correct..][0] == d && ds[correct..][1..] == ds[correct + 1..];
      var best, bestState := GetPlayerBestMove(g, net, d.candidates, false);
      if best != Some(d.correct) {
        break;
      }
      g.activations := bestState;
      correct := correct + 1;
    }
  }

  // ---------------------------------------------------------------- network inputs

  /** The input vector of a candidate move: the board's 256 characters then the move's 28. */
  function MoveInput(board: Board, m: MoveFacts): (v: seq<real>)
    requires |board| == 64 && WellFormedUci(m.uci)
    ensures |v| == TotalEncodingLength
  {
    BoardBitsAreBits(board);
    BitsConcat(BoardBits(board), MoveToBinary(m));
    Digits(BoardBits(board) + MoveToBinary(m))
  }

  predicate LegalUcis(legal: seq<MoveFacts>) {
    forall k :: 0 <= k < |legal| ==> WellFormedUci(legal[k].uci)
  }

  /** `get_model_input_arrs_from_board`: one input vector per legal move, in the order
      python-chess lists them. */
  method GetModelInputArrsFromBoard(board: Board, legal: seq<MoveFacts>) returns (arrs: seq<seq<real>>)
    requires |board| == 64 && LegalUcis(legal)
    ensures |arrs| == |legal| && forall k :: 0 <= k < |legal| ==> arrs[k] == MoveInput(board, legal[k])
  {
    var boardBits := BoardToBinary(board);
    BoardBitsAreBits(board);
    arrs := [];
    for k := 0 to |legal|
      invariant |arrs| == k && forall j :: 0 <= j < k ==> arrs[j] == MoveInput(board, legal[j])
    {
      BitsConcat(boardBits, MoveToBinary(legal[k]));
      arrs := arrs + [Digits(boardBits + MoveToBinary(legal[k]))];
    }
  }

  /** What the three `replace` calls do to the first character: '1' and '0' swap (an 'a'
      would become '0'). */
  function SwapBit(c: char): char {
    if c == '1' || c == 'a' then '0' else if c == '0' then '1' else c
  }

  /** The input a puzzle starts with: the board's characters then 28 zeros, with the first
      character swapped (the side to move is not the puzzle player). */
  function InitialInput(board: Board): (v: seq<real>)
    requires |board| == 64
    ensures |v| == TotalEncodingLength
  {
    var s := BoardBits(board) + ZeroBits(MoveEncodingLength);
    BoardBitsAreBits(board);
    BitsConcat(BoardBits(board), ZeroBits(MoveEncodingLength));
    var swapped := [SwapBit(s[0])] + s[1..];
    assert IsBits(swapped) by {
      assert forall i :: 1 <= i < |swapped| ==> swapped[i] == s[i];
    }
    Digits(swapped)
  }

  /** The initial input differs from the board's own input with a null move only in its
      first value, which is flipped. */
  lemma InitialInputFlipsFirst(board: Board)
    requires |board| == 64
    ensures var v, bits := InitialInput(board), BoardBits(board);
      && v[0] == 1.0 - (if bits[0] == '1' then 1.0 else 0.0)
      && (forall i :: 1 <= i < BoardEncodingLength ==> v[i] == if bits[i] == '1' then 1.0 else 0.0)
      && (forall i :: BoardEncodingLength <= i < TotalEncodingLength ==> v[i] == 0.0)
  {
    BoardBitsAreBits(board);
    var bits := BoardBits(board);
    assert bits[0] == '0' || bits[0] == '1';
  }

  /** A puzzle as the dataset describes it, with what python-chess answers supplied:
      `positions[i]` is the board before `moves[i]` is pushed (the FEN's board first) and
      `legal[i]` the legal moves there, in python-chess's order. */
  datatype PuzzleRow = PuzzleRow(
    positions: seq<Board>,
    legal: seq<seq<MoveFacts>>,
    moves: seq<string>,
    difficulty: real)

  predicate WellFormedRow(row: PuzzleRow) {
    && |row.positions| == |row.moves| + 1 && |row.legal| == |row.moves|
    && (forall i :: 0 <= i < |row.positions| ==> |row.positions[i]| == 64)
    && (forall i :: 0 <= i < |row.legal| ==> LegalUcis(row.legal[i]))
  }

  function Ucis(legal: seq<MoveFacts>): (us: seq<string>)
    ensures |us| == |legal| && forall k :: 0 <= k < |legal| ==> us[k] == legal[k].uci
  {
    seq(|legal|, k requires 0 <= k < |legal| => legal[k].uci)
  }

  /** `list.index`: the first position of `x`. */
  function IndexOf(xs: seq<string>, x: string): (k: nat)
    requires x in xs
    ensures k < |xs| && xs[k] == x && forall j :: 0 <= j < k ==> xs[j] != x
  {
    if xs[0] == x then 0 else 1 + IndexOf(xs[1..], x)
  }

  /** The decision point before move i of a row. */
  function DecisionAt(row: PuzzleRow, i: nat): Decision
    requires WellFormedRow(row) && i < |row.moves| && row.moves[i] in Ucis(row.legal[i])
  {
    var legal := row.legal[i];
    Decision(seq(|legal|, k requires 0 <= k < |legal| => MoveInput(row.positions[i], legal[k])),
             IndexOf(Ucis(legal), row.moves[i]))
  }

  lemma DecisionAtIs(row: PuzzleRow, i: nat, inputs: seq<seq<real>>)
    requires WellFormedRow(row) && i < |row.moves| && row.moves[i] in Ucis(row.legal[i])
    requires |inputs| == |row.legal[i]|
    requires forall k :: 0 <= k < |inputs| ==> inputs[k] == MoveInput(row.positions[i], row.legal[i][k])
    ensures DecisionAt(row, i) == Decision(inputs, IndexOf(Ucis(row.legal[i]), row.moves[i]))
  {
  }

  /** Every move of the row is legal where it is played (otherwise `index` or `push_uci`
      raises). */
  predicate MovesLegal(row: PuzzleRow)
    requires WellFormedRow(row)
  {
    forall i :: 0 <= i < |row.moves| ==> row.moves[i] in Ucis(row.legal[i])
  }

  /** The first n moves of the row are legal where they are played. */
  predicate LegalUpTo(row: PuzzleRow, n: nat)
    requires WellFormedRow(row) && n <= |row.moves|
  {
    forall j :: 0 <= j < n ==> row.moves[j] in Ucis(row.legal[j])
  }

  /** `ds` holds the decision points among the first n moves: those before the moves at odd
      indices. */
  predicate DecisionsUpTo(row: PuzzleRow, ds: seq<Decision>, n: nat)
    requires WellFormedRow(row) && n <= |row.moves| && LegalUpTo(row, n)
  {
    && |ds| == n / 2
    && forall k :: 0 <= k < n / 2 ==> ds[k] == DecisionAt(row, 2 * k + 1)
  }

  /** The puzzle loop of `get_chess_puzzles_inputs`: the puzzle player moves second, so the
      decision points are the positions before the moves at odd indices. */
  method PuzzleInputs(row: PuzzleRow) returns (r: Option<PuzzleInput>)
    requires WellFormedRow(row)
    ensures r.Some? <==> MovesLegal(row)
    ensures r.Some? ==> r.value == RowPuzzle(row)
  {
    var initial := InitialInput(row.positions[0]);
    var decisions: seq<Decision> := [];
    var isPlayerTurn := false;
    for i := 0 to |row.moves|
      invariant isPlayerTurn <==> i % 2 == 1
      invariant LegalUpTo(row, i) && DecisionsUpTo(row, decisions, i)
    {
      var next := PuzzleStep(row, i, isPlayerTurn, decisions);
      if next.None? {
        return None;
      }
      decisions := next.value;
      isPlayerTurn := !isPlayerTurn;
    }
    DecisionsComplete(row, decisions);
    r := Some(PuzzleInput(initial, decisions, row.difficulty));
  }

  /** After the last move, legality up to the end is `MovesLegal` and the collected decision
      points are the row's. */
  lemma DecisionsComplete(row: PuzzleRow, ds: seq<Decision>)
    requires WellFormedRow(row) && LegalUpTo(row, |row.moves|) && DecisionsUpTo(row, ds, |row.moves|)
    ensures MovesLegal(row) && ds == RowPuzzle(row).decisions
  {
  }

  /** One move of the puzzle loop: on the player's turn the candidate inputs and the index
      of the played move become a decision point; an illegal move stops the row. */
  method PuzzleStep(row: PuzzleRow, i: nat, isPlayerTurn: bool, decisions: seq<Decision>)
    returns (next: Option<seq<Decision>>)
    requires WellFormedRow(row) && i < |row.moves| && LegalUpTo(row, i)
    requires (isPlayerTurn <==> i % 2 == 1) && DecisionsUpTo(row, decisions, i)
    ensures next.None? <==> row.moves[i] !in Ucis(row.legal[i])
    ensures next.Some? ==> LegalUpTo(row, i + 1) && DecisionsUpTo(row, next.value, i + 1)
  {
    var ucis := Ucis(row.legal[i]);
    if isPlayerTurn {
      var inputs := GetModelInputArrsFromBoard(row.positions[i], row.legal[i]);
      if row.moves[i] !in ucis {
        return None;
      }
      DecisionAtIs(row, i, inputs);
      DecisionsStep(row, decisions, i);
      next := Some(decisions + [Decision(inputs, IndexOf(ucis, row.moves[i]))]);
    } else {
      if row.moves[i] !in ucis {
        return None;
      }
      DecisionsStep(row, decisions, i);
      next := Some(decisions);
    }
  }

  /** One more legal move extends the decision points by the one before it when it is the
      player's (odd) move, and leaves them as they are otherwise. */
  lemma DecisionsStep(row: PuzzleRow, ds: seq<Decision>, i: nat)
    requires WellFormedRow(row) && i < |row.moves| && LegalUpTo(row, i) && DecisionsUpTo(row, ds, i)
    requires row.moves[i] in Ucis(row.legal[i])
    ensures LegalUpTo(row, i + 1)
    ensures i % 2 == 1 ==> DecisionsUpTo(row, ds + [DecisionAt(row, i)], i + 1)
    ensures i % 2 == 0 ==> DecisionsUpTo(row, ds, i + 1)
  {
    assert (i + 1) / 2 == if i % 2 == 1 then i / 2 + 1 else i / 2;
    if i % 2 == 1 {
      var ds' := ds + [DecisionAt(row, i)];
      forall k | 0 <= k < (i + 1) / 2 ensures ds'[k] == DecisionAt(row, 2 * k + 1) {
        if k == i / 2 {
          assert 2 * k + 1 == i;
        }
      }
    }
  }

  /** The puzzle input built from a row: its start, its difficulty and one decision point
      per move of the puzzle player. */
  predicate PuzzleOf(row: PuzzleRow, p: PuzzleInput)
    requires WellFormedRow(row)
  {
    && MovesLegal(row)
    && p.initial == InitialInput(row.positions[0])
    && p.difficulty == row.difficulty
    && |p.decisions| == |row.moves| / 2
    && forall k :: 0 <= k < |row.moves| / 2 ==> p.decisions[k] == DecisionAt(row, 2 * k + 1)
  }

  /** The puzzle input of a row whose moves are all legal. */
  function RowPuzzle(row: PuzzleRow): PuzzleInput
    requires WellFormedRow(row) && MovesLegal(row)
  {
    PuzzleInput(InitialInput(row.positions[0]),
                seq(|row.moves| / 2, k requires 0 <= k < |row.moves| / 2 => DecisionAt(row, 2 * k + 1)),
                row.difficulty)
  }

  /** `RowPuzzle` is the one puzzle input of its row: it starts from the first position,
      keeps the difficulty and has one decision point per move of the puzzle player. */
  lemma RowPuzzleIsPuzzleOf(row: PuzzleRow, p: PuzzleInput)
    requires WellFormedRow(row)
    ensures PuzzleOf(row, p) <==> MovesLegal(row) && p == RowPuzzle(row)
  {
    if PuzzleOf(row, p) {
      assert p.decisions == RowPuzzle(row).decisions;
    }
  }

  /** `get_chess_puzzles_inputs`: the first `numPuzzles` rows of the (already shuffled)
      dataset, each turned into its puzzle input; none when a row holds an illegal move. */
  method GetChessPuzzlesInputs(rows: seq<PuzzleRow>, numPuzzles: nat) returns (r: Option<seq<PuzzleInput>>)
    requires forall i :: 0 <= i < |rows| ==> WellFormedRow(rows[i])
    ensures r.Some? <==> forall i :: 0 <= i < |rows| && i < numPuzzles ==> MovesLegal(rows[i])
    ensures r.Some? ==> |r.value| == Min(numPuzzles, |rows|) <= |rows|
    ensures r.Some? ==> forall i :: 0 <= i < |r.value| ==> r.value[i] == RowPuzzle(rows[i])
  {
    var count := Min(numPuzzles, |rows|);
    var all: seq<PuzzleInput> := [];
    for i := 0 to count
      invariant |all| == i
      invariant forall j :: 0 <= j < i ==> MovesLegal(rows[j])
      invariant forall j :: 0 <= j < i ==> all[j] == RowPuzzle(rows[j])
    {
      var p := PuzzleInputs(rows[i]);
      if p.None? {
        return None;
      }
      all := all + [p.value];
    }
    r := Some(all);
  }
}
