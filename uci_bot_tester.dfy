/** The UCI test bot (`uci_bot_tester.py`): the model input for "no move yet", the min-max
    scaling of the move evaluations, and the handling of the `position` command, whose
    tokens set up the board and replay the moves while the genome keeps its activations
    in step. */
module UciBotTester {
  import opened NeatTypes
  import opened ChessUtil
  import opened GenomeModel
  import opened GameController

  // ---------------------------------------------------------------- get_model_input_null_move

  /** `get_model_input_null_move`: the board's 256 characters followed by 28 zeros, one
      number per character. */
  function NullMoveInput(board: Board): (v: seq<real>)
    requires |board| == 64
    ensures |v| == TotalEncodingLength
  {
    BoardBitsAreBits(board);
    BitsConcat(BoardBits(board), ZeroBits(MoveEncodingLength));
    Digits(BoardBits(board) + ZeroBits(MoveEncodingLength))
  }

  /** The first 256 values are the board's bits and the last 28 are zero. */
  lemma NullMoveInputLayout(board: Board)
    requires |board| == 64
    ensures var v, bits := NullMoveInput(board), BoardBits(board);
      && (forall i :: 0 <= i < BoardEncodingLength ==> v[i] == if bits[i] == '1' then 1.0 else 0.0)
      && (forall i :: BoardEncodingLength <= i < TotalEncodingLength ==> v[i] == 0.0)
  {
    var bits := BoardBits(board);
    var s := bits + ZeroBits(MoveEncodingLength);
    assert forall i :: 0 <= i < BoardEncodingLength ==> s[i] == bits[i];
    assert forall i :: BoardEncodingLength <= i < TotalEncodingLength ==> s[i] == '0';
  }

  /** The puzzle's initial input is the null-move input with its first value flipped. */
  lemma NullMoveVersusInitial(board: Board)
    requires |board| == 64
    ensures InitialInput(board)[0] == 1.0 - NullMoveInput(board)[0]
    ensures InitialInput(board)[1..] == NullMoveInput(board)[1..]
  {
    NullMoveInputLayout(board);
    InitialInputFlipsFirst(board);
    var v, w := InitialInput(board), NullMoveInput(board);
    assert forall i :: 1 <= i < TotalEncodingLength ==> v[i] == w[i];
  }

  // ---------------------------------------------------------------- min_max_scale_dict

  /** A dictionary from move to evaluation, as its items in insertion order. */
  type Items = seq<(string, real)>

  /** Where `min(data_dict.values())` is found. */
  function ArgMin(d: Items): (k: nat)
    requires |d| > 0
    ensures k < |d| && forall i :: 0 <= i < |d| ==> d[k].1 <= d[i].1
  {
    if |d| == 1 then 0
    else
      var k := ArgMin(d[..|d| - 1]);
      if d[k].1 <= d[|d| - 1].1 then k else |d| - 1
  }

  /** Where `max(data_dict.values())` is found. */
  function ArgMax(d: Items): (k: nat)
    requires |d| > 0
    ensures k < |d| && forall i :: 0 <= i < |d| ==> d[i].1 <= d[k].1
  {
    if |d| == 1 then 0
    else
      var k := ArgMax(d[..|d| - 1]);
      if d[|d| - 1].1 <= d[k].1 then k else |d| - 1
  }

  /** `2 * ((value - min_value) / (max_value - min_value)) - 1`. */
  function Scale(v: real, lo: real, hi: real): real
    requires lo < hi
  {
    2.0 * ((v - lo) / (hi - lo)) - 1.0
  }

  /** The scale sends the bounds to -1 and 1 and what lies between them into [-1, 1]. */
  lemma ScaleBounds(v: real, lo: real, hi: real)
    requires lo <= v <= hi && lo < hi
    ensures -1.0 <= Scale(v, lo, hi) <= 1.0
    ensures v == lo ==> Scale(v, lo, hi) == -1.0
    ensures v == hi ==> Scale(v, lo, hi) == 1.0
  {
    var t := (v - lo) / (hi - lo);
    assert t * (hi - lo) == v - lo;
    if v == lo { assert t == 0.0; }
    if v == hi { assert v - lo == hi - lo; }
  }

  /** The scale is strictly increasing. */
  lemma ScaleMonotone(a: real, b: real, lo: real, hi: real)
    requires lo < hi
    ensures a < b <==> Scale(a, lo, hi) < Scale(b, lo, hi)
  {
    var ta, tb := (a - lo) / (hi - lo), (b - lo) / (hi - lo);
    assert ta * (hi - lo) == a - lo && tb * (hi - lo) == b - lo;
    assert tb - ta == (b - a) / (hi - lo);
    assert (tb - ta) * (hi - lo) == b - a;
    if a < b { assert tb - ta > 0.0; }
    if tb - ta > 0.0 { assert (tb - ta) * (hi - lo) > 0.0; }
  }

  /** `min_max_scale_dict`: every move's evaluation scaled into [-1, 1], keys and their
      order kept; none when there is no entry (`min` of nothing raises) or when every entry
      is equal (the division by `max - min == 0` has no real value; on the source's tensor
      evaluations it yields NaN for every key). */
  function MinMaxScale(d: Items): (r: Option<Items>)
    ensures r.None? <==> |d| == 0 || forall i, j :: 0 <= i < |d| && 0 <= j < |d| ==> d[i].1 == d[j].1
    ensures r.Some? ==> |r.value| == |d| && forall i :: 0 <= i < |d| ==> r.value[i].0 == d[i].0
  {
    if |d| == 0 then None
    else
      var lo, hi := d[ArgMin(d)].1, d[ArgMax(d)].1;
      if lo == hi then None
      else Some(seq(|d|, i requires 0 <= i < |d| => (d[i].0, Scale(d[i].1, lo, hi))))
  }

  /** Scaled values lie in [-1, 1]; a least entry becomes -1 and a greatest one 1. */
  lemma MinMaxScaleBounds(d: Items, k: nat)
    requires k < |d| && MinMaxScale(d).Some?
    ensures -1.0 <= MinMaxScale(d).value[k].1 <= 1.0
    ensures (forall j :: 0 <= j < |d| ==> d[k].1 <= d[j].1) ==> MinMaxScale(d).value[k].1 == -1.0
    ensures (forall j :: 0 <= j < |d| ==> d[j].1 <= d[k].1) ==> MinMaxScale(d).value[k].1 == 1.0
  {
    var lo, hi := d[ArgMin(d)].1, d[ArgMax(d)].1;
    ScaleBounds(d[k].1, lo, hi);
  }

  /** Scaling keeps the order of the evaluations, strictly. */
  lemma MinMaxScaleOrder(d: Items, a: nat, b: nat)
    requires a < |d| && b < |d| && MinMaxScale(d).Some?
    ensures d[a].1 < d[b].1 <==> MinMaxScale(d).value[a].1 < MinMaxScale(d).value[b].1
  {
    ScaleMonotone(d[a].1, d[b].1, d[ArgMin(d)].1, d[ArgMax(d)].1);
  }

  // ---------------------------------------------------------------- the position command

  /** `str.split(sep)`: the pieces between separators, empty ones included. */
  function Split(s: string, sep: char): (parts: seq<string>)
    ensures |parts| >= 1
    ensures forall i :: 0 <= i < |parts| ==> sep !in parts[i]
  {
    if s == [] then [""]
    else
      var rest := Split(s[1..], sep);
      if s[0] == sep then [""] + rest else [[s[0]] + rest[0]] + rest[1..]
  }

  /** Joining the pieces of a split gives the string back. */
  lemma {:induction false} JoinSplit(s: string, sep: char)
    ensures Join(sep, Split(s, sep)) == s
  {
    if s != [] {
      var rest := Split(s[1..], sep);
      JoinSplit(s[1..], sep);
      if s[0] != sep {
        assert [s[0]] + rest[0] + [sep] == [s[0]] + (rest[0] + [sep]);
        assert |rest| > 1 ==> rest[1..] == rest[1..][..];
      }
    }
  }

  /** A piece without separator stays whole in front of the rest. */
  lemma {:induction false} SplitFront(p: string, t: string, sep: char)
    requires sep !in p
    ensures Split(p + t, sep) == [p + Split(t, sep)[0]] + Split(t, sep)[1..]
  {
    if p != [] {
      assert (p + t)[1..] == p[1..] + t;
      assert (p + t)[0] == p[0] && p[0] != sep;
      SplitFront(p[1..], t, sep);
      var r := Split(p[1..] + t, sep);
      assert r[0] == p[1..] + Split(t, sep)[0] && r[1..] == Split(t, sep)[1..];
      assert Split(p + t, sep) == [[p[0]] + r[0]] + r[1..];
      assert [p[0]] + (p[1..] + Split(t, sep)[0]) == p + Split(t, sep)[0];
    } else {
      assert p + t == t && p + Split(t, sep)[0] == Split(t, sep)[0];
      assert [Split(t, sep)[0]] + Split(t, sep)[1..] == Split(t, sep);
    }
  }

  /** Splitting a join of separator-free pieces gives the pieces back. */
  lemma {:induction false} SplitJoin(parts: seq<string>, sep: char)
    requires |parts| >= 1 && forall i :: 0 <= i < |parts| ==> sep !in parts[i]
    ensures Split(Join(sep, parts), sep) == parts
  {
    if |parts| == 1 {
      SplitFront(parts[0], "", sep);
      assert parts[0] + "" == parts[0] && Split("", sep) == [""];
      assert parts == [parts[0]];
    } else {
      SplitJoin(parts[1..], sep);
      var t := [sep] + Join(sep, parts[1..]);
      assert t[1..] == Join(sep, parts[1..]);
      assert Join(sep, parts) == parts[0] + t;
      SplitFront(parts[0], t, sep);
      assert t[0] == sep;
      assert Split(t, sep) == [""] + parts[1..];
      assert Split(t, sep)[0] == "" && Split(t, sep)[1..] == parts[1..];
      assert parts[0] + "" == parts[0];
      assert parts == [parts[0]] + parts[1..];
    }
  }

  /** How a `position` command sets the board up before replaying its moves. */
  datatype Setup =
    /** `board.set_fen(fen)`. */
    | SetFen(fen: string)
    /** `board.reset()` and `genome.reset_state()`. */
    | StartPos
    /** Neither 'fen' nor 'startpos' among the tokens: the board is left as it is. */
    | KeepBoard

  datatype PositionCommand = PositionCommand(setup: Setup, moves: seq<string>)

  /** The tokens after 'moves', or none. */
  function MovesOf(params: seq<string>): seq<string> {
    if "moves" in params then params[IndexOf(params, "moves") + 1..] else []
  }

  /** The `position` handling as written: the FEN is every token after 'fen' joined by
      spaces, including 'moves' and the moves when they follow. */
  function ParsePositionAsWritten(params: seq<string>): PositionCommand {
    var setup :=
      if "fen" in params then SetFen(Join(' ', params[IndexOf(params, "fen") + 1..]))
      else if "startpos" in params then StartPos
      else KeepBoard;
    PositionCommand(setup, MovesOf(params))
  }

  /** Where the FEN tokens end: at the first 'moves' after 'fen', else at the end. */
  function FenEnd(params: seq<string>, start: nat): (e: nat)
    requires start <= |params|
    ensures start <= e <= |params|
    ensures forall j :: start <= j < e ==> params[j] != "moves"
    ensures e < |params| ==> params[e] == "moves"
  {
    if "moves" in params[start..] then start + IndexOf(params[start..], "moves") else |params|
  }

  /** The `position` handling as intended: the FEN is the tokens between 'fen' and
      'moves'. */
  function ParsePosition(params: seq<string>): PositionCommand {
    var setup :=
      if "fen" in params then
        var start := IndexOf(params, "fen") + 1;
        SetFen(Join(' ', params[start..FenEnd(params, start)]))
      else if "startpos" in params then StartPos
      else KeepBoard;
    PositionCommand(setup, MovesOf(params))
  }

  /** A token of a command: no space inside, and not one of the keywords. */
  predicate PlainToken(t: string) {
    ' ' !in t && t != "fen" && t != "moves" && t != "startpos"
  }

  /** The tokens of `position fen <fields> moves <moves>`. */
  function FenCommandTokens(fields: seq<string>, moves: seq<string>): seq<string> {
    ["position", "fen"] + fields + ["moves"] + moves
  }

  /** Where 'fen' and 'moves' are in such a command. */
  lemma FenCommandIndices(fields: seq<string>, moves: seq<string>)
    requires forall i :: 0 <= i < |fields| ==> PlainToken(fields[i])
    ensures var params := FenCommandTokens(fields, moves);
      && "fen" in params && IndexOf(params, "fen") == 1
      && "moves" in params && IndexOf(params, "moves") == |fields| + 2
  {
    var params := FenCommandTokens(fields, moves);
    assert params[1] == "fen" && params[|fields| + 2] == "moves";
    assert forall j :: 2 <= j < |fields| + 2 ==> params[j] == fields[j - 2];
  }

  /** A `position fen <fields> moves <moves>` command: the board is set to the FEN made of
      exactly those fields, which splits back into them, and the moves are replayed. */
  lemma {:induction false} ParsePositionFen(fields: seq<string>, moves: seq<string>)
    requires |fields| >= 1 && forall i :: 0 <= i < |fields| ==> PlainToken(fields[i])
    ensures ParsePosition(FenCommandTokens(fields, moves)) == PositionCommand(SetFen(Join(' ', fields)), moves)
    ensures Split(Join(' ', fields), ' ') == fields
  {
    var params := FenCommandTokens(fields, moves);
    FenCommandIndices(fields, moves);
    var e := FenEnd(params, 2);
    assert e == |fields| + 2 by {
      assert params[|fields| + 2] == "moves";
      assert forall j :: 2 <= j < |fields| + 2 ==> params[j] == fields[j - 2];
    }
    assert params[2..e] == fields;
    assert params[|fields| + 3..] == moves;
    SplitJoin(fields, ' ');
  }

  /** The command as written sets the board to the fields followed by 'moves' and the
      moves: a string with more fields than the FEN, which `set_fen` rejects. */
  lemma {:induction false} FenSwallowsMoves(fields: seq<string>, moves: seq<string>)
    requires |fields| >= 1 && forall i :: 0 <= i < |fields| ==> PlainToken(fields[i])
    requires forall i :: 0 <= i < |moves| ==> ' ' !in moves[i]
    ensures ParsePositionAsWritten(FenCommandTokens(fields, moves)).setup == SetFen(Join(' ', fields + ["moves"] + moves))
    ensures Split(ParsePositionAsWritten(FenCommandTokens(fields, moves)).setup.fen, ' ') == fields + ["moves"] + moves
    ensures ParsePositionAsWritten(FenCommandTokens(fields, moves)) != ParsePosition(FenCommandTokens(fields, moves))
  {
    var params := FenCommandTokens(fields, moves);
    FenCommandIndices(fields, moves);
    assert params[2..] == fields + ["moves"] + moves;
    var tail := fields + ["moves"] + moves;
    assert forall i :: 0 <= i < |tail| ==> ' ' !in tail[i] by {
      forall i | 0 <= i < |tail| ensures ' ' !in tail[i] {
        if i < |fields| { assert tail[i] == fields[i]; }
        else if i == |fields| { assert tail[i] == "moves"; }
        else { assert tail[i] == moves[i - |fields| - 1]; }
      }
    }
    SplitJoin(tail, ' ');
    ParsePositionFen(fields, moves);
  }

  /** The command `position fen <start position> moves e2e4` as written hands `set_fen` a
      string of eight fields. */
  lemma FenSwallowsMovesExample()
    ensures var fields := ["rnbqkbnr/pppppppp/8/8/8/8/PPPPPPPP/RNBQKBNR", "w", "KQkq", "-", "0", "1"];
      |Split(ParsePositionAsWritten(FenCommandTokens(fields, ["e2e4"])).setup.fen, ' ')| == 8
  {
    var fields := ["rnbqkbnr/pppppppp/8/8/8/8/PPPPPPPP/RNBQKBNR", "w", "KQkq", "-", "0", "1"];
    assert forall i :: 0 <= i < |fields| ==> PlainToken(fields[i]);
    FenSwallowsMoves(fields, ["e2e4"]);
  }

  /** A `position startpos moves <moves>` command resets and replays the moves. */
  lemma ParsePositionStartpos(moves: seq<string>)
    requires forall i :: 0 <= i < |moves| ==> moves[i] != "fen"
    ensures ParsePosition(["position", "startpos", "moves"] + moves) == PositionCommand(StartPos, moves)
  {
    var params := ["position", "startpos", "moves"] + moves;
    assert params[1] == "startpos" && params[2] == "moves";
    assert "fen" !in params[..3];
    assert IndexOf(params, "moves") == 2;
    assert params[3..] == moves;
  }

  // ---------------------------------------------------------------- the bot's state

  /** The board as python-chess holds it: where it was set up and the moves pushed since. */
  datatype Origin = Starting | FromFen(fen: string)
  datatype BoardHistory = BoardHistory(origin: Origin, pushed: seq<string>)

  type Board64 = b: Board | |b| == 64 witness seq(64, _ => None)

  /** What python-chess answers about a board: its squares, the side to move, and the
      model input for playing a move there (`board_to_binary` + `move_to_binary`). */
  datatype Chess = Chess(squares: BoardHistory -> Board64, whiteToMove: BoardHistory -> bool,
                         moveInput: (BoardHistory, string) -> seq<real>)

  /** The board after the setup tokens. */
  function SetUp(board: BoardHistory, setup: Setup): BoardHistory {
    match setup
    case SetFen(fen) => BoardHistory(FromFen(fen), [])
    case StartPos => BoardHistory(Starting, [])
    case KeepBoard => board
  }

  /** The input the genome is activated with before a move is pushed: the null-move input
      before the first `go`, the move's input on the player's own turns, none otherwise. */
  function MoveActivation(chess: Chess, playerIsWhite: Option<bool>, board: BoardHistory, move: string): Option<seq<real>> {
    if playerIsWhite.None? then Some(NullMoveInput(chess.squares(board)))
    else if playerIsWhite.value == chess.whiteToMove(board) then Some(chess.moveInput(board, move))
    else None
  }

  /** Board and activations after replaying the moves. */
  function Replay(net: Net, chess: Chess, playerIsWhite: Option<bool>, board: BoardHistory, acts: seq<real>,
                  moves: seq<string>): (r: (BoardHistory, seq<real>))
    ensures r.0 == BoardHistory(board.origin, board.pushed + moves)
  {
    if moves == [] then (board, acts)
    else
      var n := |moves| - 1;
      var (b, a) := Replay(net, chess, playerIsWhite, board, acts, moves[..n]);
      var next := match MoveActivation(chess, playerIsWhite, b, moves[n])
        case Some(input) => net(a, input).1
        case None => a;
      assert board.pushed + moves[..n] + [moves[n]] == board.pushed + moves;
      (BoardHistory(b.origin, b.pushed + [moves[n]]), next)
  }

  /** The `UciInteractionBot`'s state that the `position` command touches. */
  class UciInteractionBot {
    var board: BoardHistory
    var genome: Genome
    var playerIsWhite: Option<bool>

    /** A fresh bot: the starting position, colour not yet known. */
    constructor (g: Genome)
      ensures board == BoardHistory(Starting, []) && genome == g && playerIsWhite == None
    {
      board, genome, playerIsWhite := BoardHistory(Starting, []), g, None;
    }

    /** The `position` branch of `begin_play_uci_game`: sets the board up from the tokens
        ('startpos' also resets the genome's activations), then replays the moves, feeding
        the genome as it goes. */
    method Position(command: string, net: Net, chess: Chess)
      requires |command| >= 8 && command[..8] == "position"
      modifies this`board, genome`activations
      ensures var p := ParsePosition(Split(command, ' '));
        var acts := if p.setup.StartPos? then Zeros(|genome.nodes|) else old(genome.activations);
        (board, genome.activations) == Replay(net, chess, playerIsWhite, SetUp(old(board), p.setup), acts, p.moves)
    {
      var params := Split(command, ' ');
      var p := ParsePosition(params);
      if "fen" in params {
        board := BoardHistory(FromFen(p.setup.fen), []);
      } else if "startpos" in params {
        board := BoardHistory(Starting, []);
        genome.ResetState();
      }
      if "moves" in params {
        ReplayMoves(net, chess, p.moves);
      }
    }

    /** The loop over the tokens after 'moves'. */
    method ReplayMoves(net: Net, chess: Chess, moves: seq<string>)
      modifies this`board, genome`activations
      ensures (board, genome.activations) == Replay(net, chess, playerIsWhite, old(board), old(genome.activations), moves)
    {
      ghost var start, acts := board, genome.activations;
      for i := 0 to |moves|
        invariant (board, genome.activations) == Replay(net, chess, playerIsWhite, start, acts, moves[..i])
      {
        var input := MoveActivation(chess, playerIsWhite, board, moves[i]);
        if input.Some? {
          genome.activations := net(genome.activations, input.value).1;
        }
        board := BoardHistory(board.origin, board.pushed + [moves[i]]);
        assert moves[..i + 1][..i] == moves[..i];
      }
      assert moves[..|moves|] == moves;
    }
  }
}
