/** The chess bit encodings (`chess_util.py`): four characters per square, 28 per move, and
    the decoder that draws an encoded board as python-chess prints it. */
module ChessUtil {
  import opened NeatTypes

  const BoardEncodingLength: nat := 256
  const MoveEncodingLength: nat := 28
  const TotalEncodingLength: nat := BoardEncodingLength + MoveEncodingLength

  datatype PieceType = Pawn | Knight | Bishop | Rook | Queen | King

  datatype Piece = Piece(pieceType: PieceType, white: bool)

  /** What `board.piece_at` answers for squares 0 (a1) to 63 (h8), file-major within a rank:
      square = 8 * rank + file. */
  type Board = seq<Option<Piece>>

  predicate IsBits(s: string) {
    forall i :: 0 <= i < |s| ==> s[i] == '0' || s[i] == '1'
  }

  /** The number a string of binary digits denotes, most significant first. */
  function BitsValue(s: string): nat
    requires IsBits(s)
  {
    if s == [] then 0 else 2 * BitsValue(s[..|s| - 1]) + (if s[|s| - 1] == '1' then 1 else 0)
  }

  /** `np.array([int(c) for c in bits], dtype=float)`: one 0.0 or 1.0 per character. */
  function Digits(s: string): (v: seq<real>)
    requires IsBits(s)
    ensures |v| == |s| && forall i :: 0 <= i < |s| ==> v[i] == if s[i] == '1' then 1.0 else 0.0
  {
    seq(|s|, i requires 0 <= i < |s| => if s[i] == '1' then 1.0 else 0.0)
  }

  /** Distinct bit strings give distinct digit vectors: nothing is lost in the conversion. */
  lemma {:induction false} DigitsInjective(s: string, t: string)
    requires IsBits(s) && IsBits(t) && Digits(s) == Digits(t)
    ensures s == t
  {
    forall i | 0 <= i < |s| ensures s[i] == t[i] {
      assert Digits(s)[i] == Digits(t)[i];
    }
  }

  /** `''.join(['0'] * n)`. */
  function ZeroBits(n: nat): (s: string)
    ensures |s| == n && IsBits(s) && forall i :: 0 <= i < n ==> s[i] == '0'
  {
    seq(n, _ => '0')
  }

  // ---------------------------------------------------------------- pieces

  /** python-chess's `Piece.symbol()`: the lower-case letter, upper-cased for white. */
  function Symbol(p: Piece): char {
    var c := match p.pieceType
      case Pawn => 'p' case Knight => 'n' case Bishop => 'b'
      case Rook => 'r' case Queen => 'q' case King => 'k';
    if p.white then Upper(c) else c
  }

  /** What python-chess prints for a square: the piece's symbol, or '.' when it is empty. */
  function SquareSymbol(sq: Option<Piece>): char {
    if sq.None? then '.' else Symbol(sq.value)
  }

  /** `str.upper` on the characters the decoder produces. */
  function Upper(c: char): char {
    match c
    case 'p' => 'P' case 'n' => 'N' case 'b' => 'B'
    case 'r' => 'R' case 'q' => 'Q' case 'k' => 'K'
    case _ => c
  }

  /** The `piece_bits` table of `encode_piece`. */
  function PieceCode(t: Option<PieceType>): string {
    match t
    case None => "000"
    case Some(Pawn) => "001"
    case Some(Rook) => "010"
    case Some(Knight) => "011"
    case Some(Bishop) => "100"
    case Some(Queen) => "101"
    case Some(King) => "110"
  }

  /** `encode_piece`: a colour bit, '1' exactly when the colour is truthy (white), then the
      three-bit code of the piece type. */
  function EncodePiece(t: Option<PieceType>, color: Option<bool>): (r: string)
    ensures |r| == 4 && IsBits(r)
    ensures r[0] == '1' <==> color == Some(true)
  {
    (if color == Some(true) then "1" else "0") + PieceCode(t)
  }

  /** The chunk `board_to_binary` emits for one square (an empty square is "0000"). */
  function EncodeSquare(sq: Option<Piece>): (r: string)
    ensures |r| == 4 && IsBits(r)
  {
    if sq.None? then EncodePiece(None, None) else EncodePiece(Some(sq.value.pieceType), Some(sq.value.white))
  }

  /** No two square contents share a chunk, so the board encoding loses nothing. */
  lemma EncodeSquareInjective(a: Option<Piece>, b: Option<Piece>)
    requires EncodeSquare(a) == EncodeSquare(b)
    ensures a == b
  {
    var ea, eb := EncodeSquare(a), EncodeSquare(b);
    assert ea[0] == eb[0] && ea[1] == eb[1] && ea[2] == eb[2] && ea[3] == eb[3];
  }

  // ---------------------------------------------------------------- boards

  /** The string `board_to_binary` builds: characters 4i..4i+3 encode square i. */
  function BoardBits(board: Board): (r: string)
    ensures |r| == 4 * |board|
  {
    if board == [] then "" else BoardBits(board[..|board| - 1]) + EncodeSquare(board[|board| - 1])
  }

  /** A board's encoding is made of binary digits only. */
  lemma {:induction false} BoardBitsAreBits(board: Board)
    ensures IsBits(BoardBits(board))
  {
    if board != [] {
      BoardBitsAreBits(board[..|board| - 1]);
      BitsConcat(BoardBits(board[..|board| - 1]), EncodeSquare(board[|board| - 1]));
    }
  }

  lemma BitsConcat(a: string, b: string)
    requires IsBits(a) && IsBits(b)
    ensures IsBits(a + b)
  {
  }

  /** Characters 4i..4i+3 of a board's encoding are the chunk of square i. */
  lemma {:induction false} BoardChunk(board: Board, i: nat)
    requires i < |board|
    ensures BoardBits(board)[4 * i..4 * i + 4] == EncodeSquare(board[i])
    decreases |board|
  {
    var n := |board| - 1;
    var front, last := BoardBits(board[..n]), EncodeSquare(board[n]);
    assert BoardBits(board) == front + last;
    if i < n {
      BoardChunk(board[..n], i);
      assert board[..n][i] == board[i];
      SliceOfFront(front, last, 4 * i, 4 * i + 4);
      assert (front + last)[4 * i..4 * i + 4] == EncodeSquare(board[i]);
    } else {
      assert |front| == 4 * i && |last| == 4;
      SliceOfBack(front, last);
      assert (front + last)[4 * i..4 * i + 4] == last;
    }
  }

  lemma SliceOfFront<T>(a: seq<T>, b: seq<T>, lo: nat, hi: nat)
    requires lo <= hi <= |a|
    ensures (a + b)[lo..hi] == a[lo..hi]
  {
  }

  lemma SliceOfBack<T>(a: seq<T>, b: seq<T>)
    ensures (a + b)[|a|..|a| + |b|] == b
  {
  }

  /** `board_to_binary`: the 64-step loop appending one chunk per square. */
  method BoardToBinary(board: Board) returns (r: string)
    requires |board| == 64
    ensures r == BoardBits(board) && |r| == BoardEncodingLength
  {
    r := "";
    for square := 0 to 64
      invariant r == BoardBits(board[..square])
    {
      assert board[..square + 1][..square] == board[..square];
      r := r + EncodeSquare(board[square]);
    }
    assert board[..64] == board;
  }

  // ---------------------------------------------------------------- moves

  /** What `move_to_binary` asks python-chess about a move: its UCI text, the capture,
      en-passant, promotion and castling facts, the piece type on the destination square
      and the side to move. */
  datatype MoveFacts = MoveFacts(
    uci: string,
    isCapture: bool,
    isEnPassant: bool,
    promotion: Option<PieceType>,
    isCastling: bool,
    capturedType: Option<PieceType>,
    whiteToMove: bool)

  /** A UCI move of a legal move: origin and destination square names (a promotion letter
      may follow). */
  predicate WellFormedUci(u: string) {
    |u| >= 4 && 'a' <= u[0] <= 'h' && '1' <= u[1] <= '8' && 'a' <= u[2] <= 'h' && '1' <= u[3] <= '8'
  }

  function Pow2(k: nat): (p: nat)
    ensures p >= 1
  {
    if k == 0 then 1 else 2 * Pow2(k - 1)
  }

  /** `format(n, '0{width}b')`: the binary digits of n, padded with zeros to `width`. */
  function Bits(n: nat, width: nat): (r: string)
    requires n < Pow2(width)
    ensures |r| == width && IsBits(r) && BitsValue(r) == n
  {
    if width == 0 then ""
    else
      var front := Bits(n / 2, width - 1);
      var r := front + [Bit(n % 2 == 1)];
      assert r[..width - 1] == front;
      r
  }

  /** `format(n, '04b')` for a file or rank index. */
  function Bits4(n: nat): (r: string)
    requires n < 16
    ensures |r| == 4 && IsBits(r) && BitsValue(r) == n
  {
    assert Pow2(4) == 16;
    Bits(n, 4)
  }

  /** `bit_func`. */
  function Bit(b: bool): char {
    if b then '1' else '0'
  }

  function FileIndex(c: char): nat
    requires 'a' <= c <= 'h'
  {
    c as int - 'a' as int
  }

  function RankIndex(c: char): nat
    requires '1' <= c <= '8'
  {
    c as int - '1' as int
  }

  /** `move_to_binary`: origin file, origin rank, destination file and destination rank in
      four bits each, then the capture, en-passant, promotion and castling flags, then the
      captured piece (coloured as the opponent only on a capture) and the promotion piece
      (coloured as the mover only on a promotion). */
  function MoveToBinary(m: MoveFacts): (r: string)
    requires WellFormedUci(m.uci)
    ensures |r| == MoveEncodingLength && IsBits(r)
  {
    var u := m.uci;
    var isPromotion := m.promotion.Some?;
    Bits4(FileIndex(u[0])) + Bits4(RankIndex(u[1])) + Bits4(FileIndex(u[2])) + Bits4(RankIndex(u[3]))
    + [Bit(m.isCapture), Bit(m.isEnPassant), Bit(isPromotion), Bit(m.isCastling)]
    + EncodePiece(m.capturedType, if m.isCapture then Some(!m.whiteToMove) else None)
    + EncodePiece(m.promotion, if isPromotion then Some(m.whiteToMove) else None)
  }

  /** Every field of a move can be read back from its 28 characters. */
  lemma MoveFields(m: MoveFacts)
    requires WellFormedUci(m.uci)
    ensures var r := MoveToBinary(m);
      && BitsValue(r[0..4]) == FileIndex(m.uci[0]) && BitsValue(r[4..8]) == RankIndex(m.uci[1])
      && BitsValue(r[8..12]) == FileIndex(m.uci[2]) && BitsValue(r[12..16]) == RankIndex(m.uci[3])
      && (r[16] == '1' <==> m.isCapture) && (r[17] == '1' <==> m.isEnPassant)
      && (r[18] == '1' <==> m.promotion.Some?) && (r[19] == '1' <==> m.isCastling)
      && (r[20] == '1' <==> m.isCapture && !m.whiteToMove) && r[21..24] == PieceCode(m.capturedType)
      && (r[24] == '1' <==> m.promotion.Some? && m.whiteToMove) && r[25..28] == PieceCode(m.promotion)
  {
    MoveParts(m);
  }

  /** The 28 characters of a move are its four square fields, its four flags, the captured
      piece and the promotion piece, in that order. */
  lemma MoveParts(m: MoveFacts)
    requires WellFormedUci(m.uci)
    ensures var r, u := MoveToBinary(m), m.uci;
      && r[0..4] == Bits4(FileIndex(u[0])) && r[4..8] == Bits4(RankIndex(u[1]))
      && r[8..12] == Bits4(FileIndex(u[2])) && r[12..16] == Bits4(RankIndex(u[3]))
      && r[16..20] == [Bit(m.isCapture), Bit(m.isEnPassant), Bit(m.promotion.Some?), Bit(m.isCastling)]
      && r[20..24] == EncodePiece(m.capturedType, if m.isCapture then Some(!m.whiteToMove) else None)
      && r[24..28] == EncodePiece(m.promotion, if m.promotion.Some? then Some(m.whiteToMove) else None)
  {
    var u := m.uci;
    var a, b := Bits4(FileIndex(u[0])), Bits4(RankIndex(u[1]));
    var c, d := Bits4(FileIndex(u[2])), Bits4(RankIndex(u[3]));
    var flags := [Bit(m.isCapture), Bit(m.isEnPassant), Bit(m.promotion.Some?), Bit(m.isCastling)];
    var cap := EncodePiece(m.capturedType, if m.isCapture then Some(!m.whiteToMove) else None);
    var pro := EncodePiece(m.promotion, if m.promotion.Some? then Some(m.whiteToMove) else None);
    var squares := a + b + c + d;
    var r := MoveToBinary(m);
    assert r == squares + flags + cap + pro;
    FourParts(squares, flags, cap, pro);
    FourParts(a, b, c, d);
    assert r[0..16] == squares;
    assert r[0..4] == squares[0..4] && r[4..8] == squares[4..8];
    assert r[8..12] == squares[8..12] && r[12..16] == squares[12..16];
  }

  /** The four parts of a concatenation sit one after the other. */
  lemma FourParts<T>(w: seq<T>, x: seq<T>, y: seq<T>, z: seq<T>)
    ensures var s := w + x + y + z;
      && s[0..|w|] == w && s[|w|..|w| + |x|] == x
      && s[|w| + |x|..|w| + |x| + |y|] == y && s[|w| + |x| + |y|..|s|] == z
  {
  }

  // ---------------------------------------------------------------- decoding

  /** `piece_lookup.get(piece_bits, '.')`: codes outside the table, "000" among them, and
      strings of another length give '.'. */
  function PieceLetter(code: string): char {
    if code == "001" then 'p'
    else if code == "010" then 'r'
    else if code == "011" then 'n'
    else if code == "100" then 'b'
    else if code == "101" then 'q'
    else if code == "110" then 'k'
    else '.'
  }

  /** The symbol decoded from one non-empty chunk: the letter, upper-cased when the colour
      bit is '1'. */
  function ChunkSymbol(chunk: string): char
    requires |chunk| >= 1
  {
    var c := PieceLetter(chunk[1..]);
    if chunk[0] == '1' then Upper(c) else c
  }

  function Min(a: int, b: int): int {
    if a <= b then a else b
  }

  /** `binary_str[square * 4: square * 4 + 4]`, which Python clips to the string. */
  function Chunk(s: string, square: nat): (c: string)
    ensures |c| <= 4
  {
    s[Min(4 * square, |s|)..Min(4 * square + 4, |s|)]
  }

  /** The 64 decoded symbols of a string long enough for every chunk to be non-empty. */
  function DecodedSquares(s: string): (cells: seq<char>)
    requires |s| > 4 * 63
    ensures |cells| == 64
  {
    seq(64, square requires 0 <= square < 64 => ChunkSymbol(Chunk(s, square)))
  }

  /** `sep.join(parts)`. */
  function Join(sep: char, parts: seq<string>): string {
    if parts == [] then ""
    else if |parts| == 1 then parts[0]
    else parts[0] + [sep] + Join(sep, parts[1..])
  }

  /** The picture `binary_board_to_ascii_board` returns for a grid of 64 symbols: rows
      reversed (rank 8 first), symbols of a row joined by spaces, rows joined by newlines. */
  function Picture(cells: seq<char>): string
    requires |cells| == 64
  {
    Join('\n', Rows(cells))
  }

  /** The lines of a picture, rank 8 first. */
  function Rows(cells: seq<char>): (rows: seq<string>)
    requires |cells| == 64
    ensures |rows| == 8
  {
    seq(8, line requires 0 <= line < 8 => Row(cells, 7 - line))
  }

  /** Joining n parts of width w gives n (w + 1) - 1 characters. */
  lemma {:induction false} JoinLength(sep: char, parts: seq<string>, w: nat)
    requires |parts| > 0 && forall r :: 0 <= r < |parts| ==> |parts[r]| == w
    ensures |Join(sep, parts)| == (w + 1) * |parts| - 1
  {
    if |parts| > 1 {
      JoinLength(sep, parts[1..], w);
    }
  }

  /** Character j of part r sits at (w + 1) r + j, and a separator follows every part but the
      last. */
  lemma {:induction false} JoinAt(sep: char, parts: seq<string>, w: nat, r: nat, j: nat)
    requires forall q :: 0 <= q < |parts| ==> |parts[q]| == w
    requires r < |parts| && j <= w && (j == w ==> r < |parts| - 1)
    ensures (w + 1) * r + j < |Join(sep, parts)|
    ensures Join(sep, parts)[(w + 1) * r + j] == if j < w then parts[r][j] else sep
  {
    JoinLength(sep, parts, w);
    if r > 0 {
      var rest := parts[1..];
      JoinAt(sep, rest, w, r - 1, j);
      assert Join(sep, parts) == parts[0] + [sep] + Join(sep, rest);
      assert (w + 1) * r + j == (w + 1) + ((w + 1) * (r - 1) + j);
    } else if |parts| > 1 {
      assert Join(sep, parts) == parts[0] + [sep] + Join(sep, parts[1..]);
    }
  }

  /** One row of a picture: the eight symbols of rank `rank` separated by spaces. */
  function Row(cells: seq<char>, rank: nat): string
    requires |cells| == 64 && rank < 8
  {
    Join(' ', seq(8, file requires 0 <= file < 8 => [cells[8 * rank + file]]))
  }

  lemma RowAt(cells: seq<char>, rank: nat, c: nat)
    requires |cells| == 64 && rank < 8 && c < 15
    ensures |Row(cells, rank)| == 15
    ensures Row(cells, rank)[c] == if c % 2 == 0 then cells[8 * rank + c / 2] else ' '
  {
    var symbols := seq(8, file requires 0 <= file < 8 => [cells[8 * rank + file]]);
    JoinLength(' ', symbols, 1);
    JoinAt(' ', symbols, 1, c / 2, c % 2);
  }

  /** The layout of a picture: 8 lines of 15 characters; line `line` shows rank 8 - line,
      the symbol of file f at column 2f, single spaces between symbols and newlines between
      lines. */
  lemma PictureAt(cells: seq<char>, line: nat, col: nat)
    requires |cells| == 64 && line < 8 && col < 16 && (col == 15 ==> line < 7)
    ensures |Picture(cells)| == 127
    ensures Picture(cells)[16 * line + col] ==
      if col % 2 == 0 then cells[8 * (7 - line) + col / 2]
      else if col == 15 then '\n' else ' '
  {
    var rows := Rows(cells);
    forall l | 0 <= l < 8 ensures |rows[l]| == 15 {
      RowAt(cells, 7 - l, 0);
    }
    JoinLength('\n', rows, 15);
    JoinAt('\n', rows, 15, line, col);
    if col < 15 {
      RowAt(cells, 7 - line, col);
    }
  }

  /** `binary_board_to_ascii_board`: fills an 8 x 8 grid square by square (row = rank,
      column = file) and draws it; Python raises on the first empty chunk, which happens
      exactly when the string has at most 252 characters. */
  method BinaryBoardToAsciiBoard(s: string) returns (r: Option<string>)
    ensures r.None? <==> |s| <= 4 * 63
    ensures r.Some? ==> r.value == Picture(DecodedSquares(s))
  {
    var grid := new char[8, 8]((_, _) => ' ');
    for square := 0 to 64
      invariant forall k :: 0 <= k < square ==> |s| > 4 * k
      invariant forall k :: 0 <= k < square ==> grid[k / 8, k % 8] == ChunkSymbol(Chunk(s, k))
    {
      var chunk := Chunk(s, square);
      if |chunk| == 0 {
        return None;
      }
      forall k | 0 <= k < square ensures k / 8 != square / 8 || k % 8 != square % 8 {
        CellsDistinct(k, square);
      }
      grid[square / 8, square % 8] := ChunkSymbol(chunk);
    }
    var cells := seq(64, k requires 0 <= k < 64 reads grid => grid[k / 8, k % 8]);
    assert cells == DecodedSquares(s);
    r := Some(Picture(cells));
  }

  /** Distinct squares have distinct (row, column) cells. */
  lemma CellsDistinct(k: nat, j: nat)
    requires k != j
    ensures k / 8 != j / 8 || k % 8 != j % 8
  {
    assert k == 8 * (k / 8) + k % 8 && j == 8 * (j / 8) + j % 8;
  }

  // ---------------------------------------------------------------- the sanity check

  /** The text of python-chess's `str(board)`: the squares from a8 to h1, each symbol
      followed by a space, or by a newline after the h-file (nothing after h1). Character
      2 m is the symbol of the m-th square printed and character 2 m + 1 its separator. */
  function BoardText(board: Board): (t: string)
    requires |board| == 64
    ensures |t| == 127
  {
    seq(127, n requires 0 <= n < 127 =>
      var m := n / 2;
      if n % 2 == 0 then SquareSymbol(board[8 * (7 - m / 8) + m % 8])
      else if m % 8 == 7 then '\n' else ' ')
  }

  /** Character 2 i of the text is the symbol of the i-th square printed (square
      8 (7 - line) + file when i = 8 line + file), and the one after it its separator. */
  lemma BoardTextAt(board: Board, i: nat, line: nat, file: nat)
    requires |board| == 64 && i < 64 && i == 8 * line + file && file < 8
    ensures BoardText(board)[2 * i] == SquareSymbol(board[8 * (7 - line) + file])
    ensures i < 63 ==> BoardText(board)[2 * i + 1] == if file == 7 then '\n' else ' '
  {
    assert (2 * i) / 2 == i && (2 * i) % 2 == 0;
    assert (2 * i + 1) / 2 == i && (2 * i + 1) % 2 == 1;
    DivMod8(i, line, file);
  }

  lemma DivMod8(i: nat, line: nat, file: nat)
    requires i == 8 * line + file && file < 8
    ensures i / 8 == line && i % 8 == file
  {
  }

  /** Decoding a square's chunk gives back what python-chess prints for the square. */
  lemma DecodeSquare(sq: Option<Piece>)
    ensures ChunkSymbol(EncodeSquare(sq)) == SquareSymbol(sq)
  {
    var e := EncodeSquare(sq);
    assert e[1..] == if sq.None? then "000" else PieceCode(Some(sq.value.pieceType));
  }

  /** The symbol decoded from square k of a board's encoding is the square's symbol. */
  lemma DecodeBoardSquare(board: Board, k: nat)
    requires |board| == 64 && k < 64
    ensures DecodedSquares(BoardBits(board))[k] == SquareSymbol(board[k])
  {
    var s := BoardBits(board);
    BoardChunk(board, k);
    assert Chunk(s, k) == s[4 * k..4 * k + 4];
    DecodeSquare(board[k]);
  }

  /** Each character of the picture of a board's symbols is the same character of its
      printed text. */
  lemma PictureMatchesText(board: Board, cells: seq<char>, line: nat, col: nat)
    requires |board| == 64 && |cells| == 64 && line < 8 && col < 16 && (col == 15 ==> line < 7)
    requires forall k :: 0 <= k < 64 ==> cells[k] == SquareSymbol(board[k])
    ensures |Picture(cells)| == 127 && Picture(cells)[16 * line + col] == BoardText(board)[16 * line + col]
  {
    PictureAt(cells, line, col);
    var file := col / 2;
    var k, idx := 8 * line + file, 16 * line + col;
    BoardTextAt(board, k, line, file);
    var p, t := Picture(cells), BoardText(board);
    if col % 2 == 0 {
      assert idx == 2 * k;
      var square := 8 * (7 - line) + file;
      assert p[idx] == cells[square] && t[idx] == SquareSymbol(board[square]);
    } else {
      assert col == 2 * file + 1 && idx == 2 * k + 1;
      if col == 15 {
        assert p[idx] == '\n' == t[idx];
      } else {
        assert file < 7 && k < 63;
        assert p[idx] == ' ' == t[idx];
      }
    }
  }

  /** Decoding the encoding of a board gives back, square by square, the symbols
      python-chess prints. */
  lemma DecodeEncodedBoard(board: Board)
    requires |board| == 64
    ensures DecodedSquares(BoardBits(board)) == seq(64, k requires 0 <= k < 64 => SquareSymbol(board[k]))
  {
    var cells := DecodedSquares(BoardBits(board));
    forall k | 0 <= k < 64 ensures cells[k] == SquareSymbol(board[k]) {
      DecodeBoardSquare(board, k);
    }
  }

  /** The picture of a board's symbols is python-chess's text of the board. */
  lemma PictureOfSymbols(board: Board, cells: seq<char>)
    requires |board| == 64 && |cells| == 64
    requires forall k :: 0 <= k < 64 ==> cells[k] == SquareSymbol(board[k])
    ensures Picture(cells) == BoardText(board)
  {
    PictureAt(cells, 0, 0);
    forall i | 0 <= i < 127 ensures Picture(cells)[i] == BoardText(board)[i] {
      var line, col := i / 16, i % 16;
      assert i == 16 * line + col;
      PictureMatchesText(board, cells, line, col);
    }
  }

  /** Decoding the encoding of a board draws exactly what python-chess prints for it (the
      comparison `_bot_move` makes after every move). */
  lemma EncodedBoardPicture(board: Board)
    requires |board| == 64
    ensures Picture(DecodedSquares(BoardBits(board))) == BoardText(board)
  {
    var cells := DecodedSquares(BoardBits(board));
    DecodeEncodedBoard(board);
    PictureOfSymbols(board, cells);
  }
}
