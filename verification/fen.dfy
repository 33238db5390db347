/**
 * The browser's reading of a FEN string (web/static/game.js): the piece
 * placement field turned into an 8x8 board with rank 8 in row 0, the piece
 * on a named square, and the promotion letter added to a pawn move that
 * reaches the last rank.
 *
 * The placement field is the one of section 16.1.3.1 of the PGN standard
 * (the FEN description): eight ranks from rank 8 down to rank 1, separated
 * by '/', each naming its squares from file a to file h with a piece letter
 * or a digit 1-8 counting empty squares. The browser reads it leniently:
 * any character other than a digit 1-8 is taken as a piece.
 *
 * Strings are sequences of Unicode characters. A JavaScript string is a
 * sequence of UTF-16 units; the two readings differ only on characters
 * above U+FFFF. The placement reader walks characters, as `for ... of`
 * does, and splits on '/', which both readings find at the same places;
 * the square lookup writes the surrogate case out
 * (GetPieceAtSquareFromFen). Slice counts characters where `slice` counts
 * UTF-16 units: the two agree on the move strings the board builds from
 * clicked square names, which are ASCII, and the model does not follow
 * them apart on other input.
 */
module Fen {
  import opened Types
  import opened Squares
  import opened Search
  import opened Session

  /** A board cell: `null`, or the one-character string found in the placement. */
  type Cell = Option<char>

  /** The board of `fenToBoardArray`: row 0 is rank 8, column 0 is file a. */
  type Grid = seq<seq<Cell>>

  predicate IsGrid(g: Grid) {
    |g| == 8 && forall r :: 0 <= r < 8 ==> |g[r]| == 8
  }

  function EmptyRow(): (row: seq<Cell>)
    ensures |row| == 8 && forall f :: 0 <= f < 8 ==> row[f].None?
  {
    seq(8, _ => None)
  }

  function EmptyGrid(): (g: Grid)
    ensures IsGrid(g) && forall r :: 0 <= r < 8 ==> g[r] == EmptyRow()
  {
    seq(8, _ => EmptyRow())
  }

  // ---------------------------------------------------------------------------
  // The string operations fenToBoardArray uses

  /** `fen.split(" ")[0]`: the text before the first space, or all of it when there is none. */
  function Placement(fen: string): (p: string)
    ensures ' ' !in p && p <= fen
    ensures |p| < |fen| ==> fen[|p|] == ' '
  {
    if |fen| == 0 || fen[0] == ' ' then "" else [fen[0]] + Placement(fen[1..])
  }

  /**
   * `s.split(sep)` for a one-character separator: the pieces between the
   * separators, an empty piece wherever two separators meet or one starts
   * or ends the string, and one empty piece for the empty string.
   */
  function Split(s: string, sep: char): (parts: seq<string>)
    ensures |parts| >= 1
    ensures forall i :: 0 <= i < |parts| ==> sep !in parts[i]
    ensures forall i :: 0 <= i < |parts| ==> forall c :: c in parts[i] ==> c in s
  {
    if |s| == 0 then [""]
    else
      var rest := Split(s[1..], sep);
      if s[0] == sep then [""] + rest else [[s[0]] + rest[0]] + rest[1..]
  }

  /** `parts.join(sep)`. */
  function Join(parts: seq<string>, sep: char): string
    requires |parts| >= 1
  {
    if |parts| == 1 then parts[0] else parts[0] + [sep] + Join(parts[1..], sep)
  }

  /** Joining the pieces back with the separator gives the string that was split. */
  lemma {:induction false} JoinSplit(s: string, sep: char)
    ensures Join(Split(s, sep), sep) == s
  {
    if |s| > 0 {
      JoinSplit(s[1..], sep);
      var rest := Split(s[1..], sep);
      assert s == [s[0]] + s[1..];
      if s[0] == sep {
        assert ([""] + rest)[1..] == rest;
      } else {
        JoinConsHead(s[0], rest, sep);
      }
    }
  }

  /** Adding a character in front of the first piece adds it in front of the joined text. */
  lemma JoinConsHead(c: char, rest: seq<string>, sep: char)
    requires |rest| >= 1
    ensures Join([[c] + rest[0]] + rest[1..], sep) == [c] + Join(rest, sep)
  {
    var parts := [[c] + rest[0]] + rest[1..];
    if |rest| > 1 {
      assert parts[1..] == rest[1..];
    }
  }

  /** A string without the separator splits into itself alone. */
  lemma {:induction false} SplitNoSep(w: string, sep: char)
    requires sep !in w
    ensures Split(w, sep) == [w]
  {
    if |w| > 0 {
      SplitNoSep(w[1..], sep);
      assert [w[0]] + w[1..] == w;
    }
  }

  /** Splitting at a separator that follows a separator-free piece `w` yields `w` first. */
  lemma {:induction false} SplitAfter(w: string, sep: char, rest: string)
    requires sep !in w
    ensures Split(w + [sep] + rest, sep) == [w] + Split(rest, sep)
  {
    if |w| == 0 {
      assert w + [sep] + rest == [sep] + rest;
      assert ([sep] + rest)[1..] == rest;
    } else {
      SplitAfter(w[1..], sep, rest);
      var s := w + [sep] + rest;
      assert s[0] == w[0] && s[1..] == w[1..] + [sep] + rest;
      assert [w[0]] + w[1..] == w;
    }
  }

  /** Pieces that do not hold the separator come back from splitting their join. */
  lemma {:induction false} SplitJoin(parts: seq<string>, sep: char)
    requires |parts| >= 1 && forall i :: 0 <= i < |parts| ==> sep !in parts[i]
    ensures Split(Join(parts, sep), sep) == parts
  {
    if |parts| == 1 {
      SplitNoSep(parts[0], sep);
    } else {
      SplitJoin(parts[1..], sep);
      SplitAfter(parts[0], sep, Join(parts[1..], sep));
      assert [parts[0]] + parts[1..] == parts;
    }
  }

  /** Every character of a join is the separator or a character of one of the pieces. */
  lemma {:induction false} JoinChars(parts: seq<string>, sep: char, c: char)
    requires |parts| >= 1 && c in Join(parts, sep) && c != sep
    ensures exists i :: 0 <= i < |parts| && c in parts[i]
  {
    if |parts| > 1 {
      if c !in parts[0] {
        JoinChars(parts[1..], sep, c);
        var i :| 0 <= i < |parts| - 1 && c in parts[1..][i];
        assert c in parts[i + 1];
      }
    }
  }

  /** Text without a space is its own placement field. */
  lemma PlacementOfPlain(p: string)
    requires ' ' !in p
    ensures Placement(p) == p
  {
  }

  /** The placement field ends at the first space, whatever follows it. */
  lemma PlacementStopsAtSpace(p: string, rest: string)
    requires ' ' !in p
    ensures Placement(p + [' '] + rest) == p
  {
    assert (p + [' '] + rest)[|p|] == ' ';
  }

  // ---------------------------------------------------------------------------
  // fenToBoardArray

  /** The characters the board keeps as pieces: anything but a digit 1-8 (and no separator). */
  predicate PieceChar(c: char) {
    !('1' <= c <= '8') && c != '/' && c != ' '
  }

  /** Every occupied cell of the row holds a character the placement can name as a piece. */
  predicate WellRow(row: seq<Cell>) {
    forall f :: 0 <= f < |row| && row[f].Some? ==> PieceChar(row[f].value)
  }

  predicate WellGrid(g: Grid) {
    IsGrid(g) && forall r :: 0 <= r < 8 ==> WellRow(g[r])
  }

  /**
   * The inner loop of `fenToBoardArray` (game.js:34-42) over the rest of a
   * rank, with file counter `f` and the row filled so far: a digit 1-8
   * advances the counter by its value, any other character is placed at
   * the counter and advances it by one, unless the counter is already past
   * file h; at the end of the rank the counter must be exactly 8.
   */
  function ParseRank(text: string, f: int, row: seq<Cell>): (r: Option<seq<Cell>>)
    requires |row| == 8
    ensures r.Some? ==> |r.value| == 8
    decreases |text|
  {
    if |text| == 0 then (if f == 8 then Some(row) else None)
    else if '1' <= text[0] <= '8' then ParseRank(text[1..], f + (text[0] as int - '0' as int), row)
    else if f < 0 || f > 7 then None
    else ParseRank(text[1..], f + 1, row[f := Some(text[0])])
  }

  /** The outer loop (game.js:32-44): ranks `r`..7 into the board `g`, each filling its own row. */
  function ParseRanks(ranks: seq<string>, r: nat, g: Grid): (res: Option<Grid>)
    requires |ranks| == 8 && r <= 8 && IsGrid(g)
    ensures res.Some? ==> IsGrid(res.value)
    decreases 8 - r
  {
    if r == 8 then Some(g)
    else match ParseRank(ranks[r], 0, g[r])
      case None => None
      case Some(row) => ParseRanks(ranks, r + 1, g[r := row])
  }

  /** What `fenToBoardArray` (game.js:26-47) returns: the board, or `None` for `null`. */
  function FenBoard(fen: string): Option<Grid> {
    var ranks := Split(Placement(fen), '/');
    if |ranks| != 8 then None else ParseRanks(ranks, 0, EmptyGrid())
  }

  /** The cells of a two-dimensional array, row by row. */
  function Cells(b: array2<Cell>): (g: Grid)
    reads b
    ensures |g| == b.Length0
    ensures forall r :: 0 <= r < b.Length0 ==> |g[r]| == b.Length1
    ensures forall r, f :: 0 <= r < b.Length0 && 0 <= f < b.Length1 ==> g[r][f] == b[r, f]
  {
    seq(b.Length0, r requires 0 <= r < b.Length0 reads b =>
      seq(b.Length1, f requires 0 <= f < b.Length1 reads b => b[r, f]))
  }

  /**
   * `fenToBoardArray(fen)` (game.js:26-47): a fresh 8x8 array filled rank by
   * rank, or `null` when the placement field is not eight well-formed ranks.
   */
  method FenToBoardArray(fen: string) returns (board: array2?<Cell>)
    ensures board == null <==> FenBoard(fen).None?
    ensures board != null ==>
              fresh(board) && board.Length0 == 8 && board.Length1 == 8 && FenBoard(fen) == Some(Cells(board))
  {
    var placement := Placement(fen);
    var ranks := Split(placement, '/');
    if |ranks| != 8 {
      return null;
    }
    var b := new Cell[8, 8]((_, _) => None);
    assert forall rr :: 0 <= rr < 8 ==> Cells(b)[rr] == EmptyRow();
    assert Cells(b) == EmptyGrid();
    var r := 0;
    while r < 8
      invariant 0 <= r <= 8
      invariant ParseRanks(ranks, r, Cells(b)) == ParseRanks(ranks, 0, EmptyGrid())
    {
      ghost var before := Cells(b);
      ghost var row := ParseRank(ranks[r], 0, before[r]);
      var ok := FillRank(b, r, ranks[r]);
      if !ok {
        assert ParseRanks(ranks, r, before) == None;
        return null;
      }
      forall rr | 0 <= rr < 8 && rr != r
        ensures Cells(b)[rr] == before[rr]
      {
        assert forall ff :: 0 <= ff < 8 ==> Cells(b)[rr][ff] == before[rr][ff];
      }
      assert Cells(b) == before[r := row.value];
      assert ParseRanks(ranks, r, before) == ParseRanks(ranks, r + 1, Cells(b));
      r := r + 1;
    }
    return b;
  }

  /**
   * One pass of the inner loop of `fenToBoardArray` (game.js:34-43): rank
   * `text` is written into row `r` of the board, which changes nothing
   * else; `ok` is false where the source returns `null`.
   */
  method FillRank(b: array2<Cell>, r: int, text: string) returns (ok: bool)
    requires b.Length0 == 8 && b.Length1 == 8 && 0 <= r < 8
    modifies b
    ensures forall rr, ff :: 0 <= rr < 8 && rr != r && 0 <= ff < 8 ==> b[rr, ff] == old(b[rr, ff])
    ensures ok <==> ParseRank(text, 0, old(Cells(b))[r]).Some?
    ensures ok ==> Cells(b)[r] == ParseRank(text, 0, old(Cells(b))[r]).value
  {
    ghost var before := Cells(b);
    var f := 0;
    var i := 0;
    while i < |text|
      invariant 0 <= i <= |text|
      invariant forall rr, ff :: 0 <= rr < 8 && rr != r && 0 <= ff < 8 ==> b[rr, ff] == before[rr][ff]
      invariant ParseRank(text[i..], f, Cells(b)[r]) == ParseRank(text, 0, before[r])
    {
      var ch := text[i];
      assert text[i..][0] == ch && text[i..][1..] == text[i + 1..];
      if '1' <= ch <= '8' {
        f := f + (ch as int - '0' as int);
      } else {
        if f < 0 || f > 7 {
          return false;
        }
        ghost var row := Cells(b)[r];
        b[r, f] := Some(ch);
        assert Cells(b)[r] == row[f := Some(ch)];
        f := f + 1;
      }
      i := i + 1;
    }
    assert text[i..] == [];
    ok := f == 8;
  }

  // ---------------------------------------------------------------------------
  // What the board holds

  /** Only the placement field counts: the board of a FEN is the board of the text before its first space. */
  lemma FenOnlyPlacement(fen: string, p: string, rest: string)
    ensures FenBoard(fen) == FenBoard(Placement(fen))
    ensures ' ' !in p ==> FenBoard(p + [' '] + rest) == FenBoard(p)
  {
    PlacementOfPlain(Placement(fen));
    if ' ' !in p {
      PlacementStopsAtSpace(p, rest);
      PlacementOfPlain(p);
    }
  }

  /** A rank keeps its row well formed: only characters of the rank text, never a digit 1-8, are placed. */
  lemma {:induction false} ParseRankCells(text: string, f: int, row: seq<Cell>)
    requires |row| == 8 && WellRow(row) && '/' !in text && ' ' !in text
    ensures ParseRank(text, f, row).Some? ==> WellRow(ParseRank(text, f, row).value)
    decreases |text|
  {
    if |text| > 0 {
      assert text[0] in text;
      assert forall c :: c in text[1..] ==> c in text;
      if '1' <= text[0] <= '8' {
        ParseRankCells(text[1..], f + (text[0] as int - '0' as int), row);
      } else if 0 <= f <= 7 {
        ParseRankCells(text[1..], f + 1, row[f := Some(text[0])]);
      }
    }
  }

  lemma {:induction false} ParseRanksCells(ranks: seq<string>, r: nat, g: Grid)
    requires |ranks| == 8 && r <= 8 && WellGrid(g)
    requires forall i :: 0 <= i < 8 ==> '/' !in ranks[i] && ' ' !in ranks[i]
    ensures ParseRanks(ranks, r, g).Some? ==> WellGrid(ParseRanks(ranks, r, g).value)
    decreases 8 - r
  {
    if r < 8 {
      ParseRankCells(ranks[r], 0, g[r]);
      var row := ParseRank(ranks[r], 0, g[r]);
      if row.Some? {
        ParseRanksCells(ranks, r + 1, g[r := row.value]);
      }
    }
  }

  /**
   * A board `fenToBoardArray` returns is 8x8, and each cell is empty or
   * holds one character that is neither a digit 1-8, '/' nor a space.
   */
  lemma FenBoardShape(fen: string)
    ensures FenBoard(fen).Some? ==> WellGrid(FenBoard(fen).value)
  {
    var ranks := Split(Placement(fen), '/');
    if |ranks| == 8 {
      ParseRanksCells(ranks, 0, EmptyGrid());
    }
  }

  // ---------------------------------------------------------------------------
  // Writing a placement field

  /** The digit for `n` empty squares. */
  function Digit(n: int): (c: char)
    requires 1 <= n <= 8
    ensures '1' <= c <= '8' && c as int - '0' as int == n
  {
    ('0' as int + n) as char
  }

  /** The digit for a pending run of `run` empty squares, or nothing when there is none. */
  function Flush(run: nat): string
    requires run <= 8
  {
    if run == 0 then "" else [Digit(run)]
  }

  /**
   * The placement text of the cells `cells` that follow `run` empty squares:
   * each piece as its character, each maximal run of empty squares as one
   * digit (section 16.1.3.1 of the PGN standard).
   */
  function RunText(cells: seq<Cell>, run: nat): string
    requires run + |cells| <= 8
    decreases |cells|
  {
    if |cells| == 0 then Flush(run)
    else if cells[0].None? then RunText(cells[1..], run + 1)
    else Flush(run) + [cells[0].value] + RunText(cells[1..], 0)
  }

  /** The placement field of a board: its ranks from row 0 (rank 8) on, joined by '/'. */
  function BoardText(g: Grid): string
    requires IsGrid(g)
  {
    Join(seq(8, r requires 0 <= r < 8 => RunText(g[r], 0)), '/')
  }

  /** A rank's text holds only digits and the row's pieces. */
  lemma {:induction false} RunTextChars(cells: seq<Cell>, run: nat)
    requires run + |cells| <= 8 && WellRow(cells)
    ensures '/' !in RunText(cells, run) && ' ' !in RunText(cells, run)
    decreases |cells|
  {
    if |cells| > 0 {
      RunTextChars(cells[1..], if cells[0].None? then run + 1 else 0);
    }
  }

  /** Reading a run digit advances the file counter by the run. */
  lemma FlushParse(run: nat, rest: string, f: int, row: seq<Cell>)
    requires run <= 8 && |row| == 8
    ensures ParseRank(Flush(run) + rest, f, row) == ParseRank(rest, f + run, row)
  {
    if run == 0 {
      assert Flush(run) + rest == rest;
    } else {
      var t := Flush(run) + rest;
      assert t[0] == Digit(run) && t[1..] == rest;
    }
  }

  /**
   * Reading back the text of the cells from file `f + run` on, with the
   * files before `f` already filled as in `b` and `run` empty squares
   * pending, rebuilds the row `b`.
   */
  lemma {:induction false} ParseRunText(b: seq<Cell>, f: nat, run: nat, row: seq<Cell>)
    requires |b| == 8 && |row| == 8 && f + run <= 8 && WellRow(b)
    requires forall k :: 0 <= k < f ==> row[k] == b[k]
    requires forall k :: f <= k < 8 ==> row[k].None?
    requires forall k :: f <= k < f + run ==> b[k].None?
    ensures ParseRank(RunText(b[f + run..], run), f, row) == Some(b)
    decreases 8 - f - run
  {
    var cells := b[f + run..];
    if |cells| == 0 {
      FlushParse(run, "", f, row);
      assert Flush(run) + "" == Flush(run);
      assert row == b;
    } else if cells[0].None? {
      assert cells[1..] == b[f + run + 1..];
      ParseRunText(b, f, run + 1, row);
    } else {
      var c := cells[0].value;
      var rest := RunText(cells[1..], 0);
      assert cells[1..] == b[f + run + 1..];
      assert RunText(cells, run) == Flush(run) + ([c] + rest);
      FlushParse(run, [c] + rest, f, row);
      assert ([c] + rest)[0] == c && ([c] + rest)[1..] == rest;
      assert PieceChar(c);
      var row' := row[f + run := Some(c)];
      assert ParseRank([c] + rest, f + run, row) == ParseRank(rest, f + run + 1, row');
      ParseRunText(b, f + run + 1, 0, row');
    }
  }

  /** Reading ranks `r`..7 of a board's text into a board that already holds its ranks before `r` gives the board. */
  lemma {:induction false} ParseRanksText(b: Grid, r: nat, g: Grid)
    requires WellGrid(b) && IsGrid(g) && r <= 8
    requires forall i :: 0 <= i < r ==> g[i] == b[i]
    requires forall i :: r <= i < 8 ==> g[i] == EmptyRow()
    ensures ParseRanks(seq(8, i requires 0 <= i < 8 => RunText(b[i], 0)), r, g) == Some(b)
    decreases 8 - r
  {
    var ranks := seq(8, i requires 0 <= i < 8 => RunText(b[i], 0));
    if r == 8 {
      assert g == b;
    } else {
      assert b[r][0..] == b[r];
      ParseRunText(b[r], 0, 0, EmptyRow());
      ParseRanksText(b, r + 1, g[r := b[r]]);
    }
  }

  /**
   * Writing a board as a placement field and reading it back with
   * `fenToBoardArray` gives the board, for every 8x8 board whose pieces are
   * characters the reader keeps as pieces. With FenBoardShape, these are
   * exactly the boards `fenToBoardArray` can return.
   */
  lemma FenRoundTrip(b: Grid)
    requires WellGrid(b)
    ensures FenBoard(BoardText(b)) == Some(b)
  {
    var ranks := seq(8, i requires 0 <= i < 8 => RunText(b[i], 0));
    forall i | 0 <= i < 8
      ensures '/' !in ranks[i] && ' ' !in ranks[i]
    {
      RunTextChars(b[i], 0);
    }
    var t := BoardText(b);
    if ' ' in t {
      JoinChars(ranks, '/', ' ');
    }
    PlacementOfPlain(t);
    SplitJoin(ranks, '/');
    ParseRanksText(b, 0, EmptyGrid());
  }

  // ---------------------------------------------------------------------------
  // getPieceAtSquareFromFen

  /** What `getPieceAtSquareFromFen` gives back, or the TypeError it raises. */
  datatype Lookup = Null | Undefined | Letter(c: char) | TypeError

  /**
   * `getPieceAtSquareFromFen(fen, square)` (game.js:59-70): `null` for a FEN
   * `fenToBoardArray` refuses; otherwise row 7 - (square[1] - '1') and
   * column square[0] - 'a' of the board. A row outside 0..7 is `undefined`,
   * and indexing it raises a TypeError; so does a square shorter than two
   * units, whose missing unit reads as NaN. A first character above U+FFFF
   * is two UTF-16 units, so the rank is read from a low surrogate and the
   * row is negative. A column outside 0..7 is `undefined`.
   */
  function GetPieceAtSquareFromFen(fen: string, square: string): Lookup {
    match FenBoard(fen)
    case None => Null
    case Some(b) =>
      if |square| < 2 || square[0] as int > 0xFFFF then TypeError
      else
        var file := square[0] as int - 'a' as int;
        var rank := square[1] as int - '1' as int;
        var r := 7 - rank;
        if r < 0 || r > 7 then TypeError
        else if file < 0 || file > 7 then Undefined
        else match b[r][file]
          case None => Null
          case Some(c) => Letter(c)
  }

  /**
   * On a FEN the reader accepts, the piece on a square name that
   * `parseSquare` accepts is the board cell of its rank (rank 8 in row 0)
   * and its file; a FEN it refuses gives `null` for every square.
   */
  lemma LookupSquare(fen: string, square: string)
    ensures FenBoard(fen).None? ==> GetPieceAtSquareFromFen(fen, square) == Null
    ensures FenBoard(fen).Some? && ParseSquare(square) != -1 ==>
              var sq := ParseSquare(square);
              var cell := FenBoard(fen).value[7 - RankOf(sq)][FileOf(sq)];
              GetPieceAtSquareFromFen(fen, square) == (if cell.None? then Null else Letter(cell.value))
  {
    ParseSquareAccepts(square);
    FenBoardShape(fen);
  }

  /**
   * On a FEN the reader accepts, the lookup raises exactly when the square
   * is shorter than two characters, starts above U+FFFF, or has no rank
   * digit 1-8 second; it is `undefined` exactly when the rank is a digit
   * and the file is not a-h.
   */
  lemma LookupErrors(fen: string, square: string)
    requires FenBoard(fen).Some?
    ensures GetPieceAtSquareFromFen(fen, square) == TypeError <==>
              |square| < 2 || square[0] as int > 0xFFFF || !('1' <= square[1] <= '8')
    ensures GetPieceAtSquareFromFen(fen, square) == Undefined <==>
              |square| >= 2 && square[0] as int <= 0xFFFF && '1' <= square[1] <= '8' && !('a' <= square[0] <= 'h')
  {
    FenBoardShape(fen);
  }

  // ---------------------------------------------------------------------------
  // maybeAddPromotion

  /** What `maybeAddPromotion` returns, or the TypeError it lets through from the lookup. */
  datatype PromotionResult = Sent(text: string) | Thrown

  /** `s.slice(a, b)` for 0 <= a <= b: the characters from a to b, clamped to the string. */
  function Slice(s: string, a: nat, b: nat): (t: string)
    requires a <= b
    ensures |t| == (if b <= |s| then b - a else if a <= |s| then |s| - a else 0)
    ensures forall k :: 0 <= k < |t| ==> t[k] == s[a + k]
  {
    if a >= |s| then "" else if b >= |s| then s[a..] else s[a..b]
  }

  /** The characters `String.prototype.trim` removes: JavaScript white space and line terminators. */
  predicate IsJsSpace(c: char) {
    c in {'\t', '\n', '\U{000B}', '\U{000C}', '\r', ' ', '\U{00A0}', '\U{1680}', '\U{2028}', '\U{2029}',
          '\U{202F}', '\U{205F}', '\U{3000}', '\U{FEFF}'}
    || '\U{2000}' <= c <= '\U{200A}'
  }

  /** The string without its leading white space. */
  function TrimStart(s: string): (t: string)
    ensures |t| <= |s| && t == s[|s| - |t|..]
    ensures forall k :: 0 <= k < |s| - |t| ==> IsJsSpace(s[k])
    ensures |t| > 0 ==> !IsJsSpace(t[0])
  {
    if |s| > 0 && IsJsSpace(s[0]) then TrimStart(s[1..]) else s
  }

  /** The string without its trailing white space. */
  function TrimEnd(s: string): (t: string)
    ensures |t| <= |s| && t == s[..|t|]
    ensures forall k :: |t| <= k < |s| ==> IsJsSpace(s[k])
    ensures |t| > 0 ==> !IsJsSpace(t[|t| - 1])
  {
    if |s| > 0 && IsJsSpace(s[|s| - 1]) then TrimEnd(s[..|s| - 1]) else s
  }

  /** `s.trim()`. */
  function Trim(s: string): string {
    TrimEnd(TrimStart(s))
  }

  /** `s.toLowerCase()` on the letters A-Z. */
  function LowerString(s: string): (t: string)
    ensures |t| == |s| && forall k :: 0 <= k < |s| ==> t[k] == LowerAscii(s[k])
  {
    if |s| == 0 then "" else [LowerAscii(s[0])] + LowerString(s[1..])
  }

  /**
   * The letter game.js:85-87 settles on for the prompt's answer (`None` when
   * the prompt was cancelled): the answer trimmed and lower-cased when that
   * is q, r, b or n, and "q" otherwise, an empty answer included.
   */
  function Chosen(answer: Option<string>): (r: string)
    ensures |r| == 1 && r[0] in "qrbn"
  {
    var p := LowerString(Trim(if answer.None? || answer.value == "" then "q" else answer.value));
    if p == "q" || p == "r" || p == "b" || p == "n" then p else "q"
  }

  /**
   * The letter chosen is always one of q, r, b, n: the answer's own letter,
   * in either case and with white space around it, when it is one, and q
   * when the prompt was cancelled or answered with anything else.
   */
  lemma ChosenLetter(answer: Option<string>)
    ensures answer.Some? && |Trim(answer.value)| == 1 && LowerAscii(Trim(answer.value)[0]) in "qrbn" ==>
              Chosen(answer) == [LowerAscii(Trim(answer.value)[0])]
    ensures answer.Some? && LowerString(Trim(answer.value)) !in ["q", "r", "b", "n"] ==> Chosen(answer) == "q"
    ensures answer.None? ==> Chosen(answer) == "q"
  {
    if answer.None? || answer.value == "" {
      ChosenDefault(answer);
    } else {
      var t := Trim(answer.value);
      ChosenOfAnswer(answer.value);
      if |t| == 1 {
        LowerSingle(t);
      }
    }
  }

  /** A cancelled or empty answer gives "q", and an empty answer trims to nothing. */
  lemma ChosenDefault(answer: Option<string>)
    requires answer.None? || answer.value == ""
    ensures Chosen(answer) == "q"
    ensures answer.Some? ==> LowerString(Trim(answer.value)) == ""
  {
    assert Trim("q") == "q";
    assert LowerString("q") == "q";
  }

  /** A non-empty answer is read through `trim` and `toLowerCase`. */
  lemma ChosenOfAnswer(v: string)
    requires v != ""
    ensures var p := LowerString(Trim(v));
            Chosen(Some(v)) == if p == "q" || p == "r" || p == "b" || p == "n" then p else "q"
  {
  }

  lemma LowerSingle(t: string)
    requires |t| == 1
    ensures LowerString(t) == [LowerAscii(t[0])]
  {
  }

  /**
   * `maybeAddPromotion(moveStr, fen)` (game.js:72-89) with `answer`
   * standing for what `prompt` returns: when the piece on the first two
   * characters is a white pawn going to rank 8 or a black pawn going to
   * rank 1, the chosen letter is appended; otherwise the move goes as it is.
   */
  function MaybeAddPromotion(moveStr: string, fen: string, answer: Option<string>): PromotionResult {
    AddPromotion(moveStr, GetPieceAtSquareFromFen(fen, Slice(moveStr, 0, 2)), answer)
  }

  /** game.js:76-88 once the piece on the from-square has been looked up. */
  function AddPromotion(moveStr: string, piece: Lookup, answer: Option<string>): PromotionResult {
    var toSq := Slice(moveStr, 2, 4);
    if piece.TypeError? then Thrown
    else if !piece.Letter? then Sent(moveStr)
    else if piece.c != 'P' && piece.c != 'p' then Sent(moveStr)
    else
      var toRank: Option<char> := if |toSq| >= 2 then Some(toSq[1]) else None;
      if !((piece.c == 'P' && toRank == Some('8')) || (piece.c == 'p' && toRank == Some('1'))) then Sent(moveStr)
      else Sent(moveStr + Chosen(answer))
  }

  /** The pawn moves to its last rank: a white pawn on the from-square and rank 8 as the fourth character, or black and rank 1. */
  predicate PawnReachesLastRank(moveStr: string, fen: string) {
    LastRankFor(moveStr, GetPieceAtSquareFromFen(fen, Slice(moveStr, 0, 2)))
  }

  /** `piece` is a white pawn and rank 8 is the fourth character, or a black pawn and rank 1. */
  predicate LastRankFor(moveStr: string, piece: Lookup) {
    |moveStr| >= 4
    && ((piece == Letter('P') && moveStr[3] == '8') || (piece == Letter('p') && moveStr[3] == '1'))
  }

  /** What `AddPromotion` sends, for whatever the lookup found. */
  lemma AddPromotionSuffix(moveStr: string, piece: Lookup, answer: Option<string>)
    ensures AddPromotion(moveStr, piece, answer) == Thrown <==> piece == TypeError
    ensures AddPromotion(moveStr, piece, answer) != Thrown ==>
              AddPromotion(moveStr, piece, answer).text ==
                (if LastRankFor(moveStr, piece) then moveStr + Chosen(answer) else moveStr)
  {
    var toSq := Slice(moveStr, 2, 4);
    assert |toSq| >= 2 <==> |moveStr| >= 4;
    if |moveStr| >= 4 {
      assert toSq[1] == moveStr[3];
    }
  }

  /**
   * `maybeAddPromotion` sends the move unchanged, or with exactly one of
   * q, r, b, n added, and it adds one exactly when a pawn reaches its last
   * rank; the lookup's TypeError is the only way it raises.
   */
  lemma PromotionSuffix(moveStr: string, fen: string, answer: Option<string>)
    ensures MaybeAddPromotion(moveStr, fen, answer) == Thrown <==>
              GetPieceAtSquareFromFen(fen, Slice(moveStr, 0, 2)) == TypeError
    ensures MaybeAddPromotion(moveStr, fen, answer) != Thrown ==>
              MaybeAddPromotion(moveStr, fen, answer).text ==
                (if PawnReachesLastRank(moveStr, fen) then moveStr + Chosen(answer) else moveStr)
    ensures PawnReachesLastRank(moveStr, fen) ==> |Chosen(answer)| == 1 && Chosen(answer)[0] in "qrbn"
  {
    ChosenLetter(answer);
    AddPromotionSuffix(moveStr, GetPieceAtSquareFromFen(fen, Slice(moveStr, 0, 2)), answer);
  }

  /**
   * The letter added is one `applyHumanMove` reads as the promotion piece:
   * after a four-character move it is the fifth character, and it names a
   * queen, rook, bishop or knight of the side to move.
   */
  lemma PromotionIsRead(moveStr: string, fen: string, answer: Option<string>, side: Color)
    requires |moveStr| == 4 && PawnReachesLastRank(moveStr, fen)
    ensures MaybeAddPromotion(moveStr, fen, answer) == Sent(moveStr + Chosen(answer))
    ensures PromotionOf(moveStr + Chosen(answer), side) == PromotionFromChar(Chosen(answer)[0], side) != EMPTY
  {
    PromotionSuffix(moveStr, fen, answer);
    var c := Chosen(answer);
    assert (moveStr + c)[4] == c[0];
    assert c[0] in "qrbnQRBN";
    PromotionLetters(c[0], side);
  }
}
